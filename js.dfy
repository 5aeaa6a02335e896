/** The JavaScript values the handlers and the browser code receive, and the
    language's own coercions that the source relies on: truthiness,
    `String(v)`, `Number(v)` / `isNaN(v)`, `String.prototype.trim` and `===`.

    Numbers are the integral ones: every number the source handles is an
    identifier, a row count or a parsed integer. */
module Js {
  import opened Wrappers

  datatype JsValue =
    | Undefined
    | Null
    | Bool(b: bool)
    | Num(n: int)
    | Str(s: string)
    | Arr(items: seq<JsValue>)
    | Obj(fields: map<string, JsValue>)

  /** What `if (v)` accepts. */
  predicate Truthy(v: JsValue)
  {
    match v
    case Undefined => false
    case Null => false
    case Bool(b) => b
    case Num(n) => n != 0
    case Str(s) => s != ""
    case Arr(_) => true
    case Obj(_) => true
  }

  predicate IsPrimitive(v: JsValue)
  {
    !v.Arr? && !v.Obj?
  }

  /** `a === b`. Arrays and objects compare by reference; every array or
      object in the model is a separately parsed JSON value, so two of them
      are never the same reference. */
  predicate StrictEquals(a: JsValue, b: JsValue)
  {
    IsPrimitive(a) && a == b
  }

  /** `a && b`: the first operand when it is falsy, the second otherwise. */
  function And(a: JsValue, b: JsValue): (r: JsValue)
    ensures Truthy(r) <==> Truthy(a) && Truthy(b)
  {
    if Truthy(a) then b else a
  }

  /** `a, b`: the comma operator evaluates both operands and yields the second. */
  function Comma(a: JsValue, b: JsValue): JsValue
  {
    b
  }

  /** How a call ends: with a value, or with an exception thrown to its
      caller. */
  datatype Completion<T> = Normal(value: T) | Thrown

  /** `v.name` on a parsed JSON value: a missing property, or a property read
      on an array, gives `undefined`. */
  function Property(v: JsValue, name: string): JsValue
  {
    if v.Obj? && name in v.fields then v.fields[name] else Undefined
  }

  // ---------------------------------------------------------------------
  // String.prototype.trim

  /** The WhiteSpace and LineTerminator code points of ECMAScript, which
      `trim` removes and `Number` ignores around a numeral. */
  predicate IsWhiteSpace(c: char)
  {
    || c in {'\t', '\n', '\U{B}', '\U{C}', '\r', ' ', '\U{A0}', '\U{1680}'}
    || ('\U{2000}' <= c <= '\U{200A}')
    || c in {'\U{2028}', '\U{2029}', '\U{202F}', '\U{205F}', '\U{3000}', '\U{FEFF}'}
  }

  function TrimStart(s: string): (r: string)
    ensures |r| <= |s| && r == s[|s| - |r|..]
    ensures forall i :: 0 <= i < |s| - |r| ==> IsWhiteSpace(s[i])
    ensures r != [] ==> !IsWhiteSpace(r[0])
  {
    if s != [] && IsWhiteSpace(s[0]) then TrimStart(s[1..]) else s
  }

  function TrimEnd(s: string): (r: string)
    ensures |r| <= |s| && r == s[..|r|]
    ensures forall i :: |r| <= i < |s| ==> IsWhiteSpace(s[i])
    ensures r != [] ==> !IsWhiteSpace(r[|r| - 1])
  {
    if s != [] && IsWhiteSpace(s[|s| - 1]) then TrimEnd(s[..|s| - 1]) else s
  }

  /** `s.trim()` */
  function Trim(s: string): string
  {
    TrimEnd(TrimStart(s))
  }

  /** `s.trim().length > 0` holds exactly when `s` has a character that is
      not white space. */
  lemma TrimNonEmptyIff(s: string)
    ensures Trim(s) != [] <==> exists i :: 0 <= i < |s| && !IsWhiteSpace(s[i])
  {
    var t := TrimStart(s);
    var k := |s| - |t|;
    if Trim(s) != [] {
      assert !IsWhiteSpace(t[0]) && s[k] == t[0];
    } else {
      // a non-empty `t` starts with a non-space, so TrimEnd would keep it
      assert t == [];
    }
  }

  // ---------------------------------------------------------------------
  // String(v)

  function DigitChar(d: nat): char
    requires d < 10
  {
    ['0', '1', '2', '3', '4', '5', '6', '7', '8', '9'][d]
  }

  predicate IsDigit(c: char)
  {
    '0' <= c <= '9'
  }

  predicate AllDigits(s: string)
  {
    forall i :: 0 <= i < |s| ==> IsDigit(s[i])
  }

  /** The decimal numeral of `n`, most significant digit first, with no
      leading zero. */
  function Decimal(n: nat): (r: string)
    ensures r != [] && AllDigits(r)
  {
    if n < 10 then [DigitChar(n)] else Decimal(n / 10) + [DigitChar(n % 10)]
  }

  /** The array elements joined with ",", as `Array.prototype.join` does. */
  function Join(parts: seq<string>): string
  {
    if parts == [] then "" else if |parts| == 1 then parts[0] else parts[0] + "," + Join(parts[1..])
  }

  /** `String(v)`: `null` and `undefined` inside an array become empty
      strings, as `Array.prototype.toString` makes them. */
  function ToStr(v: JsValue): string
  {
    match v
    case Undefined => "undefined"
    case Null => "null"
    case Bool(b) => if b then "true" else "false"
    case Num(n) => if n < 0 then "-" + Decimal(-n) else Decimal(n)
    case Str(s) => s
    case Arr(items) =>
      Join(seq(|items|, i requires 0 <= i < |items| =>
        if items[i].Undefined? || items[i].Null? then "" else ToStr(items[i])))
    case Obj(_) => "[object Object]"
  }

  // ---------------------------------------------------------------------
  // Number(v) and isNaN(v); None stands for NaN

  /** Where a left-to-right reading of a string for `Number` stands:
      before the numeral (only white space so far), after its sign, inside
      its digits, after it (only white space since), or past anything the
      grammar allows. */
  datatype Scan =
    | Leading
    | Signed(negative: bool)
    | Digits(negative: bool, magnitude: nat)
    | Trailing(value: int)
    | Invalid

  /** The integer a sign and a magnitude stand for. */
  function SignedValue(negative: bool, magnitude: nat): int
  {
    if negative then -(magnitude as int) else magnitude
  }

  function DigitValue(c: char): nat
    requires IsDigit(c)
  {
    c as int - '0' as int
  }

  /** One more character of the string. */
  function Step(st: Scan, c: char): Scan
  {
    match st
    case Leading =>
      if IsWhiteSpace(c) then Leading
      else if c == '-' || c == '+' then Signed(c == '-')
      else if IsDigit(c) then Digits(false, DigitValue(c))
      else Invalid
    case Signed(negative) =>
      if IsDigit(c) then Digits(negative, DigitValue(c)) else Invalid
    case Digits(negative, magnitude) =>
      if IsDigit(c) then Digits(negative, 10 * magnitude + DigitValue(c))
      else if IsWhiteSpace(c) then Trailing(SignedValue(negative, magnitude))
      else Invalid
    case Trailing(value) =>
      if IsWhiteSpace(c) then Trailing(value) else Invalid
    case Invalid => Invalid
  }

  /** The reading after every character of `s`, starting from `st`. */
  function Run(s: string, st: Scan): Scan
  {
    if s == [] then st else Step(Run(s[..|s| - 1], st), s[|s| - 1])
  }

  /** The number once the whole string is read: a blank string is 0, a
      bare sign or anything invalid is NaN. */
  function Finish(st: Scan): Option<int>
  {
    match st
    case Leading => Some(0)
    case Digits(negative, magnitude) => Some(SignedValue(negative, magnitude))
    case Trailing(value) => Some(value)
    case _ => None
  }

  /** `Number(s)` for a string: an optionally signed decimal integer
      numeral with white space around it, or a blank string, which is 0;
      this is the part of the StringNumericLiteral grammar the model covers. */
  function StringToNumber(s: string): Option<int>
  {
    Finish(Run(s, Leading))
  }

  /** `Number(v)` where the model gives it a value: an integer, or None
      for NaN and for the numerals outside `StringToNumber` (fractions,
      exponents, radix prefixes, `Infinity`); arrays and objects go through
      their string form. */
  function ToNumber(v: JsValue): Option<int>
  {
    match v
    case Undefined => None
    case Null => Some(0)
    case Bool(b) => Some(if b then 1 else 0)
    case Num(n) => Some(n)
    case Str(s) => StringToNumber(s)
    case Arr(_) => StringToNumber(ToStr(v))
    case Obj(_) => StringToNumber(ToStr(v))
  }

  /** Where a left-to-right reading of a string against the whole
      StringNumericLiteral grammar (section 7.1.4.1 of ECMA-262) stands:
      the start, a sign, a leading `0`, integer digits, a point with no
      digit yet, fraction digits, an exponent mark, its sign, its digits,
      a radix prefix with no digit yet, radix digits, the first `matched`
      letters of `Infinity`, white space after the numeral, or past
      anything the grammar allows. */
  datatype Lex =
    | LStart
    | LSign
    | LZero
    | LInt
    | LDot
    | LFrac
    | LExp
    | LExpSign
    | LExpDigits
    | LRadix(base: nat)
    | LRadixDigits(base: nat)
    | LInf(matched: nat)
    | LEnd
    | LBad

  /** A digit of a `0x`, `0o` or `0b` literal. */
  predicate RadixDigit(base: nat, c: char)
  {
    if base == 16 then IsDigit(c) || ('a' <= c <= 'f') || ('A' <= c <= 'F')
    else if base == 8 then '0' <= c <= '7'
    else c == '0' || c == '1'
  }

  /** The character after a decimal digit of the integer part. */
  function AfterDigit(c: char): Lex
  {
    if IsDigit(c) then LInt
    else if c == '.' then LFrac
    else if c == 'e' || c == 'E' then LExp
    else if IsWhiteSpace(c) then LEnd
    else LBad
  }

  /** One more character of the string. */
  function LStep(lx: Lex, c: char): Lex
  {
    match lx
    case LStart =>
      if IsWhiteSpace(c) then LStart
      else if c == '+' || c == '-' then LSign
      else if c == '0' then LZero
      else if IsDigit(c) then LInt
      else if c == '.' then LDot
      else if c == 'I' then LInf(1)
      else LBad
    case LSign =>
      if IsDigit(c) then LInt
      else if c == '.' then LDot
      else if c == 'I' then LInf(1)
      else LBad
    case LZero =>
      if c == 'x' || c == 'X' then LRadix(16)
      else if c == 'o' || c == 'O' then LRadix(8)
      else if c == 'b' || c == 'B' then LRadix(2)
      else AfterDigit(c)
    case LInt => AfterDigit(c)
    case LDot => if IsDigit(c) then LFrac else LBad
    case LFrac =>
      if IsDigit(c) then LFrac
      else if c == 'e' || c == 'E' then LExp
      else if IsWhiteSpace(c) then LEnd
      else LBad
    case LExp =>
      if c == '+' || c == '-' then LExpSign
      else if IsDigit(c) then LExpDigits
      else LBad
    case LExpSign => if IsDigit(c) then LExpDigits else LBad
    case LExpDigits =>
      if IsDigit(c) then LExpDigits
      else if IsWhiteSpace(c) then LEnd
      else LBad
    case LRadix(base) => if RadixDigit(base, c) then LRadixDigits(base) else LBad
    case LRadixDigits(base) =>
      if RadixDigit(base, c) then LRadixDigits(base)
      else if IsWhiteSpace(c) then LEnd
      else LBad
    case LInf(matched) =>
      if matched < 8 && c == "Infinity"[matched] then LInf(matched + 1)
      else if matched == 8 && IsWhiteSpace(c) then LEnd
      else LBad
    case LEnd => if IsWhiteSpace(c) then LEnd else LBad
    case LBad => LBad
  }

  /** The reading after every character of `s`, starting from `lx`. */
  function LRun(s: string, lx: Lex): Lex
  {
    if s == [] then lx else LStep(LRun(s[..|s| - 1], lx), s[|s| - 1])
  }

  /** The readings where the string may end: blank so far, or a whole
      numeral, possibly followed by white space. */
  predicate Complete(lx: Lex)
  {
    lx.LStart? || lx.LZero? || lx.LInt? || lx.LFrac? || lx.LExpDigits?
    || lx.LRadixDigits? || lx == LInf(8) || lx.LEnd?
  }

  /** `s` is a StringNumericLiteral, so `Number(s)` is not NaN. */
  predicate IsNumericLiteral(s: string)
  {
    Complete(LRunFrom(s, 0, LStart))
  }

  /** `isNaN(v)`: `Number(v)` is NaN. */
  predicate IsNaN(v: JsValue)
  {
    match v
    case Undefined => true
    case Null => false
    case Bool(_) => false
    case Num(_) => false
    case Str(s) => !IsNumericLiteral(s)
    case Arr(_) => !IsNumericLiteral(ToStr(v))
    case Obj(_) => !IsNumericLiteral(ToStr(v))
  }

  /** Reading one more character. */
  lemma LRunAppend(s: string, c: char, lx: Lex)
    ensures LRun(s + [c], lx) == LStep(LRun(s, lx), c)
  {
    assert (s + [c])[..|s|] == s;
  }

  /** The integer reading and the full reading agree on where they stand. */
  predicate Tracks(st: Scan, lx: Lex)
  {
    match st
    case Leading => lx == LStart
    case Signed(_) => lx == LSign
    case Digits(_, _) => lx == LInt || lx == LZero
    case Trailing(_) => lx == LEnd
    case Invalid => true
  }

  /** Reading the same string both ways keeps them in step. */
  lemma {:induction false} RunTracks(s: string)
    ensures Tracks(Run(s, Leading), LRun(s, LStart))
  {
    if s != [] {
      RunTracks(s[..|s| - 1]);
    }
  }

  /** Every integer numeral the model evaluates is a numeric literal. */
  lemma IntegerNumeralIsLiteral(s: string)
    requires StringToNumber(s).Some?
    ensures IsNumericLiteral(s)
  {
    RunTracks(s);
    LRunFromFront(s, 0);
  }

  /** When `isNaN(v)` holds the model gives `Number(v)` no value. */
  lemma NaNHasNoNumber(v: JsValue)
    ensures IsNaN(v) ==> ToNumber(v).None?
  {
    if ToNumber(v).Some? {
      match v
      case Str(s) => IntegerNumeralIsLiteral(s);
      case Arr(_) => IntegerNumeralIsLiteral(ToStr(v));
      case Obj(_) => IntegerNumeralIsLiteral(ToStr(v));
      case _ =>
    }
  }

  /** The same reading, character by character from position `i`. */
  function LRunFrom(s: string, i: nat, lx: Lex): Lex
    requires i <= |s|
    decreases |s| - i
  {
    if i == |s| then lx else LRunFrom(s, i + 1, LStep(lx, s[i]))
  }

  /** Reading from the front and reading from the back end alike. */
  lemma {:induction false} LRunFromFront(s: string, i: nat)
    requires i <= |s|
    ensures LRunFrom(s, i, LRun(s[..i], LStart)) == LRun(s, LStart)
    decreases |s| - i
  {
    if i == |s| {
      assert s[..i] == s;
    } else {
      LRunAppend(s[..i], s[i], LStart);
      assert s[..i] + [s[i]] == s[..i + 1];
      LRunFromFront(s, i + 1);
    }
  }

  /** Fractions are numbers. */
  lemma FractionNumerals()
    ensures !IsNaN(Str("1.5")) && !IsNaN(Str("-.5"))
  {
  }

  /** Exponents are numbers. */
  lemma ExponentNumerals()
    ensures !IsNaN(Str("1e3")) && !IsNaN(Str("2E-7 "))
  {
  }

  /** Radix literals are numbers. */
  lemma RadixNumerals()
    ensures !IsNaN(Str("0x1F")) && !IsNaN(Str("0o17")) && !IsNaN(Str("0b101"))
  {
  }

  /** `Infinity`, signed or not, is a number. */
  lemma InfinityNumerals()
    ensures !IsNaN(Str("-Infinity")) && !IsNaN(Str("Infinity"))
  {
  }

  /** A second point and an exponent without digits are not numbers. */
  lemma MalformedNumerals()
    ensures IsNaN(Str("1.5.2")) && IsNaN(Str("1e"))
  {
  }

  /** A signed radix literal, a radix prefix without digits and a digit
      outside the radix are not numbers. */
  lemma MalformedRadixNumerals()
    ensures IsNaN(Str("-0x1")) && IsNaN(Str("0x")) && IsNaN(Str("0b2"))
  {
  }


  /** Reading the digits of `n` right after the start or a sign gives the
      magnitude `n`. */
  lemma {:induction false} RunDecimal(n: nat, st: Scan, negative: bool)
    requires (st == Leading && !negative) || st == Signed(negative)
    ensures Run(Decimal(n), st) == Digits(negative, n)
  {
    var d := Decimal(n);
    if n >= 10 {
      RunDecimal(n / 10, st, negative);
      assert d[..|d| - 1] == Decimal(n / 10);
    }
  }

  /** White space alone leaves the reading where it started. */
  lemma {:induction false} RunWhiteSpace(s: string)
    requires forall i :: 0 <= i < |s| ==> IsWhiteSpace(s[i])
    ensures Run(s, Leading) == Leading
  {
    if s != [] {
      RunWhiteSpace(s[..|s| - 1]);
    }
  }

  /** A minus sign and then the digits of `m` read as the number `-m`. */
  lemma NegativeNumeral(m: nat)
    ensures StringToNumber(['-'] + Decimal(m)) == Some(-(m as int))
  {
    assert !IsWhiteSpace('-');
    RunPrefixed('-', Decimal(m), Leading);
    RunDecimal(m, Signed(true), true);
    assert Run(['-'] + Decimal(m), Leading) == Digits(true, m);
    assert Finish(Digits(true, m)) == Some(-(m as int));
  }

  /** The digits of `n` alone read as the number `n`. */
  lemma NaturalNumeral(n: nat)
    ensures StringToNumber(Decimal(n)) == Some(n)
  {
    RunDecimal(n, Leading, false);
  }

  /** Printing an integer and reading it back with `Number` gives the same
      integer: an identifier that travels through a URL path arrives intact. */
  lemma NumberOfDecimal(n: int)
    ensures StringToNumber(ToStr(Num(n))) == Some(n)
  {
    if n < 0 {
      NegativeNumeral(-n);
    } else {
      NaturalNumeral(n);
    }
  }

  /** A character that can appear in a StringNumericLiteral: white space,
      a digit, a sign, the point, a hexadecimal digit, a radix or exponent
      mark, or a letter of `Infinity`. */
  predicate NumeralChar(c: char)
  {
    IsWhiteSpace(c) || IsDigit(c) || c in "+-." || ('a' <= c <= 'f') || ('A' <= c <= 'F')
    || c in "xXoOInity"
  }

  /** A character that can be no part of a numeral. */
  predicate Foreign(c: char)
  {
    !NumeralChar(c)
  }

  /** Once a foreign character is read the reading is past the grammar,
      whatever follows it. */
  lemma {:induction false} LRunForeign(s: string, lx: Lex, k: nat)
    requires k < |s| && Foreign(s[k])
    ensures LRun(s, lx) == LBad
  {
    if k < |s| - 1 {
      LRunForeign(s[..|s| - 1], lx, k);
    }
  }

  /** A string holding a character that is no part of a numeral is NaN:
      `isNaN("Ciclismo")` holds. */
  lemma ForeignIsNaN(s: string, k: nat)
    requires k < |s| && Foreign(s[k])
    ensures IsNaN(Str(s))
  {
    LRunForeign(s, LStart, k);
    LRunFromFront(s, 0);
  }

  /** Reading one character and then the rest. */
  lemma {:induction false} RunPrefixed(c: char, s: string, st: Scan)
    ensures Run([c] + s, st) == Run(s, Step(st, c))
  {
    if s != [] {
      var t := [c] + s;
      assert t[..|t| - 1] == [c] + s[..|s| - 1];
      RunPrefixed(c, s[..|s| - 1], st);
    } else {
      assert ([c] + s)[..0] == [];
    }
  }
}
