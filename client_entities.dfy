/** The three entity classes of the browser script www/scripts/scripts.js:
    `TiposDeEventos`, `Eventos` and `Membros`. Their private fields become
    Dafny fields (`const` for the identifiers no code reassigns), their
    validating setters become methods that change one field, and a setter
    that throws returns `Thrown` and leaves its field as it was.

    JavaScript compares these objects by reference (`includes`,
    `indexOf`, `===`), as Dafny compares class instances. */
module ClientEntities {
  import opened Wrappers
  import opened Js

  /** An element of an array the script fills from several places: an
      instance of one of the entity classes, or some other JavaScript value
      (a parsed JSON object, or the `undefined` a failed `find` gives). */
  datatype Item<T> = Instance(obj: T) | Plain(v: JsValue)

  /** `a === b` (and the SameValueZero of `includes`) on array elements:
      instances by reference, other values as `===` compares them. */
  predicate SameItem<T(==)>(a: Item<T>, b: Item<T>)
  {
    match (a, b)
    case (Instance(x), Instance(y)) => x == y
    case (Plain(v), Plain(w)) => StrictEquals(v, w)
    case _ => false
  }

  /** `s.includes(x)` */
  predicate Includes<T(==)>(s: seq<Item<T>>, x: Item<T>)
  {
    exists i :: 0 <= i < |s| && SameItem(s[i], x)
  }

  /** Looking up an instance is looking it up by reference. */
  lemma IncludesInstance<T>(s: seq<Item<T>>, o: T)
    ensures Includes(s, Instance(o)) <==> Instance(o) in s
  {
    if Instance(o) in s {
      var i :| 0 <= i < |s| && s[i] == Instance(o);
      assert SameItem(s[i], Instance(o));
    }
  }

  /** `Array.isArray(a) && a.every((x) => x instanceof C)`; None stands for
      a value that is not an array. */
  predicate AllInstances<T>(a: Option<seq<Item<T>>>)
  {
    a.Some? && forall i :: 0 <= i < |a.value| ==> a.value[i].Instance?
  }

  /** The instances of an array every element of which is one. */
  function Objects<T>(s: seq<Item<T>>): (r: seq<T>)
    requires forall i :: 0 <= i < |s| ==> s[i].Instance?
    ensures |r| == |s| && forall i :: 0 <= i < |s| ==> s[i] == Instance(r[i])
  {
    seq(|s|, i requires 0 <= i < |s| => s[i].obj)
  }

  /** An array of instances. */
  function Items<T>(s: seq<T>): (r: seq<Item<T>>)
    ensures |r| == |s| && forall i :: 0 <= i < |s| ==> r[i] == Instance(s[i])
  {
    seq(|s|, i requires 0 <= i < |s| => Instance(s[i]))
  }

  /** Wrapping a list of instances and unwrapping it again gives it back. */
  lemma ObjectsOfItems<T>(s: seq<T>)
    ensures Objects(Items(s)) == s
  {
    var r := Objects(Items(s));
    assert forall i :: 0 <= i < |s| ==> Instance(r[i]) == Instance(s[i]);
  }

  /** `Array.isArray(a) ? a : []` */
  function ArrayOrEmpty<T>(a: Option<seq<T>>): (r: seq<T>)
    ensures a.Some? ==> r == a.value
    ensures a.None? ==> r == []
  {
    if a.Some? then a.value else []
  }

  // ---------------------------------------------------------------------
  // The setters' tests

  /** `typeof v === "string" && v.trim().length > 0`, the test of the
      `TiposDeEventos.descritivo` setter. */
  predicate ValidTipoDescritivo(v: JsValue)
  {
    v.Str? && Trim(v.s) != []
  }

  /** The type setter accepts exactly the strings with a character that is
      not white space, numerals included. */
  lemma ValidTipoDescritivoIff(v: JsValue)
    ensures ValidTipoDescritivo(v) <==> v.Str? && exists i :: 0 <= i < |v.s| && !IsWhiteSpace(v.s[i])
  {
    if v.Str? {
      TrimNonEmptyIff(v.s);
    }
  }

  /** `v && typeof v === "string" && isNaN(v)`, the test of the
      `Eventos.descritivo` and `Membros.nome` setters. */
  predicate ValidName(v: JsValue)
  {
    Truthy(v) && v.Str? && IsNaN(v)
  }

  /** A name that reads as a number is refused, negative ones included. */
  lemma NumeralNameRefused(n: int)
    ensures !ValidName(Str(ToStr(Num(n))))
  {
    NumberOfDecimal(n);
    IntegerNumeralIsLiteral(ToStr(Num(n)));
  }

  /** A name made only of white space is refused: it is truthy, but
      `Number` reads it as 0, so `isNaN` is false. */
  lemma BlankNameRefused(s: string)
    requires forall i :: 0 <= i < |s| ==> IsWhiteSpace(s[i])
    ensures !ValidName(Str(s))
  {
    RunWhiteSpace(s);
    IntegerNumeralIsLiteral(s);
  }

  /** A name holding a character that can be no part of a numeral is
      accepted. */
  lemma WordNameAccepted(s: string, k: nat)
    requires k < |s| && Foreign(s[k])
    ensures ValidName(Str(s))
  {
    ForeignIsNaN(s, k);
  }

  // ---------------------------------------------------------------------
  // The classes

  /** `class TiposDeEventos` */
  class TipoDeEvento {
    const id: JsValue
    var descritivo: JsValue

    /** The constructor stores `descritivo` without validating it. */
    constructor(id: JsValue, descritivo: JsValue)
      ensures this.id == id && this.descritivo == descritivo
    {
      this.id := id;
      this.descritivo := descritivo;
    }

    /** `set descritivo(v)`: a value the test refuses is ignored without an
        error. */
    method SetDescritivo(v: JsValue)
      modifies this`descritivo
      ensures ValidTipoDescritivo(v) ==> descritivo == v
      ensures !ValidTipoDescritivo(v) ==> descritivo == old(descritivo)
    {
      if ValidTipoDescritivo(v) {
        descritivo := v;
      }
    }
  }

  /** `class Eventos`. `data` holds the time value of the event's `Date`;
      it and `descritivo` are `undefined` (None, Undefined) until the
      constructor's setters have run. */
  class Evento {
    const id: JsValue
    var descritivo: JsValue
    var data: Option<int>
    var tiposDeEventos: seq<Item<TipoDeEvento>>

    /** The allocation and the `#id` assignment that open the JavaScript
        constructor; `NewEvento` runs the rest. */
    constructor(id: JsValue)
      ensures this.id == id && descritivo == Undefined && data == None && tiposDeEventos == []
    {
      this.id := id;
      descritivo := Undefined;
      data := None;
      tiposDeEventos := [];
    }

    /** `set descritivo(v)`: throws on a value the test refuses. */
    method SetDescritivo(v: JsValue) returns (c: Completion<()>)
      modifies this`descritivo
      ensures c.Normal? <==> ValidName(v)
      ensures c.Normal? ==> descritivo == v
      ensures c.Thrown? ==> descritivo == old(descritivo)
    {
      if ValidName(v) {
        descritivo := v;
        c := Normal(());
      } else {
        c := Thrown;
      }
    }

    /** `set data(v)`, given the time value `new Date(v)` has (None for an
        invalid date): throws on an invalid date. */
    method SetData(time: Option<int>) returns (c: Completion<()>)
      modifies this`data
      ensures c.Normal? <==> time.Some?
      ensures c.Normal? ==> data == time
      ensures c.Thrown? ==> data == old(data)
    {
      if time.Some? {
        data := time;
        c := Normal(());
      } else {
        c := Thrown;
      }
    }

    /** `set tiposDeEventos(a)`: all or nothing. */
    method SetTiposDeEventos(a: Option<seq<Item<TipoDeEvento>>>) returns (c: Completion<()>)
      modifies this`tiposDeEventos
      ensures c.Normal? <==> AllInstances(a)
      ensures c.Normal? ==> tiposDeEventos == a.value
      ensures c.Thrown? ==> tiposDeEventos == old(tiposDeEventos)
    {
      if AllInstances(a) {
        tiposDeEventos := a.value;
        c := Normal(());
      } else {
        c := Thrown;
      }
    }

    /** `addTipoDeEvento(tipo)`: appends an instance, throws on anything
        else. */
    method AddTipoDeEvento(tipo: Item<TipoDeEvento>) returns (c: Completion<()>)
      modifies this`tiposDeEventos
      ensures c.Normal? <==> tipo.Instance?
      ensures c.Normal? ==> tiposDeEventos == old(tiposDeEventos) + [tipo]
      ensures c.Thrown? ==> tiposDeEventos == old(tiposDeEventos)
    {
      if tipo.Instance? {
        tiposDeEventos := tiposDeEventos + [tipo];
        c := Normal(());
      } else {
        c := Thrown;
      }
    }
  }

  /** `new Eventos(id, descritivo, data, tipos)`, given the time value
      `new Date(data)` has. The constructor throws when either setter
      does, and then no object reaches the caller; a `tipos` that is not
      an array (None) is replaced by an empty one, without checking the
      elements of one that is. */
  method NewEvento(id: JsValue, descritivo: JsValue, time: Option<int>, tipos: Option<seq<Item<TipoDeEvento>>>)
    returns (r: Completion<Evento>)
    ensures r.Normal? <==> ValidName(descritivo) && time.Some?
    ensures r.Normal? ==> fresh(r.value)
    ensures r.Normal? ==> r.value.id == id && r.value.descritivo == descritivo && r.value.data == time
    ensures r.Normal? ==> r.value.tiposDeEventos == ArrayOrEmpty(tipos)
  {
    var e := new Evento(id);
    var c := e.SetDescritivo(descritivo);
    if c.Thrown? {
      return Thrown;
    }
    c := e.SetData(time);
    if c.Thrown? {
      return Thrown;
    }
    e.tiposDeEventos := ArrayOrEmpty(tipos);
    r := Normal(e);
  }

  /** `class Membros`. Its `eventos` are always instances: the setter
      admits nothing else and the script pushes only found instances. */
  class Membro {
    const id: JsValue
    var nome: JsValue
    var tiposDeEventos: seq<Item<TipoDeEvento>>
    var eventos: seq<Evento>

    /** The allocation and the `#id` assignment that open the JavaScript
        constructor; `NewMembro` runs the rest. */
    constructor(id: JsValue)
      ensures this.id == id && nome == Undefined && tiposDeEventos == [] && eventos == []
    {
      this.id := id;
      nome := Undefined;
      tiposDeEventos := [];
      eventos := [];
    }

    /** `set nome(v)`: throws on a value the test refuses. */
    method SetNome(v: JsValue) returns (c: Completion<()>)
      modifies this`nome
      ensures c.Normal? <==> ValidName(v)
      ensures c.Normal? ==> nome == v
      ensures c.Thrown? ==> nome == old(nome)
    {
      if ValidName(v) {
        nome := v;
        c := Normal(());
      } else {
        c := Thrown;
      }
    }

    /** `set tiposDeEventos(a)`: all or nothing. */
    method SetTiposDeEventos(a: Option<seq<Item<TipoDeEvento>>>) returns (c: Completion<()>)
      modifies this`tiposDeEventos
      ensures c.Normal? <==> AllInstances(a)
      ensures c.Normal? ==> tiposDeEventos == a.value
      ensures c.Thrown? ==> tiposDeEventos == old(tiposDeEventos)
    {
      if AllInstances(a) {
        tiposDeEventos := a.value;
        c := Normal(());
      } else {
        c := Thrown;
      }
    }

    /** `set eventos(a)`: all or nothing. */
    method SetEventos(a: Option<seq<Item<Evento>>>) returns (c: Completion<()>)
      modifies this`eventos
      ensures c.Normal? <==> AllInstances(a)
      ensures c.Normal? ==> eventos == Objects(a.value)
      ensures c.Thrown? ==> eventos == old(eventos)
    {
      if AllInstances(a) {
        eventos := Objects(a.value);
        c := Normal(());
      } else {
        c := Thrown;
      }
    }
  }

  /** `new Membros(id, nome, tipos)`: throws when the `nome` setter does;
      a `tipos` that is not an array (None) is replaced by an empty one,
      and the member starts with no events. */
  method NewMembro(id: JsValue, nome: JsValue, tipos: Option<seq<Item<TipoDeEvento>>>)
    returns (r: Completion<Membro>)
    ensures r.Normal? <==> ValidName(nome)
    ensures r.Normal? ==> fresh(r.value)
    ensures r.Normal? ==> r.value.id == id && r.value.nome == nome
    ensures r.Normal? ==> r.value.tiposDeEventos == ArrayOrEmpty(tipos) && r.value.eventos == []
  {
    var m := new Membro(id);
    var c := m.SetNome(nome);
    if c.Thrown? {
      return Thrown;
    }
    m.tiposDeEventos := ArrayOrEmpty(tipos);
    r := Normal(m);
  }
}
