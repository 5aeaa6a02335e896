/** The helpers of scripts/db.js that every route handler goes through:
    `number` and `string` read request values, `sendError` ends a response
    with a status, and `sendResponse` runs one command through `execute` and
    either answers with the processed result or reports a server error.

    The Express request is reduced to its path parameters and parsed JSON
    body, and the response to what the handler finally does with it. */
module Db {
  import opened Wrappers
  import opened Js
  import opened Store

  /** `request.params` (always strings) and `request.body` (parsed JSON). */
  datatype Request = Request(params: map<string, string>, body: JsValue)

  /** `request.params.name` */
  function Param(req: Request, name: string): JsValue
  {
    if name in req.params then Str(req.params[name]) else Undefined
  }

  /** `request.body.name` */
  function Body(req: Request, name: string): JsValue
  {
    Property(req.body, name)
  }

  /** What a handler did with `response`: `response.json(value)` or
      `response.status(status).end(text)`. */
  datatype Reply = Json(value: JsValue) | Ended(status: int, text: string)

  /** `number(value)`: the number `Number(value)` gives, or `undefined`
      (None) when that number is NaN; the model gives a value to integers
      only. */
  function Number(value: JsValue): (r: Option<int>)
    ensures value.Num? ==> r == Some(value.n)
    ensures value.Null? ==> r == Some(0)
    ensures value.Undefined? ==> r.None?
  {
    ToNumber(value)
  }

  /** Whenever `isNaN(Number(value))` holds, `number(value)` is `undefined`. */
  lemma NumberOfNaN(value: JsValue)
    ensures IsNaN(value) ==> Number(value).None?
  {
    NaNHasNoNumber(value);
  }

  /** `string(value)`: `undefined` stays `undefined`; every other value,
      `null` included, is turned into its string form. */
  function String(value: JsValue): (r: Option<string>)
    ensures r.None? <==> value.Undefined?
    ensures value.Str? ==> r == Some(value.s)
    ensures value.Null? ==> r == Some("null")
  {
    if value.Undefined? then None else Some(ToStr(value))
  }

  /** The JavaScript value of a variable that holds a number or `undefined`. */
  function NumValue(o: Option<int>): JsValue
  {
    if o.Some? then Num(o.value) else Undefined
  }

  /** The JavaScript value of a variable that holds a string or `undefined`. */
  function StrValue(o: Option<string>): JsValue
  {
    if o.Some? then Str(o.value) else Undefined
  }

  /** `if (id)` on the result of `number`: NaN, a missing value and 0 are refused. */
  lemma NumberTruthy(value: JsValue)
    ensures Truthy(NumValue(Number(value))) <==> Number(value).Some? && Number(value).value != 0
  {
  }

  /** An identifier printed into a URL path comes back from `number` unchanged. */
  lemma NumberOfPath(id: int)
    ensures Number(Str(ToStr(Num(id)))) == Some(id)
  {
    NumberOfDecimal(id);
  }

  /** A blank path parameter is the number 0, so the id guards refuse it. */
  lemma {:induction false} NumberOfBlank(s: string)
    requires forall i :: 0 <= i < |s| ==> IsWhiteSpace(s[i])
    ensures Number(Str(s)) == Some(0)
    ensures !Truthy(NumValue(Number(Str(s))))
  {
    RunWhiteSpace(s);
  }

  /** `if (descritivo)` on the result of `string` accepts exactly the
      defined values whose string form is not empty. */
  lemma StringTruthy(value: JsValue)
    ensures Truthy(StrValue(String(value))) <==> !value.Undefined? && ToStr(value) != ""
  {
  }

  /** The text `sendResponse` sends when `execute` fails. */
  const ServerError := "Erro do servidor ao carregar o seu pedido!"

  /** `sendError(response, error = "", status = 400)`: the status is set and
      the body is the error when it is a string, empty otherwise. */
  function SendError(error: JsValue := Str(""), status: int := 400): (r: Reply)
    ensures r.Ended? && r.status == status
    ensures error.Str? ==> r.text == error.s
    ensures !error.Str? ==> r.text == ""
  {
    Ended(status, if error.Str? then error.s else "")
  }

  /** `sendResponse(response, command, parameters, processResult)` with a
      response: one command goes to the store; on success the processed
      result is sent as JSON, on failure the server error with status 500
      and `processResult` is never called; a command with an `undefined`
      parameter always fails. */
  method SendResponse(db: Database, command: Command, process: ExecResult -> JsValue) returns (reply: Reply)
    requires db.Valid()
    modifies db
    ensures db.Valid() && db.Issued == old(db.Issued) + [command]
    ensures !Bindable(command) ==> reply.Ended?
    ensures reply.Ended? ==> reply == Ended(500, ServerError) && db.State() == old(db.State())
    ensures reply.Json? ==>
      db.State() == Apply(old(db.State()), command).0 && reply == Json(process(Apply(old(db.State()), command).1))
  {
    var result := db.Execute(command);
    if result.Some? {
      reply := Json(process(result.value));
    } else {
      reply := SendError(Str(ServerError), 500);
    }
  }

  /** `sendResponse(null, command, parameters, processResult)`: on success
      the processed result is returned; on failure `sendError(null, ...)`
      dereferences the null response and throws. */
  method SendResponseNull<T>(db: Database, command: Command, process: ExecResult -> T) returns (c: Completion<T>)
    requires db.Valid()
    modifies db
    ensures db.Valid() && db.Issued == old(db.Issued) + [command]
    ensures !Bindable(command) ==> c.Thrown?
    ensures c.Thrown? ==> db.State() == old(db.State())
    ensures c.Normal? ==>
      db.State() == Apply(old(db.State()), command).0 && c.value == process(Apply(old(db.State()), command).1)
  {
    var result := db.Execute(command);
    if result.Some? {
      c := Normal(process(result.value));
    } else {
      c := Thrown;
    }
  }

  /** The id an `if (id)` guard on `number(request.params.id)` lets
      through: neither NaN nor 0. */
  function PathId(req: Request): (r: Option<int>)
    ensures r.Some? <==> Truthy(NumValue(Number(Param(req, "id"))))
    ensures r.Some? ==> Number(Param(req, "id")) == r
  {
    var id := Number(Param(req, "id"));
    if id.None? || id.value == 0 then None else id
  }

  /** `result.affectedRows` */
  function AffectedRowsOf(result: ExecResult): JsValue
  {
    if result.Header? then Num(result.affectedRows) else Undefined
  }

  /** `{count: result.affectedRows}` */
  function CountOf(result: ExecResult): (r: JsValue)
    ensures r.Obj? && "count" in r.fields
    ensures result.Header? ==> r.fields["count"] == Num(result.affectedRows)
    ensures !result.Header? ==> r.fields["count"] == Undefined
  {
    Obj(map["count" := AffectedRowsOf(result)])
  }

  /** `result.insertId` */
  function InsertIdOf(result: ExecResult): JsValue
  {
    if result.Header? then Num(result.insertId) else Undefined
  }
}
