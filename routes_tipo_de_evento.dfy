/** The event-type routes: routes/create-tipoDeEvento.js,
    routes/read-tipoDeEvento.js, routes/update-tipoDeEvento.js and
    routes/delete-tipoDeEvento.js. Each validates its input and then sends
    one command through `sendResponse`. */
module TipoDeEventoRoutes {
  import opened Wrappers
  import opened Seqs
  import opened Js
  import opened Store
  import opened Db

  const CreateInvalid := "Deve inserir um descritivo para o Tipo de Evento válido!"
  const UpdateInvalid := "Dados inválidos!"
  const DeleteInvalid := "Deve selecionar um Tipo de Evento válido!"

  /** `{id, descritivo}` of one type, as both the read and the create reply show it. */
  function TipoEntry(id: JsValue, descritivo: string): (r: JsValue)
    ensures r.Obj? && r.fields.Keys == {"id", "descritivo"}
    ensures r.fields["id"] == id && r.fields["descritivo"] == Str(descritivo)
  {
    Obj(map["id" := id, "descritivo" := Str(descritivo)])
  }

  /** The `processResult` of createTipoDeEvento. */
  function Created(descritivo: string): ExecResult -> JsValue
  {
    (result: ExecResult) => TipoEntry(InsertIdOf(result), descritivo)
  }

  /** The `processResult` of readTipoDeEvento: `result.map(row => ({id, descritivo}))`. */
  function ListTipos(result: ExecResult): (r: JsValue)
    ensures result.TipoRows? ==> r.Arr? && |r.items| == |result.tipoRows|
    ensures result.TipoRows? ==> forall i :: 0 <= i < |r.items| ==>
      r.items[i] == TipoEntry(Num(result.tipoRows[i].id), result.tipoRows[i].descritivo)
    ensures !result.TipoRows? ==> r == Undefined
  {
    match result
    case TipoRows(rows) => Arr(seq(|rows|, i requires 0 <= i < |rows| => TipoEntry(Num(rows[i].id), rows[i].descritivo)))
    case _ => Undefined
  }

  /** POST: a defined `descritivo` whose string form is not empty is
      inserted as it is (blank or numeric text included); anything else is
      refused with 400 before the store is reached. */
  method CreateTipoDeEvento(db: Database, req: Request) returns (reply: Reply)
    requires db.Valid()
    modifies db
    ensures db.Valid()
    ensures var d := String(Body(req, "descritivo"));
      if d.None? || d.value == "" then
        reply == Ended(400, CreateInvalid) && db.Issued == old(db.Issued) && db.State() == old(db.State())
      else
        && db.Issued == old(db.Issued) + [InsertTipo(d.value)]
        && (reply.Ended? ==> reply == Ended(500, ServerError) && db.State() == old(db.State()))
        && (reply.Json? ==>
              var row := TipoRow(old(db.nextTipo), d.value);
              && db.State() == old(db.State()).(tipos := old(db.tipos) + [row], nextTipo := old(db.nextTipo) + 1)
              && reply == Json(TipoEntry(Num(row.id), row.descritivo)))
  {
    var descritivo := String(Body(req, "descritivo"));
    if Truthy(StrValue(descritivo)) {
      reply := SendResponse(db, InsertTipo(descritivo.value), Created(descritivo.value));
    } else {
      reply := SendError(Str(CreateInvalid));
    }
  }

  /** GET: every stored type, in table order, as `{id, descritivo}`. */
  method ReadTipoDeEvento(db: Database) returns (reply: Reply)
    requires db.Valid()
    modifies db
    ensures db.Valid() && db.State() == old(db.State())
    ensures db.Issued == old(db.Issued) + [SelectTipos]
    ensures reply == Ended(500, ServerError) || reply == Json(ListTipos(TipoRows(db.tipos)))
  {
    reply := SendResponse(db, SelectTipos, ListTipos);
  }

  /** PUT: a truthy id and a non-empty `descritivo` rename every type with
      that id; the reply counts the matched rows, so an absent id gives 0. */
  method UpdateTipoDeEvento(db: Database, req: Request) returns (reply: Reply)
    requires db.Valid()
    modifies db
    ensures db.Valid()
    ensures var id := Number(Param(req, "id"));
      var d := String(Body(req, "descritivo"));
      if id.None? || id.value == 0 || d.None? || d.value == "" then
        reply == Ended(400, UpdateInvalid) && db.Issued == old(db.Issued) && db.State() == old(db.State())
      else
        && db.Issued == old(db.Issued) + [UpdateTipo(d.value, id.value)]
        && (reply.Ended? ==> reply == Ended(500, ServerError) && db.State() == old(db.State()))
        && (reply.Json? ==>
              && db.State() == old(db.State()).(tipos := RenameTipo(old(db.tipos), id.value, d.value))
              && reply == Json(CountOf(Header(|Filter(old(db.tipos), TipoIdIs(id.value))|, 0))))
  {
    var id := Number(Param(req, "id"));
    var descritivo := String(Body(req, "descritivo"));
    if Truthy(NumValue(id)) && Truthy(StrValue(descritivo)) {
      reply := SendResponse(db, UpdateTipo(descritivo.value, id.value), CountOf);
    } else {
      reply := SendError(Str(UpdateInvalid), 400);
    }
  }

  /** The DELETE once the id is known: the rows with that id go, and the
      reply counts them. */
  method DeleteTipoById(db: Database, id: int) returns (reply: Reply)
    requires db.Valid()
    modifies db
    ensures db.Valid()
    ensures db.Issued == old(db.Issued) + [DeleteTipo(id)]
    ensures reply == Ended(500, ServerError) || reply.Json?
    ensures reply.Ended? ==> db.State() == old(db.State())
    ensures reply.Json? ==>
      var kept := Filter(old(db.tipos), TipoIdIsNot(id));
      && db.State() == old(db.State()).(tipos := kept)
      && reply == Json(CountOf(Header(|old(db.tipos)| - |kept|, 0)))
  {
    reply := SendResponse(db, DeleteTipo(id), CountOf);
  }

  /** DELETE: a truthy id removes the type with no look at the events or
      the member preferences that refer to it. */
  method DeleteTipoDeEvento(db: Database, req: Request) returns (reply: Reply)
    requires db.Valid()
    modifies db
    ensures db.Valid()
    ensures PathId(req).None? <==> reply == Ended(400, DeleteInvalid)
    ensures PathId(req).None? ==> db.Issued == old(db.Issued) && db.State() == old(db.State())
    ensures PathId(req).Some? ==> db.Issued == old(db.Issued) + [DeleteTipo(PathId(req).value)]
    ensures reply == Ended(500, ServerError) ==> db.State() == old(db.State())
    ensures reply.Json? ==>
      && PathId(req).Some?
      && var kept := Filter(old(db.tipos), TipoIdIsNot(PathId(req).value));
         && db.State() == old(db.State()).(tipos := kept)
         && reply == Json(CountOf(Header(|old(db.tipos)| - |kept|, 0)))
  {
    var id := Number(Param(req, "id"));
    if Truthy(NumValue(id)) {
      assert PathId(req) == id;
      reply := DeleteTipoById(db, id.value);
    } else {
      reply := SendError(Str(DeleteInvalid));
    }
  }

  /** The renamed table differs from the old one only in the `descritivo`
      of the rows with the given id. */
  lemma RenameTipoOnlyDescritivo(rows: seq<TipoRow>, id: int, d: string)
    ensures var r := RenameTipo(rows, id, d);
      forall i :: 0 <= i < |rows| ==>
        && (rows[i].id == id ==> r[i] == TipoRow(id, d))
        && (rows[i].id != id ==> r[i] == rows[i])
  {
  }

  /** What the create reply promised is what a later read shows: the new
      type is the last entry of the list, with the id and text the create
      reply carried, and every earlier entry is as before. */
  lemma CreateThenReadTipo(t: Tables, d: string)
    ensures var (t1, created) := Apply(t, InsertTipo(d));
      var listed := ListTipos(Apply(t1, SelectTipos).1);
      var before := ListTipos(Apply(t, SelectTipos).1);
      && listed.Arr? && before.Arr?
      && listed.items == before.items + [Created(d)(created)]
  {
    var (t1, created) := Apply(t, InsertTipo(d));
    var listed := ListTipos(Apply(t1, SelectTipos).1);
    var before := ListTipos(Apply(t, SelectTipos).1);
    assert listed.items == before.items + [Created(d)(created)];
  }

  /** Deleting a type leaves the events that refer to it in the table,
      and the read-evento join then drops them. */
  lemma DeleteTipoOrphansEventos(t: Tables, id: int, e: EventoRow)
    requires TablesValid(t) && e in t.eventos && e.tipoDeEvento == Some(id)
    ensures var t1 := Apply(t, DeleteTipo(id)).0;
      e in t1.eventos && JoinEvento(e, t1.tipos) == []
  {
    var t1 := Apply(t, DeleteTipo(id)).0;
    FilterDropsAll(t1.tipos, TipoMatches(e.tipoDeEvento));
  }
}
