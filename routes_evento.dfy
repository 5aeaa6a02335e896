/** The event routes: routes/create-evento.js, routes/read-evento.js,
    routes/update-evento.js and routes/delete-evento.js.

    `date(value)` (scripts/db.js) parses through the JavaScript `Date`
    object, which this model does not cover; the handlers take it as a
    parameter `date` that yields the `YYYY-MM-DD` text or `undefined`. */
module EventoRoutes {
  import opened Wrappers
  import opened Seqs
  import opened Js
  import opened Store
  import opened Db

  const CreateInvalid := "Deve inserir um descritivo para o Evento válido!"
  const UpdateInvalid := "Dados inválidos!"
  const DeleteInvalid := "Deve selecionar um Evento válido!"

  /** A nullable column as the driver hands it over: SQL NULL is `null`. */
  function Nullable(o: Option<string>): (r: JsValue)
    ensures r.Null? <==> o.None?
    ensures o.Some? ==> r == Str(o.value)
  {
    if o.Some? then Str(o.value) else Null
  }

  /** The `processResult` of createEvento: `{id: insertId, descritivo, tipoDeEvento, data}`
      with the coerced request values. */
  function Created(descritivo: string, tipoDeEvento: Option<int>, data: Option<string>): ExecResult -> JsValue
  {
    (result: ExecResult) => Obj(map[
      "id" := InsertIdOf(result),
      "descritivo" := Str(descritivo),
      "tipoDeEvento" := NumValue(tipoDeEvento),
      "data" := StrValue(data)])
  }

  /** One entry of the read-evento reply: the row's columns, with the type
      label `tipo` renamed to `tipoDeEvento`. */
  function EventoEntry(row: EventoJoinRow): (r: JsValue)
    ensures r.Obj? && r.fields.Keys == {"id", "descritivo", "data", "tipoDeEvento"}
    ensures r.fields["id"] == Num(row.id) && r.fields["tipoDeEvento"] == Str(row.tipo)
    ensures r.fields["descritivo"] == Nullable(row.descritivo) && r.fields["data"] == Nullable(row.data)
  {
    Obj(map[
      "id" := Num(row.id),
      "descritivo" := Nullable(row.descritivo),
      "data" := Nullable(row.data),
      "tipoDeEvento" := Str(row.tipo)])
  }

  /** The `processResult` of readEvento: one entry per joined row, in order. */
  function ListEventos(result: ExecResult): (r: JsValue)
    ensures result.EventoRows? ==> r.Arr? && |r.items| == |result.eventoRows|
    ensures result.EventoRows? ==> forall i :: 0 <= i < |r.items| ==> r.items[i] == EventoEntry(result.eventoRows[i])
  {
    match result
    case EventoRows(rows) => Arr(seq(|rows|, i requires 0 <= i < |rows| => EventoEntry(rows[i])))
    case _ => Undefined
  }

  /** The guard of update-evento.js as written: `id && descritivo &&
      tipoDeEvento, data`. */
  predicate UpdateGuard(id: Option<int>, descritivo: Option<string>, tipoDeEvento: Option<int>, data: Option<string>)
  {
    Truthy(Comma(And(And(NumValue(id), StrValue(descritivo)), NumValue(tipoDeEvento)), StrValue(data)))
  }

  /** The comma operator discards the `&&` chain: the guard looks at `data` alone. */
  lemma UpdateGuardIsData(id: Option<int>, descritivo: Option<string>, tipoDeEvento: Option<int>, data: Option<string>)
    ensures UpdateGuard(id, descritivo, tipoDeEvento, data) <==> data.Some? && data.value != ""
  {
  }

  /** POST: only the truthiness of `descritivo` is checked; an unreadable
      `tipoDeEvento` or `data` is bound as `undefined`, which the driver
      refuses, so the reply is the server error. */
  method CreateEvento(db: Database, req: Request, date: JsValue -> Option<string>) returns (reply: Reply)
    requires db.Valid()
    modifies db
    ensures db.Valid()
    ensures var d := String(Body(req, "descritivo"));
      var k := Number(Body(req, "tipoDeEvento"));
      var data := date(Body(req, "data"));
      if d.None? || d.value == "" then
        reply == Ended(400, CreateInvalid) && db.Issued == old(db.Issued) && db.State() == old(db.State())
      else
        && db.Issued == old(db.Issued) + [InsertEvento(d.value, k, data)]
        && (k.None? || data.None? ==> reply.Ended?)
        && (reply.Ended? ==> reply == Ended(500, ServerError) && db.State() == old(db.State()))
        && (reply.Json? ==>
              var row := EventoRow(old(db.nextEvento), Some(d.value), k, data);
              && db.State() == old(db.State()).(eventos := old(db.eventos) + [row], nextEvento := old(db.nextEvento) + 1)
              && reply == Json(Created(d.value, k, data)(Header(1, row.id))))
  {
    var descritivo := String(Body(req, "descritivo"));
    var tipoDeEvento := Number(Body(req, "tipoDeEvento"));
    var dataEvento := date(Body(req, "data"));
    if Truthy(StrValue(descritivo)) {
      reply := SendResponse(db, InsertEvento(descritivo.value, tipoDeEvento, dataEvento), Created(descritivo.value, tipoDeEvento, dataEvento));
    } else {
      reply := SendError(Str(CreateInvalid));
    }
  }

  /** GET: the inner join of events with their types. */
  method ReadEvento(db: Database) returns (reply: Reply)
    requires db.Valid()
    modifies db
    ensures db.Valid() && db.State() == old(db.State())
    ensures db.Issued == old(db.Issued) + [SelectEventos]
    ensures reply == Ended(500, ServerError) || reply == Json(ListEventos(EventoRows(EventoJoin(db.eventos, db.tipos))))
  {
    reply := SendResponse(db, SelectEventos, ListEventos);
  }

  /** PUT: whenever `date` reads the body's `data` the UPDATE is sent; an
      unreadable id, `descritivo` or `tipoDeEvento` is bound as `undefined`,
      which the driver refuses, so the reply is the server error. Otherwise
      all three columns are overwritten on the rows whose id matches. */
  method UpdateEvento(db: Database, req: Request, date: JsValue -> Option<string>) returns (reply: Reply)
    requires db.Valid()
    modifies db
    ensures db.Valid()
    ensures var id := Number(Param(req, "id"));
      var d := String(Body(req, "descritivo"));
      var k := Number(Body(req, "tipoDeEvento"));
      var data := date(Body(req, "data"));
      var c := Store.UpdateEvento(d, k, data, id);
      if data.None? || data.value == "" then
        reply == Ended(400, UpdateInvalid) && db.Issued == old(db.Issued) && db.State() == old(db.State())
      else
        && db.Issued == old(db.Issued) + [c]
        && (id.None? || d.None? || k.None? ==> reply.Ended?)
        && (reply.Ended? ==> reply == Ended(500, ServerError) && db.State() == old(db.State()))
        && (reply.Json? ==>
              && db.State() == old(db.State()).(eventos := RewriteEvento(old(db.eventos), c))
              && reply == Json(CountOf(Header(|Filter(old(db.eventos), EventoIdIs(id))|, 0))))
  {
    var id := Number(Param(req, "id"));
    var descritivo := String(Body(req, "descritivo"));
    var tipoDeEvento := Number(Body(req, "tipoDeEvento"));
    var data := date(Body(req, "data"));
    UpdateGuardIsData(id, descritivo, tipoDeEvento, data);
    if UpdateGuard(id, descritivo, tipoDeEvento, data) {
      reply := SendResponse(db, Store.UpdateEvento(descritivo, tipoDeEvento, data, id), CountOf);
    } else {
      reply := SendError(Str(UpdateInvalid), 400);
    }
  }

  /** The DELETE once the id is known: the rows with that id go, and the
      reply counts them. */
  method DeleteEventoById(db: Database, id: int) returns (reply: Reply)
    requires db.Valid()
    modifies db
    ensures db.Valid()
    ensures db.Issued == old(db.Issued) + [Store.DeleteEvento(id)]
    ensures reply == Ended(500, ServerError) || reply.Json?
    ensures reply.Ended? ==> db.State() == old(db.State())
    ensures reply.Json? ==>
      var kept := Filter(old(db.eventos), EventoIdIsNot(id));
      && db.State() == old(db.State()).(eventos := kept)
      && reply == Json(CountOf(Header(|old(db.eventos)| - |kept|, 0)))
  {
    reply := SendResponse(db, Store.DeleteEvento(id), CountOf);
  }

  /** DELETE: a truthy id removes the event with no look at the members
      enrolled in it. */
  method DeleteEvento(db: Database, req: Request) returns (reply: Reply)
    requires db.Valid()
    modifies db
    ensures db.Valid()
    ensures PathId(req).None? <==> reply == Ended(400, DeleteInvalid)
    ensures PathId(req).None? ==> db.Issued == old(db.Issued) && db.State() == old(db.State())
    ensures PathId(req).Some? ==> db.Issued == old(db.Issued) + [Store.DeleteEvento(PathId(req).value)]
    ensures reply == Ended(500, ServerError) ==> db.State() == old(db.State())
    ensures reply.Json? ==>
      && PathId(req).Some?
      && var kept := Filter(old(db.eventos), EventoIdIsNot(PathId(req).value));
         && db.State() == old(db.State()).(eventos := kept)
         && reply == Json(CountOf(Header(|old(db.eventos)| - |kept|, 0)))
  {
    var id := Number(Param(req, "id"));
    if Truthy(NumValue(id)) {
      assert PathId(req) == id;
      reply := DeleteEventoById(db, id.value);
    } else {
      reply := SendError(Str(DeleteInvalid));
    }
  }

  /** Every joined row comes from one stored event and one stored type the
      event refers to: the join invents nothing. */
  lemma {:induction false} EventoJoinSound(eventos: seq<EventoRow>, tipos: seq<TipoRow>, j: int)
    requires 0 <= j < |EventoJoin(eventos, tipos)|
    ensures var row := EventoJoin(eventos, tipos)[j];
      exists e, t :: e in eventos && t in tipos && e.tipoDeEvento == Some(t.id) &&
        row == EventoJoinRow(e.id, e.descritivo, e.data, t.descritivo)
  {
    var head := JoinEvento(eventos[0], tipos);
    var rest := EventoJoin(eventos[1..], tipos);
    assert EventoJoin(eventos, tipos) == head + rest;
    if j < |head| {
      var m := Filter(tipos, TipoMatches(eventos[0].tipoDeEvento));
      assert m[j] in tipos && TipoMatches(eventos[0].tipoDeEvento)(m[j]);
      assert eventos[0] in eventos;
    } else {
      EventoJoinSound(eventos[1..], tipos, j - |head|);
      assert EventoJoin(eventos, tipos)[j] == rest[j - |head|];
      var row := rest[j - |head|];
      var e, t :| e in eventos[1..] && t in tipos && e.tipoDeEvento == Some(t.id) &&
        row == EventoJoinRow(e.id, e.descritivo, e.data, t.descritivo);
      assert e in eventos;
    }
  }

  /** In valid tables an event yields exactly one joined row when its type
      exists and none when the type is missing or NULL. */
  lemma JoinEventoCount(t: Tables, e: EventoRow)
    requires TablesValid(t)
    ensures |JoinEvento(e, t.tipos)| == if exists i :: 0 <= i < |t.tipos| && e.tipoDeEvento == Some(t.tipos[i].id) then 1 else 0
  {
    if e.tipoDeEvento.Some? {
      KeyedMatchesOne(t.tipos, TipoId, 1, t.nextTipo, TipoMatches(e.tipoDeEvento), e.tipoDeEvento.value);
    } else {
      FilterDropsAll(t.tipos, TipoMatches(e.tipoDeEvento));
    }
  }

  lemma ListEventosConcat(a: seq<EventoJoinRow>, b: seq<EventoJoinRow>)
    ensures ListEventos(EventoRows(a + b)).items == ListEventos(EventoRows(a)).items + ListEventos(EventoRows(b)).items
  {
  }

  /** `row` pairs event `e` with one of the types in `tipos` that it refers to. */
  ghost predicate PairsWithType(row: EventoJoinRow, e: EventoRow, tipos: seq<TipoRow>)
  {
    exists i :: 0 <= i < |tipos| && e.tipoDeEvento == Some(tipos[i].id) &&
      row == EventoJoinRow(e.id, e.descritivo, e.data, tipos[i].descritivo)
  }

  /** The rows one event yields each pair it with a type it refers to. */
  lemma JoinEventoRows(e: EventoRow, tipos: seq<TipoRow>)
    ensures forall j :: 0 <= j < |JoinEvento(e, tipos)| ==> PairsWithType(JoinEvento(e, tipos)[j], e, tipos)
  {
    var m := Filter(tipos, TipoMatches(e.tipoDeEvento));
    forall j | 0 <= j < |JoinEvento(e, tipos)|
      ensures PairsWithType(JoinEvento(e, tipos)[j], e, tipos)
    {
      assert m[j] in tipos && TipoMatches(e.tipoDeEvento)(m[j]);
      var i :| 0 <= i < |tipos| && tipos[i] == m[j];
      assert JoinEvento(e, tipos)[j] == EventoJoinRow(e.id, e.descritivo, e.data, tipos[i].descritivo);
    }
  }

  /** The list read after an event is appended is the list before it
      followed by the entries of that event's joined rows. */
  lemma ListAfterAppend(eventos: seq<EventoRow>, tipos: seq<TipoRow>, e: EventoRow)
    ensures ListEventos(EventoRows(EventoJoin(eventos + [e], tipos))).items
         == ListEventos(EventoRows(EventoJoin(eventos, tipos))).items + ListEventos(EventoRows(JoinEvento(e, tipos))).items
  {
    var before := EventoJoin(eventos, tipos);
    var added := JoinEvento(e, tipos);
    EventoJoinConcat(eventos, [e], tipos);
    assert EventoJoin([e], tipos) == added + EventoJoin([], tipos);
    ListEventosConcat(before, added);
  }

  /** A created event shows up in the next read after every earlier entry,
      once and with the label of its type, when that type exists; when the
      type is missing or NULL the read is as before. */
  lemma CreateThenReadEvento(t: Tables, d: string, k: Option<int>, data: Option<string>)
    requires TablesValid(t)
    ensures var t1 := Apply(t, InsertEvento(d, k, data)).0;
      var added := JoinEvento(EventoRow(t.nextEvento, Some(d), k, data), t.tipos);
      && ListEventos(Apply(t1, SelectEventos).1).items == ListEventos(Apply(t, SelectEventos).1).items + ListEventos(EventoRows(added)).items
      && |added| == (if exists i :: 0 <= i < |t.tipos| && k == Some(t.tipos[i].id) then 1 else 0)
  {
    var e := EventoRow(t.nextEvento, Some(d), k, data);
    var t1 := t.(eventos := t.eventos + [e], nextEvento := t.nextEvento + 1);
    assert Apply(t, InsertEvento(d, k, data)).0 == t1;
    assert Apply(t1, SelectEventos).1 == EventoRows(EventoJoin(t.eventos + [e], t.tipos));
    assert Apply(t, SelectEventos).1 == EventoRows(EventoJoin(t.eventos, t.tipos));
    ListAfterAppend(t.eventos, t.tipos, e);
    JoinEventoCount(t, e);
  }
}
