/** The member routes: routes/create-membro.js, routes/read-membro.js,
    routes/update-membro.js and routes/delete-membro.js.

    Unlike the other routes, creating and updating a member take several
    steps through `execute`: a member row, then one row of
    `membros_tipoDeEventos` per preferred event type. Reading assembles the
    members and the joined link rows into one nested list. */
module MembroRoutes {
  import opened Wrappers
  import opened Seqs
  import opened Js
  import opened Store
  import opened Db
  import TipoDeEventoRoutes

  const Invalid := "Dados inválidos!"
  const NomeFailed := "Erro ao atualizar o nome ou membro não encontrado!"
  const LinksFailed := "Erro ao atualizar os tipos de eventos!"
  const AssociateFailed := "Erro ao associar os novos tipos de eventos!"
  const CreateFailed := "Erro ao criar o membro!"
  const ReadFailed := "Erro interno ao carregar membros."
  const DeleteInvalid := "Deve selecionar um Membro válido!"

  // ---------------------------------------------------------------------
  // The link rows a request asks for

  /** One `(membro, number(tipoId))` row per element of the request's list, in order. */
  function LinksFor(m: int, items: seq<JsValue>): (r: seq<Link>)
    ensures |r| == |items|
    ensures forall i :: 0 <= i < |r| ==> r[i].membro == m && r[i].tipoDeEvento == Number(items[i])
  {
    seq(|items|, i requires 0 <= i < |items| => Link(m, Number(items[i])))
  }

  /** The link INSERTs for the request's list, in order. */
  function InsertLinks(m: int, items: seq<JsValue>): seq<Command>
  {
    var ls := LinksFor(m, items);
    seq(|ls|, i requires 0 <= i < |ls| => InsertLink(ls[i].membro, ls[i].tipoDeEvento))
  }

  /** The link table once member `m`'s rows are deleted and the new ones appended. */
  function ReplaceLinks(links: seq<Link>, m: int, items: seq<JsValue>): seq<Link>
  {
    Filter(links, LinkNotOf(m)) + LinksFor(m, items)
  }

  /** The tables after every step of updateMembro went through. */
  function UpdatedTables(t: Tables, m: int, nome: string, items: seq<JsValue>): Tables
  {
    t.(membros := RenameMembro(t.membros, m, nome), links := ReplaceLinks(t.links, m, items))
  }

  /** `{id, nome, tiposDeEventos}` with the request's own list. */
  function Echo(id: int, nome: string, tipos: JsValue): (r: JsValue)
    ensures r.Obj? && r.fields.Keys == {"id", "nome", "tiposDeEventos"}
    ensures r.fields["id"] == Num(id) && r.fields["nome"] == Str(nome) && r.fields["tiposDeEventos"] == tipos
  {
    Obj(map["id" := Num(id), "nome" := Str(nome), "tiposDeEventos" := tipos])
  }

  ghost predicate MembroExists(t: Tables, m: int)
  {
    exists i :: 0 <= i < |t.membros| && t.membros[i].id == m
  }

  lemma RenameMembroAbsent(rows: seq<MembroRow>, id: int, nome: string)
    requires Filter(rows, MembroIdIs(id)) == []
    ensures RenameMembro(rows, id, nome) == rows
  {
    assert forall i :: 0 <= i < |rows| ==> !MembroIdIs(id)(rows[i]);
  }

  lemma MembroFound(rows: seq<MembroRow>, id: int)
    requires Filter(rows, MembroIdIs(id)) != []
    ensures exists i :: 0 <= i < |rows| && rows[i].id == id
  {
    var r := Filter(rows, MembroIdIs(id))[0];
    assert r in rows && MembroIdIs(id)(r);
  }

  // ---------------------------------------------------------------------
  // The two link loops

  /** One link INSERT: the row is appended when the store carries it out
      (`ok`), and the tables are as before otherwise. An element `number`
      cannot read is bound as `undefined`, so that INSERT always fails. */
  method InsertOneLink(db: Database, m: int, item: JsValue) returns (ok: bool)
    requires db.Valid()
    modifies db
    ensures db.Valid()
    ensures db.Issued == old(db.Issued) + [InsertLink(m, Number(item))]
    ensures Number(item).None? ==> !ok
    ensures db.State() == old(db.State()).(links := old(db.links) + if ok then [Link(m, Number(item))] else [])
  {
    var result := db.Execute(InsertLink(m, Number(item)));
    ok := result.Some?;
  }

  /** The link and the INSERT for element `i` of the list. */
  lemma LinkAt(m: int, items: seq<JsValue>, i: int)
    requires 0 <= i < |items|
    ensures LinksFor(m, items)[i] == Link(m, Number(items[i]))
    ensures InsertLinks(m, items)[i] == InsertLink(m, Number(items[i]))
  {
  }

  /** One turn of the loop of createMembro: link `i` is kept or lost,
      and never kept when its type is undefined. */
  lemma KeptStep(ls: seq<Link>, i: int, kept: seq<bool>, ok: bool, t0: Tables, t: Tables, t1: Tables)
    requires 0 <= i < |ls| && |kept| == i
    requires t == t0.(links := t0.links + Selected(ls[..i], kept))
    requires t1 == t.(links := t.links + if ok then [ls[i]] else [])
    requires forall k :: 0 <= k < i && ls[k].tipoDeEvento.None? ==> !kept[k]
    requires ls[i].tipoDeEvento.None? ==> !ok
    ensures t1 == t0.(links := t0.links + Selected(ls[..i + 1], kept + [ok]))
    ensures forall k :: 0 <= k < i + 1 && ls[k].tipoDeEvento.None? ==> !(kept + [ok])[k]
  {
    var added: seq<Link> := if ok then [ls[i]] else [];
    assert ls[..i + 1] == ls[..i] + [ls[i]];
    SelectedSnoc(ls[..i], kept, ls[i], ok);
    assert t1.links == t0.links + (Selected(ls[..i], kept) + added);
  }

  /** The loop of createMembro: one link INSERT per element, in order, each
      kept or lost on its own, and none of them stops the loop. `kept`
      records which ones the store carried out. */
  method InsertEveryLink(db: Database, m: int, items: seq<JsValue>) returns (ghost kept: seq<bool>)
    requires db.Valid()
    modifies db
    ensures db.Valid() && |kept| == |items|
    ensures db.Issued == old(db.Issued) + InsertLinks(m, items)
    ensures db.State() == old(db.State()).(links := old(db.links) + Selected(LinksFor(m, items), kept))
    ensures forall i :: 0 <= i < |items| && LinksFor(m, items)[i].tipoDeEvento.None? ==> !kept[i]
  {
    ghost var ls := LinksFor(m, items);
    ghost var cmds := InsertLinks(m, items);
    kept := [];
    for i := 0 to |items|
      invariant |kept| == i
      invariant db.Valid()
      invariant db.Issued == old(db.Issued) + cmds[..i]
      invariant db.State() == old(db.State()).(links := old(db.links) + Selected(ls[..i], kept))
      invariant forall k :: 0 <= k < i && ls[k].tipoDeEvento.None? ==> !kept[k]
    {
      ghost var before := db.State();
      var ok := InsertOneLink(db, m, items[i]);
      LinkAt(m, items, i);
      KeptStep(ls, i, kept, ok, old(db.State()), before, db.State());
      assert cmds[..i + 1] == cmds[..i] + [cmds[i]];
      kept := kept + [ok];
    }
    assert ls[..|items|] == ls;
    assert cmds[..|items|] == cmds;
  }


  /** The loop of updateMembro: link INSERTs in order until the first one
      the store does not carry out, after which nothing more is sent.
      `inserted` counts the links that went in; an element `number` cannot
      read stops the loop. */
  method InsertLinksUntilFailure(db: Database, m: int, items: seq<JsValue>) returns (sucesso: bool, ghost inserted: nat)
    requires db.Valid()
    modifies db
    ensures db.Valid() && inserted <= |items|
    ensures sucesso <==> inserted == |items|
    ensures sucesso ==> db.Issued == old(db.Issued) + InsertLinks(m, items)
    ensures !sucesso ==> db.Issued == old(db.Issued) + InsertLinks(m, items)[..inserted + 1]
    ensures db.State() == old(db.State()).(links := old(db.links) + LinksFor(m, items)[..inserted])
    ensures forall i :: 0 <= i < inserted ==> Number(items[i]).Some?
    ensures sucesso ==> forall i :: 0 <= i < |items| ==> Number(items[i]).Some?
  {
    ghost var ls := LinksFor(m, items);
    ghost var cmds := InsertLinks(m, items);
    sucesso := true;
    var i := 0;
    while i < |items|
      invariant 0 <= i <= |items|
      invariant db.Valid()
      invariant db.Issued == old(db.Issued) + cmds[..i]
      invariant db.State() == old(db.State()).(links := old(db.links) + ls[..i])
      invariant forall k :: 0 <= k < i ==> Number(items[k]).Some?
    {
      var ok := InsertOneLink(db, m, items[i]);
      assert cmds[i] == InsertLink(m, Number(items[i])) && ls[i] == Link(m, Number(items[i]));
      assert cmds[..i + 1] == cmds[..i] + [cmds[i]];
      if !ok {
        sucesso := false;
        break;
      }
      assert ls[..i + 1] == ls[..i] + [ls[i]];
      i := i + 1;
    }
    inserted := i;
    if sucesso {
      assert cmds[..i] == cmds;
    }
  }

  // ---------------------------------------------------------------------
  // The handlers

  /** The name and the list of types the create and update guards let
      through: `string(nome)` defined and not empty, `tiposDeEventos` an array. */
  function NomeAndTipos(req: Request): Option<(string, seq<JsValue>)>
  {
    var nome := String(Body(req, "nome"));
    var tipos := Body(req, "tiposDeEventos");
    if nome.None? || nome.value == "" || !tipos.Arr? then None else Some((nome.value, tipos.items))
  }

  /** POST: the member row first; without it (store failure or no
      `insertId`) the reply is 500 and no link is attempted. Then one link
      INSERT per element of the list, in order, whose failures are ignored:
      the reply echoes the request whatever became of the links. */
  method CreateMembro(db: Database, req: Request) returns (reply: Reply)
    requires db.Valid()
    modifies db
    ensures db.Valid()
    ensures NomeAndTipos(req).None? <==> reply == Ended(400, Invalid)
    ensures NomeAndTipos(req).None? ==> db.Issued == old(db.Issued) && db.State() == old(db.State())
    ensures NomeAndTipos(req).Some? ==> reply == Ended(500, CreateFailed) || reply.Json?
    ensures reply == Ended(500, CreateFailed) ==>
      && NomeAndTipos(req).Some?
      && db.Issued == old(db.Issued) + [InsertMembro(NomeAndTipos(req).value.0)]
      && db.State() == old(db.State())
    ensures reply.Json? ==>
      && NomeAndTipos(req).Some?
      && var (nome, items) := NomeAndTipos(req).value;
         var m := old(db.nextMembro);
         && reply == Json(Echo(m, nome, Arr(items)))
         && db.Issued == old(db.Issued) + [InsertMembro(nome)] + InsertLinks(m, items)
         && exists kept :: |kept| == |items| &&
              (forall i :: 0 <= i < |items| && LinksFor(m, items)[i].tipoDeEvento.None? ==> !kept[i]) &&
              db.State() == old(db.State()).(
                membros := old(db.membros) + [MembroRow(m, nome)],
                nextMembro := m + 1,
                links := old(db.links) + Selected(LinksFor(m, items), kept))
  {
    var nome := String(Body(req, "nome"));
    var tiposDeEventos := Body(req, "tiposDeEventos");
    if !Truthy(StrValue(nome)) || !tiposDeEventos.Arr? {
      reply := SendError(Str(Invalid), 400);
      return;
    }
    assert 1 <= db.nextMembro;
    var result := db.Execute(InsertMembro(nome.value));
    if result.None? || !Truthy(InsertIdOf(result.value)) {
      reply := SendError(Str(CreateFailed), 500);
      return;
    }
    var membroId := result.value.insertId;
    ghost var kept := InsertEveryLink(db, membroId, tiposDeEventos.items);
    reply := Json(Echo(membroId, nome.value, tiposDeEventos));
  }

  /** What updateMembro may have done once its guard let `m`, `nome` and
      `items` through, from tables `t0` and store log `log0` to tables `t`
      and log `log`. A failed rename (or one that matched no row) gives
      404 and nothing changed; past it the member exists. A failed delete
      gives 500 with the new name kept; a failed insert 500 with the new
      name and the links inserted before it; otherwise the request is
      echoed and the member has exactly the requested links. */
  ghost predicate UpdateOutcome(t0: Tables, log0: seq<Command>, m: int, nome: string, items: seq<JsValue>,
                                reply: Reply, t: Tables, log: seq<Command>)
  {
    var named := log0 + [UpdateMembroNome(nome, m)];
    var renamed := t0.(membros := RenameMembro(t0.membros, m, nome));
    && (reply == Ended(404, NomeFailed) || reply == Ended(500, LinksFailed) ||
        reply == Ended(500, AssociateFailed) || reply == Json(Echo(m, nome, Arr(items))))
    && (reply == Ended(404, NomeFailed) ==> log == named && t == t0)
    && (reply != Ended(404, NomeFailed) ==> MembroExists(t0, m))
    && (reply == Ended(500, LinksFailed) ==> log == named + [DeleteLinksOf(m)] && t == renamed)
    && (reply == Ended(500, AssociateFailed) ==>
          exists k :: PartlyRelinked(renamed, named, m, items, k, t, log))
    && (reply.Json? ==>
          && (forall i :: 0 <= i < |items| ==> Number(items[i]).Some?)
          && log == named + [DeleteLinksOf(m)] + InsertLinks(m, items)
          && t == UpdatedTables(t0, m, nome, items))
  }

  /** The first `k` links of the list went in and the INSERT of link `k` failed. */
  ghost predicate PartlyRelinked(t0: Tables, log0: seq<Command>, m: int, items: seq<JsValue>, k: int,
                                 t: Tables, log: seq<Command>)
  {
    && 0 <= k < |items|
    && log == log0 + [DeleteLinksOf(m)] + InsertLinks(m, items)[..k + 1]
    && t == t0.(links := Filter(t0.links, LinkNotOf(m)) + LinksFor(m, items)[..k])
  }

  /** The steps of updateMembro after the rename: delete the member's links,
      then insert the requested ones until the first failure. */
  method RelinkMembro(db: Database, m: int, nome: string, items: seq<JsValue>) returns (reply: Reply)
    requires db.Valid()
    modifies db
    ensures db.Valid()
    ensures reply == Ended(500, LinksFailed) || reply == Ended(500, AssociateFailed) || reply == Json(Echo(m, nome, Arr(items)))
    ensures reply == Ended(500, LinksFailed) ==>
      db.Issued == old(db.Issued) + [DeleteLinksOf(m)] && db.State() == old(db.State())
    ensures reply == Ended(500, AssociateFailed) ==>
      exists k :: PartlyRelinked(old(db.State()), old(db.Issued), m, items, k, db.State(), db.Issued)
    ensures reply.Json? ==>
      && (forall i :: 0 <= i < |items| ==> Number(items[i]).Some?)
      && db.Issued == old(db.Issued) + [DeleteLinksOf(m)] + InsertLinks(m, items)
      && db.State() == old(db.State()).(links := ReplaceLinks(old(db.links), m, items))
  {
    ghost var t0 := db.State();
    var resultDeleteTipos := db.Execute(DeleteLinksOf(m));
    if resultDeleteTipos.None? {
      reply := SendError(Str(LinksFailed), 500);
      return;
    }
    ghost var steps := db.Issued;
    var sucesso, inserted := InsertLinksUntilFailure(db, m, items);
    if !sucesso {
      reply := SendError(Str(AssociateFailed), 500);
      assert PartlyRelinked(t0, old(db.Issued), m, items, inserted, db.State(), db.Issued);
      return;
    }
    assert LinksFor(m, items)[..inserted] == LinksFor(m, items);
    reply := Json(Echo(m, nome, Arr(items)));
  }

  /** updateMembro past its guard: the rename, then the relinking. */
  method UpdateNamedMembro(db: Database, m: int, nome: string, items: seq<JsValue>) returns (reply: Reply)
    requires db.Valid()
    modifies db
    ensures db.Valid()
    ensures UpdateOutcome(old(db.State()), old(db.Issued), m, nome, items, reply, db.State(), db.Issued)
  {
    ghost var t0 := db.State();
    ghost var log0 := db.Issued;
    var resultUpdateNome := db.Execute(UpdateMembroNome(nome, m));
    if resultUpdateNome.None? || StrictEquals(AffectedRowsOf(resultUpdateNome.value), Num(0)) {
      if resultUpdateNome.Some? {
        RenameMembroAbsent(t0.membros, m, nome);
      }
      reply := SendError(Str(NomeFailed), 404);
      return;
    }
    MembroFound(t0.membros, m);
    ghost var renamed := t0.(membros := RenameMembro(t0.membros, m, nome));
    ghost var named := log0 + [UpdateMembroNome(nome, m)];
    assert db.State() == renamed && db.Issued == named;
    reply := RelinkMembro(db, m, nome, items);
    if reply == Ended(500, AssociateFailed) {
      ghost var k :| PartlyRelinked(renamed, named, m, items, k, db.State(), db.Issued);
    }
  }

  /** PUT: a truthy id, a non-empty `nome` and an array `tiposDeEventos`
      go on to the rename and the relinking (see UpdateOutcome); anything
      else is refused with 400 before the store is reached. */
  method UpdateMembro(db: Database, req: Request) returns (reply: Reply)
    requires db.Valid()
    modifies db
    ensures db.Valid()
    ensures PathId(req).None? || NomeAndTipos(req).None? <==> reply == Ended(400, Invalid)
    ensures reply == Ended(400, Invalid) ==> db.Issued == old(db.Issued) && db.State() == old(db.State())
    ensures PathId(req).Some? && NomeAndTipos(req).Some? ==>
      UpdateOutcome(old(db.State()), old(db.Issued), PathId(req).value, NomeAndTipos(req).value.0,
                    NomeAndTipos(req).value.1, reply, db.State(), db.Issued)
  {
    var membroId := Number(Param(req, "id"));
    var nome := String(Body(req, "nome"));
    var tiposDeEventos := Body(req, "tiposDeEventos");
    if !Truthy(NumValue(membroId)) || !Truthy(StrValue(nome)) || !tiposDeEventos.Arr? {
      reply := SendError(Str(Invalid), 400);
      return;
    }
    reply := UpdateNamedMembro(db, membroId.value, nome.value, tiposDeEventos.items);
  }

  /** The DELETE once the id is known: the rows with that id go, and the
      reply counts them. */
  method DeleteMembroById(db: Database, id: int) returns (reply: Reply)
    requires db.Valid()
    modifies db
    ensures db.Valid()
    ensures db.Issued == old(db.Issued) + [Store.DeleteMembro(id)]
    ensures reply == Ended(500, ServerError) || reply.Json?
    ensures reply.Ended? ==> db.State() == old(db.State())
    ensures reply.Json? ==>
      var kept := Filter(old(db.membros), MembroIdIsNot(id));
      && db.State() == old(db.State()).(membros := kept)
      && reply == Json(CountOf(Header(|old(db.membros)| - |kept|, 0)))
  {
    reply := SendResponse(db, Store.DeleteMembro(id), CountOf);
  }

  /** DELETE: a truthy id removes the member row only; its rows in
      `membros_tipoDeEventos` stay where they are. */
  method DeleteMembro(db: Database, req: Request) returns (reply: Reply)
    requires db.Valid()
    modifies db
    ensures db.Valid()
    ensures PathId(req).None? <==> reply == Ended(400, DeleteInvalid)
    ensures PathId(req).None? ==> db.Issued == old(db.Issued) && db.State() == old(db.State())
    ensures PathId(req).Some? ==> db.Issued == old(db.Issued) + [Store.DeleteMembro(PathId(req).value)]
    ensures reply == Ended(500, ServerError) ==> db.State() == old(db.State())
    ensures reply.Json? ==>
      && PathId(req).Some?
      && var kept := Filter(old(db.membros), MembroIdIsNot(PathId(req).value));
         && db.State() == old(db.State()).(membros := kept)
         && reply == Json(CountOf(Header(|old(db.membros)| - |kept|, 0)))
  {
    var id := Number(Param(req, "id"));
    if Truthy(NumValue(id)) {
      assert PathId(req) == id;
      reply := DeleteMembroById(db, id.value);
    } else {
      reply := SendError(Str(DeleteInvalid));
    }
  }

  // ---------------------------------------------------------------------
  // Reading: members with their nested event types

  /** `tipo.membroId === membro.id` */
  function RowOfMembro(id: int): LinkJoinRow -> bool
  {
    (row: LinkJoinRow) => row.membroId == id
  }

  /** The nested list of one member: its joined link rows, in row order, as
      `{id: tipoId, descritivo}`; empty for a member without links. */
  function TiposDoMembro(id: int, rows: seq<LinkJoinRow>): (r: seq<JsValue>)
    ensures |r| == |Filter(rows, RowOfMembro(id))|
  {
    var mine := Filter(rows, RowOfMembro(id));
    seq(|mine|, i requires 0 <= i < |mine| => TipoDeEventoRoutes.TipoEntry(Num(mine[i].tipoId), mine[i].descritivo))
  }

  /** The member's nested list holds exactly the entries of its own joined
      rows: each entry comes from a row of that member, and each row of
      that member gives an entry. */
  lemma TiposDoMembroEntries(id: int, rows: seq<LinkJoinRow>)
    ensures forall i :: 0 <= i < |TiposDoMembro(id, rows)| ==>
      exists row :: (row in rows && row.membroId == id &&
        TiposDoMembro(id, rows)[i] == TipoDeEventoRoutes.TipoEntry(Num(row.tipoId), row.descritivo))
    ensures forall row :: row in rows && row.membroId == id ==>
      TipoDeEventoRoutes.TipoEntry(Num(row.tipoId), row.descritivo) in TiposDoMembro(id, rows)
  {
    var mine := Filter(rows, RowOfMembro(id));
    var r := TiposDoMembro(id, rows);
    forall i | 0 <= i < |r|
      ensures exists row :: (row in rows && row.membroId == id &&
        r[i] == TipoDeEventoRoutes.TipoEntry(Num(row.tipoId), row.descritivo))
    {
      assert mine[i] in rows && RowOfMembro(id)(mine[i]);
      assert r[i] == TipoDeEventoRoutes.TipoEntry(Num(mine[i].tipoId), mine[i].descritivo);
    }
    forall row | row in rows && row.membroId == id
      ensures TipoDeEventoRoutes.TipoEntry(Num(row.tipoId), row.descritivo) in r
    {
      var j :| 0 <= j < |rows| && rows[j] == row;
      assert RowOfMembro(id)(rows[j]);
      var k :| 0 <= k < |mine| && mine[k] == row;
      assert r[k] == TipoDeEventoRoutes.TipoEntry(Num(row.tipoId), row.descritivo);
    }
  }

  /** A member without link rows gets an empty list. */
  lemma MembroWithoutLinks(id: int, rows: seq<LinkJoinRow>)
    requires forall j :: 0 <= j < |rows| ==> rows[j].membroId != id
    ensures TiposDoMembro(id, rows) == []
  {
    FilterDropsAll(rows, RowOfMembro(id));
  }

  /** `{id, nome, tiposDeEventos}` of one member row. */
  function MembroEntry(m: MembroRow, rows: seq<LinkJoinRow>): JsValue
  {
    Obj(map["id" := Num(m.id), "nome" := Str(m.nome), "tiposDeEventos" := Arr(TiposDoMembro(m.id, rows))])
  }

  /** `membros.map(...)`: one entry per member row, in the same order. */
  function AssembleMembros(membros: seq<MembroRow>, rows: seq<LinkJoinRow>): (r: seq<JsValue>)
    ensures |r| == |membros|
    ensures forall i :: 0 <= i < |r| ==> r[i] == MembroEntry(membros[i], rows)
  {
    seq(|membros|, i requires 0 <= i < |membros| => MembroEntry(membros[i], rows))
  }

  /** GET: both queries go through `sendResponse(null, ...)`; a failure of
      either throws, the second query is then not issued when the first
      failed, and the catch replies 500. */
  method ReadMembros(db: Database) returns (reply: Reply)
    requires db.Valid()
    modifies db
    ensures db.Valid() && db.State() == old(db.State())
    ensures || (reply == Ended(500, ReadFailed) && db.Issued == old(db.Issued) + [SelectMembros])
            || (reply == Ended(500, ReadFailed) && db.Issued == old(db.Issued) + [SelectMembros, SelectLinks])
            || (&& reply == Json(Arr(AssembleMembros(db.membros, LinkJoin(db.links, db.tipos))))
                && db.Issued == old(db.Issued) + [SelectMembros, SelectLinks])
  {
    var membros := SendResponseNull(db, SelectMembros, (result: ExecResult) => result);
    if membros.Thrown? {
      reply := SendError(Str(ReadFailed), 500);
      return;
    }
    var tipos := SendResponseNull(db, SelectLinks, (result: ExecResult) => result);
    if tipos.Thrown? || !membros.value.MembroRows? || !tipos.value.LinkRows? {
      reply := SendError(Str(ReadFailed), 500);
      return;
    }
    reply := Json(Arr(AssembleMembros(membros.value.membroRows, tipos.value.linkRows)));
  }

  // ---------------------------------------------------------------------
  // What the link steps guarantee

  /** Appending rows of member `m` after deleting m's rows leaves m with
      exactly the appended rows, in order, and every other member with the
      rows it had, in order. This covers the complete update (the whole
      list) and the one stopped by a failed insert (a prefix of it). */
  lemma OwnLinksAfter(links: seq<Link>, m: int, added: seq<Link>)
    requires forall i :: 0 <= i < |added| ==> added[i].membro == m
    ensures Filter(Filter(links, LinkNotOf(m)) + added, LinkOf(m)) == added
    ensures forall other :: other != m ==>
      Filter(Filter(links, LinkNotOf(m)) + added, LinkOf(other)) == Filter(links, LinkOf(other))
  {
    var kept := Filter(links, LinkNotOf(m));
    FilterConcat(kept, added, LinkOf(m));
    FilterDropsAll(kept, LinkOf(m));
    FilterKeepsAll(added, LinkOf(m));
    forall other | other != m
      ensures Filter(kept + added, LinkOf(other)) == Filter(links, LinkOf(other))
    {
      FilterConcat(kept, added, LinkOf(other));
      FilterDropsAll(added, LinkOf(other));
      FilterNarrow(links, LinkNotOf(m), LinkOf(other));
    }
  }

  /** A complete update leaves the member with exactly one link per element
      of the list, in order, with no old type lingering. */
  lemma UpdateMembroLinks(t: Tables, m: int, nome: string, items: seq<JsValue>)
    ensures Filter(UpdatedTables(t, m, nome, items).links, LinkOf(m)) == LinksFor(m, items)
    ensures forall other :: other != m ==>
      Filter(UpdatedTables(t, m, nome, items).links, LinkOf(other)) == Filter(t.links, LinkOf(other))
  {
    OwnLinksAfter(t.links, m, LinksFor(m, items));
  }

  lemma ReplaceLinksIdempotent(links: seq<Link>, m: int, items: seq<JsValue>)
    ensures ReplaceLinks(ReplaceLinks(links, m, items), m, items) == ReplaceLinks(links, m, items)
  {
    var kept := Filter(links, LinkNotOf(m));
    var added := LinksFor(m, items);
    FilterConcat(kept, added, LinkNotOf(m));
    FilterIdempotent(links, LinkNotOf(m));
    FilterDropsAll(added, LinkNotOf(m));
    assert Filter(kept + added, LinkNotOf(m)) == kept;
  }

  lemma RenameMembroIdempotent(rows: seq<MembroRow>, id: int, nome: string)
    ensures RenameMembro(RenameMembro(rows, id, nome), id, nome) == RenameMembro(rows, id, nome)
  {
  }

  /** Running a complete update twice with the same request ends where
      running it once does. */
  lemma UpdateMembroIdempotent(t: Tables, m: int, nome: string, items: seq<JsValue>)
    ensures UpdatedTables(UpdatedTables(t, m, nome, items), m, nome, items) == UpdatedTables(t, m, nome, items)
  {
    ReplaceLinksIdempotent(t.links, m, items);
    RenameMembroIdempotent(t.membros, m, nome);
  }

  /** Every link a create attempted for the new member and the store kept
      is keyed on that member, in list order; with no failure they are one
      per element of the list. */
  lemma CreateMembroLinks(m: int, items: seq<JsValue>, mask: seq<bool>)
    requires |mask| == |items|
    ensures forall i :: 0 <= i < |Selected(LinksFor(m, items), mask)| ==> Selected(LinksFor(m, items), mask)[i].membro == m
    ensures (forall i :: 0 <= i < |mask| ==> mask[i]) ==> Selected(LinksFor(m, items), mask) == LinksFor(m, items)
  {
    var ls := LinksFor(m, items);
    var chosen := Selected(ls, mask);
    SelectedWithin(ls, mask);
    forall i | 0 <= i < |chosen|
      ensures chosen[i].membro == m
    {
      assert chosen[i] in chosen;
      var j :| 0 <= j < |ls| && ls[j] == chosen[i];
    }
    if forall i :: 0 <= i < |mask| ==> mask[i] {
      SelectedAll(LinksFor(m, items), mask);
    }
  }

  /** The joined rows of one member are the join of that member's links. */
  lemma {:induction false} JoinedRowsOfMembro(links: seq<Link>, tipos: seq<TipoRow>, m: int)
    ensures Filter(LinkJoin(links, tipos), RowOfMembro(m)) == LinkJoin(Filter(links, LinkOf(m)), tipos)
  {
    if links != [] {
      var head := JoinLink(links[0], tipos);
      JoinedRowsOfMembro(links[1..], tipos, m);
      FilterConcat(head, LinkJoin(links[1..], tipos), RowOfMembro(m));
      if links[0].membro == m {
        FilterKeepsAll(head, RowOfMembro(m));
        assert Filter(links, LinkOf(m)) == [links[0]] + Filter(links[1..], LinkOf(m));
      } else {
        FilterDropsAll(head, RowOfMembro(m));
        assert Filter(links, LinkOf(m)) == Filter(links[1..], LinkOf(m));
      }
    }
  }

  /** After a complete update, reading the members shows the updated
      member with one nested type per element of the list whose type exists,
      in list order. */
  lemma ReadAfterUpdateMembro(t: Tables, m: int, nome: string, items: seq<JsValue>)
    ensures var t1 := UpdatedTables(t, m, nome, items);
      Filter(LinkJoin(t1.links, t1.tipos), RowOfMembro(m)) == LinkJoin(LinksFor(m, items), t.tipos)
  {
    var t1 := UpdatedTables(t, m, nome, items);
    JoinedRowsOfMembro(t1.links, t1.tipos, m);
    UpdateMembroLinks(t, m, nome, items);
  }

  /** The ids of a list of member rows. */
  function IdsOf(membros: seq<MembroRow>): set<int>
  {
    set i | 0 <= i < |membros| :: membros[i].id
  }

  /** Whether a joined row belongs to one of the given members. */
  function RowOfAny(ids: set<int>): LinkJoinRow -> bool
  {
    (row: LinkJoinRow) => row.membroId in ids
  }

  /** The number of nested entries the read reply holds in all. */
  function EntryCount(membros: seq<MembroRow>, rows: seq<LinkJoinRow>): nat
  {
    if membros == [] then 0 else |TiposDoMembro(membros[0].id, rows)| + EntryCount(membros[1..], rows)
  }

  /** Link rows of members that no longer exist change nothing in the read reply. */
  lemma OrphanRowsIgnored(membros: seq<MembroRow>, rows: seq<LinkJoinRow>)
    ensures AssembleMembros(membros, Filter(rows, RowOfAny(IdsOf(membros)))) == AssembleMembros(membros, rows)
  {
    forall i | 0 <= i < |membros|
      ensures TiposDoMembro(membros[i].id, Filter(rows, RowOfAny(IdsOf(membros)))) == TiposDoMembro(membros[i].id, rows)
    {
      FilterNarrow(rows, RowOfAny(IdsOf(membros)), RowOfMembro(membros[i].id));
    }
  }

  /** The ids of a non-empty list: the first one and those of the rest. */
  lemma IdsOfCons(membros: seq<MembroRow>)
    requires membros != []
    ensures IdsOf(membros) == {membros[0].id} + IdsOf(membros[1..])
  {
    var rest := membros[1..];
    forall x | x in IdsOf(membros) ensures x in {membros[0].id} + IdsOf(rest) {
      var i :| 0 <= i < |membros| && membros[i].id == x;
      if i > 0 {
        assert rest[i - 1] == membros[i];
      }
    }
    forall x | x in IdsOf(rest) ensures x in IdsOf(membros) {
      var i :| 0 <= i < |rest| && rest[i].id == x;
      assert membros[i + 1] == rest[i];
    }
    assert membros[0].id in IdsOf(membros);
  }

  /** With distinct member ids (as the table's keys are), every link row of
      an existing member is nested exactly once and no other row is:
      the reply partitions those rows among the members. */
  lemma {:induction false} NestedRowsPartition(membros: seq<MembroRow>, rows: seq<LinkJoinRow>, low: int, next: int)
    requires KeyedBetween(membros, MembroId, low, next)
    ensures EntryCount(membros, rows) == |Filter(rows, RowOfAny(IdsOf(membros)))|
  {
    if membros == [] {
      FilterDropsAll(rows, RowOfAny(IdsOf(membros)));
    } else {
      var a := membros[0];
      var rest := membros[1..];
      NestedRowsPartition(rest, rows, a.id + 1, next);
      KeyedBounds(rest, MembroId, a.id + 1, next);
      assert a.id !in IdsOf(rest);
      IdsOfCons(membros);
      FilterSplitsUnion(rows, RowOfAny(IdsOf(membros)), RowOfMembro(a.id), RowOfAny(IdsOf(rest)));
    }
  }

  /** In valid tables the read reply nests each link row of an existing
      member exactly once. */
  lemma ReadMembrosPartition(t: Tables)
    requires TablesValid(t)
    ensures var rows := LinkJoin(t.links, t.tipos);
      EntryCount(t.membros, rows) == |Filter(rows, RowOfAny(IdsOf(t.membros)))|
  {
    NestedRowsPartition(t.membros, LinkJoin(t.links, t.tipos), 1, t.nextMembro);
  }

  /** Deleting a member keeps its link rows, which the read then drops. */
  lemma DeleteMembroOrphansLinks(t: Tables, id: int)
    ensures var t1 := Apply(t, Store.DeleteMembro(id)).0;
      t1.links == t.links && id !in IdsOf(t1.membros)
  {
    var t1 := Apply(t, Store.DeleteMembro(id)).0;
    assert forall i :: 0 <= i < |t1.membros| ==> MembroIdIsNot(id)(t1.membros[i]);
  }
}
