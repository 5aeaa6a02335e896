/** The relational store behind `execute` (scripts/db.js): the tables
    `tipoDeEventos`, `eventos`, `membros` and `membros_tipoDeEventos`, the
    parametrised commands the route handlers send, and what each command does
    to the tables when the store carries it out.

    A table is the sequence of its rows in primary-key order; identifiers are
    handed out by an AUTO_INCREMENT counter, so a new row goes at the end. The
    link table has no key of its own and keeps its rows in insertion order.
    No foreign key, uniqueness constraint or cascade is assumed. */
module Store {
  import opened Wrappers
  import opened Seqs

  datatype TipoRow = TipoRow(id: int, descritivo: string)
  datatype EventoRow = EventoRow(id: int, descritivo: Option<string>, tipoDeEvento: Option<int>, data: Option<string>)
  datatype MembroRow = MembroRow(id: int, nome: string)
  /** A row of `membros_tipoDeEventos`; the column `tipoDeEvento` is
      nullable, though no command the store carries out writes NULL (see
      `Bindable`). */
  datatype Link = Link(membro: int, tipoDeEvento: Option<int>)

  /** A row of the read-evento join: the event's columns and the label of its type. */
  datatype EventoJoinRow = EventoJoinRow(id: int, descritivo: Option<string>, data: Option<string>, tipo: string)
  /** A row of the read-membro join: a link row with its type's id and label. */
  datatype LinkJoinRow = LinkJoinRow(membroId: int, tipoId: int, descritivo: string)

  /** The SQL commands of the route handlers, with their bound parameters.
      An `Option` parameter is one the handler may bind to `undefined`
      (None). */
  datatype Command =
    | InsertTipo(descritivo: string)
    | SelectTipos
    | UpdateTipo(descritivo: string, id: int)
    | DeleteTipo(id: int)
    | InsertEvento(descritivo: string, tipoDeEvento: Option<int>, data: Option<string>)
    | SelectEventos
    | UpdateEvento(newDescritivo: Option<string>, newTipo: Option<int>, newData: Option<string>, target: Option<int>)
    | DeleteEvento(id: int)
    | InsertMembro(nome: string)
    | SelectMembros
    | SelectLinks
    | UpdateMembroNome(nome: string, id: int)
    | DeleteLinksOf(membro: int)
    | InsertLink(membro: int, tipoDeEvento: Option<int>)
    | DeleteMembro(id: int)

  /** What the driver hands back: a result header for a write, rows for a read.
      `affectedRows` counts the rows a WHERE clause matched. */
  /** The driver's prepared statements refuse a command with an `undefined`
      bind parameter before it reaches the server, so `execute` fails on it. */
  predicate Bindable(c: Command)
  {
    match c
    case InsertEvento(_, tipoDeEvento, data) => tipoDeEvento.Some? && data.Some?
    case UpdateEvento(d, tipoDeEvento, data, target) => d.Some? && tipoDeEvento.Some? && data.Some? && target.Some?
    case InsertLink(_, tipoDeEvento) => tipoDeEvento.Some?
    case _ => true
  }

  datatype ExecResult =
    | Header(affectedRows: nat, insertId: int)
    | TipoRows(tipoRows: seq<TipoRow>)
    | EventoRows(eventoRows: seq<EventoJoinRow>)
    | MembroRows(membroRows: seq<MembroRow>)
    | LinkRows(linkRows: seq<LinkJoinRow>)

  datatype Tables = Tables(
    tipos: seq<TipoRow>,
    eventos: seq<EventoRow>,
    membros: seq<MembroRow>,
    links: seq<Link>,
    nextTipo: int,
    nextEvento: int,
    nextMembro: int)

  const Empty := Tables([], [], [], [], 1, 1, 1)

  // ---------------------------------------------------------------------
  // Row selectors used by WHERE clauses

  function TipoId(r: TipoRow): int { r.id }
  function EventoId(r: EventoRow): int { r.id }
  function MembroId(r: MembroRow): int { r.id }

  function TipoIdIsNot(id: int): TipoRow -> bool { (r: TipoRow) => r.id != id }
  function TipoIdIs(id: int): TipoRow -> bool { (r: TipoRow) => r.id == id }
  function EventoIdIsNot(id: int): EventoRow -> bool { (r: EventoRow) => r.id != id }
  function EventoIdIs(id: Option<int>): EventoRow -> bool { (r: EventoRow) => id == Some(r.id) }
  function MembroIdIsNot(id: int): MembroRow -> bool { (r: MembroRow) => r.id != id }
  function MembroIdIs(id: int): MembroRow -> bool { (r: MembroRow) => r.id == id }
  /** `WHERE membro = ?` */
  function LinkOf(membro: int): Link -> bool { (l: Link) => l.membro == membro }
  function LinkNotOf(membro: int): Link -> bool { (l: Link) => l.membro != membro }
  /** `ON x.tipoDeEvento = t.id`: NULL matches no row. */
  function TipoMatches(ref: Option<int>): TipoRow -> bool { (t: TipoRow) => ref == Some(t.id) }

  function RenameTipo(rows: seq<TipoRow>, id: int, descritivo: string): (r: seq<TipoRow>)
    ensures |r| == |rows|
    ensures forall i :: 0 <= i < |r| ==> r[i].id == rows[i].id
  {
    seq(|rows|, i requires 0 <= i < |rows| => if rows[i].id == id then rows[i].(descritivo := descritivo) else rows[i])
  }

  function RewriteEvento(rows: seq<EventoRow>, c: Command): (r: seq<EventoRow>)
    requires c.UpdateEvento?
    ensures |r| == |rows|
    ensures forall i :: 0 <= i < |r| ==> r[i].id == rows[i].id
  {
    seq(|rows|, i requires 0 <= i < |rows| =>
      if c.target == Some(rows[i].id) then EventoRow(rows[i].id, c.newDescritivo, c.newTipo, c.newData) else rows[i])
  }

  function RenameMembro(rows: seq<MembroRow>, id: int, nome: string): (r: seq<MembroRow>)
    ensures |r| == |rows|
    ensures forall i :: 0 <= i < |r| ==> r[i].id == rows[i].id
  {
    seq(|rows|, i requires 0 <= i < |rows| => if rows[i].id == id then rows[i].(nome := nome) else rows[i])
  }

  // ---------------------------------------------------------------------
  // The two joins

  /** The rows `e JOIN tipoDeEventos t ON e.tipoDeEvento = t.id` yields for one event. */
  function JoinEvento(e: EventoRow, tipos: seq<TipoRow>): seq<EventoJoinRow>
  {
    var m := Filter(tipos, TipoMatches(e.tipoDeEvento));
    seq(|m|, i requires 0 <= i < |m| => EventoJoinRow(e.id, e.descritivo, e.data, m[i].descritivo))
  }

  /** `SELECT e.id, e.descritivo, e.data, t.descritivo AS tipo FROM eventos e JOIN tipoDeEventos t ...` */
  function EventoJoin(eventos: seq<EventoRow>, tipos: seq<TipoRow>): seq<EventoJoinRow>
  {
    if eventos == [] then [] else JoinEvento(eventos[0], tipos) + EventoJoin(eventos[1..], tipos)
  }

  lemma {:induction false} EventoJoinConcat(a: seq<EventoRow>, b: seq<EventoRow>, tipos: seq<TipoRow>)
    ensures EventoJoin(a + b, tipos) == EventoJoin(a, tipos) + EventoJoin(b, tipos)
  {
    if a == [] {
      assert a + b == b;
    } else {
      assert (a + b)[1..] == a[1..] + b;
      EventoJoinConcat(a[1..], b, tipos);
    }
  }

  /** The rows `mt JOIN tipoDeEventos te ON mt.tipoDeEvento = te.id` yields for one link. */
  function JoinLink(l: Link, tipos: seq<TipoRow>): seq<LinkJoinRow>
  {
    var m := Filter(tipos, TipoMatches(l.tipoDeEvento));
    seq(|m|, i requires 0 <= i < |m| => LinkJoinRow(l.membro, m[i].id, m[i].descritivo))
  }

  /** `SELECT mt.membro AS membroId, te.id AS tipoId, te.descritivo FROM membros_tipoDeEventos mt JOIN ...` */
  function LinkJoin(links: seq<Link>, tipos: seq<TipoRow>): seq<LinkJoinRow>
  {
    if links == [] then [] else JoinLink(links[0], tipos) + LinkJoin(links[1..], tipos)
  }

  lemma {:induction false} LinkJoinConcat(a: seq<Link>, b: seq<Link>, tipos: seq<TipoRow>)
    ensures LinkJoin(a + b, tipos) == LinkJoin(a, tipos) + LinkJoin(b, tipos)
  {
    if a == [] {
      assert a + b == b;
    } else {
      assert (a + b)[1..] == a[1..] + b;
      LinkJoinConcat(a[1..], b, tipos);
    }
  }

  // ---------------------------------------------------------------------
  // What a command does

  /** The new tables and the driver's result when the store carries out `c`. */
  function Apply(t: Tables, c: Command): (Tables, ExecResult)
  {
    match c
    case InsertTipo(d) =>
      (t.(tipos := t.tipos + [TipoRow(t.nextTipo, d)], nextTipo := t.nextTipo + 1), Header(1, t.nextTipo))
    case SelectTipos =>
      (t, TipoRows(t.tipos))
    case UpdateTipo(d, id) =>
      (t.(tipos := RenameTipo(t.tipos, id, d)), Header(|Filter(t.tipos, TipoIdIs(id))|, 0))
    case DeleteTipo(id) =>
      var kept := Filter(t.tipos, TipoIdIsNot(id));
      (t.(tipos := kept), Header(|t.tipos| - |kept|, 0))
    case InsertEvento(d, k, data) =>
      (t.(eventos := t.eventos + [EventoRow(t.nextEvento, Some(d), k, data)], nextEvento := t.nextEvento + 1),
       Header(1, t.nextEvento))
    case SelectEventos =>
      (t, EventoRows(EventoJoin(t.eventos, t.tipos)))
    case UpdateEvento(_, _, _, target) =>
      (t.(eventos := RewriteEvento(t.eventos, c)), Header(|Filter(t.eventos, EventoIdIs(target))|, 0))
    case DeleteEvento(id) =>
      var kept := Filter(t.eventos, EventoIdIsNot(id));
      (t.(eventos := kept), Header(|t.eventos| - |kept|, 0))
    case InsertMembro(nome) =>
      (t.(membros := t.membros + [MembroRow(t.nextMembro, nome)], nextMembro := t.nextMembro + 1),
       Header(1, t.nextMembro))
    case SelectMembros =>
      (t, MembroRows(t.membros))
    case SelectLinks =>
      (t, LinkRows(LinkJoin(t.links, t.tipos)))
    case UpdateMembroNome(nome, id) =>
      (t.(membros := RenameMembro(t.membros, id, nome)), Header(|Filter(t.membros, MembroIdIs(id))|, 0))
    case DeleteLinksOf(m) =>
      var kept := Filter(t.links, LinkNotOf(m));
      (t.(links := kept), Header(|t.links| - |kept|, 0))
    case InsertLink(m, k) =>
      (t.(links := t.links + [Link(m, k)]), Header(1, 0))
    case DeleteMembro(id) =>
      var kept := Filter(t.membros, MembroIdIsNot(id));
      (t.(membros := kept), Header(|t.membros| - |kept|, 0))
  }

  // ---------------------------------------------------------------------
  // The tables' invariant: keys strictly increase and lie below the counter

  /** The keys of `rows` strictly increase, starting at `low` or above and
      staying below `next`. */
  ghost predicate KeyedBetween<T>(rows: seq<T>, key: T -> int, low: int, next: int)
  {
    rows == [] || (low <= key(rows[0]) < next && KeyedBetween(rows[1..], key, key(rows[0]) + 1, next))
  }

  ghost predicate KeyedBelow<T>(rows: seq<T>, key: T -> int, next: int)
  {
    1 <= next && KeyedBetween(rows, key, 1, next)
  }

  ghost predicate TablesValid(t: Tables)
  {
    && KeyedBelow(t.tipos, TipoId, t.nextTipo)
    && KeyedBelow(t.eventos, EventoId, t.nextEvento)
    && KeyedBelow(t.membros, MembroId, t.nextMembro)
  }

  lemma {:induction false} KeyedBetweenWeaken<T>(rows: seq<T>, key: T -> int, low: int, low': int, next: int)
    requires KeyedBetween(rows, key, low', next) && low <= low'
    ensures KeyedBetween(rows, key, low, next)
  {
  }

  lemma {:induction false} KeyedBetweenFilter<T>(rows: seq<T>, key: T -> int, low: int, next: int, keep: T -> bool)
    requires KeyedBetween(rows, key, low, next)
    ensures KeyedBetween(Filter(rows, keep), key, low, next)
  {
    if rows != [] {
      var k := key(rows[0]) + 1;
      KeyedBetweenFilter(rows[1..], key, k, next, keep);
      var rest := Filter(rows[1..], keep);
      if keep(rows[0]) {
        var r := [rows[0]] + rest;
        assert Filter(rows, keep) == r && r[1..] == rest;
      } else {
        assert Filter(rows, keep) == rest;
        KeyedBetweenWeaken(rest, key, low, k, next);
      }
    }
  }

  lemma {:induction false} KeyedBetweenSameKeys<T>(a: seq<T>, b: seq<T>, key: T -> int, low: int, next: int)
    requires KeyedBetween(a, key, low, next)
    requires |a| == |b| && forall i :: 0 <= i < |a| ==> key(b[i]) == key(a[i])
    ensures KeyedBetween(b, key, low, next)
  {
    if a != [] {
      KeyedBetweenSameKeys(a[1..], b[1..], key, key(a[0]) + 1, next);
    }
  }

  lemma {:induction false} KeyedBetweenAppend<T>(rows: seq<T>, key: T -> int, low: int, next: int, row: T)
    requires KeyedBetween(rows, key, low, next) && low <= next && key(row) == next
    ensures KeyedBetween(rows + [row], key, low, next + 1)
  {
    if rows == [] {
      assert ([row])[1..] == [];
    } else {
      assert (rows + [row])[1..] == rows[1..] + [row];
      KeyedBetweenAppend(rows[1..], key, key(rows[0]) + 1, next, row);
    }
  }

  lemma {:induction false} KeyedBounds<T>(rows: seq<T>, key: T -> int, low: int, next: int)
    requires KeyedBetween(rows, key, low, next)
    ensures forall i :: 0 <= i < |rows| ==> low <= key(rows[i]) < next
  {
    if rows != [] {
      KeyedBounds(rows[1..], key, key(rows[0]) + 1, next);
      assert forall i :: 1 <= i < |rows| ==> rows[i] == rows[1..][i - 1];
    }
  }

  /** With increasing keys, a test for one key matches one row when a row
      has that key and none otherwise. */
  lemma {:induction false} KeyedMatchesOne<T>(rows: seq<T>, key: T -> int, low: int, next: int, keep: T -> bool, k: int)
    requires KeyedBetween(rows, key, low, next)
    requires forall x :: keep(x) <==> key(x) == k
    ensures |Filter(rows, keep)| == if exists i :: 0 <= i < |rows| && key(rows[i]) == k then 1 else 0
  {
    if rows != [] {
      var rest := rows[1..];
      KeyedBounds(rest, key, key(rows[0]) + 1, next);
      if key(rows[0]) == k {
        FilterDropsAll(rest, keep);
      } else {
        KeyedMatchesOne(rest, key, key(rows[0]) + 1, next, keep, k);
        if exists i :: 0 <= i < |rows| && key(rows[i]) == k {
          var i :| 0 <= i < |rows| && key(rows[i]) == k;
          assert rest[i - 1] == rows[i];
        } else {
          assert forall i :: 0 <= i < |rest| ==> rest[i] == rows[i + 1];
        }
      }
    }
  }

  /** In valid tables, the count an UPDATE or DELETE of an event type
      reports is 1 when a type has that id and 0 otherwise. */
  lemma TipoAffectedRows(t: Tables, d: string, id: int)
    requires TablesValid(t)
    ensures var n := if exists i :: 0 <= i < |t.tipos| && t.tipos[i].id == id then 1 else 0;
      Apply(t, UpdateTipo(d, id)).1 == Header(n, 0) && Apply(t, DeleteTipo(id)).1 == Header(n, 0)
  {
    KeyedMatchesOne(t.tipos, TipoId, 1, t.nextTipo, TipoIdIs(id), id);
    FilterSplitsLength(t.tipos, TipoIdIs(id), TipoIdIsNot(id));
  }

  /** The same for events, matched on the UPDATE's or the DELETE's id. */
  lemma EventoAffectedRows(t: Tables, c: Command)
    requires TablesValid(t) && (c.UpdateEvento? || c.DeleteEvento?)
    ensures var target := if c.UpdateEvento? then c.target else Some(c.id);
      var n := if exists i :: 0 <= i < |t.eventos| && target == Some(t.eventos[i].id) then 1 else 0;
      Apply(t, c).1 == Header(n, 0)
  {
    if c.UpdateEvento? {
      if c.target.Some? {
        KeyedMatchesOne(t.eventos, EventoId, 1, t.nextEvento, EventoIdIs(c.target), c.target.value);
      } else {
        FilterDropsAll(t.eventos, EventoIdIs(c.target));
      }
    } else {
      KeyedMatchesOne(t.eventos, EventoId, 1, t.nextEvento, EventoIdIs(Some(c.id)), c.id);
      FilterSplitsLength(t.eventos, EventoIdIs(Some(c.id)), EventoIdIsNot(c.id));
    }
  }

  /** The same for members. */
  lemma MembroAffectedRows(t: Tables, c: Command)
    requires TablesValid(t) && (c.UpdateMembroNome? || c.DeleteMembro?)
    ensures var n := if exists i :: 0 <= i < |t.membros| && t.membros[i].id == c.id then 1 else 0;
      Apply(t, c).1 == Header(n, 0)
  {
    KeyedMatchesOne(t.membros, MembroId, 1, t.nextMembro, MembroIdIs(c.id), c.id);
    if c.DeleteMembro? {
      FilterSplitsLength(t.membros, MembroIdIs(c.id), MembroIdIsNot(c.id));
    }
  }

  /** Every command keeps the keys of every table increasing and below their counters. */
  lemma ApplyPreservesValid(t: Tables, c: Command)
    requires TablesValid(t)
    ensures TablesValid(Apply(t, c).0)
  {
    var t' := Apply(t, c).0;
    match c
    case InsertTipo(d) =>
      KeyedBetweenAppend(t.tipos, TipoId, 1, t.nextTipo, TipoRow(t.nextTipo, d));
    case UpdateTipo(d, id) =>
      KeyedBetweenSameKeys(t.tipos, t'.tipos, TipoId, 1, t.nextTipo);
    case DeleteTipo(id) =>
      KeyedBetweenFilter(t.tipos, TipoId, 1, t.nextTipo, TipoIdIsNot(id));
    case InsertEvento(d, k, data) =>
      KeyedBetweenAppend(t.eventos, EventoId, 1, t.nextEvento, EventoRow(t.nextEvento, Some(d), k, data));
    case UpdateEvento(_, _, _, _) =>
      KeyedBetweenSameKeys(t.eventos, t'.eventos, EventoId, 1, t.nextEvento);
    case DeleteEvento(id) =>
      KeyedBetweenFilter(t.eventos, EventoId, 1, t.nextEvento, EventoIdIsNot(id));
    case InsertMembro(nome) =>
      KeyedBetweenAppend(t.membros, MembroId, 1, t.nextMembro, MembroRow(t.nextMembro, nome));
    case UpdateMembroNome(nome, id) =>
      KeyedBetweenSameKeys(t.membros, t'.membros, MembroId, 1, t.nextMembro);
    case DeleteMembro(id) =>
      KeyedBetweenFilter(t.membros, MembroId, 1, t.nextMembro, MembroIdIsNot(id));
    case _ =>
  }

  // ---------------------------------------------------------------------
  // The store itself

  /** The database the handlers reach through `execute`. `Issued` records
      every command handed to `execute`, whether or not the store ran it. */
  class Database {
    var tipos: seq<TipoRow>
    var eventos: seq<EventoRow>
    var membros: seq<MembroRow>
    var links: seq<Link>
    var nextTipo: int
    var nextEvento: int
    var nextMembro: int
    ghost var Issued: seq<Command>

    function State(): Tables
      reads this
    {
      Tables(tipos, eventos, membros, links, nextTipo, nextEvento, nextMembro)
    }

    ghost predicate Valid()
      reads this
    {
      TablesValid(State())
    }

    constructor ()
      ensures Valid() && State() == Empty && Issued == []
    {
      tipos, eventos, membros, links := [], [], [], [];
      nextTipo, nextEvento, nextMembro := 1, 1, 1;
      Issued := [];
    }

    /** Every table and counter takes its value from `t`. */
    method Replace(t: Tables)
      modifies this
      ensures State() == t && Issued == old(Issued)
    {
      tipos, eventos, membros, links := t.tipos, t.eventos, t.membros, t.links;
      nextTipo, nextEvento, nextMembro := t.nextTipo, t.nextEvento, t.nextMembro;
    }

    /** `execute(command, parameters)`: the store either carries the command
        out or fails (connection lost, constraint violated, an `undefined`
        parameter), in which case nothing changes and the caller sees
        `undefined`. It never throws. */
    method Execute(command: Command) returns (result: Option<ExecResult>)
      requires Valid()
      modifies this
      ensures Valid()
      ensures Issued == old(Issued) + [command]
      ensures !Bindable(command) ==> result.None?
      ensures result.None? ==> State() == old(State())
      ensures result.Some? ==> State() == Apply(old(State()), command).0 && result.value == Apply(old(State()), command).1
    {
      Issued := Issued + [command];
      if !Bindable(command) {
        return None;
      }
      var failed: bool := *;
      if failed {
        return None;
      }
      ApplyPreservesValid(State(), command);
      var (t, r) := Apply(State(), command);
      Replace(t);
      result := Some(r);
    }
  }
}
