/** The browser-side cache of www/scripts/scripts.js: the global arrays
    `tiposDeEventos`, `eventos` and `membros`, the functions that fill them
    from the server's answers, the deletions with their referential
    guards, and enrolling a member in an event and out of it.

    Each `fetch` is reduced to its outcome: the parsed JSON rows of a
    successful GET (None when `response.ok` is false), or whether a DELETE
    succeeded. The alerts are reduced to the outcome a call returns. */
module ClientCache {
  import opened Wrappers
  import opened Seqs
  import opened Js
  import opened ClientEntities
  import MembroRoutes

  /** How a deletion ended: refused by a guard, done, or refused by the
      server (the cache is then left as it was). */
  datatype Deletion = InUseByEvento | InUseByMembro | Deleted | ServerRefused

  /** How enrolling ended: no cached event has the chosen id, the member
      was enrolled already, or the event was added. */
  datatype Enrolment = NoSuchEvento | AlreadyEnrolled | Enrolled

  /** How unenrolling ended: the member has no events, none of them has
      the chosen id, or the events with that id were removed. */
  datatype Unenrolment = NoneEnrolled | NotEnrolled | Unenrolled

  /** `(e) => e.id === id` */
  function EventoIdIs(id: JsValue): Evento -> bool
  {
    (e: Evento) => StrictEquals(e.id, id)
  }

  /** `(e) => e.id !== id` */
  function EventoIdIsNot(id: JsValue): Evento -> bool
  {
    (e: Evento) => !StrictEquals(e.id, id)
  }

  /** `(m) => m.id !== id` */
  function MembroIdIsNot(id: JsValue): Membro -> bool
  {
    (m: Membro) => !StrictEquals(m.id, id)
  }

  /** `(t) => t.id === id` */
  function TipoIdIs(id: JsValue): TipoDeEvento -> bool
  {
    (t: TipoDeEvento) => StrictEquals(t.id, id)
  }

  // ---------------------------------------------------------------------
  // Resolving the server's rows to cached instances

  /** `tipos.find((t) => t.descritivo === descritivo)` wrapped as an array
      element: the first cached type with that label, or `undefined`. */
  function TipoOfLabel(tipos: seq<TipoDeEvento>, descritivo: JsValue): (r: Item<TipoDeEvento>)
    reads tipos
    ensures r.Instance? ==> r.obj in tipos && StrictEquals(r.obj.descritivo, descritivo)
    ensures r.Plain? ==> r == Plain(Undefined)
    ensures r.Plain? <==> forall i :: 0 <= i < |tipos| ==> !StrictEquals(tipos[i].descritivo, descritivo)
  {
    if tipos == [] then Plain(Undefined)
    else if StrictEquals(tipos[0].descritivo, descritivo) then Instance(tipos[0])
    else TipoOfLabel(tipos[1..], descritivo)
  }

  /** Of two cached types with the same label, the first one is the one
      every event with that label is given. */
  lemma {:induction false} TipoOfLabelFirst(tipos: seq<TipoDeEvento>, descritivo: JsValue, i: nat)
    requires i < |tipos| && StrictEquals(tipos[i].descritivo, descritivo)
    requires forall j :: 0 <= j < i ==> !StrictEquals(tipos[j].descritivo, descritivo)
    ensures TipoOfLabel(tipos, descritivo) == Instance(tipos[i])
  {
    if i > 0 {
      TipoOfLabelFirst(tipos[1..], descritivo, i - 1);
    }
  }

  /** `tipos.find((t) => t.id === entry.id) || entry`: the first cached
      type with the entry's id, or the parsed entry itself. */
  function TipoOfEntry(tipos: seq<TipoDeEvento>, entry: JsValue): (r: Item<TipoDeEvento>)
    ensures r.Instance? ==> r.obj in tipos && StrictEquals(r.obj.id, Property(entry, "id"))
    ensures r.Plain? ==> r == Plain(entry)
    ensures r.Plain? <==> forall i :: 0 <= i < |tipos| ==> !StrictEquals(tipos[i].id, Property(entry, "id"))
  {
    var k := FindIndex(tipos, TipoIdIs(Property(entry, "id")));
    if k == -1 then Plain(entry) else Instance(tipos[k])
  }

  /** `entries.map((entry) => TipoOfEntry(tipos, entry))` */
  function TiposOfEntries(tipos: seq<TipoDeEvento>, entries: seq<JsValue>): (r: seq<Item<TipoDeEvento>>)
    ensures |r| == |entries|
    ensures forall i :: 0 <= i < |entries| ==> r[i] == TipoOfEntry(tipos, entries[i])
  {
    seq(|entries|, i requires 0 <= i < |entries| => TipoOfEntry(tipos, entries[i]))
  }

  /** A row of `/eventos` builds an event: a name the setter accepts and a
      valid date. */
  predicate EventoRowBuilds(row: JsValue, parseDate: JsValue -> Option<int>)
  {
    ValidName(Property(row, "descritivo")) && parseDate(Property(row, "data")).Some?
  }

  /** The event built from a row of `/eventos`, whose `tipoDeEvento` is
      the type's label: its one type is the first cached type with that
      label. */
  ghost predicate EventoOfRow(e: Evento, row: JsValue, parseDate: JsValue -> Option<int>, tipos: seq<TipoDeEvento>)
    reads e, tipos
  {
    && e.id == Property(row, "id")
    && e.descritivo == Property(row, "descritivo")
    && e.data == parseDate(Property(row, "data"))
    && e.tiposDeEventos == [TipoOfLabel(tipos, Property(row, "tipoDeEvento"))]
  }

  /** A row of `/membros` builds a member: its types are an array and its
      name is one the setter accepts. */
  predicate MembroRowBuilds(row: JsValue)
  {
    Property(row, "tiposDeEventos").Arr? && ValidName(Property(row, "nome"))
  }

  /** The member built from a row of `/membros`: its types are the cached
      instances with the listed ids, or the listed entries themselves. */
  ghost predicate MembroOfRow(m: Membro, row: JsValue, tipos: seq<TipoDeEvento>)
    reads m
    requires Property(row, "tiposDeEventos").Arr?
  {
    && m.id == Property(row, "id")
    && m.nome == Property(row, "nome")
    && m.tiposDeEventos == TiposOfEntries(tipos, Property(row, "tiposDeEventos").items)
    && m.eventos == []
  }

  // ---------------------------------------------------------------------
  // Enrolment

  /** `evento.tiposDeEventos.some((t) => membro.tiposDeEventos.includes(t))` */
  predicate SharesTipo(e: Evento, m: Membro)
    reads e, m
  {
    exists i :: 0 <= i < |e.tiposDeEventos| && Includes(m.tiposDeEventos, e.tiposDeEventos[i])
  }

  /** The `eventosDisponiveis` filter: the events offered to a member are
      exactly the cached ones that share a type with the member's
      preferred types. */
  function Disponiveis(evs: seq<Evento>, m: Membro): (r: seq<Evento>)
    reads evs, m
    ensures |r| <= |evs|
    ensures forall i :: 0 <= i < |r| ==> r[i] in evs && SharesTipo(r[i], m)
    ensures forall i :: 0 <= i < |evs| && SharesTipo(evs[i], m) ==> evs[i] in r
  {
    if evs == [] then []
    else
      var last := evs[|evs| - 1];
      Disponiveis(evs[..|evs| - 1], m) + (if SharesTipo(last, m) then [last] else [])
  }

  // ---------------------------------------------------------------------
  // The cache

  /** The script's global arrays. */
  class Cache {
    var tiposDeEventos: seq<TipoDeEvento>
    var eventos: seq<Evento>
    var membros: seq<Membro>

    /** `let eventos = []; let membros = []; let tiposDeEventos = [];` */
    constructor()
      ensures tiposDeEventos == [] && eventos == [] && membros == []
    {
      tiposDeEventos := [];
      eventos := [];
      membros := [];
    }

    /** `eventos.some((e) => e.tiposDeEventos.includes(tipo))` */
    predicate TipoUsadoPorEvento(tipo: TipoDeEvento)
      reads this`eventos, eventos
    {
      exists i :: 0 <= i < |eventos| && Includes(eventos[i].tiposDeEventos, Instance(tipo))
    }

    /** `membros.some((m) => m.tiposDeEventos.includes(tipo))` */
    predicate TipoUsadoPorMembro(tipo: TipoDeEvento)
      reads this`membros, membros
    {
      exists i :: 0 <= i < |membros| && Includes(membros[i].tiposDeEventos, Instance(tipo))
    }

    /** `membros.some((m) => m.eventos.includes(evento))` */
    predicate EventoUsadoPorMembro(evento: Evento)
      reads this`membros, membros
    {
      exists i :: 0 <= i < |membros| && evento in membros[i].eventos
    }

    /** `excluirTipoDeEvento(tipo)`: refused while an event, and then while
        a member, refers to the type; otherwise the DELETE is sent and, if
        the server accepts it, the first occurrence of the type leaves the
        cache (`indexOf` and `splice`). */
    method ExcluirTipoDeEvento(tipo: TipoDeEvento, serverOk: bool) returns (d: Deletion)
      modifies this`tiposDeEventos
      ensures d == InUseByEvento <==> TipoUsadoPorEvento(tipo)
      ensures d == InUseByMembro <==> !TipoUsadoPorEvento(tipo) && TipoUsadoPorMembro(tipo)
      ensures d == Deleted <==> !TipoUsadoPorEvento(tipo) && !TipoUsadoPorMembro(tipo) && serverOk
      ensures d == Deleted ==> tiposDeEventos == RemoveFirst(old(tiposDeEventos), tipo)
      ensures d != Deleted ==> tiposDeEventos == old(tiposDeEventos)
    {
      if TipoUsadoPorEvento(tipo) {
        return InUseByEvento;
      } else if TipoUsadoPorMembro(tipo) {
        return InUseByMembro;
      }
      if !serverOk {
        return ServerRefused;
      }
      var index := IndexOf(tiposDeEventos, tipo);
      if index != -1 {
        SpliceRemovesFirst(tiposDeEventos, tipo, index);
        tiposDeEventos := tiposDeEventos[..index] + tiposDeEventos[index + 1..];
      } else {
        RemoveFirstAbsent(tiposDeEventos, tipo);
      }
      d := Deleted;
    }

    /** `excluirEvento(evento)`: refused while a member is enrolled in the
        event; otherwise the DELETE is sent and, if the server accepts it,
        every cached event with the same id leaves the cache. */
    method ExcluirEvento(evento: Evento, serverOk: bool) returns (d: Deletion)
      modifies this`eventos
      ensures d == InUseByMembro <==> EventoUsadoPorMembro(evento)
      ensures d == Deleted <==> !EventoUsadoPorMembro(evento) && serverOk
      ensures d != InUseByEvento
      ensures d == Deleted ==> eventos == Filter(old(eventos), EventoIdIsNot(evento.id))
      ensures d != Deleted ==> eventos == old(eventos)
    {
      if EventoUsadoPorMembro(evento) {
        return InUseByMembro;
      }
      if !serverOk {
        return ServerRefused;
      }
      eventos := Filter(eventos, EventoIdIsNot(evento.id));
      d := Deleted;
    }

    /** `excluirMembro(membro)`: no guard; if the server accepts the
        DELETE, every cached member with the same id leaves the cache. */
    method ExcluirMembro(membro: Membro, serverOk: bool) returns (d: Deletion)
      modifies this`membros
      ensures d == Deleted <==> serverOk
      ensures d == Deleted || d == ServerRefused
      ensures d == Deleted ==> membros == Filter(old(membros), MembroIdIsNot(membro.id))
      ensures d != Deleted ==> membros == old(membros)
    {
      if !serverOk {
        return ServerRefused;
      }
      membros := Filter(membros, MembroIdIsNot(membro.id));
      d := Deleted;
    }

    /** The "Confirmar Inscrição" handler: the event is looked up by id
        among all cached events and appended to the member's events
        unless it is there already. */
    method Inscrever(membro: Membro, eventoId: JsValue) returns (o: Enrolment)
      modifies membro`eventos
      ensures var k := FindIndex(eventos, EventoIdIs(eventoId));
        && (o == NoSuchEvento <==> k == -1)
        && (o == AlreadyEnrolled <==> k != -1 && eventos[k] in old(membro.eventos))
        && (o == Enrolled ==> membro.eventos == old(membro.eventos) + [eventos[k]])
        && (o != NoSuchEvento ==> eventos[k] in membro.eventos)
      ensures o != Enrolled ==> membro.eventos == old(membro.eventos)
      ensures Distinct(old(membro.eventos)) ==> Distinct(membro.eventos)
    {
      var k := FindIndex(eventos, EventoIdIs(eventoId));
      if k == -1 {
        return NoSuchEvento;
      }
      var selecionado := eventos[k];
      if selecionado !in membro.eventos {
        membro.eventos := membro.eventos + [selecionado];
        o := Enrolled;
      } else {
        o := AlreadyEnrolled;
      }
    }

    /** The "Desinscrever de Evento" button and its confirm handler: the
        event is looked up by id among the member's events, and every one
        of them with that id is removed through the `eventos` setter. */
    method Desinscrever(membro: Membro, eventoId: JsValue) returns (o: Unenrolment)
      modifies membro`eventos
      ensures o == NoneEnrolled <==> old(membro.eventos) == []
      ensures o == NotEnrolled <==> old(membro.eventos) != [] && forall e :: e in old(membro.eventos) ==> !StrictEquals(e.id, eventoId)
      ensures o == Unenrolled ==> membro.eventos == Filter(old(membro.eventos), EventoIdIsNot(eventoId))
      ensures o != Unenrolled ==> membro.eventos == old(membro.eventos)
    {
      if membro.eventos == [] {
        return NoneEnrolled;
      }
      var k := FindIndex(membro.eventos, EventoIdIs(eventoId));
      if k == -1 {
        return NotEnrolled;
      }
      var selecionado := membro.eventos[k];
      assert selecionado.id == eventoId;
      var kept := Filter(membro.eventos, EventoIdIsNot(selecionado.id));
      var c := membro.SetEventos(Some(Items(kept)));
      ObjectsOfItems(kept);
      o := Unenrolled;
    }

    /** `criarMembro(nome, tipos)` once the POST has answered (None when
        `response.ok` is false), as the script writes it:
        `new Membros(novo.nome, novo.tiposDeEventos)` passes the answer's
        name as the id and its list of type ids as the name. */
    method CriarMembroAsWritten(response: Option<JsValue>) returns (c: Completion<()>)
      modifies this`membros
      ensures response.None? ==> c.Normal?
      ensures response.Some? ==> (c.Normal? <==> ValidName(Property(response.value, "tiposDeEventos")))
      ensures response.None? || c.Thrown? ==> membros == old(membros)
      ensures response.Some? && c.Normal? ==>
        && |membros| == |old(membros)| + 1
        && membros[..|old(membros)|] == old(membros)
        && membros[|old(membros)|].id == Property(response.value, "nome")
    {
      if response.None? {
        return Normal(());
      }
      var novo := response.value;
      var r := NewMembro(Property(novo, "nome"), Property(novo, "tiposDeEventos"), Some([]));
      if r.Thrown? {
        return Thrown;
      }
      membros := membros + [r.value];
      c := Normal(());
    }

    /** `criarMembro(nome, tipos)` with the member built from the answer's
        id and name and the chosen types: a member the server created
        under a name the setter accepts is appended to the cache. */
    method CriarMembro(response: Option<JsValue>, tipos: seq<TipoDeEvento>) returns (c: Completion<()>)
      modifies this`membros
      ensures response.None? ==> c.Normal?
      ensures response.Some? ==> (c.Normal? <==> ValidName(Property(response.value, "nome")))
      ensures response.None? || c.Thrown? ==> membros == old(membros)
      ensures response.Some? && c.Normal? ==>
        && |membros| == |old(membros)| + 1
        && membros[..|old(membros)|] == old(membros)
        && var m := membros[|old(membros)|];
           && fresh(m)
           && m.id == Property(response.value, "id")
           && m.nome == Property(response.value, "nome")
           && m.tiposDeEventos == Items(tipos)
           && m.eventos == []
    {
      if response.None? {
        return Normal(());
      }
      var novo := response.value;
      var r := NewMembro(Property(novo, "id"), Property(novo, "nome"), Some(Items(tipos)));
      if r.Thrown? {
        return Thrown;
      }
      membros := membros + [r.value];
      c := Normal(());
    }

    // -------------------------------------------------------------------
    // Loading

    /** `carregarTiposDeEventos()`: one new instance per row, in row
        order, each a separate object. */
    method CarregarTiposDeEventos(response: Option<seq<JsValue>>)
      modifies this`tiposDeEventos
      ensures response.None? ==> tiposDeEventos == old(tiposDeEventos)
      ensures response.Some? ==> |tiposDeEventos| == |response.value| && Distinct(tiposDeEventos)
      ensures response.Some? ==> forall i :: 0 <= i < |tiposDeEventos| ==>
        && fresh(tiposDeEventos[i])
        && tiposDeEventos[i].id == Property(response.value[i], "id")
        && tiposDeEventos[i].descritivo == Property(response.value[i], "descritivo")
    {
      if response.None? {
        return;
      }
      var rows := response.value;
      var tipos: seq<TipoDeEvento> := [];
      for i := 0 to |rows|
        invariant |tipos| == i && Distinct(tipos)
        invariant forall k :: 0 <= k < i ==>
          && fresh(tipos[k])
          && tipos[k].id == Property(rows[k], "id")
          && tipos[k].descritivo == Property(rows[k], "descritivo")
      {
        var t := new TipoDeEvento(Property(rows[i], "id"), Property(rows[i], "descritivo"));
        tipos := tipos + [t];
      }
      tiposDeEventos := tipos;
    }

    /** The body of the loop of `carregarEventos()`: the event one row
        builds, or the exception its setters throw. */
    method EventoFromRow(row: JsValue, parseDate: JsValue -> Option<int>) returns (r: Completion<Evento>)
      ensures r.Normal? <==> EventoRowBuilds(row, parseDate)
      ensures r.Normal? ==> fresh(r.value) && EventoOfRow(r.value, row, parseDate, tiposDeEventos)
    {
      var tipo := TipoOfLabel(tiposDeEventos, Property(row, "tipoDeEvento"));
      r := NewEvento(Property(row, "id"), Property(row, "descritivo"), parseDate(Property(row, "data")), Some([tipo]));
    }

    /** `carregarEventos()`, given the time value `new Date(v)` gives for
        each `v`: every row becomes a new event whose one type is the
        cached type with the row's descritivo. The first row whose event cannot
        be built throws, and the cache keeps its old events. */
    method CarregarEventos(response: Option<seq<JsValue>>, parseDate: JsValue -> Option<int>)
      returns (c: Completion<()>)
      modifies this`eventos
      ensures response.None? ==> c.Normal?
      ensures response.Some? ==> (c.Normal? <==> forall i :: 0 <= i < |response.value| ==> EventoRowBuilds(response.value[i], parseDate))
      ensures response.None? || c.Thrown? ==> eventos == old(eventos)
      ensures response.Some? && c.Normal? ==> |eventos| == |response.value|
      ensures response.Some? && c.Normal? ==> forall i :: 0 <= i < |eventos| ==>
        fresh(eventos[i]) && EventoOfRow(eventos[i], response.value[i], parseDate, tiposDeEventos)
    {
      if response.None? {
        return Normal(());
      }
      var rows := response.value;
      var evs: seq<Evento> := [];
      for i := 0 to |rows|
        invariant |evs| == i && eventos == old(eventos)
        invariant forall k :: 0 <= k < i ==> EventoRowBuilds(rows[k], parseDate)
        invariant forall k :: 0 <= k < i ==> fresh(evs[k]) && EventoOfRow(evs[k], rows[k], parseDate, tiposDeEventos)
      {
        var r := EventoFromRow(rows[i], parseDate);
        if r.Thrown? {
          return Thrown;
        }
        evs := evs + [r.value];
      }
      eventos := evs;
      c := Normal(());
    }

    /** `carregarMembros()`: every row becomes a new member whose types
        are resolved against the cached ones by id. The first row whose
        member cannot be built throws (a `tiposDeEventos` with no `map`,
        or a name the setter refuses), and the cache keeps its old
        members. */
    method CarregarMembros(response: Option<seq<JsValue>>) returns (c: Completion<()>)
      modifies this`membros
      ensures response.None? ==> c.Normal?
      ensures response.Some? ==> (c.Normal? <==> forall i :: 0 <= i < |response.value| ==> MembroRowBuilds(response.value[i]))
      ensures response.None? || c.Thrown? ==> membros == old(membros)
      ensures response.Some? && c.Normal? ==> |membros| == |response.value|
      ensures response.Some? && c.Normal? ==> forall i :: 0 <= i < |membros| ==>
        MembroRowBuilds(response.value[i]) && fresh(membros[i]) && MembroOfRow(membros[i], response.value[i], tiposDeEventos)
    {
      if response.None? {
        return Normal(());
      }
      var rows := response.value;
      var ms: seq<Membro> := [];
      for i := 0 to |rows|
        invariant |ms| == i && membros == old(membros)
        invariant forall k :: 0 <= k < i ==> MembroRowBuilds(rows[k])
        invariant forall k :: 0 <= k < i ==> fresh(ms[k]) && MembroOfRow(ms[k], rows[k], tiposDeEventos)
      {
        var row := rows[i];
        var entries := Property(row, "tiposDeEventos");
        if !entries.Arr? {
          return Thrown;
        }
        var r := NewMembro(Property(row, "id"), Property(row, "nome"), Some(TiposOfEntries(tiposDeEventos, entries.items)));
        if r.Thrown? {
          return Thrown;
        }
        ms := ms + [r.value];
      }
      membros := ms;
      c := Normal(());
    }
  }

  /** The answer to a successful `POST /membros` carries the request's
      array as `tiposDeEventos`, which the `nome` setter refuses: the
      script as written throws on every member it has just created, and
      the member reaches the cache only at the next reload. */
  lemma CreatedMembroRefusedAsWritten(id: int, nome: string, items: seq<JsValue>)
    ensures !ValidName(Property(MembroRoutes.Echo(id, nome, Arr(items)), "tiposDeEventos"))
  {
  }

  /** With the answer's own id and name, every member the server created
      under a name that is not a numeral is accepted. */
  lemma CreatedMembroAccepted(id: int, nome: string, items: seq<JsValue>, k: nat)
    requires k < |nome| && Foreign(nome[k])
    ensures ValidName(Property(MembroRoutes.Echo(id, nome, Arr(items)), "nome"))
  {
    WordNameAccepted(nome, k);
  }
}
