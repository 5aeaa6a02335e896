# estsbike-web-app in Dafny

A model of the core of estsbike-web-app, a small Express + MySQL
application. It manages three kinds of entity: event types (`tipoDeEventos`),
events (`eventos`) and members (`membros`). Members state their preferred
event types through the link table `membros_tipoDeEventos`. The model
covers three layers:

- **The server route handlers** (`routes/*.js`) and the helpers they share
  in `scripts/db.js`. The MySQL store is a Dafny class `Store.Database`. Its
  tables are sequences in primary-key order, a pure function `Store.Apply`
  says what each parametrised command does, and `Execute` may fail at any
  call, as `execute` does when the connection or the statement fails. It
  always fails on a command with an `undefined` bind parameter, which the
  driver's prepared statements refuse.
  A ghost log `Issued` records every command a handler sends. Each handler
  is a method whose contract gives the reply and the new tables for every
  branch: a refused guard, a store failure and success. The multi-step
  handlers `createMembro` and `updateMembro` also get their partial
  states: links kept or lost one by one, and a rename that survives a later
  failure.
- **The read-side assemblers** (`readEvento`, `readMembros`,
  `readTipoDeEvento`): pure functions from joined rows to the JSON reply,
  with lemmas about the joins and the grouping.
- **The browser cache** (`www/scripts/scripts.js`). It has the entity
  classes `TiposDeEventos`, `Eventos` and `Membros` with their validating
  setters, and the global arrays as the class `ClientCache.Cache`. The
  cache's operations are the referential guards on deletion, enrolment and
  unenrolment, the "available events" filter, and the loaders that resolve
  the server's rows to cached instances. A setter or constructor that throws
  returns `Thrown` and leaves its field as it was.

The JavaScript values the code handles are the datatype `Js.JsValue`.
`Js` also models the coercions the source relies on: truthiness,
`String(v)`, `isNaN(v)` (over the whole StringNumericLiteral grammar of
section 7.1.4.1 of ECMA-262), `Number(v)` (valued on integer numerals),
`String.prototype.trim` and `===`.

Files: `wrappers.dfy` (Option), `js.dfy`, `seqs.dfy` (the array built-ins
`filter`, `indexOf`/`splice`, `find`/`findIndex`), `store.dfy`, `db.dfy`,
`routes_tipo_de_evento.dfy`, `routes_evento.dfy`, `routes_membro.dfy`,
`client_entities.dfy`, `client_cache.dfy`.

## Model

| member | source | states |
|---|---|---|
| Js.And | routes/update-evento.js:13 | `a && b` is truthy exactly when both operands are |
| Js.TrimNonEmptyIff | www/scripts/scripts.js:36 | `s.trim().length > 0` holds exactly when `s` has a character that is not white space |
| Js.NumberOfDecimal | scripts/db.js:21-24 | an integer printed as text reads back through `Number` as the same integer, negative ones included |
| Js.ForeignIsNaN | www/scripts/scripts.js:95 | a string holding a character that can appear nowhere in a numeric literal (not white space, a digit, a sign, the point, a hexadecimal digit, a radix mark or a letter of `Infinity`) is NaN |
| Js.IntegerNumeralIsLiteral | scripts/db.js:22-23 | every string that `Number` reads as an integer is a numeric literal, so `isNaN` is false for it |
| Js.NaNHasNoNumber | scripts/db.js:22-23 | when `isNaN(v)` holds the model gives `Number(v)` no value |
| Js.FractionNumerals | scripts/db.js:22-23 | `"1.5"` and `"-.5"` are not NaN |
| Js.ExponentNumerals | scripts/db.js:22-23 | `"1e3"` and `"2E-7 "` are not NaN |
| Js.RadixNumerals | scripts/db.js:22-23 | `"0x1F"`, `"0o17"` and `"0b101"` are not NaN |
| Js.InfinityNumerals | scripts/db.js:22-23 | `"-Infinity"` and `"Infinity"` are not NaN |
| Js.MalformedNumerals | scripts/db.js:22-23 | `"1.5.2"` and `"1e"` are NaN |
| Js.MalformedRadixNumerals | scripts/db.js:22-23 | `"-0x1"`, `"0x"` and `"0b2"` are NaN |
| Db.Number | scripts/db.js:21-24 | a number is returned unchanged, `null` gives 0 and `undefined` gives undefined |
| Db.NumberOfNaN | scripts/db.js:21-24 | `number(v)` is undefined whenever `Number(v)` is NaN |
| Db.String | scripts/db.js:26-28 | `string(v)` is undefined only for `undefined`; a string is kept and `null` becomes `"null"` |
| Db.NumberTruthy | routes/delete-evento.js:8-9 | `if (id)` on `number(...)` refuses NaN, a missing value and 0, and accepts every other number |
| Db.NumberOfPath | scripts/db.js:21-24 | an id printed into a URL path comes back from `number` unchanged |
| Db.NumberOfBlank | scripts/db.js:21-24 | a blank path parameter is the number 0, which the id guards refuse |
| Db.StringTruthy | routes/create-tipoDeEvento.js:8-9 | `if (descritivo)` on `string(...)` accepts exactly the defined values whose string form is not empty |
| Db.SendError | scripts/db.js:35-37 | the status is the given one (400 by default); the body is the error when it is a string, empty otherwise |
| Db.SendResponse | scripts/db.js:39-51 | exactly one command is issued; on failure the reply is 500 with the server error and the tables are unchanged, and a command with an `undefined` parameter always fails; on success the tables are those the command yields and the reply is `processResult` of its result |
| Db.SendResponseNull | scripts/db.js:39-51 | with a null response, success returns `processResult(result)` and failure throws (from `sendError(null, ...)`) with the tables unchanged; a command with an `undefined` parameter always throws |
| Db.PathId | routes/delete-evento.js:8-9 | the id the `if (id)` guard lets through is `number(params.id)`, and it is given exactly when that is truthy |
| Db.CountOf | routes/delete-evento.js:10 | the reply `{count}` carries `affectedRows` of the result header |
| Store.RenameTipo | routes/update-tipoDeEvento.js:5 | the UPDATE keeps the number of rows and every row's id |
| Store.RewriteEvento | routes/update-evento.js:5 | the UPDATE keeps the number of rows and every row's id |
| Store.RenameMembro | routes/update-membro.js:5 | the UPDATE keeps the number of rows and every row's id |
| Store.EventoJoinConcat | routes/read-evento.js:5 | the event-type join of two lists of events is the concatenation of their joins |
| Store.LinkJoinConcat | routes/read-membro.js:7 | the link-type join of two lists of links is the concatenation of their joins |
| Store.TipoAffectedRows | routes/update-tipoDeEvento.js:12 | in valid tables, UPDATE and DELETE of a type report 1 affected row when a type has the id and 0 otherwise |
| Store.EventoAffectedRows | routes/update-evento.js:14 | the same for events, matched on the UPDATE's or DELETE's id |
| Store.MembroAffectedRows | routes/update-membro.js:21-22 | the same for the member rename and the member DELETE |
| Store.ApplyPreservesValid | routes/create-membro.js:19-25 | every command keeps each table's keys strictly increasing and below its AUTO_INCREMENT counter |
| Store.Database.Execute | scripts/db.js:8-19 | `execute` never throws: it either carries the command out (new tables and result as `Apply` gives) or fails with nothing changed; a command with an `undefined` bind parameter always fails |
| TipoDeEventoRoutes.TipoEntry | routes/read-tipoDeEvento.js:8-11 | an entry is exactly `{id, descritivo}` of its row |
| TipoDeEventoRoutes.ListTipos | routes/read-tipoDeEvento.js:8-11 | the reply has one entry per row, in order, each exactly `{id, descritivo}` of its row |
| TipoDeEventoRoutes.CreateTipoDeEvento | routes/create-tipoDeEvento.js:7-17 | undefined or empty `descritivo`: 400 and no command; otherwise exactly `INSERT [descritivo]`, then either 500 with nothing changed or the row appended under the next id and the reply `{id: insertId, descritivo}` |
| TipoDeEventoRoutes.ReadTipoDeEvento | routes/read-tipoDeEvento.js:5-14 | the tables are unchanged; the reply is 500 or the list of every stored type in table order |
| TipoDeEventoRoutes.UpdateTipoDeEvento | routes/update-tipoDeEvento.js:7-16 | a falsy id or `descritivo`: 400 and no command; otherwise `UPDATE [descritivo, id]`, then 500 with nothing changed or the renamed table and `{count}` of the matched rows (0 for an absent id) |
| TipoDeEventoRoutes.DeleteTipoById | routes/delete-tipoDeEvento.js:10 | one DELETE: 500 with nothing changed, or the rows with the id removed and their number as the count |
| TipoDeEventoRoutes.DeleteTipoDeEvento | routes/delete-tipoDeEvento.js:7-14 | 400 with no command exactly when the id is falsy; otherwise the DELETE is issued with no check on events or preferences |
| TipoDeEventoRoutes.RenameTipoOnlyDescritivo | routes/update-tipoDeEvento.js:5 | the UPDATE changes only the `descritivo` of the rows with that id |
| TipoDeEventoRoutes.CreateThenReadTipo | routes/create-tipoDeEvento.js:10-13 | after a create, the read list is the earlier list followed by exactly the entry the create reply carried |
| TipoDeEventoRoutes.DeleteTipoOrphansEventos | routes/delete-tipoDeEvento.js:5 | deleting a type keeps the events that refer to it, and the read-evento join then drops them |
| EventoRoutes.Nullable | routes/read-evento.js:9-11 | a NULL column reaches the reply as `null`, any other as its text |
| EventoRoutes.EventoEntry | routes/read-evento.js:8-13 | an entry copies `id`, `descritivo` and `data` and renames the label `tipo` to `tipoDeEvento` |
| EventoRoutes.ListEventos | routes/read-evento.js:8-13 | one entry per joined row, in order |
| EventoRoutes.UpdateGuardIsData | routes/update-evento.js:13 | because of the comma operator the guard holds exactly when `date(data)` is defined and not empty; id, `descritivo` and `tipoDeEvento` are not checked |
| EventoRoutes.CreateEvento | routes/create-evento.js:7-21 | only `descritivo` is checked (400 and no command when falsy); otherwise `INSERT [descritivo, tipoDeEvento, data]` is issued; an unreadable `tipoDeEvento` or `data` is bound as `undefined` and always gives 500; then 500 with nothing changed or the row appended and `{id: insertId, descritivo, tipoDeEvento, data}` |
| EventoRoutes.ReadEvento | routes/read-evento.js:5-16 | the tables are unchanged; the reply is 500 or the entries of the inner join of events with their types |
| EventoRoutes.UpdateEvento | routes/update-evento.js:7-18 | invalid `data`: 400 and no command; otherwise `UPDATE [descritivo, tipoDeEvento, data, id]` is issued; an unreadable id, `descritivo` or `tipoDeEvento` is bound as `undefined` and always gives 500; then 500 with nothing changed or every row with that id rewritten and `{count}` of the matched rows |
| EventoRoutes.DeleteEventoById | routes/delete-evento.js:10 | one DELETE: 500 with nothing changed, or the rows with the id removed and their number as the count |
| EventoRoutes.DeleteEvento | routes/delete-evento.js:7-14 | 400 with no command exactly when the id is falsy; otherwise the DELETE is issued with no check on enrolments |
| EventoRoutes.EventoJoinSound | routes/read-evento.js:5 | every joined row pairs a stored event with a stored type the event refers to |
| EventoRoutes.JoinEventoCount | routes/read-evento.js:5 | in valid tables an event yields one joined row when its type exists and none when the type is missing or NULL |
| EventoRoutes.ListEventosConcat | routes/read-evento.js:8 | the reply of two lists of joined rows is the concatenation of their replies |
| EventoRoutes.JoinEventoRows | routes/read-evento.js:5 | each row one event yields pairs it with a type it refers to |
| EventoRoutes.ListAfterAppend | routes/read-evento.js:5-13 | appending an event appends exactly the entries of its joined rows to the read list |
| EventoRoutes.CreateThenReadEvento | routes/create-evento.js:12-17 | a created event appears in the next read after every earlier entry, once when its type exists and not at all otherwise |
| MembroRoutes.LinksFor | routes/update-membro.js:34-35 | one link `(membroId, number(tipoId))` per list element, in order |
| MembroRoutes.Echo | routes/update-membro.js:47 | the reply is `{id, nome, tiposDeEventos}` with the raw request list |
| MembroRoutes.RenameMembroAbsent | routes/update-membro.js:21-24 | a rename that matches no row leaves the member table as it was |
| MembroRoutes.MembroFound | routes/update-membro.js:22 | a rename with a non-zero count means a member with that id exists |
| MembroRoutes.InsertOneLink | routes/update-membro.js:35 | one link INSERT: the link is appended when the store carries it out, nothing changes otherwise; an element `number` cannot read always fails |
| MembroRoutes.InsertEveryLink | routes/create-membro.js:27-29 | one INSERT per element in order, none stopping the loop; the link table gains exactly the links the store kept, in order, and never one for an element `number` cannot read |
| MembroRoutes.InsertLinksUntilFailure | routes/update-membro.js:33-40 | INSERTs in list order until the first failure, after which nothing more is sent; the links added are exactly the prefix before the failure, all of readable elements, and `sucesso` holds exactly when all went in |
| MembroRoutes.CreateMembro | routes/create-membro.js:9-31 | invalid `nome` or a non-array list: 400 and no command; member INSERT failure or no `insertId`: 500 and no link attempted; otherwise one link INSERT per element keyed on the new id, failures ignored (an element `number` cannot read is never kept), and the reply echoes `{id: insertId, nome, tiposDeEventos}` |
| MembroRoutes.RelinkMembro | routes/update-membro.js:27-47 | a failed link DELETE gives 500 and no INSERT; a failed INSERT gives 500 with the old links gone and a prefix of the new ones in; success, which needs every element readable by `number`, leaves the links replaced and echoes the request |
| MembroRoutes.UpdateNamedMembro | routes/update-membro.js:21-47 | a failed rename, or one matching no row, gives 404 with nothing changed; past it, every later failure keeps the new name (UpdateOutcome) |
| MembroRoutes.UpdateMembro | routes/update-membro.js:11-48 | a falsy id, an undefined or empty `nome` or a non-array list gives 400 exactly, with no command; otherwise the outcome is one of those of UpdateNamedMembro |
| MembroRoutes.DeleteMembroById | routes/delete-membro.js:10 | one DELETE on the member table only: 500 with nothing changed, or the rows with the id removed and counted |
| MembroRoutes.DeleteMembro | routes/delete-membro.js:7-14 | 400 with no command exactly when the id is falsy; otherwise the member DELETE alone is issued |
| MembroRoutes.TiposDoMembro | routes/read-membro.js:18-20 | a member's nested list has one entry per joined link row of that member |
| MembroRoutes.TiposDoMembroEntries | routes/read-membro.js:18-20 | every nested entry is `{id: tipoId, descritivo}` of a joined row of that member, and every joined row of that member gives one |
| MembroRoutes.MembroWithoutLinks | routes/read-membro.js:18-20 | a member with no link rows gets an empty list |
| MembroRoutes.AssembleMembros | routes/read-membro.js:15-21 | one entry per member row, in order, with `id` and `nome` copied and the member's own rows nested |
| MembroRoutes.ReadMembros | routes/read-membro.js:9-28 | the tables are unchanged; a failed first query gives 500 with the second not issued, a failed second gives 500, otherwise the assembled list |
| MembroRoutes.OwnLinksAfter | routes/update-membro.js:27-40 | deleting member m's links and appending new links of m leaves m with exactly those, in order, and every other member with its links unchanged |
| MembroRoutes.UpdateMembroLinks | routes/update-membro.js:27-40 | after a complete update the member's links are exactly one per list element, in order, with no old type lingering; other members' links are unchanged |
| MembroRoutes.ReplaceLinksIdempotent | routes/update-membro.js:27-40 | relinking twice with the same list gives the same link table as once |
| MembroRoutes.RenameMembroIdempotent | routes/update-membro.js:21 | renaming twice with the same name is renaming once |
| MembroRoutes.UpdateMembroIdempotent | routes/update-membro.js:21-40 | a complete update run twice with the same request ends where one run does |
| MembroRoutes.CreateMembroLinks | routes/create-membro.js:25-29 | every link a create kept is keyed on the new member, and with no failure there is one per list element, in order |
| MembroRoutes.JoinedRowsOfMembro | routes/read-membro.js:7-19 | the joined rows of one member are the join of that member's own links |
| MembroRoutes.ReadAfterUpdateMembro | routes/read-membro.js:18-20 | after a complete update, the read nests for the member exactly the join of the requested links, in list order |
| MembroRoutes.OrphanRowsIgnored | routes/read-membro.js:19 | link rows of members that no longer exist change nothing in the reply |
| MembroRoutes.NestedRowsPartition | routes/read-membro.js:15-21 | with increasing member ids, the nested entries number exactly the joined rows of existing members: each is nested once |
| MembroRoutes.ReadMembrosPartition | routes/read-membro.js:15-21 | in valid tables the reply nests each link row of an existing member exactly once |
| MembroRoutes.DeleteMembroOrphansLinks | routes/delete-membro.js:5 | deleting a member keeps its link rows, and no member with that id remains |
| Seqs.Filter | www/scripts/scripts.js:453 | `filter` keeps exactly the elements that pass, and nothing else |
| Seqs.IndexOf | www/scripts/scripts.js:428 | `indexOf` gives the first position of the element, or -1 exactly when it is absent |
| Seqs.RemoveFirstCounts | www/scripts/scripts.js:428-431 | removing the first occurrence takes one copy of the element out and keeps every other element |
| Seqs.SpliceRemovesFirst | www/scripts/scripts.js:428-431 | `splice(indexOf(x), 1)` removes the first occurrence of `x` |
| Seqs.RemoveFirstKeepsDuplicate | www/scripts/scripts.js:428-431 | a second copy of the element survives the removal |
| Seqs.RemoveFirstAbsent | www/scripts/scripts.js:429 | removing an absent element changes nothing |
| Seqs.FindIndex | www/scripts/scripts.js:819 | `find` gives the first element that passes, or none exactly when none does |
| ClientEntities.IncludesInstance | www/scripts/scripts.js:411 | `includes` looks an instance up by reference |
| ClientEntities.ArrayOrEmpty | www/scripts/scripts.js:73 | an array is kept and any other value becomes `[]` |
| ClientEntities.ValidTipoDescritivoIff | www/scripts/scripts.js:35-39 | the type setter's test accepts exactly the strings with a character that is not white space, numerals included |
| ClientEntities.NumeralNameRefused | www/scripts/scripts.js:95 | a name that reads as an integer, negative ones included, is refused |
| ClientEntities.BlankNameRefused | www/scripts/scripts.js:95 | a name made only of white space is refused (it is the number 0) |
| ClientEntities.WordNameAccepted | www/scripts/scripts.js:214 | a name with a character that can appear nowhere in a numeric literal is accepted |
| ClientEntities.TipoDeEvento.constructor | www/scripts/scripts.js:12-15 | the type stores id and `descritivo` without validation |
| ClientEntities.TipoDeEvento.SetDescritivo | www/scripts/scripts.js:35-39 | the value is stored when the test accepts it and silently ignored otherwise |
| ClientEntities.Evento.constructor | www/scripts/scripts.js:69-70 | a new event holds its id and no name, date or types yet |
| ClientEntities.Evento.SetDescritivo | www/scripts/scripts.js:94-101 | the setter completes exactly for a truthy, non-numeric string and stores it; otherwise it throws with the field unchanged |
| ClientEntities.Evento.SetData | www/scripts/scripts.js:114-121 | the setter completes exactly for a valid date and stores it; otherwise it throws with the field unchanged |
| ClientEntities.Evento.SetTiposDeEventos | www/scripts/scripts.js:134-140 | all or nothing: an array of instances is stored; anything else throws and the old array is kept |
| ClientEntities.Evento.AddTipoDeEvento | www/scripts/scripts.js:146-152 | an instance is appended; anything else throws with the array unchanged |
| ClientEntities.NewEvento | www/scripts/scripts.js:69-74 | the constructor completes exactly for a valid name and a valid date, with a fresh event holding them and the types, or `[]` for a non-array |
| ClientEntities.Membro.constructor | www/scripts/scripts.js:188-189 | a new member holds its id and no name, types or events yet |
| ClientEntities.Membro.SetNome | www/scripts/scripts.js:213-220 | the setter completes exactly for a truthy, non-numeric string and stores it; otherwise it throws with the field unchanged |
| ClientEntities.Membro.SetTiposDeEventos | www/scripts/scripts.js:233-239 | all or nothing over instances of the type class |
| ClientEntities.Membro.SetEventos | www/scripts/scripts.js:252-258 | all or nothing over instances of the event class |
| ClientEntities.NewMembro | www/scripts/scripts.js:188-193 | the constructor completes exactly for a valid name, with a fresh member, its types (or `[]`) and no events |
| ClientCache.TipoOfLabel | www/scripts/scripts.js:1183 | the first cached type whose label is the row's `tipoDeEvento`, or `undefined` exactly when none has it |
| ClientCache.TipoOfLabelFirst | www/scripts/scripts.js:1183 | of several types with the same label, the first is the one chosen |
| ClientCache.TipoOfEntry | www/scripts/scripts.js:1237 | the first cached type with the entry's id, or the parsed entry itself exactly when none has it |
| ClientCache.TiposOfEntries | www/scripts/scripts.js:1236-1238 | one resolved type per entry, in order |
| ClientCache.Disponiveis | www/scripts/scripts.js:795-799 | an event is offered exactly when it shares a type with the member's preferred types |
| ClientCache.Cache.constructor | www/scripts/scripts.js:301-303 | the three global arrays start empty |
| ClientCache.Cache.ExcluirTipoDeEvento | www/scripts/scripts.js:410-436 | refused (event check first) exactly when an event, then a member, refers to the type; on server success the first occurrence leaves the cache; otherwise the cache is unchanged |
| ClientCache.Cache.ExcluirEvento | www/scripts/scripts.js:440-458 | refused exactly when a member is enrolled in the event; on server success every cached event with its id leaves the cache; otherwise unchanged |
| ClientCache.Cache.ExcluirMembro | www/scripts/scripts.js:1248-1261 | no guard; on server success every cached member with the id leaves the cache; otherwise unchanged |
| ClientCache.Cache.Inscrever | www/scripts/scripts.js:817-843 | an unknown id changes nothing; an event already enrolled is not added again; otherwise it is appended, so enrolling twice equals enrolling once and the list stays free of duplicates |
| ClientCache.Cache.Desinscrever | www/scripts/scripts.js:858-896 | no events, or no event with that id, change nothing; otherwise every enrolled event with that id goes and the rest stay in order |
| ClientCache.Cache.CriarMembroAsWritten | www/scripts/scripts.js:1209-1224 | as written, the member is built with the reply's name as id and its list as name, so it completes exactly when that list is a valid name |
| ClientCache.Cache.CriarMembro | www/scripts/scripts.js:1209-1224 | with the reply's id and name and the chosen types, a member with a valid name is appended to the cache, fresh and with no events |
| ClientCache.Cache.CarregarTiposDeEventos | www/scripts/scripts.js:1161-1171 | on success the cache holds one new, distinct type per row, in row order; on failure it is unchanged |
| ClientCache.Cache.EventoFromRow | www/scripts/scripts.js:1178-1184 | one row builds an event exactly when its name and date are valid, with the row's id, name, date and the first cached type with its label |
| ClientCache.Cache.CarregarEventos | www/scripts/scripts.js:1173-1189 | completes exactly when every row has a valid name and date, each row becoming a new event whose one type is the first cached type with the row's label; otherwise the old events are kept |
| ClientCache.Cache.CarregarMembros | www/scripts/scripts.js:1226-1244 | completes exactly when every row has an array of types and a valid name, each becoming a new member whose types are resolved by id; otherwise the old members are kept |
| ClientCache.CreatedMembroRefusedAsWritten | www/scripts/scripts.js:1219 | the list that a successful `POST /membros` reply carries is never a valid name |
| ClientCache.CreatedMembroAccepted | routes/create-membro.js:31 | a created member's reply name that holds a character that can appear nowhere in a numeric literal passes the `nome` setter |

## Left out

- Js.ToNumber: the value of `Number` is modelled on integer numerals only (optional sign, decimal digits, surrounding white space, blank is 0). `Js.IsNaN` recognises the whole numeric-literal grammar, so only the value is missing for fractions, exponents, radix prefixes and `Infinity`.
- Db.Number, Db.NumberOfNaN: `number(v)` is stated to be undefined whenever `Number(v)` is NaN, but not the converse. For a fraction, an exponent, a `0x`/`0o`/`0b` literal or `Infinity`, JavaScript returns that number, and the model returns None (undefined). An id or a type id written that way is then treated as undefined.
- JavaScript numbers are unbounded integers here; floating point and precision loss are not modelled.
- Property reads on `null` or `undefined` throw in JavaScript; `Js.Property` gives `undefined` for them. The server's replies are always arrays of objects, so the loaders never meet such a row.
- `date()` in scripts/db.js and every `Date` parse on the client are parameters (`date`, `parseDate`, `time`), because they depend on the JavaScript date parser and the time zone. The driver's conversion of DATE columns and `toISOString`/`toLocaleDateString` are not modelled.
- The MySQL connection, `connection-options.js` and the SQL text itself are not part of this model. `execute` is a store that may fail at any call. No foreign key, uniqueness constraint or cascade is assumed, because the schema is not part of the source.
- Db.String, Db.Number: a parsed JSON object is assumed to have no own `toString` or `valueOf` member. For a body such as `{"nome": {"toString": 1}}`, `String()` and `Number()` throw a TypeError. createMembro's catch (routes/create-membro.js:32-35) then replies 500 with "Erro interno ao criar membro.", and the other handlers end in an unhandled exception. Neither path is modelled.
- EventoRoutes.ListAfterAppend, EventoRoutes.CreateThenReadEvento and MembroRoutes.ReadAfterUpdateMembro: the joins are modelled as nested loops, with events or links outside in primary-key or insertion order. A SELECT without ORDER BY promises no row order, so the positional parts of these lemmas (where the new entries appear, in list order) hold only for that order. Which entries appear is order-independent.
- JSON serialisation, Express routing and static serving (index.js) are not modelled.
- `fetch` is reduced to its outcome: the parsed rows of a GET (None when `response.ok` is false) or whether a DELETE succeeded. Requests to the server are not linked to the server model.
- Alerts, DOM rendering and event wiring are not modelled. This covers `createElementsRow`, the `render*` functions, `clearSelection`, `selecionarLink`, the form save handlers and `atualizarEvento`. Each alert becomes the outcome value a method returns.
- Asynchronous interleaving is not modelled. Examples are the unawaited `excluirTipoDeEvento` at www/scripts/scripts.js:393-394 and a check-then-delete race; each operation runs to completion.
- Arrays are sequence values. A `push` on an array that another object also references (for example an event's `tiposDeEventos` passed in by the caller) is not seen through the other reference.
- ClientEntities.SameItem: two parsed JSON objects or arrays are never `===` to each other. Every such value in the model is a separately parsed one.
- ClientCache.Disponiveis: states which events are offered, not that they keep the order of the cached list.
- ClientCache.Cache.Inscrever and ClientCache.Cache.Desinscrever: the event id is a parameter. The `parseInt` of the selected option's value is not modelled.

## Findings

| source | as written | input that shows it | evidently intended | confidence | as-written member | corrected member |
|---|---|---|---|---|---|---|
| www/scripts/scripts.js:1219 | `criarMembro` builds `new Membros(novoMembro.nome, novoMembro.tiposDeEventos)`: the name is passed as the id and the list of type ids as the name | any successful `POST /membros`: the reply's `tiposDeEventos` is an array, which the `nome` setter refuses, so the call throws and the member created on the server never enters the cache | `new Membros(novoMembro.id, novoMembro.nome, tipos)`, as the member form's save handler at www/scripts/scripts.js:955-965 does; `criarMembro` has no caller in the script | high, not executed | ClientCache.Cache.CriarMembroAsWritten (with ClientCache.CreatedMembroRefusedAsWritten) | ClientCache.Cache.CriarMembro (with ClientCache.CreatedMembroAccepted) |
