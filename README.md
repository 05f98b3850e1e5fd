# Agile Board: the board document and its sessions, in Dafny

Agile Board is a shared planning board. A grid has teams as rows and sprints
(iterations) as columns. Each cell holds up to four stickies (feature, milestone,
dependency cards), and dependency lines can join stickies. A Node server keeps one
board document per session and persists all sessions to a file. Each browser page
keeps a replica of its session's board. The page changes the replica optimistically
and then sends a socket message. The server applies the message to its copy and
broadcasts an event.

This project models that document and everything that changes it:

- `Document` holds the entities: lanes (teams and sprints), stickies, dependencies,
  and the `Board` class. `Board` is the `boardData` object that both sides mutate in place.
- `JsValues` models the JavaScript value semantics the code depends on: `===`,
  `Number()`, `String()`, `parseInt`, `++`, `trim()` and `toUpperCase()` on ids and text.
- `Protocol` holds the socket messages and events as values.
- `ServerBoard` covers the per-session handlers of `server.js`. Each handler is a method
  on `Board`, proved against a pure function. `Step` is the whole dispatch as one function.
- `Sessions` covers session creation, join by access code, socket bookkeeping
  (participant sets, `socket.sessionId`) and which session a message reaches.
- `Persistence` covers the load-time migrations: legacy `features`, restoring
  `activeUsers`, and dependency defaults.
- `Client` covers the page's own edits in `public/js/board.js`:
  - dropping a card on a cell (capacity four);
  - saving and deleting a sticky;
  - drawing and deleting dependency lines;
  - adding teams and sprints with timed placeholders;
  - removing teams and sprints.
- `Seqs` and `Wrappers` are generic helpers: filter, first index, remove-at,
  sets as duplicate-free sequences, and `Option`.

Randomness (access codes, uuids), the clock (`Date.now()`, ISO timestamps), prompt
and confirm answers, and form fields are parameters. Events are returned as
`Emit(audience, event)` values rather than sent.

Where the repository's documentation and its code disagree, the model follows the code. The exceptions are the defects listed under "## Findings": there the model keeps an as-written member and uses the corrected behaviour elsewhere, and "## Left out" names each member that uses a correction.

- The server enforces neither the four-per-cell limit nor the title check. Only the
  page does.
- The server's delete (`update-sticky` with `deleted`) does not prune dependencies.
  Only the page does, and it sends a separate `update-dependencies`.
- `add-team` skips a team whose `id` is already present. It does not compare names.
- `createSession` always draws a random code. It never consults `activeCodes`.
- `handleDrop` counts the dragged sticky itself when it already sits in the target cell.
- A page that has not joined can still change any session by naming it in the
  `sessionId` field of a payload. Only `update-sticky`, `create-sticky` and
  `move-sticky` allow this.

## Model

| member | source | states |
|---|---|---|
| ServerBoard.Patched | server.js:286-289 | update-sticky merges the patch into the first sticky with that id only; lengths and ids are kept; an unknown id leaves the list unchanged |
| ServerBoard.WithoutSticky | server.js:283-284 | a delete keeps exactly the stickies whose id is not `===` the patch id |
| ServerBoard.UpdateSticky | server.js:278-297 | the session's stickies become the delete or merge result, nothing else changes, and the patch is broadcast to the room |
| ServerBoard.FirstIndexAgrees | server.js:286 | `findIndex` by id gives the same index on two lists with the same ids in order |
| ServerBoard.UpdateIdempotent | server.js:283-289 | applying the same update-sticky twice equals applying it once |
| ServerBoard.PatchKeepsLinks | server.js:286-289 | a merge keeps both ends of every dependency on the board |
| ServerBoard.DeleteLeavesDangling | server.js:283-284 | deleting a sticky that a dependency points to leaves that dependency dangling on the server |
| ServerBoard.CreateSticky | server.js:300-322 | the new sticky takes the counter's old value as id, the counter is incremented, the sticky is appended and broadcast |
| ServerBoard.CreateNumbersFreshly | server.js:310-315 | when every id is below the counter, the created id is new and the invariant holds for the incremented counter |
| ServerBoard.DefaultIdsBelow | server.js:33-67 | the default board's sticky ids are all below its `nextStickyId` of 13 |
| ServerBoard.Relocated | server.js:330-333 | move-sticky changes only the team and sprint of the first sticky with that id; an unknown id changes nothing |
| ServerBoard.MoveSticky | server.js:325-341 | the stickies become `Relocated`, and the move is broadcast only when the sticky exists |
| ServerBoard.MoveKeepsLinks | server.js:330-333 | a move keeps both ends of every dependency on the board |
| ServerBoard.ReplaceDependencies | server.js:344-355 | the dependency list is replaced wholesale and sent to the others in the room |
| ServerBoard.AddTeamAsWrittenDropsLaterTeams | server.js:358-372 | as written, after one team without an id is stored, every later add-team is ignored |
| ServerBoard.MaxNumericId | server.js:363-364 | part of the add-team correction: the largest numeric lane id, or 0 when there is none; it bounds every numeric id and is attained |
| ServerBoard.FreshLaneId | server.js:363-364 | a positive number that no lane carries |
| ServerBoard.AddedTeams | server.js:358-372 | the corrected add-team: a payload without an id gets a fresh one; otherwise it behaves as written; unique lane ids stay unique |
| ServerBoard.AddedTeamsKeepsBoth | server.js:358-372 | with the correction, two successive add-teams without ids both add a team |
| ServerBoard.AddTeam | server.js:358-372 | the teams become `AddedTeams`, and `team-added` is emitted exactly when a team was appended |
| ServerBoard.LanesWithout | server.js:379 | keeps exactly the lanes whose id is not `===` the removed id |
| ServerBoard.OutsideTeam | server.js:380 | keeps exactly the stickies whose team is not `===` the removed id |
| ServerBoard.OutsideSprint | server.js:425 | keeps exactly the stickies whose sprint is not `===` the removed id |
| ServerBoard.Linked | server.js:383-387 | keeps exactly the dependencies whose two ends are still stickies of the board |
| ServerBoard.RemoveTeam | server.js:374-396 | the team and its stickies are gone, every remaining dependency has both ends, and the removal is broadcast |
| ServerBoard.RemoveSprint | server.js:419-441 | the sprint and its stickies are gone, every remaining dependency has both ends, and the removal is broadcast |
| ServerBoard.RemoveTeamCascade | server.js:379-387 | a dependency survives a team removal exactly when both its ends were stickies outside the team |
| ServerBoard.MaxId | server.js:404 | `Math.max(...ids, 0)` is NaN exactly when some id is not a number; otherwise it is at least 0, bounds every id, and is attained |
| ServerBoard.NextSprintIdFresh | server.js:404-408 | the new sprint id is `===` to no existing sprint, and is a number exactly when every sprint id converts to one |
| ServerBoard.AddSprint | server.js:399-417 | the payload is appended with the computed id and broadcast |
| ServerBoard.StepEmits | server.js:278-441 | each handler emits at most one event: to the whole room, except the dependency list, which goes to the others; nothing for a move of an unknown sticky or an add-team that appended nothing; created stickies and added teams and sprints are the ones appended to the board, and every other event carries the message's own payload (the patch, the move, the dependency list, the removed team or sprint id) |
| ServerBoard.StepKeepsLinks | server.js:278-441 | every handler except delete and update-dependencies keeps both ends of every dependency |
| ServerBoard.StepCounterMonotone | server.js:310-311 | only create-sticky moves the counter, by one |
| ServerBoard.FilterKeepsUniqueIds | server.js:284 | filtering keeps sticky ids pairwise distinct |
| ServerBoard.PatchedIdsFrom | server.js:288 | a merge introduces no new sticky id |
| ServerBoard.RelocatedIdsFrom | server.js:332-333 | a move introduces no new sticky id |
| ServerBoard.StepKeepsIds | server.js:278-441 | when creates carry no id of their own, every handler keeps sticky ids distinct and below the counter |
| Sessions.FirstWithCode | server.js:213-215 | the first session in insertion order whose code matches; none exactly when no session has that code |
| Sessions.SessionStore.constructor | server.js:70-73 | an empty store satisfies the store invariant |
| Sessions.SessionStore.CreateSession | server.js:177-193 | a new session holds the given code and timestamp, an empty participant set, and a deep copy of the template board; the code is appended to `activeCodes` |
| Sessions.SessionStore.JoinByCode | server.js:205-223 | a missing or empty code is refused; otherwise the first session whose code equals the upper-cased input is joined, or the code is reported invalid |
| Sessions.SessionStore.Connect | server.js:240-244 | the socket joins the global participant set, and the new count goes to everyone |
| Sessions.SessionStore.JoinSession | server.js:246-275 | an unknown session gives `Session not found`; otherwise the socket is recorded and added to the session's participants, and board, counts and `user-joined` are emitted |
| Sessions.SessionStore.Disconnect | server.js:443-468 | the socket leaves the global set and its session's participants; `user-left` and the counts are emitted |
| Sessions.SessionStore.Resolve | server.js:279-282 | a joined socket acts on its own session; otherwise only update, create and move fall back to the payload's session id |
| Sessions.SessionStore.Handle | server.js:278-441 | the resolved session's board becomes `Step` of the message, and the events emitted are exactly `StepEmits` of the old board; a message for no session changes nothing and emits nothing |
| Sessions.JoinedConnectionIgnoresPayload | server.js:279 | for a joined socket the payload's session id makes no difference |
| Sessions.PayloadSessionIdSuffices | server.js:302-305 | a socket that never joined can still change any session named in its payload |
| Sessions.CodeCaseDoesNotMatter | server.js:213-215 | two typed codes that differ only in the case of letters a-z find the same session, and a stored code typed in any such case finds a session |
| Persistence.MigrateFeature | server.js:83-88 | a legacy feature keeps its fields, gets type `Feature` when it has none, and takes `dept` as team when the team is falsy |
| Persistence.Migrate | server.js:82-94 | legacy `features` become `stickies` only when `stickies` is absent; a truthy `nextFeatureId` then replaces a falsy `nextStickyId`; every other file is unchanged |
| Persistence.MigrateIdempotent | server.js:82-94 | migrating twice equals migrating once |
| Persistence.LoadBoard | server.js:76-102 | a missing file gives the default board, a present file gives its migration, and a loaded board never has features without stickies |
| Persistence.LoadStoredBoard | server.js:82-96 | a board file already in the current form (stickies present, no `features`) is loaded unchanged: the migration does not touch it |
| Persistence.RestoreActiveUsers | server.js:112-116 | the restored participant set is duplicate-free and has exactly the stored users |
| Persistence.ActiveUsersRoundTrip | server.js:112-116 | saving a participant set as an array and loading it back gives the same set |
| Persistence.WithDefaults | server.js:121-128 | a falsy relationship becomes `depends on`, a falsy note becomes empty, and nothing else changes |
| Persistence.WithDefaultsIdempotent | server.js:121-128 | filling defaults twice equals filling them once |
| Persistence.FillDependencyDefaults | server.js:120-129 | every dependency of the board is filled in place, at the same position |
| JsValues.ToNumber | public/js/board.js:191 | `Number(v)` leaves a number unchanged and otherwise gives a number or NaN |
| JsValues.Increment | server.js:311 | `counter++` adds one to a number and gives NaN for what does not convert |
| JsValues.NumberOfDecimal | public/js/board.js:607-608 | `Number(String(n))` is `n` |
| JsValues.ParseIntOfDecimal | public/js/board.js:187 | `parseInt(String(n))` is `n` |
| JsValues.NumberOfRenderedNumber | public/js/board.js:186-187 | a numeric id written into a data attribute reads back unchanged |
| JsValues.TrimIsMiddle | public/js/board.js:605 | `trim()` keeps one contiguous middle part of the text that neither starts nor ends with white space, and drops only white space on either side |
| JsValues.TrimBlank | public/js/board.js:611 | `trim()` gives "" exactly when the text is all white space |
| JsValues.TrimIdempotent | public/js/board.js:763 | trimming twice equals trimming once |
| JsValues.Upper | server.js:214 | `toUpperCase()` maps each letter and keeps the length |
| JsValues.UpperIgnoresCase | server.js:214 | two texts upper-case to the same text exactly when they have the same length and differ only in the case of letters a-z |
| JsValues.UpperIdempotent | server.js:214 | upper-casing twice equals upper-casing once |
| Client.CellId | public/js/board.js:186-187 | the corrected reading of an attribute: a number when the text converts, the text itself otherwise |
| Client.CellIdReadsBack | public/js/board.js:186-191 | a canonical id written into the page reads back as itself |
| Client.Drop | public/js/board.js:178-223 | a full cell refuses the drop; otherwise the first matching card takes the cell's team and sprint, and the server hears of it unless the card is a placeholder |
| Client.DropRespectsCapacity | public/js/board.js:189-197 | an accepted drop leaves the target cell with at most four cards and no other cell fuller |
| Client.DroppedCardKeepsItsTeam | public/js/board.js:186-204 | with the corrected reading, a card dropped on a team's row carries an id that team has |
| Client.DropReachesServer | public/js/board.js:207-213 | the server's move-sticky handler applied to the page's old list gives the page's new list |
| Client.DropOntoNamedTeamAsWritten | public/js/board.js:186-204 | as written, dropping on a team with a string id gives the card the team NaN, which matches no team |
| Client.FullNamedCellAsWritten | public/js/board.js:189-194 | as written, a full cell of a string-id team counts zero cards and is never refused |
| Client.Check | public/js/board.js:604-636 | a blank title is refused first; a full target cell is refused for a create, and for an edit unless the sticky stays in its own cell |
| Client.FifthCardAsWritten | public/js/board.js:607-625 | as written, a fifth card is accepted into a full cell of a string-id team and would be stored with team NaN; the corrected `Check` refuses it |
| Client.SameCellEditAllowed | public/js/board.js:623-629 | editing a sticky without moving it is never refused for capacity |
| Client.Replaced | public/js/board.js:650-653 | the first sticky with that id is replaced; an unknown id changes nothing |
| Client.SaveSticky | public/js/board.js:604-679 | on acceptance an edit replaces the sticky and sends update-sticky, and a create appends a pending placeholder and sends create-sticky |
| Client.AcceptedCreateFits | public/js/board.js:630-636 | an accepted create leaves its cell with at most four cards |
| Client.EditReachesServer | public/js/board.js:656 | the server's update-sticky merge of the sent edit gives the page's edited sticky |
| Client.CreateReachesServer | public/js/board.js:674 | the sticky the server's create-sticky builds is the page's placeholder with the assigned id, no longer pending |
| Client.WithoutLinksTo | public/js/board.js:689-691 | keeps exactly the dependencies touching neither end of the deleted sticky |
| Client.DeleteSticky | public/js/board.js:681-700 | on confirmation the sticky and its lines go, and update-sticky with `deleted` is sent, then the new dependency list |
| Client.DeleteStickyKeepsLinks | public/js/board.js:686-691 | the page's delete keeps both ends of every dependency |
| Client.DeleteReachesServer | public/js/board.js:694-695 | the server's handling of the two messages (the delete, then the new dependency list) brings it to the page's board; this holds because the modelled `ServerBoard.ReplaceDependencies` stores the list the page means, while the code as written stores the whole `{sessionId, dependencies}` payload |
| Client.WithEdge | public/js/board.js:538-558 | the corrected line drag: a self-link, or an edge already present exactly or mirrored, is refused; otherwise the edge is appended |
| Client.WithEdgeKeepsNoDuplicates | public/js/board.js:543-551 | no edge is ever present twice, either exactly or mirrored |
| Client.WithEdgeKeepsLinks | public/js/board.js:552-558 | drawing between two stickies of the board keeps both ends of every dependency |
| Client.AddEdge | public/js/board.js:532-561 | the dependencies become `WithEdge`, and the list is sent only when an edge was added |
| Client.MirroredEdgeAsWritten | public/js/board.js:535-558 | as written, the mirror of an edge is accepted as a second edge, the first edge's `to` matches no sticky, and deleting the target sticky leaves the line behind |
| Client.WithoutEdge | public/js/board.js:354-360 | keeps exactly the dependencies that do not match the clicked line |
| Client.AddThenDeleteEdge | public/js/board.js:354-360 | deleting a line just drawn by the line drag restores the earlier list |
| Client.RemoveEdge | public/js/board.js:352-363 | on confirmation the dependencies become `WithoutEdge` and are sent |
| Client.Expired | public/js/board.js:783-791 | the cleanup timer removes the first lane that is still that placeholder, and nothing else |
| Client.ExpireUndoesAdd | public/js/board.js:767-791 | when no other placeholder has the same stamp, the cleanup undoes the add |
| Client.AddTeam | public/js/board.js:761-797 | a blank prompt does nothing; otherwise a placeholder with the trimmed name is appended and add-team is sent |
| Client.AddSprint | public/js/board.js:799-835 | a blank prompt does nothing; otherwise a placeholder with the trimmed name is appended and add-sprint is sent |
| Client.ExpireTeam | public/js/board.js:783-791 | the teams become `Expired` |
| Client.ExpireSprint | public/js/board.js:821-829 | the sprints become `Expired` |
| Client.LanesOtherThan | public/js/board.js:854 | keeps exactly the lanes whose id is not the removed one |
| Client.OutsideTeam | public/js/board.js:855 | keeps exactly the stickies whose team is not the removed one |
| Client.RemoveTeam | public/js/board.js:837-864 | a NaN id, an unknown team or a refusal changes nothing; otherwise the team and its stickies go and remove-team is sent |
| Client.RemoveSprint | public/js/board.js:866-889 | an unknown sprint or a refusal changes nothing; otherwise the sprint and its stickies go by `===` and remove-sprint is sent |
| Client.RemoveSprintReachesServer | public/js/board.js:879-887 | after remove-sprint the server ends with the page's sprints and stickies, and prunes the dependencies; the dependency part holds for the modelled `ServerBoard.ReplaceDependencies`, which stores the list the page means rather than the whole `{sessionId, dependencies}` payload |
| Client.RemoveTeamAgreesWithServer | public/js/board.js:854-855 | with canonical ids, the page's team filter keeps exactly what the server's remove-team filter keeps |
| Client.NamedTeamRemovalAsWritten | public/js/board.js:837-843 | as written, removing a team with a string id changes nothing, whatever the answer to the confirmation; with the corrected reading the team is removed |
| Seqs.Filter | server.js:284 | `filter` keeps exactly the elements that pass, and is no longer |
| Seqs.FilterConcat | server.js:284 | `filter` keeps order: filtering a concatenation is the concatenation of the filtered parts |
| Seqs.FilterPairwise | server.js:284 | `filter` keeps order: a relation between every earlier and later element still holds between the kept ones |
| Seqs.FirstIndex | server.js:286 | `findIndex` gives -1 exactly when nothing matches, and otherwise the first match |
| Seqs.RemoveAt | public/js/board.js:787 | `splice(i, 1)` removes one element, shifts the rest, and keeps the multiset otherwise |
| Seqs.SetAdd | server.js:258 | `Set.add` keeps elements distinct and adds the new one |
| Seqs.SetDelete | server.js:461 | `Set.delete` keeps elements distinct and removes the given one |
| Seqs.Dedupe | server.js:115 | `new Set(array)` is duplicate-free with the same members |

## Left out

- Rendering, SVG line drawing, mouse geometry (nearest-dot search, threshold), drag classes and modals are left out. They do not change the document.
- The socket.io transport and the HTTP routes are left out. Emits are returned values, and the HTTP join is `JoinByCode`. `GET /api/board/:sessionId` only reads a session.
- File I/O and JSON parsing are left out. A file is an `Option` value, and a write is `Stored`. A failed parse is treated like a missing file.
- `loadSessions` iterates over every stored session. The model states the per-session step (`RestoreActiveUsers`, `FillDependencyDefaults`).
- The page's listeners that reconcile server events (`sticky-created`, `team-added`, and so on) are not part of this model.
- `generateAccessCode`, `uuidv4`, `Date.now()` and ISO timestamps are parameters. Their formats are not modelled.
- Team colours and the `tempId` and `sessionId` extra payload keys are not stored. The `users: []` field of a session is never used and is left out.
- JsValues.ToNumber: only decimal integer text, optional leading `-` and the empty string are modelled. Other `Number()` forms (white space, fractions, exponents, hex) give NaN here.
- JsValues.ParseInt: leading white space and a leading `+` are not skipped, unlike `parseInt`. The model only ever parses `String(n)` of an integer, which has neither.
- JsValues.Upper: only `a`-`z` are upper-cased. Other scripts' case mappings are not modelled.
- Persistence.MigrateFeature: the migrated sticky has no `dept` key. The code deletes only a truthy `dept` and leaves a falsy one on the sticky. The model does not keep that leftover key.
- ServerBoard.ReplaceDependencies: the page sends `{sessionId, dependencies}` while the server stores the whole payload. The model stores the list the page means. The mismatch is noted here, not modelled.
- Client.Drop: uses the corrected `CellId` reading for both team and sprint. The as-written `Number`/`parseInt` reading is `DroppedAsWritten`.
- Client.Check: counts a cell with the corrected `CellId` reading. As written, `Number(...)` makes a string-id team's cell count zero cards. The as-written check is `CheckAsWritten`.
- Client.SaveSticky: stores and sends the corrected `CellId` team and sprint (through `EditedSticky`, `TempSticky` and `DraftOf`). As written, a string-id team is stored as NaN.
- Client.RemoveTeam: reads the id with the corrected `Canon`, so a string-id team can be removed. As written, the button handler and `removeTeam` stop on NaN. The as-written behaviour is `RemovedTeamAsWritten`.
- Client.AddEdge: draws through the corrected `WithEdge`, which stores the target sticky's own id. As written, the target is the card's id text (`WithEdgeAsWritten`).
- ServerBoard.AddTeam: stores the corrected `AddedTeams`, which gives an id-less team a fresh id. As written, a second id-less team is dropped (`AddTeamAsWritten`).
- ServerBoard.Step: its add-team case uses the corrected `AddedTeams`, as `ServerBoard.AddTeam` does.
- Sessions.SessionStore.Handle: dispatches add-team to the corrected `ServerBoard.AddTeam`.
- Client.RemoveSprint: the modal's `parseInt` step is not modelled. The id is taken as already numeric.
- Sessions.SessionStore.Handle: does not include `join-session`, `disconnect` or persistence writes. Those are separate methods or left out.

## Findings

| source | as written | input that shows it | evidently intended | confidence | as-written member | corrected member |
|---|---|---|---|---|---|---|
| public/js/board.js:535-558 | the new line's `to` is the card's `data-card-id` text, so a numeric id is stored as a string, and the mirror check `d.from === targetId` compares a number with text | draw 1.start→2.end, then 2.end→1.start: both lines are kept, and the first line's `to` ("2") matches no sticky; deleting sticky 2 then keeps that line, since `deleteSticky` (board.js:689-691) compares `d.to` with the number 2 | use the target sticky's own id, so the mirror is refused and both ends resolve | not executed | Client.MirroredEdgeAsWritten | Client.WithEdgeKeepsNoDuplicates |
| public/js/board.js:607-625 | `saveSticky` reads the form's team with `Number(...)`, so a string-id team becomes NaN, and the capacity filter compares NaN with NaN | four cards in the `dev` cell of sprint 1, then create a fifth there: zero cards are counted, the card is accepted, and its team is stored as NaN | read the form's value back as the id it was written from, so the cell counts four and the card is refused | not executed | Client.FifthCardAsWritten | Client.AcceptedCreateFits |
| public/js/board.js:839-840 | `removeTeam` (and the button handler at 734-735) turns the id into `Number(teamId)` and stops on NaN | press Remove on the default team `dev`: nothing happens, whatever the confirmation answer | read the id back as written, so the team and its stickies are removed as on the server | not executed | Client.NamedTeamRemovalAsWritten | Client.RemoveTeamAgreesWithServer |
| server.js:363-364 | add-team skips a payload whose `id` is already present, but the page sends `{name, tempId}` with no `id` | two add-team messages from the page: the first stores a team with an undefined id, and the second is silently dropped | give a payload without an id a fresh id, so every add-team adds a team | not executed | ServerBoard.AddTeamAsWrittenDropsLaterTeams | ServerBoard.AddedTeamsKeepsBoth |
| public/js/board.js:186-204 | the drop reads the team with `Number(...)`, which turns the default string ids (`dev`, `design`, ...) into NaN | drop a card on the `dev` row: its team becomes NaN; four cards in a `dev` cell count as zero, so the limit is never enforced | read an attribute back as the id it was written from | not executed | Client.DropOntoNamedTeamAsWritten | Client.DroppedCardKeepsItsTeam |
