/**
 * The page's replica of the board (`boardData` in public/js/board.js) and
 * what the page does to it before telling the server: saving, deleting and
 * dragging stickies, drawing and deleting dependency lines, and managing
 * teams and sprints with optimistic placeholders. Dialog answers, prompt
 * input, form fields and `Date.now()` are parameters; the messages the page
 * sends are returned.
 */
module Client {
  import opened Wrappers
  import opened JsValues
  import opened Seqs
  import opened Document
  import opened Protocol
  import SB = ServerBoard

  /** The most stickies the page lets one team x sprint cell hold. */
  const CellCapacity: nat := 4

  // ----- ids read back from the page -----

  /**
   * A team or sprint id written into the page (a cell's data attribute, a
   * form option) read back as an id: a number when the text is one, the
   * text itself otherwise.
   */
  function CellId(text: string): (r: Id)
    ensures r.Num? || r.Str?
    ensures ToNumber(Str(text)).Num? ==> r == ToNumber(Str(text))
    ensures ToNumber(Str(text)).NaN? ==> r == Str(text)
  {
    var n := ToNumber(Str(text));
    if n.Num? then n else Str(text)
  }

  /** The id a stored team or sprint id is compared as: numeric strings as numbers. */
  function Canon(v: Id): (r: Id)
    ensures ToNumber(v).Num? ==> r == ToNumber(v)
    ensures v.Str? && ToNumber(v).NaN? ==> r == v
  {
    if v.Str? then CellId(v.s) else ToNumber(v)
  }

  /** Two stored team or sprint ids name the same lane. */
  predicate SameLane(a: Id, b: Id) {
    Same(Canon(a), Canon(b))
  }

  /** An id that survives being written into the page and read back. */
  predicate Canonical(v: Id) {
    v.Num? || (v.Str? && ToNumber(v).NaN?)
  }

  /** Writing a canonical id into the page and reading it back gives the id itself. */
  lemma CellIdReadsBack(v: Id)
    requires Canonical(v)
    ensures CellId(Render(v)) == v && Canon(v) == v
  {
    if v.Num? {
      NumberOfRenderedNumber(v);
    }
  }

  // ----- cells -----

  /** The test a sticky passes when it sits in the cell (`team`, `sprint`). */
  function InCell(team: Id, sprint: Id): Sticky -> bool {
    (s: Sticky) => SameLane(s.team, team) && SameLane(s.sprint, sprint)
  }

  function CellCount(stickies: seq<Sticky>, team: Id, sprint: Id): nat {
    |Filter(stickies, InCell(team, sprint))|
  }

  // ----- handleDrop -----

  /** `String(s.id) === cardId`: how a dragged card finds its sticky. */
  function ShownAs(cardId: string): Sticky -> bool {
    (s: Sticky) => Render(s.id) == cardId
  }

  /** A placeholder the server has not numbered yet. */
  predicate IsTempId(id: Id) {
    "temp-" <= Render(id)
  }

  datatype DropOutcome = DropRefused | NoSuchCard | Moved(index: nat)

  /**
   * A card dropped on the cell whose attributes read `teamText` and
   * `sprintText`: refused when the cell already holds four stickies (counting
   * the dragged one if it is there already); otherwise the first sticky shown
   * as `cardId` gets the cell's team and sprint, and the server hears of it
   * unless the sticky is still a placeholder.
   */
  method Drop(b: Board, cardId: string, teamText: string, sprintText: string) returns (o: DropOutcome, m: Option<Message>)
    modifies b
    ensures var team := CellId(teamText);
            var sprint := CellId(sprintText);
            var i := FirstIndex(old(b.stickies), ShownAs(cardId));
            if CellCount(old(b.stickies), team, sprint) >= CellCapacity then
              o == DropRefused && b.stickies == old(b.stickies) && m == None
            else if i < 0 then
              o == NoSuchCard && b.stickies == old(b.stickies) && m == None
            else
              && o == Moved(i)
              && b.stickies == old(b.stickies)[i := old(b.stickies)[i].(team := team, sprint := sprint)]
              && m == if IsTempId(old(b.stickies)[i].id) then None
                      else Some(MoveSticky(Move(old(b.stickies)[i].id, team, sprint)))
    ensures b.teams == old(b.teams) && b.sprints == old(b.sprints)
    ensures b.dependencies == old(b.dependencies) && b.nextStickyId == old(b.nextStickyId)
  {
    var team := CellId(teamText);
    var sprint := CellId(sprintText);
    if |Filter(b.stickies, InCell(team, sprint))| >= CellCapacity {
      return DropRefused, None;
    }
    var i := FirstIndex(b.stickies, ShownAs(cardId));
    if i == -1 {
      return NoSuchCard, None;
    }
    var id := b.stickies[i].id;
    b.stickies := b.stickies[i := b.stickies[i].(team := team, sprint := sprint)];
    o := Moved(i);
    m := if IsTempId(id) then None else Some(MoveSticky(Move(id, team, sprint)));
  }

  /**
   * A drop the page accepts leaves the target cell with at most four stickies
   * and makes no other cell fuller.
   */
  lemma DropRespectsCapacity(stickies: seq<Sticky>, i: nat, team: Id, sprint: Id)
    requires i < |stickies| && CellCount(stickies, team, sprint) < CellCapacity
    ensures CellCount(stickies[i := stickies[i].(team := team, sprint := sprint)], team, sprint) <= CellCapacity
    ensures forall t, s :: !(SameLane(team, t) && SameLane(sprint, s)) ==>
              CellCount(stickies[i := stickies[i].(team := team, sprint := sprint)], t, s) <= CellCount(stickies, t, s)
  {
    var moved := stickies[i].(team := team, sprint := sprint);
    FilterUpdate(stickies, i, moved, InCell(team, sprint));
    forall t, s | !(SameLane(team, t) && SameLane(sprint, s))
      ensures CellCount(stickies[i := moved], t, s) <= CellCount(stickies, t, s)
    {
      assert !InCell(t, s)(moved);
      FilterUpdate(stickies, i, moved, InCell(t, s));
    }
  }

  /** A card dropped on a team's row stays on a team of the board. */
  lemma DroppedCardKeepsItsTeam(teams: seq<Lane>, l: Lane)
    requires l in teams && Canonical(l.id)
    ensures HasLane(teams, CellId(Render(l.id)))
  {
    CellIdReadsBack(l.id);
  }

  /**
   * When no earlier sticky shares the dragged sticky's id, the server's
   * `move-sticky` moves the same sticky the page moved, to the same cell.
   */
  lemma DropReachesServer(stickies: seq<Sticky>, i: nat, team: Id, sprint: Id)
    requires i < |stickies| && !stickies[i].id.NaN?
    requires forall k :: 0 <= k < i ==> stickies[k].id != stickies[i].id
    ensures SB.Relocated(stickies, Move(stickies[i].id, team, sprint))
         == stickies[i := stickies[i].(team := team, sprint := sprint)]
  {
    assert HasId(stickies[i].id)(stickies[i]);
    assert FirstIndex(stickies, HasId(stickies[i].id)) == i;
  }

  // ----- handleDrop as written: ids read back through Number() -----

  /**
   * `handleDrop` as written reads the cell's team with `Number(...)` and its
   * sprint with `parseInt(...)`, and compares cells with `Number(a) === Number(b)`.
   */
  function DroppedAsWritten(stickies: seq<Sticky>, cardId: string, teamText: string, sprintText: string): seq<Sticky> {
    var team := ToNumber(Str(teamText));
    var sprint := ParseInt(sprintText);
    var full := |Filter(stickies, (s: Sticky) => SameNumber(s.team, team) && SameNumber(s.sprint, sprint))| >= CellCapacity;
    var i := FirstIndex(stickies, ShownAs(cardId));
    if full || i < 0 then stickies
    else stickies[i := stickies[i].(team := team, sprint := sprint)]
  }

  /** A team id that is not a number reads back through `Number(...)` as NaN, and through `CellId` as itself. */
  lemma NamedTeamReadBack()
    ensures ToNumber(Str(Render(Str("dev")))).NaN?
    ensures CellId(Render(Str("dev"))) == Str("dev")
  {
    assert !IsDigit('d');
  }

  /**
   * The default teams have string ids. Dropping a card on such a row as
   * written gives it the team NaN, which matches no team of any board.
   */
  lemma DropOntoNamedTeamAsWritten(teams: seq<Lane>)
    ensures var stickies := [Sticky(Num(1), "A", "Feature", Str("design"), Num(1), "", false)];
            var after := DroppedAsWritten(stickies, "1", "dev", "2");
            after[0].team.NaN? && !HasLane(teams, after[0].team)
  {
    var stickies := [Sticky(Num(1), "A", "Feature", Str("design"), Num(1), "", false)];
    NamedTeamReadBack();
    var nan := ToNumber(Str("dev"));
    assert Render(Num(1)) == "1" by { assert Decimal(1) == "1"; }
    assert FirstIndex(stickies, ShownAs("1")) == 0;
    FilterNone(stickies, (s: Sticky) => SameNumber(s.team, nan) && SameNumber(s.sprint, ParseInt("2")));
  }

  /**
   * As written, a cell of a team with a string id is never full: none of its
   * four stickies is counted. The page's own reading counts all four.
   */
  lemma FullNamedCellAsWritten()
    ensures var full := seq(4, k => Sticky(Num(k), "A", "Feature", Str("dev"), Num(1), "", false));
            |Filter(full, (s: Sticky) => SameNumber(s.team, ToNumber(Str("dev"))) && SameNumber(s.sprint, Num(1)))| == 0
            && CellCount(full, CellId("dev"), CellId("1")) == 4
  {
    var full := seq(4, k => Sticky(Num(k), "A", "Feature", Str("dev"), Num(1), "", false));
    NamedTeamReadBack();
    var nan := ToNumber(Str("dev"));
    FilterNone(full, (s: Sticky) => SameNumber(s.team, nan) && SameNumber(s.sprint, Num(1)));
    assert CellId("1") == Num(1) by { NumberOfDecimal(1); assert Decimal(1) == "1"; }
    FilterKeepsAll(full, InCell(CellId("dev"), CellId("1")));
  }

  /** Filtering keeps nothing when nothing passes. */
  lemma {:induction false} FilterNone(s: seq<Sticky>, p: Sticky -> bool)
    requires forall x :: x in s ==> !p(x)
    ensures Filter(s, p) == []
    decreases |s|
  {
    if s != [] {
      FilterNone(s[1..], p);
    }
  }

  // ----- saveSticky -----

  /** The sticky form's fields as the page reads them. */
  datatype Form = Form(title: string, kind: string, team: string, sprint: string, description: string)

  datatype Verdict = Accepted | TitleRequired | CellFull

  /** The stickies the capacity check counts: those in the cell, except the one being edited (by `String(id)`). */
  function Counted(team: Id, sprint: Id, editing: Option<Sticky>): Sticky -> bool {
    (s: Sticky) => InCell(team, sprint)(s) && (editing.None? || Render(s.id) != Render(editing.value.id))
  }

  function OthersInCell(stickies: seq<Sticky>, team: Id, sprint: Id, editing: Option<Sticky>): nat {
    |Filter(stickies, Counted(team, sprint, editing))|
  }

  /**
   * Whether `saveSticky` goes ahead: a blank title is refused first; an edit
   * that keeps its cell is always accepted; otherwise the target cell must
   * hold fewer than four other stickies.
   */
  function Check(stickies: seq<Sticky>, f: Form, editing: Option<Sticky>): (v: Verdict)
    ensures v == TitleRequired <==> Trim(f.title) == ""
    ensures v == CellFull ==> OthersInCell(stickies, CellId(f.team), CellId(f.sprint), editing) >= CellCapacity
    ensures v == Accepted && OthersInCell(stickies, CellId(f.team), CellId(f.sprint), editing) >= CellCapacity ==>
              editing.Some? && SameLane(editing.value.team, CellId(f.team)) && SameLane(editing.value.sprint, CellId(f.sprint))
  {
    var team := CellId(f.team);
    var sprint := CellId(f.sprint);
    if Trim(f.title) == "" then TitleRequired
    else if editing.Some? && SameLane(editing.value.team, team) && SameLane(editing.value.sprint, sprint) then Accepted
    else if OthersInCell(stickies, team, sprint, editing) >= CellCapacity then CellFull
    else Accepted
  }

  /** An edit that keeps the sticky in its cell is never refused for capacity. */
  lemma SameCellEditAllowed(stickies: seq<Sticky>, f: Form, e: Sticky)
    requires Trim(f.title) != ""
    requires SameLane(e.team, CellId(f.team)) && SameLane(e.sprint, CellId(f.sprint))
    ensures Check(stickies, f, Some(e)) == Accepted
  {
  }

  /** The sticky an accepted edit stores: the form's trimmed values under the edited sticky's id. */
  function EditedSticky(f: Form, id: Id): Sticky {
    Sticky(id, Trim(f.title), f.kind, CellId(f.team), CellId(f.sprint), Trim(f.description), false)
  }

  /** The placeholder an accepted create shows until the server's sticky arrives. */
  function TempSticky(f: Form, stamp: int): Sticky {
    Sticky(Str("temp-" + Decimal(stamp)), Trim(f.title), f.kind, CellId(f.team), CellId(f.sprint), Trim(f.description), true)
  }

  /** The `update-sticky` payload of an edit: every field of the edited sticky. */
  function PatchOf(s: Sticky): StickyPatch {
    StickyPatch(s.id, Some(s.title), Some(s.kind), Some(s.team), Some(s.sprint), Some(s.description), false)
  }

  /** The `create-sticky` payload: the form's values without an id. */
  function DraftOf(f: Form): StickyDraft {
    StickyDraft(None, Trim(f.title), f.kind, CellId(f.team), CellId(f.sprint), Some(Trim(f.description)))
  }

  /** The stickies after an edit: the first sticky with the id (under `===`) is replaced, nothing else changes. */
  function Replaced(stickies: seq<Sticky>, id: Id, x: Sticky): (r: seq<Sticky>)
    ensures |r| == |stickies|
    ensures forall j :: 0 <= j < |r| && r[j] != stickies[j] ==>
              r[j] == x && Same(stickies[j].id, id) && forall k :: 0 <= k < j ==> !Same(stickies[k].id, id)
    ensures HasSticky(stickies, id) ==>
              exists j :: 0 <= j < |r| && Same(stickies[j].id, id) && r[j] == x
                          && forall k :: 0 <= k < j ==> !Same(stickies[k].id, id)
    ensures !HasSticky(stickies, id) ==> r == stickies
  {
    var i := FirstIndex(stickies, HasId(id));
    if i < 0 then stickies else stickies[i := x]
  }

  /**
   * `saveSticky`: a refused form changes nothing and sends nothing. An
   * accepted edit replaces the sticky and sends all its fields; an accepted
   * create appends a placeholder and sends the form's values.
   */
  method SaveSticky(b: Board, f: Form, editing: Option<Sticky>, stamp: int) returns (v: Verdict, m: Option<Message>)
    modifies b
    ensures v == Check(old(b.stickies), f, editing)
    ensures v != Accepted ==> b.stickies == old(b.stickies) && m == None
    ensures v == Accepted && editing.Some? ==>
              var x := EditedSticky(f, editing.value.id);
              b.stickies == Replaced(old(b.stickies), editing.value.id, x) && m == Some(UpdateSticky(PatchOf(x)))
    ensures v == Accepted && editing.None? ==>
              b.stickies == old(b.stickies) + [TempSticky(f, stamp)] && m == Some(CreateSticky(DraftOf(f)))
    ensures b.teams == old(b.teams) && b.sprints == old(b.sprints)
    ensures b.dependencies == old(b.dependencies) && b.nextStickyId == old(b.nextStickyId)
  {
    v := Check(b.stickies, f, editing);
    if v != Accepted {
      return v, None;
    }
    if editing.Some? {
      var x := EditedSticky(f, editing.value.id);
      var i := FirstIndex(b.stickies, HasId(editing.value.id));
      if i != -1 {
        b.stickies := b.stickies[i := x];
      }
      m := Some(UpdateSticky(PatchOf(x)));
    } else {
      b.stickies := b.stickies + [TempSticky(f, stamp)];
      m := Some(CreateSticky(DraftOf(f)));
    }
  }

  /** An accepted create leaves its cell with at most four stickies. */
  lemma AcceptedCreateFits(stickies: seq<Sticky>, f: Form, stamp: int)
    requires Check(stickies, f, None) == Accepted
    ensures CellCount(stickies + [TempSticky(f, stamp)], CellId(f.team), CellId(f.sprint)) <= CellCapacity
  {
    var team := CellId(f.team);
    var sprint := CellId(f.sprint);
    AppendFiltered(stickies, TempSticky(f, stamp), InCell(team, sprint));
    assert Filter(stickies, InCell(team, sprint)) == Filter(stickies, Counted(team, sprint, None)) by {
      FilterSameTest(stickies, InCell(team, sprint), Counted(team, sprint, None));
    }
  }

  // ----- saveSticky as written: the form's team and sprint read through Number() -----

  /** The stickies `saveSticky` as written counts: `Number(s.team) === team` and so on, except the edited one. */
  function CountedAsWritten(team: Id, sprint: Id, editing: Option<Sticky>): Sticky -> bool {
    (s: Sticky) => SameNumber(s.team, team) && SameNumber(s.sprint, sprint)
                   && (editing.None? || Render(s.id) != Render(editing.value.id))
  }

  /** `saveSticky`'s checks as written, with the form's team and sprint read by `Number(...)`. */
  function CheckAsWritten(stickies: seq<Sticky>, f: Form, editing: Option<Sticky>): Verdict {
    var team := ToNumber(Str(f.team));
    var sprint := ToNumber(Str(f.sprint));
    var counted := |Filter(stickies, CountedAsWritten(team, sprint, editing))|;
    if Trim(f.title) == "" then TitleRequired
    else if editing.Some? then
      var isSameCell := SameNumber(editing.value.team, team) && SameNumber(editing.value.sprint, sprint);
      if !isSameCell && counted >= CellCapacity then CellFull else Accepted
    else if counted >= CellCapacity then CellFull else Accepted
  }

  /**
   * As written, a fifth card is accepted into a full cell of a team with a
   * string id, and it would be stored with the team NaN; the page's own
   * reading refuses it.
   */
  lemma FifthCardAsWritten()
    ensures var full := seq(4, k => Sticky(Num(k), "A", "Feature", Str("dev"), Num(1), "", false));
            var f := Form("B", "Feature", "dev", "1", "");
            CheckAsWritten(full, f, None) == Accepted && ToNumber(Str(f.team)).NaN?
            && Check(full, f, None) == CellFull
  {
    var full := seq(4, k => Sticky(Num(k), "A", "Feature", Str("dev"), Num(1), "", false));
    var f := Form("B", "Feature", "dev", "1", "");
    NamedTeamReadBack();
    assert !IsSpace('B');
    assert Trim("B") == "B";
    var nan := ToNumber(Str("dev"));
    assert ToNumber(Str("1")) == Num(1) by { NumberOfDecimal(1); assert Decimal(1) == "1"; }
    FilterNone(full, CountedAsWritten(nan, Num(1), None));
    assert CellId("1") == Num(1) by { NumberOfDecimal(1); assert Decimal(1) == "1"; }
    forall x | x in full ensures Counted(CellId("dev"), CellId("1"), None)(x) {
      assert InCell(CellId("dev"), CellId("1"))(x);
    }
    FilterKeepsAll(full, Counted(CellId("dev"), CellId("1"), None));
  }

  /** Two tests that agree on every element filter alike. */
  lemma {:induction false} FilterSameTest(s: seq<Sticky>, p: Sticky -> bool, q: Sticky -> bool)
    requires forall x :: x in s ==> p(x) == q(x)
    ensures Filter(s, p) == Filter(s, q)
    decreases |s|
  {
    if s != [] {
      FilterSameTest(s[1..], p, q);
    }
  }

  /** The server stores for an edit exactly the sticky the page stored (keeping its own `pending`). */
  lemma EditReachesServer(stored: Sticky, f: Form)
    ensures SB.Merge(stored, PatchOf(EditedSticky(f, stored.id))) == EditedSticky(f, stored.id).(pending := stored.pending)
  {
  }

  /** The server's sticky for a create is the page's placeholder with the counter's id and no `pending` flag. */
  lemma CreateReachesServer(f: Form, stamp: int, counter: Id)
    ensures SB.NewSticky(DraftOf(f), counter) == TempSticky(f, stamp).(id := ToNumber(counter), pending := false)
  {
  }

  // ----- deleteSticky -----

  /** The dependencies that touch neither end at `id`. */
  function WithoutLinksTo(deps: seq<Dependency>, id: Id): (r: seq<Dependency>)
    ensures forall d :: d in r <==> d in deps && !Same(d.from, id) && !Same(d.to, id)
  {
    Filter(deps, (d: Dependency) => !Same(d.from, id) && !Same(d.to, id))
  }

  /**
   * `deleteSticky`: with a sticky open and the deletion confirmed, the sticky
   * and every dependency touching it go, and the server is sent the deletion
   * and the pruned list.
   */
  method DeleteSticky(b: Board, editing: Option<Sticky>, confirmed: bool) returns (ms: seq<Message>)
    modifies b
    ensures editing.None? || !confirmed ==>
              b.stickies == old(b.stickies) && b.dependencies == old(b.dependencies) && ms == []
    ensures editing.Some? && confirmed ==>
              && b.stickies == SB.WithoutSticky(old(b.stickies), editing.value.id)
              && b.dependencies == WithoutLinksTo(old(b.dependencies), editing.value.id)
              && ms == [ UpdateSticky(StickyPatch(editing.value.id, None, None, None, None, None, true)),
                         UpdateDependencies(b.dependencies) ]
    ensures b.teams == old(b.teams) && b.sprints == old(b.sprints) && b.nextStickyId == old(b.nextStickyId)
  {
    if editing.None? || !confirmed {
      return [];
    }
    var id := editing.value.id;
    b.stickies := SB.WithoutSticky(b.stickies, id);
    b.dependencies := WithoutLinksTo(b.dependencies, id);
    ms := [ UpdateSticky(StickyPatch(id, None, None, None, None, None, true)), UpdateDependencies(b.dependencies) ];
  }

  /** Deleting a sticky on the page keeps both ends of every remaining dependency. */
  lemma DeleteStickyKeepsLinks(deps: seq<Dependency>, stickies: seq<Sticky>, id: Id)
    requires NoDangling(deps, stickies)
    ensures NoDangling(WithoutLinksTo(deps, id), SB.WithoutSticky(stickies, id))
  {
    var r := SB.WithoutSticky(stickies, id);
    forall d | d in WithoutLinksTo(deps, id) ensures HasSticky(r, d.from) && HasSticky(r, d.to) {
      var s :| s in stickies && Same(s.id, d.from);
      assert s in r;
      var t :| t in stickies && Same(t.id, d.to);
      assert t in r;
    }
  }

  /** The server ends a page's delete with the same stickies and dependencies as the page. */
  lemma DeleteReachesServer(d: BoardData, id: Id)
    ensures var page := d.(stickies := SB.WithoutSticky(d.stickies, id),
                           dependencies := WithoutLinksTo(d.dependencies, id));
            var patch := StickyPatch(id, None, None, None, None, None, true);
            SB.Step(SB.Step(d, UpdateSticky(patch)), UpdateDependencies(page.dependencies)) == page
  {
  }

  // ----- dependency lines -----

  /** The edge runs `from` -> `to` between those dots, missing dots read as `start` and `end`. */
  predicate Matches(d: Dependency, from: Id, to: Id, fromDot: Dot, toDot: Dot) {
    Same(d.from, from) && Same(d.to, to) && FromDot(d) == fromDot && ToDot(d) == toDot
  }

  /** Some edge joins the two dots already, in either direction. */
  predicate Connected(deps: seq<Dependency>, from: Id, fromDot: Dot, to: Id, toDot: Dot) {
    exists d :: d in deps && (Matches(d, from, to, fromDot, toDot) || Matches(d, to, from, toDot, fromDot))
  }

  /** No edge repeats or mirrors an earlier one. */
  predicate NoDuplicateEdges(deps: seq<Dependency>) {
    forall i, j :: 0 <= i < j < |deps| ==>
      !Matches(deps[j], deps[i].from, deps[i].to, FromDot(deps[i]), ToDot(deps[i]))
      && !Matches(deps[j], deps[i].to, deps[i].from, ToDot(deps[i]), FromDot(deps[i]))
  }

  /**
   * The dependency list after a line is drawn from `fromDot` of sticky `from`
   * to `toDot` of sticky `to`: one edge is appended unless it would join a
   * sticky to itself or repeat or mirror an existing edge.
   */
  function WithEdge(deps: seq<Dependency>, from: Id, fromDot: Dot, to: Id, toDot: Dot): (r: seq<Dependency>)
    ensures Same(to, from) || Connected(deps, from, fromDot, to, toDot) ==> r == deps
    ensures !(Same(to, from) || Connected(deps, from, fromDot, to, toDot)) ==>
              r == deps + [Dependency(from, to, Some(fromDot), Some(toDot), None, None)]
  {
    if Same(to, from) || Connected(deps, from, fromDot, to, toDot) then deps
    else deps + [Dependency(from, to, Some(fromDot), Some(toDot), None, None)]
  }

  /** Drawing a line keeps the list free of repeated and mirrored edges. */
  lemma WithEdgeKeepsNoDuplicates(deps: seq<Dependency>, from: Id, fromDot: Dot, to: Id, toDot: Dot)
    requires NoDuplicateEdges(deps)
    ensures NoDuplicateEdges(WithEdge(deps, from, fromDot, to, toDot))
  {
    var r := WithEdge(deps, from, fromDot, to, toDot);
    if r != deps {
      var e := r[|r| - 1];
      forall i, j | 0 <= i < j < |r|
        ensures !Matches(r[j], r[i].from, r[i].to, FromDot(r[i]), ToDot(r[i]))
        ensures !Matches(r[j], r[i].to, r[i].from, ToDot(r[i]), FromDot(r[i]))
      {
        if j == |r| - 1 {
          assert r[i] in deps;
          assert !Matches(r[i], from, to, fromDot, toDot) && !Matches(r[i], to, from, toDot, fromDot);
        }
      }
    }
  }

  /** Drawing a line between two stickies of the board keeps every edge's ends on the board. */
  lemma WithEdgeKeepsLinks(deps: seq<Dependency>, stickies: seq<Sticky>, from: Id, fromDot: Dot, to: Id, toDot: Dot)
    requires NoDangling(deps, stickies) && HasSticky(stickies, from) && HasSticky(stickies, to)
    ensures NoDangling(WithEdge(deps, from, fromDot, to, toDot), stickies)
  {
  }

  /**
   * The end of a line drag on another card's dot: the edge is added as
   * `WithEdge` says, and the whole list is sent when it grew.
   */
  method AddEdge(b: Board, from: Id, fromDot: Dot, to: Id, toDot: Dot) returns (m: Option<Message>)
    modifies b
    ensures b.dependencies == WithEdge(old(b.dependencies), from, fromDot, to, toDot)
    ensures m == if |b.dependencies| > |old(b.dependencies)| then Some(UpdateDependencies(b.dependencies)) else None
    ensures b.teams == old(b.teams) && b.sprints == old(b.sprints)
    ensures b.stickies == old(b.stickies) && b.nextStickyId == old(b.nextStickyId)
  {
    if Same(to, from) {
      return None;
    }
    var exact := exists d :: d in b.dependencies && Matches(d, from, to, fromDot, toDot);
    var mirrored := exists d :: d in b.dependencies && Matches(d, to, from, toDot, fromDot);
    if !exact && !mirrored {
      b.dependencies := b.dependencies + [Dependency(from, to, Some(fromDot), Some(toDot), None, None)];
      m := Some(UpdateDependencies(b.dependencies));
    } else {
      m := None;
    }
  }

  /**
   * The line drag as written: the target is the card's `data-card-id` text,
   * so the stored `to` is a string even when the sticky's id is a number.
   */
  function WithEdgeAsWritten(deps: seq<Dependency>, from: Id, fromDot: Dot, targetCardId: string, toDot: Dot): seq<Dependency> {
    WithEdge(deps, from, fromDot, Str(targetCardId), toDot)
  }

  /**
   * As written, a line from 1.start to 2.end followed by a line from 2.end to
   * 1.start is accepted twice, because the mirror test compares the stored
   * number 1 with the text "1"; the first edge also has no sticky at its `to`
   * end under `===`, and deleting sticky 2 leaves the line behind, because
   * the pruning compares the number 2 with the text "2". With the target
   * sticky's own id the mirror is refused.
   */
  lemma MirroredEdgeAsWritten()
    ensures var stickies := [Sticky(Num(1), "A", "Feature", Num(1), Num(1), "", false),
                             Sticky(Num(2), "B", "Feature", Num(1), Num(1), "", false)];
            var once := WithEdgeAsWritten([], Num(1), Start, Render(Num(2)), End);
            |WithEdgeAsWritten(once, Num(2), End, Render(Num(1)), Start)| == 2
            && !NoDangling(once, stickies)
    ensures var once := WithEdgeAsWritten([], Num(1), Start, Render(Num(2)), End);
            WithoutLinksTo(once, Num(2)) == once
    ensures |WithEdge(WithEdge([], Num(1), Start, Num(2), End), Num(2), End, Num(1), Start)| == 1
  {
    var stickies := [Sticky(Num(1), "A", "Feature", Num(1), Num(1), "", false),
                     Sticky(Num(2), "B", "Feature", Num(1), Num(1), "", false)];
    assert Render(Num(2)) == "2" && Render(Num(1)) == "1";
    var once := WithEdgeAsWritten([], Num(1), Start, "2", End);
    assert once == [Dependency(Num(1), Str("2"), Some(Start), Some(End), None, None)];
    assert !Connected(once, Num(2), End, Str("1"), Start);
    assert !HasSticky(stickies, Str("2"));
    FilterKeepsAll(once, (d: Dependency) => !Same(d.from, Num(2)) && !Same(d.to, Num(2)));
    var fixed := WithEdge([], Num(1), Start, Num(2), End);
    assert Connected(fixed, Num(2), End, Num(1), Start) by {
      assert Matches(fixed[0], Num(1), Num(2), Start, End);
    }
  }

  /**
   * The click-to-delete filter for the line drawn for `clicked`: when either
   * edge carries dot information the edge must match ends and both dots,
   * otherwise it must match the ends.
   */
  function KeptAfterClick(clicked: Dependency): Dependency -> bool {
    (d: Dependency) =>
      if d.fromDot.Some? || d.toDot.Some? || clicked.fromDot.Some? || clicked.toDot.Some? then
        !Matches(d, clicked.from, clicked.to, FromDot(clicked), ToDot(clicked))
      else
        !(Same(d.from, clicked.from) && Same(d.to, clicked.to))
  }

  /** The list after a line is clicked away: exactly the edges it matches are gone. */
  function WithoutEdge(deps: seq<Dependency>, clicked: Dependency): (r: seq<Dependency>)
    ensures forall d :: d in r <==> d in deps && !Matches(d, clicked.from, clicked.to, FromDot(clicked), ToDot(clicked))
  {
    Filter(deps, KeptAfterClick(clicked))
  }

  /** A line drawn and then clicked away leaves the list as it was. */
  lemma AddThenDeleteEdge(deps: seq<Dependency>, from: Id, fromDot: Dot, to: Id, toDot: Dot)
    requires !from.NaN? && !to.NaN? && !Same(to, from) && !Connected(deps, from, fromDot, to, toDot)
    ensures var e := Dependency(from, to, Some(fromDot), Some(toDot), None, None);
            WithoutEdge(WithEdge(deps, from, fromDot, to, toDot), e) == deps
  {
    var e := Dependency(from, to, Some(fromDot), Some(toDot), None, None);
    FilterConcat(deps, [e], KeptAfterClick(e));
    FilterKeepsAll(deps, KeptAfterClick(e));
    assert Filter([e], KeptAfterClick(e)) == [];
  }

  method RemoveEdge(b: Board, clicked: Dependency, confirmed: bool) returns (m: Option<Message>)
    modifies b
    ensures !confirmed ==> b.dependencies == old(b.dependencies) && m == None
    ensures confirmed ==> b.dependencies == WithoutEdge(old(b.dependencies), clicked)
                          && m == Some(UpdateDependencies(b.dependencies))
    ensures b.teams == old(b.teams) && b.sprints == old(b.sprints)
    ensures b.stickies == old(b.stickies) && b.nextStickyId == old(b.nextStickyId)
  {
    if !confirmed {
      return None;
    }
    b.dependencies := WithoutEdge(b.dependencies, clicked);
    m := Some(UpdateDependencies(b.dependencies));
  }

  // ----- teams and sprints -----

  /** `name && name.trim()`: the prompt was answered with something besides white space. */
  predicate Named(name: Option<string>) {
    name.Some? && Trim(name.value) != ""
  }

  /** The placeholder lane shown until the server's lane arrives, numbered by `Date.now()`. */
  function TempLane(name: string, stamp: int): Lane {
    Lane(Num(stamp), Trim(name), true)
  }

  /** The lane is the placeholder numbered `tempId` and still marked temporary. */
  predicate IsTempWith(l: Lane, tempId: int) {
    Same(l.id, Num(tempId)) && l.isTemp
  }

  /** The test the cleanup timer uses. */
  function IsTempLane(tempId: int): Lane -> bool {
    (l: Lane) => IsTempWith(l, tempId)
  }

  /**
   * The lanes after the cleanup timer for `tempId` fires: the first lane that
   * is still that placeholder is removed, and nothing else.
   */
  function Expired(lanes: seq<Lane>, tempId: int): (r: seq<Lane>)
    ensures |r| == |lanes| || |r| == |lanes| - 1
    ensures |r| == |lanes| <==> forall l :: l in lanes ==> !IsTempWith(l, tempId)
    ensures |r| == |lanes| ==> r == lanes
    ensures |r| < |lanes| ==> exists i :: 0 <= i < |lanes| && IsTempWith(lanes[i], tempId) && r == lanes[..i] + lanes[i + 1..]
                                         && forall k :: 0 <= k < i ==> !IsTempWith(lanes[k], tempId)
    ensures forall l :: l in lanes && !IsTempWith(l, tempId) ==> l in r
  {
    var i := FirstIndex(lanes, IsTempLane(tempId));
    if i < 0 then lanes
    else
      var r := RemoveAt(lanes, i);
      assert forall l :: l in lanes && l != lanes[i] ==> l in r by {
        assert lanes == lanes[..i] + [lanes[i]] + lanes[i + 1..];
      }
      r
  }

  /**
   * The cleanup after an add undoes the add when no other placeholder carries
   * the same stamp (`t` is the appended placeholder, such as `TempLane(name, stamp)`).
   */
  lemma ExpireUndoesAdd(lanes: seq<Lane>, t: Lane, stamp: int)
    requires IsTempWith(t, stamp)
    requires forall l :: l in lanes ==> !IsTempWith(l, stamp)
    ensures Expired(lanes + [t], stamp) == lanes
  {
    var s := lanes + [t];
    var r := Expired(s, stamp);
    assert s[|lanes|] in s && IsTempWith(s[|lanes|], stamp);
    assert |r| < |s|;
    var i :| 0 <= i < |s| && IsTempWith(s[i], stamp) && r == s[..i] + s[i + 1..];
    assert s[..i] == lanes;
  }

  /**
   * `addTeam`: an unanswered or blank prompt does nothing; otherwise a
   * placeholder with the trimmed name is appended and the server is asked
   * for the team.
   */
  method AddTeam(b: Board, name: Option<string>, stamp: int) returns (m: Option<Message>)
    modifies b
    ensures !Named(name) ==> b.teams == old(b.teams) && m == None
    ensures Named(name) ==> b.teams == old(b.teams) + [TempLane(name.value, stamp)]
                            && m == Some(Message.AddTeam(Trim(name.value), stamp))
    ensures b.sprints == old(b.sprints) && b.stickies == old(b.stickies)
    ensures b.dependencies == old(b.dependencies) && b.nextStickyId == old(b.nextStickyId)
  {
    if name.None? || Trim(name.value) == "" {
      return None;
    }
    b.teams := b.teams + [Lane(Num(stamp), Trim(name.value), true)];
    m := Some(Message.AddTeam(Trim(name.value), stamp));
  }

  /** `addSprint`, the same for sprints. */
  method AddSprint(b: Board, name: Option<string>, stamp: int) returns (m: Option<Message>)
    modifies b
    ensures !Named(name) ==> b.sprints == old(b.sprints) && m == None
    ensures Named(name) ==> b.sprints == old(b.sprints) + [TempLane(name.value, stamp)]
                            && m == Some(Message.AddSprint(Trim(name.value), stamp))
    ensures b.teams == old(b.teams) && b.stickies == old(b.stickies)
    ensures b.dependencies == old(b.dependencies) && b.nextStickyId == old(b.nextStickyId)
  {
    if name.None? || Trim(name.value) == "" {
      return None;
    }
    b.sprints := b.sprints + [Lane(Num(stamp), Trim(name.value), true)];
    m := Some(Message.AddSprint(Trim(name.value), stamp));
  }

  /** The team cleanup timer, removing the placeholder in place with `splice`. */
  method ExpireTeam(b: Board, tempId: int)
    modifies b
    ensures b.teams == Expired(old(b.teams), tempId)
    ensures b.sprints == old(b.sprints) && b.stickies == old(b.stickies)
    ensures b.dependencies == old(b.dependencies) && b.nextStickyId == old(b.nextStickyId)
  {
    var i := FirstIndex(b.teams, IsTempLane(tempId));
    if i != -1 {
      b.teams := RemoveAt(b.teams, i);
    }
  }

  /** The sprint cleanup timer. */
  method ExpireSprint(b: Board, tempId: int)
    modifies b
    ensures b.sprints == Expired(old(b.sprints), tempId)
    ensures b.teams == old(b.teams) && b.stickies == old(b.stickies)
    ensures b.dependencies == old(b.dependencies) && b.nextStickyId == old(b.nextStickyId)
  {
    var i := FirstIndex(b.sprints, IsTempLane(tempId));
    if i != -1 {
      b.sprints := RemoveAt(b.sprints, i);
    }
  }

  /** The lanes other than `id` under the page's comparison. */
  function LanesOtherThan(lanes: seq<Lane>, id: Id): (r: seq<Lane>)
    ensures forall l :: l in r <==> l in lanes && !SameLane(l.id, id)
  {
    Filter(lanes, (l: Lane) => !SameLane(l.id, id))
  }

  /** The stickies outside team `id` under the page's comparison. */
  function OutsideTeam(stickies: seq<Sticky>, id: Id): (r: seq<Sticky>)
    ensures forall s :: s in r <==> s in stickies && !SameLane(s.team, id)
  {
    Filter(stickies, (s: Sticky) => !SameLane(s.team, id))
  }

  /**
   * `removeTeam`: an id that is not a team's, or a declined confirmation,
   * changes nothing; otherwise the team and its stickies go. Dependencies are
   * left for the server's cascade.
   */
  method RemoveTeam(b: Board, teamId: Id, confirmed: bool) returns (m: Option<Message>)
    modifies b
    ensures var tid := Canon(teamId);
            if tid.NaN? || !(exists t :: t in old(b.teams) && SameLane(t.id, tid)) || !confirmed then
              b.teams == old(b.teams) && b.stickies == old(b.stickies) && m == None
            else
              && b.teams == LanesOtherThan(old(b.teams), tid)
              && b.stickies == OutsideTeam(old(b.stickies), tid)
              && m == Some(Message.RemoveTeam(tid))
    ensures b.dependencies == old(b.dependencies)
    ensures b.sprints == old(b.sprints) && b.nextStickyId == old(b.nextStickyId)
  {
    var tid := Canon(teamId);
    if tid.NaN? {
      return None;
    }
    if !(exists t :: t in b.teams && SameLane(t.id, tid)) || !confirmed {
      return None;
    }
    b.teams := LanesOtherThan(b.teams, tid);
    b.stickies := OutsideTeam(b.stickies, tid);
    m := Some(Message.RemoveTeam(tid));
  }

  /**
   * `removeSprint`, comparing with `===`: the same filters as the server's
   * `remove-sprint`, without its dependency cascade.
   */
  method RemoveSprint(b: Board, sprintId: Id, confirmed: bool) returns (m: Option<Message>)
    modifies b
    ensures !HasLane(old(b.sprints), sprintId) || !confirmed ==>
              b.sprints == old(b.sprints) && b.stickies == old(b.stickies) && m == None
    ensures HasLane(old(b.sprints), sprintId) && confirmed ==>
              && b.sprints == SB.LanesWithout(old(b.sprints), sprintId)
              && b.stickies == SB.OutsideSprint(old(b.stickies), sprintId)
              && m == Some(Message.RemoveSprint(sprintId))
    ensures b.dependencies == old(b.dependencies)
    ensures b.teams == old(b.teams) && b.nextStickyId == old(b.nextStickyId)
  {
    if !(exists s :: s in b.sprints && Same(s.id, sprintId)) || !confirmed {
      return None;
    }
    b.sprints := SB.LanesWithout(b.sprints, sprintId);
    b.stickies := SB.OutsideSprint(b.stickies, sprintId);
    m := Some(Message.RemoveSprint(sprintId));
  }

  /**
   * After the page removes a sprint and the server handles the message, both
   * hold the same sprints and stickies; the server has also pruned the
   * dependencies the page still shows.
   */
  lemma RemoveSprintReachesServer(d: BoardData, id: Id)
    ensures var server := SB.Step(d, Message.RemoveSprint(id));
            server.sprints == SB.LanesWithout(d.sprints, id)
            && server.stickies == SB.OutsideSprint(d.stickies, id)
            && NoDangling(server.dependencies, server.stickies)
  {
  }

  /** With canonical ids throughout, the page's team filter keeps exactly what the server's keeps. */
  lemma {:induction false} RemoveTeamAgreesWithServer(stickies: seq<Sticky>, id: Id)
    requires Canonical(id) && forall s :: s in stickies ==> Canonical(s.team)
    ensures OutsideTeam(stickies, id) == SB.OutsideTeam(stickies, id)
    decreases |stickies|
  {
    if stickies != [] {
      RemoveTeamAgreesWithServer(stickies[1..], id);
      CellIdReadsBack(id);
      CellIdReadsBack(stickies[0].team);
    }
  }

  // ----- removeTeam as written: the team id read through Number() -----

  /**
   * The remove button's handler and `removeTeam` as written: the button's
   * id text goes through `Number(...)`; NaN, an unknown team or a refusal
   * changes nothing; otherwise lanes and stickies are filtered by `Number`.
   */
  function RemovedTeamAsWritten(d: BoardData, teamText: string, confirmed: bool): BoardData {
    var tid := ToNumber(Str(teamText));
    if tid.NaN? || !(exists t :: t in d.teams && SameNumber(t.id, tid)) || !confirmed then d
    else d.(teams := Filter(d.teams, (l: Lane) => !SameNumber(l.id, tid)),
            stickies := Filter(d.stickies, (s: Sticky) => !SameNumber(s.team, tid)))
  }

  /**
   * As written, a team with a string id such as a default team can never be
   * removed from the page; with the page's own reading it is removed.
   */
  lemma NamedTeamRemovalAsWritten(d: BoardData, confirmed: bool)
    ensures RemovedTeamAsWritten(d, "dev", confirmed) == d
    ensures !Canon(Str("dev")).NaN?
    ensures !HasLane(LanesOtherThan(d.teams, Canon(Str("dev"))), Str("dev"))
  {
    NamedTeamReadBack();
    assert Canon(Str("dev")) == Str("dev");
  }
}
