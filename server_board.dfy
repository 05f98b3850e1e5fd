/**
 * What the server's socket handlers do to the board of the session an
 * event belongs to (server.js, the `update-sticky` ... `remove-sprint`
 * handlers). The server validates nothing: no title check, no cell
 * capacity, no endpoint check on a replaced dependency list; deleting a
 * sticky leaves its dependencies for the page to prune.
 */
module ServerBoard {
  import opened Wrappers
  import opened JsValues
  import opened Seqs
  import opened Document
  import opened Protocol

  // ----- update-sticky -----

  /** `{ ...s, ...p }`: every key present in the payload overwrites the stored one. */
  function Merge(s: Sticky, p: StickyPatch): Sticky {
    Sticky(p.id, p.title.GetOr(s.title), p.kind.GetOr(s.kind), p.team.GetOr(s.team),
           p.sprint.GetOr(s.sprint), p.description.GetOr(s.description), s.pending)
  }

  /**
   * The stickies after an `update-sticky` without `deleted`: the first sticky
   * carrying the payload's id is merged with it, nothing else changes, and an
   * unknown id changes nothing.
   */
  function Patched(stickies: seq<Sticky>, p: StickyPatch): (r: seq<Sticky>)
    ensures |r| == |stickies|
    ensures forall j :: 0 <= j < |r| ==> r[j].id == stickies[j].id
    ensures forall j :: 0 <= j < |r| && r[j] != stickies[j] ==>
              Same(stickies[j].id, p.id) && r[j] == Merge(stickies[j], p)
              && forall k :: 0 <= k < j ==> !Same(stickies[k].id, p.id)
    ensures HasSticky(stickies, p.id) ==>
              exists j :: 0 <= j < |r| && Same(stickies[j].id, p.id) && r[j] == Merge(stickies[j], p)
                          && forall k :: 0 <= k < j ==> !Same(stickies[k].id, p.id)
    ensures !HasSticky(stickies, p.id) ==> r == stickies
  {
    var i := FirstIndex(stickies, HasId(p.id));
    if i < 0 then stickies else stickies[i := Merge(stickies[i], p)]
  }

  /** The stickies after an `update-sticky` with `deleted`: every sticky with that id is gone, all others stay. */
  function WithoutSticky(stickies: seq<Sticky>, id: Id): (r: seq<Sticky>)
    ensures !HasSticky(r, id)
    ensures forall s :: s in r <==> s in stickies && !Same(s.id, id)
  {
    Filter(stickies, (s: Sticky) => !Same(s.id, id))
  }

  method UpdateSticky(b: Board, p: StickyPatch) returns (e: Emit)
    modifies b
    ensures b.stickies == if p.deleted then WithoutSticky(old(b.stickies), p.id)
                          else Patched(old(b.stickies), p)
    ensures b.dependencies == old(b.dependencies)
    ensures b.teams == old(b.teams) && b.sprints == old(b.sprints)
    ensures b.nextStickyId == old(b.nextStickyId)
    ensures e == Emit(Room, StickyUpdated(p))
  {
    if p.deleted {
      b.stickies := WithoutSticky(b.stickies, p.id);
    } else {
      var i := FirstIndex(b.stickies, HasId(p.id));
      if i != -1 {
        b.stickies := b.stickies[i := Merge(b.stickies[i], p)];
      }
    }
    e := Emit(Room, StickyUpdated(p));
  }

  lemma {:induction false} FirstIndexAgrees(s: seq<Sticky>, t: seq<Sticky>, id: Id)
    requires |s| == |t| && forall j :: 0 <= j < |s| ==> s[j].id == t[j].id
    ensures FirstIndex(s, HasId(id)) == FirstIndex(t, HasId(id))
    decreases |s|
  {
    if s != [] {
      FirstIndexAgrees(s[1..], t[1..], id);
    }
  }

  /** Applying the same `update-sticky` twice leaves the stickies as applying it once. */
  lemma UpdateIdempotent(stickies: seq<Sticky>, p: StickyPatch)
    ensures p.deleted ==> WithoutSticky(WithoutSticky(stickies, p.id), p.id) == WithoutSticky(stickies, p.id)
    ensures !p.deleted ==> Patched(Patched(stickies, p), p) == Patched(stickies, p)
  {
    if p.deleted {
      var once := WithoutSticky(stickies, p.id);
      FilterKeepsAll(once, (s: Sticky) => !Same(s.id, p.id));
    } else {
      var once := Patched(stickies, p);
      FirstIndexAgrees(stickies, once, p.id);
      var i := FirstIndex(stickies, HasId(p.id));
      if i >= 0 {
        assert once == stickies[i := Merge(stickies[i], p)];
        assert Merge(Merge(stickies[i], p), p) == Merge(stickies[i], p);
      }
    }
  }

  /** A merge keeps ids, so dependencies that had both ends keep them. */
  lemma PatchKeepsLinks(deps: seq<Dependency>, stickies: seq<Sticky>, p: StickyPatch)
    requires NoDangling(deps, stickies)
    ensures NoDangling(deps, Patched(stickies, p))
  {
    var r := Patched(stickies, p);
    forall d | d in deps ensures HasSticky(r, d.from) && HasSticky(r, d.to) {
      var s :| s in stickies && Same(s.id, d.from);
      var j :| 0 <= j < |stickies| && stickies[j] == s;
      assert Same(r[j].id, d.from);
      var t :| t in stickies && Same(t.id, d.to);
      var k :| 0 <= k < |stickies| && stickies[k] == t;
      assert Same(r[k].id, d.to);
    }
  }

  /**
   * Deleting a sticky on the server leaves every dependency that points at it
   * in place: the board then has a dangling edge until a page sends a pruned list.
   */
  lemma DeleteLeavesDangling(deps: seq<Dependency>, stickies: seq<Sticky>, id: Id)
    requires exists d :: d in deps && Same(d.to, id)
    ensures !NoDangling(deps, WithoutSticky(stickies, id))
  {
    var d :| d in deps && Same(d.to, id);
    assert d.to == id;
  }

  // ----- create-sticky -----

  /**
   * `{ id: nextStickyId++, ...payload, description: payload.description || '' }`:
   * a payload that carries its own `id` key overrides the counter.
   */
  function NewSticky(d: StickyDraft, counter: Id): Sticky {
    Sticky(d.id.GetOr(ToNumber(counter)), d.title, d.kind, d.team, d.sprint,
           d.description.GetOr(""), false)
  }

  method CreateSticky(b: Board, d: StickyDraft) returns (created: Sticky, e: Emit)
    modifies b
    ensures created == NewSticky(d, old(b.nextStickyId))
    ensures b.nextStickyId == Increment(old(b.nextStickyId))
    ensures b.stickies == old(b.stickies) + [created]
    ensures b.dependencies == old(b.dependencies)
    ensures b.teams == old(b.teams) && b.sprints == old(b.sprints)
    ensures e == Emit(Room, StickyCreated(created))
  {
    var id := ToNumber(b.nextStickyId);
    b.nextStickyId := Increment(b.nextStickyId);
    created := Sticky(d.id.GetOr(id), d.title, d.kind, d.team, d.sprint, d.description.GetOr(""), false);
    b.stickies := b.stickies + [created];
    e := Emit(Room, StickyCreated(created));
  }

  /** Every sticky id is a number below the counter. */
  predicate IdsBelow(stickies: seq<Sticky>, counter: Id) {
    counter.Num? && forall s :: s in stickies ==> s.id.Num? && s.id.n < counter.n
  }

  /**
   * While every id is below the counter, `create-sticky` hands out the counter's
   * value, which no sticky carries yet, and the counter moves up by exactly one,
   * so the invariant holds again.
   */
  lemma CreateNumbersFreshly(stickies: seq<Sticky>, counter: Id, d: StickyDraft)
    requires IdsBelow(stickies, counter) && d.id.None?
    ensures NewSticky(d, counter).id == counter
    ensures !HasSticky(stickies, NewSticky(d, counter).id)
    ensures Increment(counter) == Num(counter.n + 1)
    ensures IdsBelow(stickies + [NewSticky(d, counter)], Increment(counter))
  {
  }

  /** The default board numbers its stickies below its counter. */
  lemma DefaultIdsBelow()
    ensures IdsBelow(DefaultBoard.stickies, DefaultBoard.nextStickyId)
  {
    var s := DefaultBoard.stickies;
    var ids := seq(|s|, i requires 0 <= i < |s| => s[i].id);
    assert ids == [Num(1), Num(2), Num(3), Num(4), Num(5), Num(6), Num(7), Num(8), Num(9), Num(10), Num(11), Num(12)];
    forall x | x in s ensures x.id.Num? && x.id.n < 13 {
      var i :| 0 <= i < |s| && s[i] == x;
      assert ids[i] == x.id;
    }
  }

  // ----- move-sticky -----

  /**
   * The stickies after `move-sticky`: the first sticky with the id gets the
   * requested team and sprint, no other field or sticky changes, and there is
   * no capacity check.
   */
  function Relocated(stickies: seq<Sticky>, m: Move): (r: seq<Sticky>)
    ensures |r| == |stickies|
    ensures forall j :: 0 <= j < |r| ==>
              r[j] == stickies[j] || r[j] == stickies[j].(team := m.team, sprint := m.sprint)
    ensures forall j :: 0 <= j < |r| && r[j] != stickies[j] ==>
              Same(stickies[j].id, m.stickyId) && forall k :: 0 <= k < j ==> !Same(stickies[k].id, m.stickyId)
    ensures HasSticky(stickies, m.stickyId) ==>
              exists j :: 0 <= j < |r| && Same(stickies[j].id, m.stickyId)
                          && r[j] == stickies[j].(team := m.team, sprint := m.sprint)
                          && forall k :: 0 <= k < j ==> !Same(stickies[k].id, m.stickyId)
    ensures !HasSticky(stickies, m.stickyId) ==> r == stickies
  {
    var i := FirstIndex(stickies, HasId(m.stickyId));
    if i < 0 then stickies else stickies[i := stickies[i].(team := m.team, sprint := m.sprint)]
  }

  method MoveSticky(b: Board, m: Move) returns (e: Option<Emit>)
    modifies b
    ensures b.stickies == Relocated(old(b.stickies), m)
    ensures e == if HasSticky(old(b.stickies), m.stickyId) then Some(Emit(Room, StickyMoved(m))) else None
    ensures b.dependencies == old(b.dependencies)
    ensures b.teams == old(b.teams) && b.sprints == old(b.sprints)
    ensures b.nextStickyId == old(b.nextStickyId)
  {
    var i := FirstIndex(b.stickies, HasId(m.stickyId));
    if i != -1 {
      b.stickies := b.stickies[i := b.stickies[i].(team := m.team, sprint := m.sprint)];
      e := Some(Emit(Room, StickyMoved(m)));
    } else {
      e := None;
    }
  }

  /** A move keeps every id, so dependencies that had both ends keep them. */
  lemma MoveKeepsLinks(deps: seq<Dependency>, stickies: seq<Sticky>, m: Move)
    requires NoDangling(deps, stickies)
    ensures NoDangling(deps, Relocated(stickies, m))
  {
    var r := Relocated(stickies, m);
    forall d | d in deps ensures HasSticky(r, d.from) && HasSticky(r, d.to) {
      var s :| s in stickies && Same(s.id, d.from);
      var j :| 0 <= j < |stickies| && stickies[j] == s;
      assert Same(r[j].id, d.from);
      var t :| t in stickies && Same(t.id, d.to);
      var k :| 0 <= k < |stickies| && stickies[k] == t;
      assert Same(r[k].id, d.to);
    }
  }

  // ----- update-dependencies -----

  /** The handler stores what it receives as the new list, without checking endpoints. */
  method ReplaceDependencies(b: Board, deps: seq<Dependency>) returns (e: Emit)
    modifies b
    ensures b.dependencies == deps
    ensures b.stickies == old(b.stickies) && b.teams == old(b.teams) && b.sprints == old(b.sprints)
    ensures b.nextStickyId == old(b.nextStickyId)
    ensures e == Emit(RoomOthers, DependenciesUpdated(deps))
  {
    b.dependencies := deps;
    e := Emit(RoomOthers, DependenciesUpdated(deps));
  }

  // ----- add-team -----

  /** `add-team` as written: push the payload unless a team already has its `id` under `===`. */
  function AddTeamAsWritten(teams: seq<Lane>, team: Lane): seq<Lane> {
    if HasLane(teams, team.id) then teams else teams + [team]
  }

  /**
   * The page sends `{name, tempId}`, so the payload's `id` is undefined. The
   * first such team is stored with an undefined id, and from then on every
   * later `add-team`, whatever its name, finds that team and is dropped.
   */
  lemma AddTeamAsWrittenDropsLaterTeams(teams: seq<Lane>, first: string, second: string)
    requires !HasLane(teams, Undefined)
    ensures AddTeamAsWritten(teams, Lane(Undefined, first, false)) == teams + [Lane(Undefined, first, false)]
    ensures var once := AddTeamAsWritten(teams, Lane(Undefined, first, false));
            AddTeamAsWritten(once, Lane(Undefined, second, false)) == once
  {
    var once := teams + [Lane(Undefined, first, false)];
    assert Lane(Undefined, first, false) in once;
  }

  /** The largest numeric team id (0 when there is none); ids that are not numbers are skipped. */
  function MaxNumericId(lanes: seq<Lane>): (m: nat)
    ensures forall l :: l in lanes && l.id.Num? ==> l.id.n <= m
    ensures m == 0 || exists l :: l in lanes && l.id == Num(m)
  {
    if lanes == [] then 0
    else
      var rest := MaxNumericId(lanes[1..]);
      if lanes[0].id.Num? && lanes[0].id.n > rest then lanes[0].id.n else rest
  }

  /** A numeric id no lane carries. */
  function FreshLaneId(lanes: seq<Lane>): (r: Id)
    ensures r.Num? && r.n >= 1
    ensures !HasLane(lanes, r)
  {
    Num(MaxNumericId(lanes) + 1)
  }

  /**
   * `add-team` as intended: a payload without an id gets a fresh numeric id and
   * is always added; a payload with an id is added unless that id is taken.
   * Ids stay unique either way.
   */
  function AddedTeams(teams: seq<Lane>, team: Lane): (r: seq<Lane>)
    ensures team.id.Undefined? ==> r == teams + [team.(id := FreshLaneId(teams))]
    ensures !team.id.Undefined? ==> r == AddTeamAsWritten(teams, team)
    ensures UniqueIds(teams) ==> UniqueIds(r)
  {
    if team.id.Undefined? then teams + [team.(id := FreshLaneId(teams))]
    else AddTeamAsWritten(teams, team)
  }

  /** Two teams added in a row without ids are both kept. */
  lemma AddedTeamsKeepsBoth(teams: seq<Lane>, first: string, second: string)
    ensures |AddedTeams(AddedTeams(teams, Lane(Undefined, first, false)), Lane(Undefined, second, false))| == |teams| + 2
  {
  }

  method AddTeam(b: Board, team: Lane) returns (e: Option<Emit>)
    modifies b
    ensures b.teams == AddedTeams(old(b.teams), team)
    ensures e.Some? <==> |b.teams| == |old(b.teams)| + 1
    ensures e.Some? ==> e.value == Emit(Room, TeamAdded(b.teams[|b.teams| - 1]))
    ensures b.stickies == old(b.stickies) && b.sprints == old(b.sprints)
    ensures b.dependencies == old(b.dependencies) && b.nextStickyId == old(b.nextStickyId)
  {
    var stored := if team.id.Undefined? then team.(id := FreshLaneId(b.teams)) else team;
    if !(exists l :: l in b.teams && Same(l.id, stored.id)) {
      b.teams := b.teams + [stored];
      e := Some(Emit(Room, TeamAdded(stored)));
    } else {
      e := None;
    }
  }

  // ----- remove-team / remove-sprint -----

  /** `lanes.filter(l => l.id !== id)`. */
  function LanesWithout(lanes: seq<Lane>, id: Id): (r: seq<Lane>)
    ensures !HasLane(r, id)
    ensures forall l :: l in r <==> l in lanes && !Same(l.id, id)
  {
    Filter(lanes, (l: Lane) => !Same(l.id, id))
  }

  /** `stickies.filter(s => s.team !== id)`. */
  function OutsideTeam(stickies: seq<Sticky>, id: Id): (r: seq<Sticky>)
    ensures forall s :: s in r <==> s in stickies && !Same(s.team, id)
  {
    Filter(stickies, (s: Sticky) => !Same(s.team, id))
  }

  /** `stickies.filter(s => s.sprint !== id)`. */
  function OutsideSprint(stickies: seq<Sticky>, id: Id): (r: seq<Sticky>)
    ensures forall s :: s in r <==> s in stickies && !Same(s.sprint, id)
  {
    Filter(stickies, (s: Sticky) => !Same(s.sprint, id))
  }

  /** The dependencies whose two ends are both found among `stickies`, and only those. */
  function Linked(deps: seq<Dependency>, stickies: seq<Sticky>): (r: seq<Dependency>)
    ensures NoDangling(r, stickies)
    ensures forall d :: d in r <==> d in deps && HasSticky(stickies, d.from) && HasSticky(stickies, d.to)
  {
    Filter(deps, (d: Dependency) => HasSticky(stickies, d.from) && HasSticky(stickies, d.to))
  }

  method RemoveTeam(b: Board, id: Id) returns (e: Emit)
    modifies b
    ensures b.teams == LanesWithout(old(b.teams), id)
    ensures b.stickies == OutsideTeam(old(b.stickies), id)
    ensures b.dependencies == Linked(old(b.dependencies), b.stickies)
    ensures !HasLane(b.teams, id) && forall s :: s in b.stickies ==> !Same(s.team, id)
    ensures NoDangling(b.dependencies, b.stickies)
    ensures b.sprints == old(b.sprints) && b.nextStickyId == old(b.nextStickyId)
    ensures e == Emit(Room, TeamRemoved(id))
  {
    b.teams := LanesWithout(b.teams, id);
    b.stickies := OutsideTeam(b.stickies, id);
    b.dependencies := Linked(b.dependencies, b.stickies);
    e := Emit(Room, TeamRemoved(id));
  }

  method RemoveSprint(b: Board, id: Id) returns (e: Emit)
    modifies b
    ensures b.sprints == LanesWithout(old(b.sprints), id)
    ensures b.stickies == OutsideSprint(old(b.stickies), id)
    ensures b.dependencies == Linked(old(b.dependencies), b.stickies)
    ensures !HasLane(b.sprints, id) && forall s :: s in b.stickies ==> !Same(s.sprint, id)
    ensures NoDangling(b.dependencies, b.stickies)
    ensures b.teams == old(b.teams) && b.nextStickyId == old(b.nextStickyId)
    ensures e == Emit(Room, SprintRemoved(id))
  {
    b.sprints := LanesWithout(b.sprints, id);
    b.stickies := OutsideSprint(b.stickies, id);
    b.dependencies := Linked(b.dependencies, b.stickies);
    e := Emit(Room, SprintRemoved(id));
  }

  /** A dependency that survives a cascade had both ends before it, and every one that had them outside the team survives. */
  lemma RemoveTeamCascade(stickies: seq<Sticky>, deps: seq<Dependency>, id: Id)
    requires NoDangling(deps, stickies)
    ensures var kept := OutsideTeam(stickies, id);
            forall d :: d in deps ==>
              (d in Linked(deps, kept) <==>
                 (exists s :: s in stickies && Same(s.id, d.from) && !Same(s.team, id))
                 && (exists s :: s in stickies && Same(s.id, d.to) && !Same(s.team, id)))
  {
  }

  // ----- add-sprint -----

  /**
   * `Math.max(...lanes.map(l => l.id), 0)`: every id is converted to a number;
   * one NaN makes the result NaN, otherwise it is the largest of them and 0.
   */
  function MaxId(lanes: seq<Lane>): (r: Id)
    ensures r.Num? || r.NaN?
    ensures r.Num? <==> forall l :: l in lanes ==> ToNumber(l.id).Num?
    ensures r.Num? ==> r.n >= 0 && forall l :: l in lanes ==> ToNumber(l.id).n <= r.n
    ensures r.Num? ==> r.n == 0 || exists l :: l in lanes && ToNumber(l.id) == r
  {
    if lanes == [] then Num(0)
    else
      var head := ToNumber(lanes[0].id);
      var rest := MaxId(lanes[1..]);
      assert forall l :: l in lanes <==> l == lanes[0] || l in lanes[1..];
      if head.NaN? || rest.NaN? then NaN
      else if head.n > rest.n then head else rest
  }

  /** The id `add-sprint` assigns: `Math.max(...ids, 0) + 1`. */
  function NextSprintId(sprints: seq<Lane>): Id {
    Increment(MaxId(sprints))
  }

  /**
   * The assigned sprint id is never `===` to an existing one: it is at least 1
   * and above every existing id when all of them are numbers, and NaN otherwise.
   */
  lemma NextSprintIdFresh(sprints: seq<Lane>)
    ensures forall l :: l in sprints ==> !Same(l.id, NextSprintId(sprints))
    ensures NextSprintId(sprints).Num? <==> forall l :: l in sprints ==> ToNumber(l.id).Num?
    ensures NextSprintId(sprints).Num? ==>
              NextSprintId(sprints).n >= 1 && forall l :: l in sprints ==> ToNumber(l.id).n < NextSprintId(sprints).n
  {
  }

  method AddSprint(b: Board, sprint: Lane) returns (added: Lane, e: Emit)
    modifies b
    ensures added == sprint.(id := NextSprintId(old(b.sprints)))
    ensures b.sprints == old(b.sprints) + [added]
    ensures b.teams == old(b.teams) && b.stickies == old(b.stickies)
    ensures b.dependencies == old(b.dependencies) && b.nextStickyId == old(b.nextStickyId)
    ensures e == Emit(Room, SprintAdded(added))
  {
    added := sprint.(id := Increment(MaxId(b.sprints)));
    b.sprints := b.sprints + [added];
    e := Emit(Room, SprintAdded(added));
  }

  // ----- the handlers together -----

  /**
   * The board after the server has handled `msg` for the session it belongs
   * to: the pure counterpart of the handler methods above. `add-team` and
   * `add-sprint` receive `{name, tempId}` from the page.
   */
  function Step(d: BoardData, msg: Message): BoardData {
    match msg
    case UpdateSticky(p) =>
      d.(stickies := if p.deleted then WithoutSticky(d.stickies, p.id) else Patched(d.stickies, p))
    case CreateSticky(draft) =>
      d.(stickies := d.stickies + [NewSticky(draft, d.nextStickyId)], nextStickyId := Increment(d.nextStickyId))
    case MoveSticky(m) => d.(stickies := Relocated(d.stickies, m))
    case UpdateDependencies(deps) => d.(dependencies := deps)
    case AddTeam(name, _) => d.(teams := AddedTeams(d.teams, Lane(Undefined, name, false)))
    case AddSprint(name, _) => d.(sprints := d.sprints + [Lane(NextSprintId(d.sprints), name, false)])
    case RemoveTeam(id) =>
      var kept := OutsideTeam(d.stickies, id);
      d.(teams := LanesWithout(d.teams, id), stickies := kept, dependencies := Linked(d.dependencies, kept))
    case RemoveSprint(id) =>
      var kept := OutsideSprint(d.stickies, id);
      d.(sprints := LanesWithout(d.sprints, id), stickies := kept, dependencies := Linked(d.dependencies, kept))
  }

  /**
   * What the server emits for `msg` on the board `d`: one event to everyone
   * in the session, except that the dependency list goes to the others only,
   * a move of an unknown sticky is silent, and so is an `add-team` that
   * appended nothing.
   */
  function StepEmits(d: BoardData, msg: Message): (r: seq<Emit>)
    ensures |r| <= 1
    ensures r == [] <==> (msg.MoveSticky? && !HasSticky(d.stickies, msg.move.stickyId))
                         || (msg.AddTeam? && |Step(d, msg).teams| != |d.teams| + 1)
    ensures r != [] ==> r[0].audience == if msg.UpdateDependencies? then RoomOthers else Room
    ensures r != [] && msg.AddTeam? ==> r[0].event == TeamAdded(Step(d, msg).teams[|d.teams|])
    ensures r != [] && msg.AddSprint? ==> r[0].event == SprintAdded(Step(d, msg).sprints[|d.sprints|])
    ensures r != [] && msg.CreateSticky? ==> r[0].event == StickyCreated(Step(d, msg).stickies[|d.stickies|])
    ensures r != [] && msg.UpdateSticky? ==> r[0].event == StickyUpdated(msg.patch)
    ensures r != [] && msg.MoveSticky? ==> r[0].event == StickyMoved(msg.move)
    ensures r != [] && msg.UpdateDependencies? ==> r[0].event == DependenciesUpdated(msg.dependencies)
    ensures r != [] && msg.RemoveTeam? ==> r[0].event == TeamRemoved(msg.teamId)
    ensures r != [] && msg.RemoveSprint? ==> r[0].event == SprintRemoved(msg.sprintId)
  {
    match msg
    case UpdateSticky(p) => [Emit(Room, StickyUpdated(p))]
    case CreateSticky(draft) => [Emit(Room, StickyCreated(NewSticky(draft, d.nextStickyId)))]
    case MoveSticky(m) => if HasSticky(d.stickies, m.stickyId) then [Emit(Room, StickyMoved(m))] else []
    case UpdateDependencies(deps) => [Emit(RoomOthers, DependenciesUpdated(deps))]
    case AddTeam(name, _) =>
      var t := AddedTeams(d.teams, Lane(Undefined, name, false));
      if |t| == |d.teams| + 1 then [Emit(Room, TeamAdded(t[|t| - 1]))] else []
    case AddSprint(name, _) => [Emit(Room, SprintAdded(Lane(NextSprintId(d.sprints), name, false)))]
    case RemoveTeam(id) => [Emit(Room, TeamRemoved(id))]
    case RemoveSprint(id) => [Emit(Room, SprintRemoved(id))]
  }

  /**
   * Every handler except a sticky delete and a replaced dependency list keeps
   * both ends of every dependency on the board.
   */
  lemma StepKeepsLinks(d: BoardData, msg: Message)
    requires NoDangling(d.dependencies, d.stickies)
    requires !(msg.UpdateSticky? && msg.patch.deleted) && !msg.UpdateDependencies?
    ensures NoDangling(Step(d, msg).dependencies, Step(d, msg).stickies)
  {
    match msg
    case UpdateSticky(p) => PatchKeepsLinks(d.dependencies, d.stickies, p);
    case CreateSticky(draft) =>
      var r := Step(d, msg).stickies;
      assert forall s :: s in d.stickies ==> s in r;
    case MoveSticky(m) => MoveKeepsLinks(d.dependencies, d.stickies, m);
    case _ =>
  }

  /** The sticky counter never goes down; only `create-sticky` moves it, by one. */
  lemma StepCounterMonotone(d: BoardData, msg: Message)
    requires d.nextStickyId.Num?
    ensures Step(d, msg).nextStickyId == if msg.CreateSticky? then Num(d.nextStickyId.n + 1) else d.nextStickyId
  {
  }

  /** No two stickies share an id under `===`. */
  predicate UniqueStickyIds(stickies: seq<Sticky>) {
    forall i, j :: 0 <= i < j < |stickies| ==> !Same(stickies[i].id, stickies[j].id)
  }

  /** The relation `UniqueStickyIds` asks of every earlier and later sticky. */
  function DifferentIds(): (Sticky, Sticky) -> bool {
    (s: Sticky, t: Sticky) => !Same(s.id, t.id)
  }

  lemma FilterKeepsUniqueIds(stickies: seq<Sticky>, p: Sticky -> bool)
    requires UniqueStickyIds(stickies)
    ensures UniqueStickyIds(Filter(stickies, p))
  {
    FilterPairwise(stickies, p, DifferentIds());
  }

  lemma PatchedIdsFrom(stickies: seq<Sticky>, p: StickyPatch)
    ensures forall s :: s in Patched(stickies, p) ==> exists t :: t in stickies && t.id == s.id
  {
    var r := Patched(stickies, p);
    forall s | s in r ensures exists t :: t in stickies && t.id == s.id {
      var j :| 0 <= j < |r| && r[j] == s;
      assert stickies[j] in stickies;
    }
  }

  lemma RelocatedIdsFrom(stickies: seq<Sticky>, m: Move)
    ensures forall s :: s in Relocated(stickies, m) ==> exists t :: t in stickies && t.id == s.id
  {
    var r := Relocated(stickies, m);
    forall s | s in r ensures exists t :: t in stickies && t.id == s.id {
      var j :| 0 <= j < |r| && r[j] == s;
      assert stickies[j] in stickies;
    }
  }

  /**
   * As long as no `create-sticky` brings its own id, every handler keeps the
   * sticky ids unique and below the counter.
   */
  lemma StepKeepsIds(d: BoardData, msg: Message)
    requires IdsBelow(d.stickies, d.nextStickyId) && UniqueStickyIds(d.stickies)
    requires msg.CreateSticky? ==> msg.draft.id.None?
    ensures IdsBelow(Step(d, msg).stickies, Step(d, msg).nextStickyId)
    ensures UniqueStickyIds(Step(d, msg).stickies)
  {
    var r := Step(d, msg).stickies;
    match msg
    case UpdateSticky(p) =>
      if p.deleted {
        FilterKeepsUniqueIds(d.stickies, (s: Sticky) => !Same(s.id, p.id));
      } else {
        PatchedIdsFrom(d.stickies, p);
      }
    case CreateSticky(draft) =>
      CreateNumbersFreshly(d.stickies, d.nextStickyId, draft);
      forall i, j | 0 <= i < j < |r| ensures !Same(r[i].id, r[j].id) {
        if j == |r| - 1 {
          assert r[i] in d.stickies;
        }
      }
    case MoveSticky(m) => RelocatedIdsFrom(d.stickies, m);
    case RemoveTeam(id) => FilterKeepsUniqueIds(d.stickies, (s: Sticky) => !Same(s.team, id));
    case RemoveSprint(id) => FilterKeepsUniqueIds(d.stickies, (s: Sticky) => !Same(s.sprint, id));
    case _ =>
  }
}
