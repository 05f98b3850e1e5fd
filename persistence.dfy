/**
 * What the server does to the board file and the sessions file when it
 * starts (`loadData`, `loadSessions`) and writes them back
 * (`saveSessions`), without the file system: a file is an `Option` value,
 * absent when it is missing or cannot be parsed.
 */
module Persistence {
  import opened Wrappers
  import opened JsValues
  import opened Seqs
  import opened Document

  /** An entry of the legacy `features` list; `dept` was the old name of `team`. */
  datatype LegacyFeature = LegacyFeature(
    id: Id,
    title: string,
    kind: Option<string>,
    team: Id,
    dept: Id,
    sprint: Id,
    description: string)

  /**
   * A board file as parsed: either list may be missing, and an absent counter
   * is `Undefined`.
   */
  datatype StoredBoard = StoredBoard(
    teams: seq<Lane>,
    sprints: seq<Lane>,
    stickies: Option<seq<Sticky>>,
    features: Option<seq<LegacyFeature>>,
    dependencies: seq<Dependency>,
    nextStickyId: Id,
    nextFeatureId: Id)

  /** A board document as it is written to a file. */
  function Stored(d: BoardData): StoredBoard {
    StoredBoard(d.teams, d.sprints, Some(d.stickies), None, d.dependencies, d.nextStickyId, Undefined)
  }

  /**
   * One feature as a sticky: its type defaults to 'Feature' when empty or
   * absent, and its team is `team || dept`.
   */
  function MigrateFeature(f: LegacyFeature): (r: Sticky)
    ensures r.id == f.id && r.title == f.title && r.sprint == f.sprint
    ensures r.description == f.description && !r.pending
    ensures r.kind != ""
    ensures f.kind.Some? && f.kind.value != "" ==> r.kind == f.kind.value
    ensures !(f.kind.Some? && f.kind.value != "") ==> r.kind == "Feature"
    ensures Truthy(r.team) <==> Truthy(f.team) || Truthy(f.dept)
    ensures Truthy(f.team) ==> r.team == f.team
    ensures !Truthy(f.team) ==> r.team == f.dept
  {
    var kind := if f.kind.Some? && f.kind.value != "" then f.kind.value else "Feature";
    Sticky(f.id, f.title, kind, if Truthy(f.team) then f.team else f.dept, f.sprint, f.description, false)
  }

  /**
   * The legacy migration: it runs only on a file with `features` and without
   * `stickies`. Then every feature becomes a sticky in the same order,
   * `features` is dropped, and a truthy `nextFeatureId` replaces a falsy
   * `nextStickyId`.
   */
  function Migrate(data: StoredBoard): (r: StoredBoard)
    ensures !(data.features.Some? && data.stickies.None?) ==> r == data
    ensures data.features.Some? && data.stickies.None? ==>
              && r.features.None? && r.stickies.Some?
              && |r.stickies.value| == |data.features.value|
              && (forall i :: 0 <= i < |r.stickies.value| ==>
                    r.stickies.value[i] == MigrateFeature(data.features.value[i]))
              && r.teams == data.teams && r.sprints == data.sprints
              && r.dependencies == data.dependencies
    ensures data.features.Some? && data.stickies.None? ==>
              if Truthy(data.nextFeatureId) && !Truthy(data.nextStickyId)
              then r.nextStickyId == data.nextFeatureId && r.nextFeatureId == Undefined
              else r.nextStickyId == data.nextStickyId && r.nextFeatureId == data.nextFeatureId
    ensures !(r.features.Some? && r.stickies.None?)
  {
    if data.features.Some? && data.stickies.None? then
      var features := data.features.value;
      var stickies := seq(|features|, i requires 0 <= i < |features| => MigrateFeature(features[i]));
      var moved := Truthy(data.nextFeatureId) && !Truthy(data.nextStickyId);
      data.(stickies := Some(stickies), features := None,
            nextStickyId := if moved then data.nextFeatureId else data.nextStickyId,
            nextFeatureId := if moved then Undefined else data.nextFeatureId)
    else data
  }

  /** Migrating a migrated file changes nothing, so restarting the server is harmless. */
  lemma MigrateIdempotent(data: StoredBoard)
    ensures Migrate(Migrate(data)) == Migrate(data)
  {
  }

  /** `loadData`: the migrated file, or the default board when there is none. */
  function LoadBoard(file: Option<StoredBoard>): (r: StoredBoard)
    ensures !(r.features.Some? && r.stickies.None?)
    ensures file.None? ==> r == Stored(DefaultBoard)
    ensures file.Some? ==> r == Migrate(file.value)
  {
    if file.None? then Stored(DefaultBoard) else Migrate(file.value)
  }

  /** A board the server wrote itself is read back unchanged. */
  lemma LoadStoredBoard(d: BoardData)
    ensures LoadBoard(Some(Stored(d))) == Stored(d)
  {
  }

  /**
   * A session's `activeUsers` as read from the sessions file: a missing entry
   * becomes the empty set, an array becomes the set of its elements.
   */
  function RestoreActiveUsers(stored: Option<seq<string>>): (r: seq<string>)
    ensures Distinct(r)
    ensures forall u :: u in r <==> stored.Some? && u in stored.value
  {
    if stored.None? then [] else Dedupe(stored.value)
  }

  /** Writing a set as an array and reading it back gives the same set, in the same order. */
  lemma ActiveUsersRoundTrip(users: seq<string>)
    requires Distinct(users)
    ensures RestoreActiveUsers(Some(users)) == users
  {
    DedupeDistinct(users);
  }

  /** A dependency as loaded: an empty or absent relationship becomes 'depends on', absent extra information ''. */
  function WithDefaults(d: Dependency): (r: Dependency)
    ensures r.from == d.from && r.to == d.to && r.fromDot == d.fromDot && r.toDot == d.toDot
    ensures r.relationship.Some? && r.relationship.value != "" && r.additionalInfo.Some?
    ensures d.relationship.Some? && d.relationship.value != "" ==> r.relationship == d.relationship
    ensures d.additionalInfo.Some? ==> r.additionalInfo == d.additionalInfo
    ensures !(d.relationship.Some? && d.relationship.value != "") ==> r.relationship == Some("depends on")
    ensures !(d.additionalInfo.Some? && d.additionalInfo.value != "") ==> r.additionalInfo == Some("")
  {
    d.(relationship := if d.relationship.Some? && d.relationship.value != "" then d.relationship else Some("depends on"),
       additionalInfo := if d.additionalInfo.Some? && d.additionalInfo.value != "" then d.additionalInfo else Some(""))
  }

  /** Filling in defaults twice is filling them in once. */
  lemma WithDefaultsIdempotent(d: Dependency)
    ensures WithDefaults(WithDefaults(d)) == WithDefaults(d)
  {
  }

  /** The loop over a loaded session's dependencies, filling in the defaults in place. */
  method FillDependencyDefaults(b: Board)
    modifies b
    ensures |b.dependencies| == |old(b.dependencies)|
    ensures forall i :: 0 <= i < |b.dependencies| ==> b.dependencies[i] == WithDefaults(old(b.dependencies[i]))
    ensures b.teams == old(b.teams) && b.sprints == old(b.sprints) && b.stickies == old(b.stickies)
    ensures b.nextStickyId == old(b.nextStickyId)
  {
    var i := 0;
    while i < |b.dependencies|
      invariant 0 <= i <= |b.dependencies| == |old(b.dependencies)|
      invariant forall j :: 0 <= j < i ==> b.dependencies[j] == WithDefaults(old(b.dependencies[j]))
      invariant forall j :: i <= j < |b.dependencies| ==> b.dependencies[j] == old(b.dependencies[j])
      invariant b.teams == old(b.teams) && b.sprints == old(b.sprints) && b.stickies == old(b.stickies)
      invariant b.nextStickyId == old(b.nextStickyId)
    {
      b.dependencies := b.dependencies[i := WithDefaults(b.dependencies[i])];
      i := i + 1;
    }
  }
}
