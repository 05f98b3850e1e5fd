/**
 * The messages a page sends to the server and the events the server sends
 * back, as values. Who receives an event is an `Audience`; the transport
 * itself is not modelled.
 */
module Protocol {
  import opened Wrappers
  import opened JsValues
  import opened Document

  /** The keys of an `update-sticky` payload; absent keys leave the stored field alone. */
  datatype StickyPatch = StickyPatch(
    id: Id,
    title: Option<string>,
    kind: Option<string>,
    team: Option<Id>,
    sprint: Option<Id>,
    description: Option<string>,
    deleted: bool)

  /** A `create-sticky` payload after `sessionId` is dropped; `id` is present only if the sender put one in. */
  datatype StickyDraft = StickyDraft(
    id: Option<Id>,
    title: string,
    kind: string,
    team: Id,
    sprint: Id,
    description: Option<string>)

  /** A `move-sticky` payload. */
  datatype Move = Move(stickyId: Id, team: Id, sprint: Id)

  /** What a page emits. `AddTeam`/`AddSprint` carry `{name, tempId}`. */
  datatype Message =
    | UpdateSticky(patch: StickyPatch)
    | CreateSticky(draft: StickyDraft)
    | MoveSticky(move: Move)
    | UpdateDependencies(dependencies: seq<Dependency>)
    | AddTeam(teamName: string, teamTempId: int)
    | AddSprint(sprintName: string, sprintTempId: int)
    | RemoveTeam(teamId: Id)
    | RemoveSprint(sprintId: Id)

  /** What the server emits. */
  datatype Event =
    | BoardSnapshot(board: BoardData)
    | ParticipantCount(count: nat)
    | GlobalParticipantCount(total: nat)
    | UserJoined(userId: string)
    | UserLeft(userId: string)
    | StickyUpdated(patch: StickyPatch)
    | StickyCreated(sticky: Sticky)
    | StickyMoved(move: Move)
    | DependenciesUpdated(dependencies: seq<Dependency>)
    | TeamAdded(team: Lane)
    | TeamRemoved(teamId: Id)
    | SprintAdded(sprint: Lane)
    | SprintRemoved(sprintId: Id)
    | SessionError(message: string)

  /**
   * The sender alone, everyone in the sender's session, everyone in it but
   * the sender, or every connection.
   */
  datatype Audience = Sender | Room | RoomOthers | Everyone

  datatype Emit = Emit(audience: Audience, event: Event)
}
