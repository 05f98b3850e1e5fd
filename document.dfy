/**
 * The board document of one session: teams (grid rows), sprints (grid
 * columns), stickies (cards placed in a team x sprint cell), dependency
 * edges between stickies, and the counter that numbers new stickies.
 * The server keeps one per session and the page keeps a replica; both
 * change it in place, which the class `Board` models.
 */
module Document {
  import opened Wrappers
  import opened JsValues
  import opened Seqs

  /** The two anchors of a card a dependency line can attach to. */
  datatype Dot = Start | End

  /**
   * A team or a sprint. `isTemp` marks the page's placeholder for one it has
   * asked the server to add. (The display colour of the default teams is not kept.)
   */
  datatype Lane = Lane(id: Id, name: string, isTemp: bool)

  /** A card. `kind` is the sticky's `type` (Feature, Milestone, Major Dependency, ...). */
  datatype Sticky = Sticky(
    id: Id,
    title: string,
    kind: string,
    team: Id,
    sprint: Id,
    description: string,
    pending: bool)

  /** A directed edge between two stickies; absent dots read as `start` and `end`. */
  datatype Dependency = Dependency(
    from: Id,
    to: Id,
    fromDot: Option<Dot>,
    toDot: Option<Dot>,
    relationship: Option<string>,
    additionalInfo: Option<string>)

  /** A snapshot of a board document, as it is sent to a joining page. */
  datatype BoardData = BoardData(
    teams: seq<Lane>,
    sprints: seq<Lane>,
    stickies: seq<Sticky>,
    dependencies: seq<Dependency>,
    nextStickyId: Id)

  /** `dep.fromDot || 'start'`. */
  function FromDot(d: Dependency): Dot {
    d.fromDot.GetOr(Start)
  }

  /** `dep.toDot || 'end'`. */
  function ToDot(d: Dependency): Dot {
    d.toDot.GetOr(End)
  }

  /** The test `s => s.id === id`. */
  function HasId(id: Id): Sticky -> bool {
    (s: Sticky) => Same(s.id, id)
  }

  /** `stickies.find(s => s.id === id)` finds something. */
  predicate HasSticky(stickies: seq<Sticky>, id: Id) {
    exists s :: s in stickies && Same(s.id, id)
  }

  /** `lanes.some(l => l.id === id)`. */
  predicate HasLane(lanes: seq<Lane>, id: Id) {
    exists l :: l in lanes && Same(l.id, id)
  }

  /** Both ends of every dependency are stickies of the board. */
  predicate NoDangling(deps: seq<Dependency>, stickies: seq<Sticky>) {
    forall d :: d in deps ==> HasSticky(stickies, d.from) && HasSticky(stickies, d.to)
  }

  /** No two lanes share an id under `===`. */
  predicate UniqueIds(lanes: seq<Lane>) {
    forall i, j :: 0 <= i < j < |lanes| ==> !Same(lanes[i].id, lanes[j].id)
  }

  /** A board document changed in place (`boardData` on the server and on the page). */
  class Board {
    var teams: seq<Lane>
    var sprints: seq<Lane>
    var stickies: seq<Sticky>
    var dependencies: seq<Dependency>
    var nextStickyId: Id

    /** The document's current value. */
    function Data(): BoardData
      reads this
    {
      BoardData(teams, sprints, stickies, dependencies, nextStickyId)
    }

    /** A new document object holding `d`; a deep copy when `d` is another board's value. */
    constructor (d: BoardData)
      ensures Data() == d
    {
      teams := d.teams;
      sprints := d.sprints;
      stickies := d.stickies;
      dependencies := d.dependencies;
      nextStickyId := d.nextStickyId;
    }
  }

  /** The board every new session starts from when no board file was loaded. */
  const DefaultBoard: BoardData := BoardData(
    [ Lane(Str("dev"), "IT Devs", false),
      Lane(Str("design"), "R&G", false),
      Lane(Str("qa"), "People Ops", false),
      Lane(Str("devops"), "Payments", false),
      Lane(Str("product"), "Mortgage", false),
      Lane(Str("marketing"), "Marketing", false) ],
    [ Lane(Num(1), "Iteration 1", false),
      Lane(Num(2), "Iteration 2", false),
      Lane(Num(3), "Iteration 3", false),
      Lane(Num(4), "Iteration 4", false),
      Lane(Num(5), "Iteration 5", false),
      Lane(Num(6), "Iteration 6", false) ],
    [ Sticky(Num(1), "User Authentication System", "Feature", Str("dev"), Num(1),
        "Implement secure login/logout functionality with session management, password hashing, and multi-factor authentication support.", false),
      Sticky(Num(2), "Database Performance Optimization", "Feature", Str("dev"), Num(1),
        "Optimize database queries, add proper indexing, implement connection pooling, and reduce response times for high-traffic scenarios.", false),
      Sticky(Num(3), "Mobile App UI Redesign", "Feature", Str("design"), Num(2),
        "Create modern, responsive mobile interface with improved navigation, accessibility features, and consistent design patterns.", false),
      Sticky(Num(4), "Payment Gateway Integration", "Milestone", Str("dev"), Num(3),
        "Integrate multiple payment providers (Stripe, PayPal, etc.) with secure transaction processing, refund handling, and fraud detection.", false),
      Sticky(Num(5), "Automated Testing Suite", "Feature", Str("qa"), Num(3),
        "Build comprehensive test automation framework covering unit tests, integration tests, and end-to-end testing scenarios.", false),
      Sticky(Num(6), "CI/CD Pipeline Setup", "Milestone", Str("devops"), Num(2),
        "Configure automated build, test, and deployment pipeline with staging environments and rollback capabilities.", false),
      Sticky(Num(7), "Employee Onboarding Portal", "Feature", Str("product"), Num(1),
        "Develop self-service portal for new employee registration, document uploads, and workflow automation for HR processes.", false),
      Sticky(Num(8), "Customer Support Chat", "Feature", Str("product"), Num(4),
        "Implement real-time chat system with agent routing, chat history, file sharing, and integration with support ticketing system.", false),
      Sticky(Num(9), "Load Testing & Performance", "Major Dependency", Str("qa"), Num(4),
        "Conduct comprehensive load testing to validate system performance under expected traffic volumes and identify bottlenecks.", false),
      Sticky(Num(10), "Security Vulnerability Assessment", "Major Dependency", Str("devops"), Num(5),
        "Perform security audit including penetration testing, code review, and compliance validation for data protection standards.", false),
      Sticky(Num(11), "User Feedback Dashboard", "Feature", Str("product"), Num(3),
        "Create analytics dashboard to collect, categorize, and visualize user feedback with sentiment analysis and reporting features.", false),
      Sticky(Num(12), "Data Analytics Platform", "Feature", Str("dev"), Num(6),
        "Build real-time data processing and visualization platform with custom dashboards, data export, and business intelligence tools.", false) ],
    [],
    Num(13))
}
