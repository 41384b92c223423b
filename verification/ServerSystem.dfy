/** The server as a step system: one task per connection, interleaved at every point where a
    task takes the lock or puts a frame on a queue. */
module ServerSystem {
  import opened Prelude
  import opened ServerTables
  import opened ScreenShare

  datatype Audience = Everyone | EveryoneBut(user: UserId) | OnlyTo(user: UserId)

  datatype Send = Send(frame: ServerFrame, audience: Audience)

  /** Where a connection's task stands.
      - `Starting`: between reading the sharer's name and entering the share.
      - `Busy`: about to take the targets of the first pending send.
      - `Delivering`: has the targets of `frame` and puts it on their queues one by one.
      - `Closed`: the handler has returned. */
  datatype Phase =
    | Idle
    | Starting(info: ScreenShareInfo, requestedCodecs: seq<string>)
    | Busy(pending: seq<Send>, closing: bool)
    | Delivering(frame: ServerFrame, targets: set<ConnId>, pending: seq<Send>, closing: bool)
    | Closed

  datatype Task = Task(owner: UserId, phase: Phase)

  datatype System = System(
    tables: Tables,
    tasks: map<ConnId, Task>,
    queues: map<ConnId, seq<ServerFrame>>)

  const START := System(EMPTY, map[], map[])

  datatype Step =
    | Connect(c: ConnId, owner: UserId, displayName: string, isAdmin: bool, greetings: seq<Audience>)
    | Talk(c: ConnId, sends: seq<Audience>)
    | Join(c: ConnId, room: RoomId)
    | Leave(c: ConnId)
    | BeginStart(c: ConnId, request: StartRequest)
    | CommitStart(c: ConnId)
    | StopShare(c: ConnId)
    | OfferFrame(c: ConnId, payload: FramePayload)
    | TakeTargets(c: ConnId)
    | Deliver(c: ConnId, target: ConnId)
    | FinishSend(c: ConnId)
    | HangUp(c: ConnId)
    | DropLine(c: ConnId)
    | HearFrom(user: UserId, addr: Addr)

  function Others(audiences: seq<Audience>): seq<Send> {
    seq(|audiences|, i requires 0 <= i < |audiences| => Send(Other, audiences[i]))
  }

  /** What follows once nothing is being delivered. */
  function Settle(pending: seq<Send>, closing: bool): Phase {
    if pending != [] then Busy(pending, closing) else if closing then Closed else Idle
  }

  function Admits(a: Audience, u: UserId): bool {
    match a
    case Everyone => true
    case EveryoneBut(x) => u != x
    case OnlyTo(x) => u == x
  }

  function TargetsOf(t: Tables, a: Audience): set<ConnId> {
    set u | u in t.users && Admits(a, u) :: t.users[u].tx
  }

  predicate IsIdle(s: System, c: ConnId) {
    c in s.tasks && s.tasks[c].phase.Idle?
  }

  /** The step can be taken. */
  predicate Enabled(s: System, step: Step) {
    match step
    case Connect(c, _, _, _, _) => c !in s.tasks
    case CommitStart(c) => c in s.tasks && s.tasks[c].phase.Starting?
    case TakeTargets(c) => c in s.tasks && s.tasks[c].phase.Busy? && s.tasks[c].phase.pending != []
    case Deliver(c, target) =>
      c in s.tasks && s.tasks[c].phase.Delivering? && target in s.tasks[c].phase.targets && target in s.queues
    case FinishSend(c) => c in s.tasks && s.tasks[c].phase.Delivering? && s.tasks[c].phase.targets == {}
    case HearFrom(_, _) => true
    case _ => IsIdle(s, step.c)
  }

  /** Whoever connects has no other connection open. The program does not demand this. */
  predicate Alone(s: System, step: Step) {
    step.Connect? ==>
      forall d :: d in s.tasks && s.tasks[d].owner == step.owner ==> s.tasks[d].phase.Closed?
  }

  function Go(s: System, c: ConnId, phase: Phase): System
    requires c in s.tasks
  {
    s.(tasks := s.tasks[c := s.tasks[c].(phase := phase)])
  }

  function ShareOf(s: System, u: UserId): Option<ScreenShareInfo> {
    if u in s.tables.screenShares then Some(s.tables.screenShares[u]) else None
  }

  function Apply(s: System, step: Step): System
    requires Enabled(s, step)
  {
    match step
    case Connect(c, owner, name, isAdmin, greetings) =>
      System(Register(s.tables, owner, UserConnection(name, isAdmin, c)),
             s.tasks[c := Task(owner, Settle(Others(greetings), false))],
             s.queues[c := []])
    case Talk(c, sends) => Go(s, c, Settle(Others(sends), false))
    case Join(c, room) =>
      Go(s.(tables := JoinVoice(s.tables, s.tasks[c].owner, room)), c, Busy(Others([Everyone]), false))
    case Leave(c) =>
      var u := s.tasks[c].owner;
      var sends := if RoomsOf(s.tables.voiceRooms, u) == {} then [] else [Everyone];
      Go(s.(tables := LeaveVoice(s.tables, u)), c, Settle(Others(sends), false))
    case BeginStart(c, request) =>
      var u := s.tasks[c].owner;
      (match CheckStart(request)
       case Err(_) => Go(s, c, Busy(Others([OnlyTo(u)]), false))
       case Ok(info) =>
         if u !in s.tables.users then s
         else Go(s, c, Starting(info, NormalizeRequested(request.requestedCodecs))))
    case CommitStart(c) =>
      var u := s.tasks[c].owner;
      var phase := s.tasks[c].phase;
      Go(s.(tables := InsertShare(s.tables, u, phase.info)), c,
         Busy([Send(Started(u, phase.info, phase.requestedCodecs), EveryoneBut(u))], false))
    case StopShare(c) =>
      var u := s.tasks[c].owner;
      var sends := if u in s.tables.screenShares then [Send(Stopped(u), EveryoneBut(u))] else [];
      Go(s.(tables := RemoveShare(s.tables, u)), c, Settle(sends, false))
    case OfferFrame(c, payload) =>
      var u := s.tasks[c].owner;
      (match Admit(u, ShareOf(s, u), payload)
       case Err(_) => Go(s, c, Busy(Others([OnlyTo(u)]), false))
       case Ok(frame) =>
         if u !in s.tables.users then s else Go(s, c, Busy([Send(frame, EveryoneBut(u))], false)))
    case TakeTargets(c) =>
      var phase := s.tasks[c].phase;
      Go(s, c, Delivering(phase.pending[0].frame, TargetsOf(s.tables, phase.pending[0].audience),
                          phase.pending[1..], phase.closing))
    case Deliver(c, target) =>
      var phase := s.tasks[c].phase;
      Go(s.(queues := s.queues[target := s.queues[target] + [phase.frame]]), c,
         phase.(targets := phase.targets - {target}))
    case FinishSend(c) => Go(s, c, Settle(s.tasks[c].phase.pending, s.tasks[c].phase.closing))
    case HangUp(c) =>
      var u := s.tasks[c].owner;
      var stop := if u in s.tables.screenShares then [Send(Stopped(u), Everyone)] else [];
      var rest := if RoomsOf(s.tables.voiceRooms, u) == {} then [Everyone] else [Everyone, Everyone];
      Go(s.(tables := Disconnect(s.tables, u)), c, Busy(stop + Others(rest), true))
    case DropLine(c) => Go(s, c, Closed)
    case HearFrom(u, a) => s.(tables := RememberVoiceAddr(s.tables, u, a))
  }

  function Init(steps: seq<Step>): seq<Step>
    requires steps != []
  {
    steps[..|steps| - 1]
  }

  function Last(steps: seq<Step>): Step
    requires steps != []
  {
    steps[|steps| - 1]
  }

  /** The steps can be taken one after another by a server that has just started. */
  predicate EnabledRun(steps: seq<Step>)
    decreases |steps|, 0
  {
    steps == [] || (EnabledRun(Init(steps)) && Enabled(After(Init(steps)), Last(steps)))
  }

  function After(steps: seq<Step>): System
    requires EnabledRun(steps)
    decreases |steps|, 1
  {
    if steps == [] then START else Apply(After(Init(steps)), Last(steps))
  }

  // ----- Rules for the clients -----

  /** The frame a task is about to send, or is sending. */
  function Carried(p: Phase): ServerFrame {
    if p.Busy? && p.pending != [] then p.pending[0].frame
    else if p.Delivering? then p.frame
    else Other
  }

  predicate IsAnnouncement(f: ServerFrame) {
    f.Started? || f.Stopped?
  }

  /** The other connections of the user on `c` send nothing about its share. */
  predicate OthersQuiet(s: System, c: ConnId)
    requires c in s.tasks
  {
    forall d :: d in s.tasks && d != c && s.tasks[d].owner == s.tasks[c].owner ==> Carried(s.tasks[d].phase).Other?
  }

  /** The other connections of the user on `c` announce nothing; they may send frames. */
  predicate NothingAnnounced(s: System, c: ConnId)
    requires c in s.tasks
  {
    forall d :: d in s.tasks && d != c && s.tasks[d].owner == s.tasks[c].owner ==>
      !IsAnnouncement(Carried(s.tasks[d].phase))
  }

  /** A user with several connections does not start or stop its share while another one of them
      sends something about it, and sends no frame while another one announces a start or stop. */
  predicate NoOverlap(s: System, step: Step)
    requires Enabled(s, step)
  {
    match step
    case CommitStart(c) => OthersQuiet(s, c)
    case StopShare(c) => s.tasks[c].owner in s.tables.screenShares ==> OthersQuiet(s, c)
    case HangUp(c) => s.tasks[c].owner in s.tables.screenShares ==> OthersQuiet(s, c)
    case OfferFrame(c, _) => s.tasks[c].owner in s.tables.screenShares ==> NothingAnnounced(s, c)
    case _ => true
  }

  /** No step from the `n`th on overlaps. */
  predicate NoOverlapSince(steps: seq<Step>, n: nat)
    requires EnabledRun(steps)
    decreases |steps|
  {
    |steps| <= n || (NoOverlapSince(Init(steps), n) && NoOverlap(After(Init(steps)), Last(steps)))
  }

  predicate NoOverlapRun(steps: seq<Step>)
    requires EnabledRun(steps)
  {
    NoOverlapSince(steps, 0)
  }

  /** Nobody ever has two open connections. */
  predicate AloneRun(steps: seq<Step>)
    requires EnabledRun(steps)
    decreases |steps|
  {
    steps == [] || (AloneRun(Init(steps)) && Alone(After(Init(steps)), Last(steps)))
  }
}
