/** Where every frame about a share comes from, what it carries, and whom it reaches. */
module FrameOrigins {
  import opened Prelude
  import Text
  import opened ServerTables
  import opened ScreenShare
  import opened ServerSystem
  import opened ServerInvariant
  import opened ServerRuns
  import opened ShareOverlaps

  // ----- What is carried -----

  /** The frame carries exactly what was offered. */
  predicate CarriesPayload(f: ServerFrame, payload: FramePayload)
    requires f.Frame?
  {
    && f.width == payload.width && f.height == payload.height
    && f.imageFormat == payload.imageFormat && f.dataBase64 == payload.dataBase64
    && f.sequence == payload.sequence && f.unixMs == payload.unixMs
  }

  lemma AdmitCarriesPayload(u: UserId, share: Option<ScreenShareInfo>, payload: FramePayload)
    ensures var r := Admit(u, share, payload);
            r.Ok? ==> r.value.Frame? && r.value.user == u && CarriesPayload(r.value, payload)
                      && share.Some? && FitsShare(r.value, share.value)
  {
  }

  /** What is announced is what was requested: the source without surrounding space, the size, mode,
      resolution and rate as they came, and jpeg over the one transport. */
  predicate AnnouncesRequest(info: ScreenShareInfo, r: StartRequest) {
    && info.sourceName == Text.Trim(r.sourceName)
    && info.width == r.width && info.height == r.height
    && info.mode == r.mode && info.resolution == r.resolution && info.targetFps == r.targetFps
    && info.activeCodec == "jpeg" && info.transport == "sfu_relay"
  }

  /** A text share runs at 1 to 15 frames a second, a game share at 30 or 60. */
  lemma StartAnnouncesRequest(r: StartRequest)
    ensures CheckStart(r).Ok? ==>
              && AnnouncesRequest(CheckStart(r).value, r)
              && r.width > 0 && r.height > 0
              && (r.mode == TextMode ==> 1 <= r.targetFps <= 15)
              && (r.mode == GameMode ==> r.targetFps == 30 || r.targetFps == 60)
  {
    hide Text.Trim, Names, NormalizeRequested;
  }

  // ----- Where it comes from -----

  /** Step `n` of the run is taken at the state the steps before it lead to. */
  ghost predicate TakenAt(steps: seq<Step>, n: nat) {
    n < |steps| && EnabledRun(steps[..n]) && Enabled(After(steps[..n]), steps[n])
  }

  ghost predicate OfferedAt(steps: seq<Step>, n: nat, f: ServerFrame)
    requires f.Frame?
  {
    && TakenAt(steps, n) && steps[n].OfferFrame?
    && After(steps[..n]).tasks[steps[n].c].owner == f.user && f.user in After(steps[..n]).tables.users
    && CarriesPayload(f, steps[n].payload)
  }

  ghost predicate RequestedAt(steps: seq<Step>, n: nat, u: UserId, info: ScreenShareInfo, codecs: seq<string>) {
    && TakenAt(steps, n) && steps[n].BeginStart?
    && After(steps[..n]).tasks[steps[n].c].owner == u && u in After(steps[..n]).tables.users
    && AnnouncesRequest(info, steps[n].request) && codecs == NormalizeRequested(steps[n].request.requestedCodecs)
  }

  ghost predicate EndedAt(steps: seq<Step>, n: nat, u: UserId) {
    && TakenAt(steps, n) && (steps[n].StopShare? || steps[n].HangUp?)
    && After(steps[..n]).tasks[steps[n].c].owner == u
  }

  /** The frame goes back to a request of the user it names. */
  ghost predicate HasOrigin(steps: seq<Step>, f: ServerFrame) {
    match f
    case Other => true
    case Started(u, info, codecs) => exists n: nat :: RequestedAt(steps, n, u, info, codecs)
    case Stopped(u) => exists n: nat :: EndedAt(steps, n, u)
    case Frame(_, _, _, _, _, _, _, _, _, _, _, _) => exists n: nat :: OfferedAt(steps, n, f)
  }

  ghost predicate SendsHaveOrigin(steps: seq<Step>, pending: seq<Send>) {
    forall i :: 0 <= i < |pending| ==> HasOrigin(steps, pending[i].frame)
  }

  ghost predicate TaskHasOrigin(steps: seq<Step>, t: Task) {
    match t.phase
    case Starting(info, codecs) => HasOrigin(steps, Started(t.owner, info, codecs))
    case Busy(pending, _) => SendsHaveOrigin(steps, pending)
    case Delivering(f, _, pending, _) => HasOrigin(steps, f) && SendsHaveOrigin(steps, pending)
    case _ => true
  }

  ghost predicate QueueHasOrigin(steps: seq<Step>, q: seq<ServerFrame>) {
    forall i :: 0 <= i < |q| ==> HasOrigin(steps, q[i])
  }

  ghost predicate AllHaveOrigin(steps: seq<Step>, s: System) {
    && (forall c :: c in s.tasks ==> TaskHasOrigin(steps, s.tasks[c]))
    && (forall c :: c in s.queues ==> QueueHasOrigin(steps, s.queues[c]))
  }

  lemma OriginsStay(steps: seq<Step>, step: Step, f: ServerFrame)
    requires HasOrigin(steps, f)
    ensures HasOrigin(steps + [step], f)
  {
    hide EnabledRun, After, Enabled, CarriesPayload, AnnouncesRequest;
    var more := steps + [step];
    forall n: nat | n < |steps| ensures more[..n] == steps[..n] && more[n] == steps[n] {}
    match f
    case Other =>
    case Started(u, info, codecs) =>
      var n: nat :| RequestedAt(steps, n, u, info, codecs);
      assert RequestedAt(more, n, u, info, codecs);
    case Stopped(u) =>
      var n: nat :| EndedAt(steps, n, u);
      assert EndedAt(more, n, u);
    case Frame(_, _, _, _, _, _, _, _, _, _, _, _) =>
      var n: nat :| OfferedAt(steps, n, f);
      assert OfferedAt(more, n, f);
  }

  lemma AllOriginsStay(steps: seq<Step>, step: Step, s: System)
    requires AllHaveOrigin(steps, s)
    ensures AllHaveOrigin(steps + [step], s)
  {
    hide HasOrigin;
    forall f | HasOrigin(steps, f) ensures HasOrigin(steps + [step], f) {
      OriginsStay(steps, step, f);
    }
    forall c | c in s.tasks ensures TaskHasOrigin(steps + [step], s.tasks[c]) {
      assert TaskHasOrigin(steps, s.tasks[c]);
    }
    forall c | c in s.queues ensures QueueHasOrigin(steps + [step], s.queues[c]) {
      assert QueueHasOrigin(steps, s.queues[c]);
    }
  }

  /** What the step adds has its origin in the step or in what was there. */
  lemma StepAddsOrigin(steps: seq<Step>, s: System, step: Step)
    requires EnabledRun(steps) && Enabled(After(steps), step) && s == After(steps)
    requires AllHaveOrigin(steps + [step], s)
    ensures AllHaveOrigin(steps + [step], Apply(s, step))
  {
    hide HasOrigin, EnabledRun, After, Apply, TaskHasOrigin, QueueHasOrigin;
    var more, s' := steps + [step], Apply(s, step);
    StepKeysOnly(s, step);
    forall c | c in s'.tasks ensures TaskHasOrigin(more, s'.tasks[c]) {
      if step.HearFrom? || c != step.c {
        OtherTaskStays(s, step, c);
      } else {
        OwnTaskHasOrigin(steps, s, step);
      }
    }
    forall c | c in s'.queues ensures QueueHasOrigin(more, s'.queues[c]) {
      QueueOrigin(more, s, step, c);
    }
  }

  lemma StepKeysOnly(s: System, step: Step)
    requires Enabled(s, step)
    ensures !step.HearFrom? ==> Apply(s, step).tasks.Keys == s.tasks.Keys + {step.c}
    ensures step.HearFrom? ==> Apply(s, step).tasks == s.tasks
  {
    hide CheckStart, Admit, NormalizeRequested, Settle, Others, TargetsOf, RoomsOf;
  }

  lemma OtherTaskStays(s: System, step: Step, c: ConnId)
    requires Enabled(s, step) && c in Apply(s, step).tasks && (step.HearFrom? || c != step.c)
    ensures c in s.tasks && Apply(s, step).tasks[c] == s.tasks[c]
  {
    hide CheckStart, Admit, NormalizeRequested, Settle, Others, TargetsOf, RoomsOf;
  }

  lemma QueueOrigin(more: seq<Step>, s: System, step: Step, c: ConnId)
    requires Enabled(s, step) && c in Apply(s, step).queues && AllHaveOrigin(more, s)
    ensures QueueHasOrigin(more, Apply(s, step).queues[c])
  {
    hide HasOrigin, CheckStart, Admit, NormalizeRequested, Settle, Others, TargetsOf, RoomsOf;
    if c in s.queues { assert QueueHasOrigin(more, s.queues[c]); }
    if step.Deliver? { assert TaskHasOrigin(more, s.tasks[step.c]); }
  }

  lemma OthersHaveOrigin(more: seq<Step>, audiences: seq<Audience>)
    ensures SendsHaveOrigin(more, Others(audiences))
  {
  }

  lemma SettledHasOrigin(more: seq<Step>, u: UserId, pending: seq<Send>, closing: bool)
    requires SendsHaveOrigin(more, pending)
    ensures TaskHasOrigin(more, Task(u, Settle(pending, closing)))
  {
  }

  lemma OwnTaskHasOrigin(steps: seq<Step>, s: System, step: Step)
    requires EnabledRun(steps) && Enabled(After(steps), step) && s == After(steps) && !step.HearFrom?
    requires AllHaveOrigin(steps + [step], s)
    ensures step.c in Apply(s, step).tasks && TaskHasOrigin(steps + [step], Apply(s, step).tasks[step.c])
  {
    hide HasOrigin, EnabledRun, After, CheckStart, Admit, NormalizeRequested, QueueHasOrigin, SendsHaveOrigin, Others,
      Settle, TargetsOf, Without;
    var c, more := step.c, steps + [step];
    assert more[..|steps|] == steps && more[|steps|] == step;
    if c in s.tasks { assert TaskHasOrigin(more, s.tasks[c]); }
    match step
    case Connect(_, u, _, _, greetings) =>
      OthersHaveOrigin(more, greetings);
      SettledHasOrigin(more, u, Others(greetings), false);
    case Talk(_, sends) =>
      OthersHaveOrigin(more, sends);
      SettledHasOrigin(more, s.tasks[c].owner, Others(sends), false);
    case Join(_, _) => OthersHaveOrigin(more, [Everyone]);
    case Leave(_) =>
      var sends := if RoomsOf(s.tables.voiceRooms, s.tasks[c].owner) == {} then [] else [Everyone];
      OthersHaveOrigin(more, sends);
      SettledHasOrigin(more, s.tasks[c].owner, Others(sends), false);
    case BeginStart(_, r) => BeginHasOrigin(steps, s, step);
    case CommitStart(_) =>
      OneSend(more, Send(Started(s.tasks[c].owner, s.tasks[c].phase.info, s.tasks[c].phase.requestedCodecs),
                         EveryoneBut(s.tasks[c].owner)));
    case StopShare(_) => StopHasOrigin(steps, s, step);
    case OfferFrame(_, _) => OfferHasOrigin(steps, s, step);
    case TakeTargets(_) => FirstAndRest(more, s.tasks[c].phase.pending);
    case FinishSend(_) => SettledHasOrigin(more, s.tasks[c].owner, s.tasks[c].phase.pending, s.tasks[c].phase.closing);
    case HangUp(_) => StopHasOrigin(steps, s, step);
    case _ =>
  }

  lemma OneSend(more: seq<Step>, send: Send)
    requires HasOrigin(more, send.frame)
    ensures SendsHaveOrigin(more, [send])
  {
  }

  lemma FirstAndRest(more: seq<Step>, pending: seq<Send>)
    requires pending != [] && SendsHaveOrigin(more, pending)
    ensures HasOrigin(more, pending[0].frame) && SendsHaveOrigin(more, pending[1..])
  {
    hide HasOrigin;
  }

  lemma BeginHasOrigin(steps: seq<Step>, s: System, step: Step)
    requires EnabledRun(steps) && Enabled(After(steps), step) && s == After(steps) && step.BeginStart?
    ensures TaskHasOrigin(steps + [step], Apply(s, step).tasks[step.c])
  {
    hide EnabledRun, After, CheckStart, NormalizeRequested, AnnouncesRequest;
    var more := steps + [step];
    assert more[..|steps|] == steps && more[|steps|] == step;
    StartAnnouncesRequest(step.request);
    match CheckStart(step.request)
    case Err(_) => OthersHaveOrigin(more, [OnlyTo(s.tasks[step.c].owner)]);
    case Ok(info) =>
      var u := s.tasks[step.c].owner;
      assert u in s.tables.users ==>
               RequestedAt(more, |steps|, u, info, NormalizeRequested(step.request.requestedCodecs));
  }

  lemma OfferHasOrigin(steps: seq<Step>, s: System, step: Step)
    requires EnabledRun(steps) && Enabled(After(steps), step) && s == After(steps) && step.OfferFrame?
    ensures TaskHasOrigin(steps + [step], Apply(s, step).tasks[step.c])
  {
    hide EnabledRun, After, Admit, CarriesPayload, FitsShare;
    var more, u := steps + [step], s.tasks[step.c].owner;
    assert more[..|steps|] == steps && more[|steps|] == step;
    AdmitCarriesPayload(u, ShareOf(s, u), step.payload);
    match Admit(u, ShareOf(s, u), step.payload)
    case Err(_) => OthersHaveOrigin(more, [OnlyTo(u)]);
    case Ok(frame) => assert u in s.tables.users ==> OfferedAt(more, |steps|, frame);
  }

  lemma StopHasOrigin(steps: seq<Step>, s: System, step: Step)
    requires EnabledRun(steps) && Enabled(After(steps), step) && s == After(steps) && (step.StopShare? || step.HangUp?)
    ensures TaskHasOrigin(steps + [step], Apply(s, step).tasks[step.c])
  {
    hide EnabledRun, After;
    var more, u := steps + [step], s.tasks[step.c].owner;
    assert more[..|steps|] == steps && more[|steps|] == step;
    assert EndedAt(more, |steps|, u);
    OthersHaveOrigin(more, [Everyone]);
    OthersHaveOrigin(more, [Everyone, Everyone]);
  }

  lemma {:induction false} RunHasOrigin(steps: seq<Step>)
    requires EnabledRun(steps)
    ensures AllHaveOrigin(steps, After(steps))
    decreases |steps|
  {
    hide Apply, Enabled, AllHaveOrigin;
    if steps == [] {
      assert AllHaveOrigin([], START) by { NothingThere(); }
    } else {
      RunHasOrigin(Init(steps));
      assert Init(steps) + [Last(steps)] == steps;
      AllOriginsStay(Init(steps), Last(steps), After(Init(steps)));
      StepAddsOrigin(Init(steps), After(Init(steps)), Last(steps));
    }
  }

  lemma NothingThere()
    ensures AllHaveOrigin([], START)
  {
  }

  /** In every reachable state, with any number of connections per user, every frame on every queue
      was offered by its sender, registered at the time, with exactly this size, format, data, sequence and time; every
      start was requested by its sender with these parameters; every stop was asked for, or its
      sender hung up. */
  lemma QueuedFramesHaveOrigin(steps: seq<Step>, c: ConnId, j: nat)
    requires EnabledRun(steps) && c in After(steps).queues && j < |After(steps).queues[c]|
    ensures HasOrigin(steps, After(steps).queues[c][j])
  {
    hide HasOrigin, EnabledRun, After;
    RunHasOrigin(steps);
    assert QueueHasOrigin(steps, After(steps).queues[c]);
  }

  // ----- Whom it reaches -----

  /** From any reachable state a frame that is accepted can be sent out: then it is last on the queue
      of every other registered user, with the payload as offered, and on no other queue. */
  lemma AcceptedFrameReachesOthers(steps: seq<Step>, c: ConnId, payload: FramePayload) returns (more: seq<Step>)
    requires EnabledRun(steps) && Enabled(After(steps), OfferFrame(c, payload))
    requires var s, u := After(steps), After(steps).tasks[c].owner;
             u in s.tables.users && Admit(u, ShareOf(s, u), payload).Ok?
    ensures EnabledRun(more) && steps + [OfferFrame(c, payload)] <= more
    ensures var s, s', u := After(steps), After(more), After(steps).tasks[c].owner;
            && s'.tables == s.tables && s'.queues.Keys == s.queues.Keys
            && (forall t :: t in s.queues ==>
                  if exists v :: v in s.tables.users && v != u && s.tables.users[v].tx == t
                  then var q := s'.queues[t];
                       && q != [] && q[..|q| - 1] == s.queues[t] && q[|q| - 1].Frame? && q[|q| - 1].user == u
                       && CarriesPayload(q[|q| - 1], payload)
                  else s'.queues[t] == s.queues[t])
  {
    hide EnabledRun, After, NoOverlapSince, Admit, FitsShare, CarriesPayload;
    var s, begun := After(steps), steps + [OfferFrame(c, payload)];
    var u := s.tasks[c].owner;
    AdmitCarriesPayload(u, ShareOf(s, u), payload);
    RunAppend(steps, OfferFrame(c, payload));
    ContinuesItself(begun);
    more := SendOut(begun, begun, c);
    forall t | t in s.queues
      ensures t in Receivers(After(begun), c) <==>
                exists v :: v in s.tables.users && v != u && s.tables.users[v].tx == t
    {
    }
  }
}
