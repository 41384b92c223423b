/** Why the share operations of one user must not overlap: every kind of overlap that the rule
    excludes can be continued, by doing nothing but sending what is to be sent, to a state in which
    a queue is out of order or says of a share what is no longer true. */
module ShareOverlaps {
  import opened Prelude
  import opened ServerTables
  import opened ScreenShare
  import opened ServerSystem
  import opened ServerInvariant
  import opened ServerRuns

  // ----- Continuing a run -----

  /** `more` continues the run, and nothing overlaps in what it adds. */
  ghost predicate Continues(steps: seq<Step>, more: seq<Step>) {
    EnabledRun(steps) && EnabledRun(more) && steps <= more && NoOverlapSince(more, |steps|)
  }

  lemma ContinuesItself(steps: seq<Step>)
    requires EnabledRun(steps)
    ensures Continues(steps, steps)
  {
  }

  lemma ContinueBy(steps: seq<Step>, mid: seq<Step>, step: Step) returns (more: seq<Step>)
    requires Continues(steps, mid) && Enabled(After(mid), step) && NoOverlap(After(mid), step)
    ensures Continues(steps, more) && After(more) == Apply(After(mid), step)
  {
    hide Apply, Enabled, NoOverlap;
    RunAppend(mid, step);
    more := mid + [step];
    assert Init(more) == mid && Last(more) == step;
  }

  // ----- Sending a frame to everybody it is for -----

  function Receivers(s: System, c: ConnId): set<ConnId>
    requires c in s.tasks && s.tasks[c].phase.Busy? && s.tasks[c].phase.pending != []
  {
    TargetsOf(s.tables, s.tasks[c].phase.pending[0].audience)
  }

  /** The frame on the queues of all targets. */
  function Queued(queues: map<ConnId, seq<ServerFrame>>, targets: set<ConnId>, f: ServerFrame)
    : map<ConnId, seq<ServerFrame>>
  {
    map t | t in queues :: if t in targets then queues[t] + [f] else queues[t]
  }

  /** The state when the first pending frame has gone out. */
  function AfterSend(s: System, c: ConnId): System
    requires c in s.tasks && s.tasks[c].phase.Busy? && s.tasks[c].phase.pending != []
  {
    var p := s.tasks[c].phase;
    System(s.tables, s.tasks[c := Task(s.tasks[c].owner, Settle(p.pending[1..], p.closing))],
           Queued(s.queues, Receivers(s, c), p.pending[0].frame))
  }

  lemma {:induction false} DeliverAll(steps: seq<Step>, mid: seq<Step>, c: ConnId) returns (more: seq<Step>)
    requires Continues(steps, mid) && c in After(mid).tasks && After(mid).tasks[c].phase.Delivering?
    requires After(mid).tasks[c].phase.targets <= After(mid).queues.Keys
    ensures Continues(steps, more)
    ensures var s, p := After(mid), After(mid).tasks[c].phase;
            After(more) == System(s.tables, s.tasks[c := Task(s.tasks[c].owner, p.(targets := {}))],
                                  Queued(s.queues, p.targets, p.frame))
    decreases |After(mid).tasks[c].phase.targets|
  {
    hide NoOverlapSince, EnabledRun, After;
    var s, p := After(mid), After(mid).tasks[c].phase;
    if p.targets == {} {
      more := mid;
      assert s.tasks[c := Task(s.tasks[c].owner, p.(targets := {}))] == s.tasks;
      assert Queued(s.queues, p.targets, p.frame) == s.queues;
    } else {
      var t :| t in p.targets;
      more := ContinueBy(steps, mid, Deliver(c, t));
      var s1 := After(more);
      more := DeliverAll(steps, more, c);
      assert Queued(s1.queues, p.targets - {t}, p.frame) == Queued(s.queues, p.targets, p.frame);
      assert s1.tasks[c := Task(s.tasks[c].owner, p.(targets := {}))]
          == s.tasks[c := Task(s.tasks[c].owner, p.(targets := {}))];
    }
  }

  lemma SendOut(steps: seq<Step>, mid: seq<Step>, c: ConnId) returns (more: seq<Step>)
    requires Continues(steps, mid) && c in After(mid).tasks
    requires After(mid).tasks[c].phase.Busy? && After(mid).tasks[c].phase.pending != []
    ensures Continues(steps, more) && After(more) == AfterSend(After(mid), c)
  {
    hide NoOverlapSince, EnabledRun, After, Settle;
    var s := After(mid);
    assert Receivers(s, c) <= s.queues.Keys by { ReceiversHaveQueues(steps, mid, c); }
    more := ContinueBy(steps, mid, TakeTargets(c));
    more := DeliverAll(steps, more, c);
    var s1 := After(more);
    more := ContinueBy(steps, more, FinishSend(c));
    assert After(more).tasks == AfterSend(s, c).tasks;
  }

  lemma ReceiversHaveQueues(steps: seq<Step>, mid: seq<Step>, c: ConnId)
    requires Continues(steps, mid) && c in After(mid).tasks
    requires After(mid).tasks[c].phase.Busy? && After(mid).tasks[c].phase.pending != []
    ensures Receivers(After(mid), c) <= After(mid).queues.Keys
  {
    hide After, NoOverlapSince;
    RunKeepsUsers(mid);
    forall t | t in Receivers(After(mid), c) ensures t in After(mid).queues {
      var v :| v in After(mid).tables.users && After(mid).tables.users[v].tx == t;
      assert UserOk(After(mid), v);
    }
  }

  // ----- The overlaps -----

  /** `d` is another connection of the user on `c` and about to send `f` to everybody else. */
  ghost predicate AboutToSend(s: System, c: ConnId, d: ConnId, f: ServerFrame) {
    && c in s.tasks && d in s.tasks && c != d && s.tasks[d].owner == s.tasks[c].owner
    && s.tasks[d].phase.Busy? && s.tasks[d].phase.pending != []
    && s.tasks[d].phase.pending[0] == Send(f, EveryoneBut(s.tasks[c].owner))
  }

  /** Somebody else listens on connection `t`. */
  ghost predicate Listens(s: System, u: UserId, v: UserId, t: ConnId) {
    v in s.tables.users && v != u && s.tables.users[v].tx == t && t in s.queues
  }

  /** First `c` sends `f`, then `d` sends `g`: the listener has them in this order. */
  lemma SendBoth(steps: seq<Step>, mid: seq<Step>, c: ConnId, d: ConnId, g: ServerFrame, v: UserId, t: ConnId)
    returns (more: seq<Step>)
    requires Continues(steps, mid) && AboutToSend(After(mid), c, d, g)
    requires Listens(After(mid), After(mid).tasks[c].owner, v, t)
    requires After(mid).tasks[c].phase.Busy? && After(mid).tasks[c].phase.pending != []
    requires Admits(After(mid).tasks[c].phase.pending[0].audience, v)
    ensures Continues(steps, more)
    ensures var s, s' := After(mid), After(more);
            && s'.tables == s.tables
            && s'.tasks == s.tasks[c := Task(s.tasks[c].owner, Settle(s.tasks[c].phase.pending[1..],
                                                                      s.tasks[c].phase.closing))]
                                  [d := Task(s.tasks[d].owner, Settle(s.tasks[d].phase.pending[1..],
                                                                      s.tasks[d].phase.closing))]
            && t in s'.queues
            && s'.queues[t] == s.queues[t] + [s.tasks[c].phase.pending[0].frame] + [g]
  {
    hide NoOverlapSince, EnabledRun, After, Settle;
    more := SendOut(steps, mid, c);
    more := SendOut(steps, more, d);
  }

  /** A stop or a hang-up over a frame: the frame follows the stop. */
  lemma StopOverFrame(steps: seq<Step>, step: Step, d: ConnId, f: ServerFrame, v: UserId, t: ConnId)
    returns (more: seq<Step>)
    requires EnabledRun(steps) && EndsShare(After(steps), step)
    requires AboutToSend(After(steps), step.c, d, f) && f.Frame? && f.user == After(steps).tasks[d].owner
    requires Listens(After(steps), f.user, v, t)
    ensures EnabledRun(steps + [step]) && Continues(steps + [step], more) && !AllBracketed(After(more))
  {
    hide After, NoOverlapSince, EnabledRun, FitsShare, StatusOf, Bracketed;
    var s := After(steps);
    EndedShare(s, step, v, t);
    RunAppend(steps, step);
    ContinuesItself(steps + [step]);
    more := SendBoth(steps + [step], steps + [step], step.c, d, f, v, t);
    StatusAfter(s.queues[t], Stopped(f.user), f.user);
    StatusAfter(s.queues[t] + [Stopped(f.user)], f, f.user);
    assert !Bracketed(After(more).queues[t]);
  }

  /** The step ends the share of the user that takes it. */
  predicate EndsShare(s: System, step: Step) {
    (step.StopShare? || step.HangUp?) && Enabled(s, step) && s.tasks[step.c].owner in s.tables.screenShares
  }

  lemma EndedShare(s: System, step: Step, v: UserId, t: ConnId)
    requires EndsShare(s, step) && Listens(s, s.tasks[step.c].owner, v, t)
    ensures var s', u := Apply(s, step), s.tasks[step.c].owner;
            && s'.tasks == s.tasks[step.c := s'.tasks[step.c]] && s'.tasks[step.c].owner == u
            && s'.tasks[step.c].phase.Busy? && s'.tasks[step.c].phase.pending != []
            && s'.tasks[step.c].phase.pending[0].frame == Stopped(u)
            && AllOther(s'.tasks[step.c].phase.pending[1..])
            && Admits(s'.tasks[step.c].phase.pending[0].audience, v)
            && Listens(s', u, v, t) && s'.queues == s.queues && ShareOf(s', u) == None
  {
    hide StatusOf;
    if step.HangUp? { HangUpPhase(s, step); }
  }

  /** A stop or a hang-up over the start: when all is sent, the share seems to run. */
  lemma StopOverStart(steps: seq<Step>, step: Step, d: ConnId, f: ServerFrame, v: UserId, t: ConnId)
    returns (more: seq<Step>)
    requires EnabledRun(steps) && EndsShare(After(steps), step)
    requires AboutToSend(After(steps), step.c, d, f) && f.Started? && f.user == After(steps).tasks[d].owner
    requires AllOther(After(steps).tasks[d].phase.pending[1..]) && Listens(After(steps), f.user, v, t)
    requires forall e :: e in After(steps).tasks && e != d && After(steps).tasks[e].owner == f.user ==>
               Carried(After(steps).tasks[e].phase).Other?
    ensures EnabledRun(steps + [step]) && Continues(steps + [step], more)
    ensures AtRest(After(more), f.user) && Listens(After(more), f.user, v, t)
    ensures StatusOf(After(more).queues[t], f.user) == Live(f.info) && ShareOf(After(more), f.user) == None
  {
    hide After, NoOverlapSince, EnabledRun, StatusOf;
    var s := After(steps);
    EndedShare(s, step, v, t);
    RunAppend(steps, step);
    ContinuesItself(steps + [step]);
    more := SendBoth(steps + [step], steps + [step], step.c, d, f, v, t);
    StatusAfter(s.queues[t] + [Stopped(f.user)], f, f.user);
  }

  // ----- Exactly when ending a share is safe -----

  /** Whoever has sent everything about its share has told the truth to everybody registered. */
  ghost predicate TrueAtRest(s: System) {
    forall u, v :: v in s.tables.users && v != u && AtRest(s, u) ==>
      && s.tables.users[v].tx in s.queues
      && Agrees(StatusOf(s.queues[s.tables.users[v].tx], u), ShareOf(s, u))
  }

  /** However the run goes on without overlaps, queues stay in order and true. */
  ghost predicate Safe(steps: seq<Step>) {
    forall more :: Continues(steps, more) ==> AllBracketed(After(more)) && TrueAtRest(After(more))
  }

  lemma InvIsSafe(steps: seq<Step>)
    requires EnabledRun(steps) && Inv(After(steps))
    ensures Safe(steps)
  {
    hide NoOverlapSince, EnabledRun, After, AllBracketed, TrueAtRest, Inv;
    forall more | Continues(steps, more) ensures AllBracketed(After(more)) && TrueAtRest(After(more)) {
      assert more[..|steps|] == steps;
      RunKeepsInv(more, |steps|);
      InvIsTrueAtRest(After(more));
    }
  }

  lemma InvIsTrueAtRest(s: System)
    requires Inv(s)
    ensures AllBracketed(s) && TrueAtRest(s)
  {
    hide StatusOf, Bracketed, Agrees;
    forall u, v | v in s.tables.users && v != u && AtRest(s, u)
      ensures s.tables.users[v].tx in s.queues
      ensures Agrees(StatusOf(s.queues[s.tables.users[v].tx], u), ShareOf(s, u))
    {
      assert Informed(s, u, v);
      assert forall d :: !IsToldBy(s, u, s.tables.users[v].tx, d);
    }
  }

  /** What the other connections of the user on `c` have to say about its share has not been handed
      out yet. */
  predicate NothingUnderWay(s: System, c: ConnId)
    requires c in s.tasks
  {
    forall d :: d in s.tasks && d != c && s.tasks[d].owner == s.tasks[c].owner ==>
      Carried(s.tasks[d].phase).Other? || s.tasks[d].phase.Busy?
  }

  /** Stopping a share, or hanging up while sharing, is safe if and only if no other connection of
      the same user is about to send something about the share, provided somebody listens. */
  lemma EndingShareIsSafeIff(steps: seq<Step>, step: Step, v: UserId)
    requires EnabledRun(steps) && NoOverlapRun(steps) && EndsShare(After(steps), step)
    requires NothingUnderWay(After(steps), step.c)
    requires v in After(steps).tables.users && v != After(steps).tasks[step.c].owner
    ensures EnabledRun(steps + [step])
    ensures Safe(steps + [step]) <==> NoOverlap(After(steps), step)
  {
    hide NoOverlapSince, EnabledRun, After, AllBracketed, TrueAtRest, Inv, OthersQuiet;
    var s := After(steps);
    ReachableInv(steps);
    RunAppend(steps, step);
    if NoOverlap(s, step) {
      StepKeepsInv(s, step);
      InvIsSafe(steps + [step]);
    } else {
      var d := Speaker(s, step.c);
      var f := Carried(s.tasks[d].phase);
      var t := s.tables.users[v].tx;
      ListenerHasQueue(s, f.user, v);
      if f.Frame? {
        var more := StopOverFrame(steps, step, d, f, v, t);
      } else {
        var more := StopOverStart(steps, step, d, f, v, t);
        GhostIsUntrue(After(more), f, v, t);
      }
    }
  }

  /** The other connection that is about to send something about an active share. */
  lemma Speaker(s: System, c: ConnId) returns (d: ConnId)
    requires Inv(s) && c in s.tasks && s.tasks[c].owner in s.tables.screenShares && Carried(s.tasks[c].phase).Other?
    requires !OthersQuiet(s, c) && NothingUnderWay(s, c)
    ensures d in s.tasks && AboutToSend(s, c, d, Carried(s.tasks[d].phase))
    ensures var f := Carried(s.tasks[d].phase);
            && (f.Frame? || f.Started?) && f.user == s.tasks[c].owner && AllOther(s.tasks[d].phase.pending[1..])
            && (f.Started? ==> forall e :: e in s.tasks && e != d && s.tasks[e].owner == f.user ==>
                                 Carried(s.tasks[e].phase).Other?)
  {
    hide StatusOf, Bracketed, FitsShare;
    d :| d in s.tasks && d != c && s.tasks[d].owner == s.tasks[c].owner && !Carried(s.tasks[d].phase).Other?;
    assert PhaseOk(s, d);
    if Carried(s.tasks[d].phase).Started? {
      forall e | e in s.tasks && e != d && s.tasks[e].owner == s.tasks[d].owner
        ensures Carried(s.tasks[e].phase).Other?
      {
        assert Compatible(s.tasks[d].phase, s.tasks[e].phase);
      }
    }
  }

  lemma ListenerHasQueue(s: System, u: UserId, v: UserId)
    requires Inv(s) && v in s.tables.users && v != u
    ensures Listens(s, u, v, s.tables.users[v].tx)
  {
    assert UserOk(s, v);
  }

  lemma GhostIsUntrue(s: System, f: ServerFrame, v: UserId, t: ConnId)
    requires f.Started? && AtRest(s, f.user) && Listens(s, f.user, v, t)
    requires StatusOf(s.queues[t], f.user) == Live(f.info) && ShareOf(s, f.user) == None
    ensures !TrueAtRest(s)
  {
    hide StatusOf, AtRest;
    assert !Agrees(StatusOf(s.queues[s.tables.users[v].tx], f.user), ShareOf(s, f.user));
  }

  // ----- Starting a share, and sending frames -----

  /** A start over a frame that does not fit it: the frame follows the start. */
  lemma StartOverFrame(steps: seq<Step>, c: ConnId, d: ConnId, f: ServerFrame, v: UserId, t: ConnId)
    returns (more: seq<Step>)
    requires EnabledRun(steps) && Enabled(After(steps), CommitStart(c))
    requires AboutToSend(After(steps), c, d, f) && f.Frame? && f.user == After(steps).tasks[d].owner
    requires !FitsShare(f, After(steps).tasks[c].phase.info) && Listens(After(steps), f.user, v, t)
    ensures EnabledRun(steps + [CommitStart(c)])
    ensures Continues(steps + [CommitStart(c)], more) && !AllBracketed(After(more))
  {
    hide After, NoOverlapSince, EnabledRun, FitsShare, StatusOf, Bracketed;
    var s, begun := After(steps), steps + [CommitStart(c)];
    var started := Started(f.user, s.tasks[c].phase.info, s.tasks[c].phase.requestedCodecs);
    RunAppend(steps, CommitStart(c));
    ContinuesItself(begun);
    more := SendBoth(begun, begun, c, d, f, v, t);
    StatusAfter(s.queues[t], started, f.user);
    StatusAfter(s.queues[t] + [started], f, f.user);
    assert !Bracketed(After(more).queues[t]);
  }

  /** A frame that may not follow what the listener has last heard is sent all the same. */
  lemma SendMisplaced(steps: seq<Step>, mid: seq<Step>, c: ConnId, frame: ServerFrame, v: UserId, t: ConnId)
    returns (more: seq<Step>)
    requires Continues(steps, mid) && frame.Frame? && Listens(After(mid), frame.user, v, t)
    requires c in After(mid).tasks && After(mid).tasks[c].phase == Busy([Send(frame, EveryoneBut(frame.user))], false)
    requires !MayFollow(frame, StatusOf(After(mid).queues[t], frame.user))
    ensures Continues(steps, more) && !AllBracketed(After(more))
  {
    hide After, NoOverlapSince, EnabledRun, FitsShare, StatusOf, Bracketed;
    var s := After(mid);
    more := SendOut(steps, mid, c);
    assert t in Receivers(s, c);
    StatusAfter(s.queues[t], frame, frame.user);
    assert !Bracketed(After(more).queues[t]);
  }

  /** A start over an older announcement, a stop or a start that the new share's frames need not
      fit: the announcement overtakes the start, and the next frame follows the wrong one. */
  lemma StartOverAnnouncement(steps: seq<Step>, c: ConnId, d: ConnId, g: ServerFrame, payload: FramePayload, v: UserId,
                              t: ConnId) returns (more: seq<Step>)
    requires EnabledRun(steps) && Enabled(After(steps), CommitStart(c))
    requires AboutToSend(After(steps), c, d, g) && IsAnnouncement(g) && g.user == After(steps).tasks[d].owner
    requires AllOther(After(steps).tasks[d].phase.pending[1..])
    requires g.user in After(steps).tables.users && Listens(After(steps), g.user, v, t)
    requires forall e :: e in After(steps).tasks && e != d && After(steps).tasks[e].owner == g.user ==>
               !IsAnnouncement(Carried(After(steps).tasks[e].phase))
    requires var r := Admit(g.user, Some(After(steps).tasks[c].phase.info), payload);
             r.Ok? && (g.Started? ==> !FitsShare(r.value, g.info))
    ensures EnabledRun(steps + [CommitStart(c)])
    ensures Continues(steps + [CommitStart(c)], more) && !AllBracketed(After(more))
  {
    hide After, NoOverlapSince, EnabledRun, Admit, FitsShare, StatusOf, Bracketed, NothingAnnounced, AboutToSend, Apply;
    var info := After(steps).tasks[c].phase.info;
    AdmitIff(g.user, Some(info), payload);
    more := Overtake(steps, c, d, g, v, t);
    OfferAdmitted(After(more), c, g.user, info, payload);
    more := ContinueBy(steps + [CommitStart(c)], more, OfferFrame(c, payload));
    more := SendMisplaced(steps + [CommitStart(c)], more, c, Admit(g.user, Some(info), payload).value, v, t);
  }

  lemma OfferAdmitted(s: System, c: ConnId, u: UserId, info: ScreenShareInfo, payload: FramePayload)
    requires c in s.tasks && s.tasks[c] == Task(u, Idle) && u in s.tables.users
    requires ShareOf(s, u) == Some(info) && Admit(u, Some(info), payload).Ok?
    ensures var s', step := Apply(s, OfferFrame(c, payload)), OfferFrame(c, payload);
            && Enabled(s, step) && (NothingAnnounced(s, c) ==> NoOverlap(s, step))
            && s'.tables == s.tables && s'.queues == s.queues && c in s'.tasks
            && s'.tasks[c].phase == Busy([Send(Admit(u, Some(info), payload).value, EveryoneBut(u))], false)
  {
    hide Admit, NothingAnnounced;
  }

  /** The start goes out first and the older announcement after it. */
  lemma Overtake(steps: seq<Step>, c: ConnId, d: ConnId, g: ServerFrame, v: UserId, t: ConnId)
    returns (more: seq<Step>)
    requires EnabledRun(steps) && Enabled(After(steps), CommitStart(c))
    requires AboutToSend(After(steps), c, d, g) && IsAnnouncement(g) && g.user == After(steps).tasks[d].owner
    requires AllOther(After(steps).tasks[d].phase.pending[1..])
    requires g.user in After(steps).tables.users && Listens(After(steps), g.user, v, t)
    requires forall e :: e in After(steps).tasks && e != d && After(steps).tasks[e].owner == g.user ==>
               !IsAnnouncement(Carried(After(steps).tasks[e].phase))
    ensures EnabledRun(steps + [CommitStart(c)]) && Continues(steps + [CommitStart(c)], more)
    ensures var s := After(more);
            && c in s.tasks && s.tasks[c] == Task(g.user, Idle) && NothingAnnounced(s, c) && g.user in s.tables.users
            && ShareOf(s, g.user) == Some(After(steps).tasks[c].phase.info)
            && Listens(s, g.user, v, t)
            && StatusOf(s.queues[t], g.user) == if g.Started? then Live(g.info) else Ended
  {
    hide After, NoOverlapSince, EnabledRun, StatusOf;
    var s, begun := After(steps), steps + [CommitStart(c)];
    RunAppend(steps, CommitStart(c));
    ContinuesItself(begun);
    more := SendBoth(begun, begun, c, d, g, v, t);
    StatusAfter(s.queues[t] + [Started(g.user, s.tasks[c].phase.info, s.tasks[c].phase.requestedCodecs)], g, g.user);
  }

  /** A frame offered while the start is still on its way, to a listener that has last heard of a
      stop or of a share the frame does not fit: the frame overtakes the start. */
  lemma FrameOverStart(steps: seq<Step>, c: ConnId, payload: FramePayload, v: UserId, t: ConnId)
    returns (more: seq<Step>)
    requires EnabledRun(steps) && Enabled(After(steps), OfferFrame(c, payload))
    requires After(steps).tasks[c].owner in After(steps).tables.users
    requires Listens(After(steps), After(steps).tasks[c].owner, v, t)
    requires var u := After(steps).tasks[c].owner;
             var r := Admit(u, ShareOf(After(steps), u), payload);
             r.Ok? && r.value.Frame? && r.value.user == u
             && !MayFollow(r.value, StatusOf(After(steps).queues[t], u))
    ensures EnabledRun(steps + [OfferFrame(c, payload)])
    ensures Continues(steps + [OfferFrame(c, payload)], more) && !AllBracketed(After(more))
  {
    hide After, NoOverlapSince, EnabledRun, Admit, FitsShare, StatusOf, Bracketed;
    var s, begun := After(steps), steps + [OfferFrame(c, payload)];
    var u := s.tasks[c].owner;
    var frame := Admit(u, ShareOf(s, u), payload).value;
    RunAppend(steps, OfferFrame(c, payload));
    ContinuesItself(begun);
    more := SendMisplaced(begun, begun, c, frame, v, t);
  }
}
