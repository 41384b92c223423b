/** What every step of the server keeps, with any number of connections per user, while the share
    operations of one user do not overlap: queues, tasks and the table of active shares agree. */
module ServerInvariant {
  import opened Prelude
  import opened ServerTables
  import opened ScreenShare
  import opened ServerSystem

  // ----- What a queue says about one sharer -----

  datatype Status = Unseen | Live(info: ScreenShareInfo) | Ended

  /** The latest announcement from `u` on the queue. */
  function StatusOf(q: seq<ServerFrame>, u: UserId): Status {
    if q == [] then Unseen
    else
      var f := q[|q| - 1];
      if f.Started? && f.user == u then Live(f.info)
      else if f.Stopped? && f.user == u then Ended
      else StatusOf(q[..|q| - 1], u)
  }

  /** The frame may follow: its sender's last announcement, if any, was a start it fits. */
  predicate MayFollow(f: ServerFrame, status: Status)
    requires f.Frame?
  {
    status.Unseen? || (status.Live? && FitsShare(f, status.info))
  }

  predicate Bracketed(q: seq<ServerFrame>) {
    q == [] ||
    (var n := |q| - 1;
     Bracketed(q[..n]) && (q[n].Frame? ==> MayFollow(q[n], StatusOf(q[..n], q[n].user))))
  }

  lemma NothingOnNewQueue(u: UserId)
    ensures StatusOf([], u) == Unseen && Bracketed([])
  {
  }

  lemma StatusAfter(q: seq<ServerFrame>, f: ServerFrame, u: UserId)
    ensures StatusOf(q + [f], u) ==
              if f.Started? && f.user == u then Live(f.info)
              else if f.Stopped? && f.user == u then Ended
              else StatusOf(q, u)
    ensures Bracketed(q + [f]) <==> Bracketed(q) && (f.Frame? ==> MayFollow(f, StatusOf(q, f.user)))
  {
    assert (q + [f])[..|q|] == q;
  }

  // ----- Connections, in all runs -----

  predicate IsClosing(p: Phase) {
    (p.Busy? || p.Delivering?) && p.closing
  }

  ghost predicate UserOk(s: System, u: UserId)
    requires u in s.tables.users
  {
    var c := s.tables.users[u].tx;
    c in s.tasks && s.tasks[c].owner == u && !IsClosing(s.tasks[c].phase)
  }

  /** Every connection has its queue, and every user is registered with a connection of its own
      that has not begun to hang up. */
  ghost predicate UsersOk(s: System) {
    && s.queues.Keys == s.tasks.Keys
    && (forall u :: u in s.tables.users ==> UserOk(s, u))
  }

  /** What one step does to a task that it does not create. */
  lemma StepTask(s: System, step: Step, d: ConnId)
    requires Enabled(s, step) && d in s.tasks
    ensures var s' := Apply(s, step);
            && d in s'.tasks && s'.tasks[d].owner == s.tasks[d].owner
            && (s'.tasks[d].phase.Closed? <==>
                  || s.tasks[d].phase.Closed?
                  || step == DropLine(d)
                  || (step == FinishSend(d) && s.tasks[d].phase.closing && s.tasks[d].phase.pending == []))
            && (IsClosing(s'.tasks[d].phase) <==>
                  (IsClosing(s.tasks[d].phase) && !s'.tasks[d].phase.Closed?) || step == HangUp(d))
  {
    hide CheckStart, Admit, NormalizeRequested, Others, TargetsOf, RoomsOf, JoinVoice, LeaveVoice, Disconnect, Register,
      InsertShare, RemoveShare, RememberVoiceAddr;
  }

  lemma ConnectedTask(s: System, step: Step)
    requires Enabled(s, step) && step.Connect?
    ensures var s' := Apply(s, step);
            && step.c in s'.tasks && s'.tasks[step.c].owner == step.owner
            && !s'.tasks[step.c].phase.Closed? && !IsClosing(s'.tasks[step.c].phase)
            && Carried(s'.tasks[step.c].phase).Other?
  {
  }

  /** Tasks and queues are only ever added, together; queues grow by deliveries. */
  lemma StepKeys(s: System, step: Step)
    requires Enabled(s, step) && s.queues.Keys == s.tasks.Keys
    ensures var s' := Apply(s, step);
            && s'.queues.Keys == s'.tasks.Keys == s.tasks.Keys + (if step.Connect? then {step.c} else {})
            && s'.queues == (if step.Connect? then s.queues[step.c := []]
                             else if step.Deliver? then
                               s.queues[step.target := s.queues[step.target] + [s.tasks[step.c].phase.frame]]
                             else s.queues)
  {
    hide CheckStart, Admit, NormalizeRequested, Settle, Others, Disconnect, JoinVoice, LeaveVoice, TargetsOf, RoomsOf;
  }

  lemma StepUsers(s: System, step: Step)
    requires Enabled(s, step)
    ensures Apply(s, step).tables.users ==
              if step.Connect? then s.tables.users[step.owner := UserConnection(step.displayName, step.isAdmin, step.c)]
              else if step.HangUp? then s.tables.users - {s.tasks[step.c].owner}
              else s.tables.users
  {
    hide CheckStart, Admit, NormalizeRequested, Settle, Others, TargetsOf, RoomsOf, Without;
  }

  lemma StepKeepsUsers(s: System, step: Step)
    requires UsersOk(s) && Enabled(s, step)
    ensures UsersOk(Apply(s, step))
  {
    hide Apply, Enabled;
    StepKeys(s, step);
    StepUsers(s, step);
    var s' := Apply(s, step);
    forall u | u in s'.tables.users ensures UserOk(s', u) {
      if step.Connect? && step.owner == u {
        ConnectedTask(s, step);
      } else {
        assert UserOk(s, u);
        StepTask(s, step, s.tables.users[u].tx);
      }
    }
  }

  // ----- The invariant -----

  /** A frame about to be sent agrees with the table of active shares. */
  predicate FrameOk(s: System, owner: UserId, f: ServerFrame) {
    match f
    case Other => true
    case Started(u, info, _) => u == owner && ShareOf(s, u) == Some(info)
    case Stopped(u) => u == owner && ShareOf(s, u) == None
    case Frame(u, _, _, _, _, _, _, _, _, _, _, _) =>
      u == owner && ShareOf(s, u).Some? && FitsShare(f, ShareOf(s, u).value)
  }

  predicate AllOther(pending: seq<Send>) {
    forall i :: 0 <= i < |pending| ==> pending[i].frame.Other?
  }

  predicate AudienceOk(send: Send, owner: UserId) {
    || send.frame.Other?
    || send.audience == EveryoneBut(owner)
    || (send.frame.Stopped? && send.audience == Everyone)
  }

  ghost predicate PhaseOk(s: System, c: ConnId)
    requires c in s.tasks
  {
    var u := s.tasks[c].owner;
    match s.tasks[c].phase
    case Idle => true
    case Starting(_, _) => true
    case Busy(pending, closing) =>
      && pending != []
      && AllOther(pending[1..])
      && FrameOk(s, u, pending[0].frame)
      && AudienceOk(pending[0], u)
    case Delivering(f, targets, pending, closing) =>
      && AllOther(pending)
      && FrameOk(s, u, f)
      && targets <= s.queues.Keys
      && (f.Frame? ==> forall t :: t in targets ==> MayFollow(f, StatusOf(s.queues[t], u)))
    case Closed => true
  }

  /** At most one of the two tasks sends something about the share, unless both send frames. */
  predicate Compatible(a: Phase, b: Phase) {
    && (IsAnnouncement(Carried(a)) ==> Carried(b).Other?)
    && (IsAnnouncement(Carried(b)) ==> Carried(a).Other?)
  }

  ghost predicate TasksOk(s: System) {
    && (forall c :: c in s.tasks ==> PhaseOk(s, c))
    && (forall c, d :: c in s.tasks && d in s.tasks && c != d && s.tasks[c].owner == s.tasks[d].owner ==>
          Compatible(s.tasks[c].phase, s.tasks[d].phase))
  }

  /** The task `p` is about to tell connection `t` that its owner shares, or no longer does. */
  predicate Announcing(p: Phase, t: ConnId) {
    IsAnnouncement(Carried(p)) && (p.Busy? || (p.Delivering? && t in p.targets))
  }

  ghost predicate IsToldBy(s: System, u: UserId, t: ConnId, d: ConnId) {
    d in s.tasks && s.tasks[d].owner == u && Announcing(s.tasks[d].phase, t)
  }

  /** The announcement and the table say the same; a queue may have missed the start. */
  predicate Agrees(status: Status, share: Option<ScreenShareInfo>) {
    match status
    case Unseen => true
    case Live(info) => share == Some(info)
    case Ended => share == None
  }

  /** What `v` has last heard of `u`'s share is still so, or it is about to be told. */
  ghost predicate Informed(s: System, u: UserId, v: UserId)
    requires v in s.tables.users
  {
    var t := s.tables.users[v].tx;
    t in s.queues &&
    (Agrees(StatusOf(s.queues[t], u), ShareOf(s, u)) || exists d :: IsToldBy(s, u, t, d))
  }

  ghost predicate AllInformed(s: System) {
    forall u, v :: v in s.tables.users && v != u ==> Informed(s, u, v)
  }

  ghost predicate AllBracketed(s: System) {
    forall c :: c in s.queues ==> Bracketed(s.queues[c])
  }

  ghost predicate Inv(s: System) {
    UsersOk(s) && TasksOk(s) && AllInformed(s) && AllBracketed(s)
  }

  lemma StartIsSound()
    ensures Inv(START)
  {
  }

  // ----- Steps of one task -----

  /** From `s` to `s'` only the task on `c`, its owner's registration, its owner's share and the
      voice tables may have changed. */
  ghost predicate LocalChange(s: System, s': System, c: ConnId) {
    && c in s.tasks && c in s'.tasks
    && s'.queues == s.queues
    && s'.tasks == s.tasks[c := Task(s.tasks[c].owner, s'.tasks[c].phase)]
    && (forall v :: v in s'.tables.users ==> v in s.tables.users && s'.tables.users[v] == s.tables.users[v])
    && (forall v :: v != s.tasks[c].owner ==> ShareOf(s', v) == ShareOf(s, v))
  }

  /** The other tasks of the same user can live with what has become of the share and of `c`. */
  ghost predicate SiblingsOk(s: System, s': System, c: ConnId)
    requires c in s.tasks && c in s'.tasks
  {
    forall d :: d in s.tasks && d != c && s.tasks[d].owner == s.tasks[c].owner ==>
      && FrameOk(s', s.tasks[c].owner, Carried(s.tasks[d].phase))
      && Compatible(s'.tasks[c].phase, s.tasks[d].phase)
  }

  lemma OtherTasksKept(s: System, s': System, c: ConnId, d: ConnId)
    requires TasksOk(s) && LocalChange(s, s', c) && SiblingsOk(s, s', c) && d in s'.tasks && d != c
    ensures PhaseOk(s', d)
  {
    hide StatusOf, FitsShare;
    assert PhaseOk(s, d);
  }

  lemma OthersStayInformed(s: System, s': System, c: ConnId, u: UserId, v: UserId)
    requires Inv(s) && LocalChange(s, s', c) && u != s.tasks[c].owner && v in s'.tables.users && v != u
    ensures Informed(s', u, v)
  {
    hide StatusOf, PhaseOk, Bracketed, Agrees, Announcing;
    assert Informed(s, u, v);
    var t := s.tables.users[v].tx;
    if !Agrees(StatusOf(s.queues[t], u), ShareOf(s, u)) {
      var d :| IsToldBy(s, u, t, d);
      assert IsToldBy(s', u, t, d);
    }
  }

  lemma LocalChangeKeepsInv(s: System, s': System, c: ConnId)
    requires Inv(s) && LocalChange(s, s', c) && UsersOk(s') && SiblingsOk(s, s', c) && PhaseOk(s', c)
    requires forall v :: v in s'.tables.users && v != s.tasks[c].owner ==> Informed(s', s.tasks[c].owner, v)
    ensures Inv(s')
  {
    hide StatusOf, PhaseOk, Informed, Bracketed, UsersOk, Compatible, FrameOk;
    forall d | d in s'.tasks ensures PhaseOk(s', d) {
      if d != c { OtherTasksKept(s, s', c, d); }
    }
    assert forall d :: d in s'.tasks && d != c ==> s'.tasks[d] == s.tasks[d];
    CompatibleIsSymmetric();
    forall u, v | v in s'.tables.users && v != u ensures Informed(s', u, v) {
      if u != s.tasks[c].owner { OthersStayInformed(s, s', c, u, v); }
    }
  }

  lemma CompatibleIsSymmetric()
    ensures forall a, b :: Compatible(a, b) ==> Compatible(b, a)
  {
  }

  /** The task moves on, neither the share nor who is registered changes, and nobody who was about
      to be told is forgotten. */
  lemma MoveKeepsInv(s: System, s': System, c: ConnId)
    requires Inv(s) && LocalChange(s, s', c) && UsersOk(s') && PhaseOk(s', c)
    requires ShareOf(s', s.tasks[c].owner) == ShareOf(s, s.tasks[c].owner)
    requires IsAnnouncement(Carried(s'.tasks[c].phase)) ==> Carried(s'.tasks[c].phase) == Carried(s.tasks[c].phase)
    requires Carried(s'.tasks[c].phase).Frame? ==>
               Carried(s'.tasks[c].phase) == Carried(s.tasks[c].phase) || NothingAnnounced(s, c)
    requires forall v :: v in s'.tables.users && v != s.tasks[c].owner ==>
               Announcing(s.tasks[c].phase, s.tables.users[v].tx) ==>
                 Announcing(s'.tasks[c].phase, s.tables.users[v].tx)
    ensures Inv(s')
  {
    hide StatusOf, Bracketed, Agrees, Announcing, FitsShare, UsersOk;
    var u := s.tasks[c].owner;
    assert SiblingsOk(s, s', c) by { SiblingsKept(s, s', c); }
    forall v | v in s'.tables.users && v != u ensures Informed(s', u, v) {
      assert Informed(s, u, v);
      var t := s.tables.users[v].tx;
      if !Agrees(StatusOf(s.queues[t], u), ShareOf(s, u)) {
        var d :| IsToldBy(s, u, t, d);
        assert IsToldBy(s', u, t, d);
      }
    }
    LocalChangeKeepsInv(s, s', c);
  }

  lemma SiblingsKept(s: System, s': System, c: ConnId)
    requires TasksOk(s) && LocalChange(s, s', c)
    requires ShareOf(s', s.tasks[c].owner) == ShareOf(s, s.tasks[c].owner)
    requires IsAnnouncement(Carried(s'.tasks[c].phase)) ==> Carried(s'.tasks[c].phase) == Carried(s.tasks[c].phase)
    requires Carried(s'.tasks[c].phase).Frame? ==>
               Carried(s'.tasks[c].phase) == Carried(s.tasks[c].phase) || NothingAnnounced(s, c)
    ensures SiblingsOk(s, s', c)
  {
    hide StatusOf, FitsShare;
    forall d | d in s.tasks && d != c && s.tasks[d].owner == s.tasks[c].owner
      ensures FrameOk(s', s.tasks[c].owner, Carried(s.tasks[d].phase))
      ensures Compatible(s'.tasks[c].phase, s.tasks[d].phase)
    {
      assert PhaseOk(s, d) && Compatible(s.tasks[c].phase, s.tasks[d].phase);
    }
  }

  /** From idle to a task that sends nothing about the share. */
  lemma QuietMoveKeepsInv(s: System, s': System, c: ConnId)
    requires Inv(s) && LocalChange(s, s', c) && UsersOk(s') && IsIdle(s, c)
    requires ShareOf(s', s.tasks[c].owner) == ShareOf(s, s.tasks[c].owner)
    requires PhaseOk(s', c) && Carried(s'.tasks[c].phase).Other?
    ensures Inv(s')
  {
    hide Inv, LocalChange, UsersOk, PhaseOk;
    assert LocalChange(s, s', c);
    MoveKeepsInv(s, s', c);
  }

  lemma OthersAreOk(s: System, c: ConnId, audiences: seq<Audience>, closing: bool)
    requires c in s.tasks && s.tasks[c].phase == Settle(Others(audiences), closing)
    ensures PhaseOk(s, c) && Carried(s.tasks[c].phase).Other?
  {
  }

  /** Talking, joining and leaving a room, being turned down, losing the line. */
  lemma QuietStepKeepsInv(s: System, step: Step)
    requires Inv(s) && Enabled(s, step)
    requires step.Talk? || step.Join? || step.Leave? || step.BeginStart? || step.DropLine?
    ensures Inv(Apply(s, step))
  {
    hide Inv, StatusOf, Bracketed, FitsShare, CheckStart, NormalizeRequested, Without;
    var c, s' := step.c, Apply(s, step);
    var u := s.tasks[c].owner;
    assert UsersOk(s') by { InvHasUsers(s); StepKeepsUsers(s, step); }
    match step {
      case Talk(_, sends) => OthersAreOk(s', c, sends, false);
      case Join(_, _) => OthersAreOk(s', c, [Everyone], false);
      case Leave(_) =>
        OthersAreOk(s', c, if RoomsOf(s.tables.voiceRooms, u) == {} then [] else [Everyone], false);
      case BeginStart(_, request) =>
        if CheckStart(request).Err? { OthersAreOk(s', c, [OnlyTo(u)], false); }
      case DropLine(_) =>
    }
    if s' != s {
      QuietMoveKeepsInv(s, s', c);
    }
  }

  lemma InvHasUsers(s: System)
    requires Inv(s)
    ensures UsersOk(s)
  {
  }

  lemma HearFromKeepsInv(s: System, step: Step)
    requires Inv(s) && Enabled(s, step) && step.HearFrom?
    ensures Inv(Apply(s, step))
  {
    hide StatusOf, Bracketed, FitsShare, Announcing, Agrees;
    var s' := Apply(s, step);
    forall u | u in s'.tables.users ensures UserOk(s', u) { assert UserOk(s, u); }
    forall c | c in s'.tasks ensures PhaseOk(s', c) { assert PhaseOk(s, c); }
    forall u, v | v in s'.tables.users && v != u ensures Informed(s', u, v) {
      assert Informed(s, u, v);
      SameTellers(s, s', u, s.tables.users[v].tx);
    }
  }

  lemma SameTellers(s: System, s': System, u: UserId, t: ConnId)
    requires s'.tasks == s.tasks
    ensures forall d :: IsToldBy(s, u, t, d) <==> IsToldBy(s', u, t, d)
  {
  }

  lemma OfferFrameKeepsInv(s: System, step: Step)
    requires Inv(s) && Enabled(s, step) && NoOverlap(s, step) && step.OfferFrame?
    ensures Inv(Apply(s, step))
  {
    hide Inv, Admit, FitsShare, StatusOf, Bracketed, NothingAnnounced;
    var c, s' := step.c, Apply(s, step);
    var u := s.tasks[c].owner;
    AdmitIff(u, ShareOf(s, u), step.payload);
    assert UsersOk(s') by { InvHasUsers(s); StepKeepsUsers(s, step); }
    match Admit(u, ShareOf(s, u), step.payload)
    case Err(_) =>
      OthersAreOk(s', c, [OnlyTo(u)], false);
      QuietMoveKeepsInv(s, s', c);
    case Ok(frame) =>
      if u in s.tables.users {
        AdmittedKeepsInv(s, c, frame);
      }
  }

  lemma AdmittedKeepsInv(s: System, c: ConnId, f: ServerFrame)
    requires Inv(s) && IsIdle(s, c) && f.Frame? && FrameOk(s, s.tasks[c].owner, f) && NothingAnnounced(s, c)
    requires UsersOk(Go(s, c, Busy([Send(f, EveryoneBut(s.tasks[c].owner))], false)))
    ensures Inv(Go(s, c, Busy([Send(f, EveryoneBut(s.tasks[c].owner))], false)))
  {
    hide Inv, FitsShare, StatusOf, NothingAnnounced, UsersOk;
    MoveKeepsInv(s, Go(s, c, Busy([Send(f, EveryoneBut(s.tasks[c].owner))], false)), c);
  }

  lemma TakeTargetsKeepsInv(s: System, step: Step)
    requires Inv(s) && Enabled(s, step) && step.TakeTargets?
    ensures Inv(Apply(s, step))
  {
    hide StatusOf, FitsShare, Bracketed, TasksOk;
    var c, s' := step.c, Apply(s, step);
    var u, p := s.tasks[c].owner, s.tasks[c].phase;
    var send := p.pending[0];
    assert PhaseOk(s, c) by { TaskIsOk(s, c); }
    assert UsersOk(s') by { StepKeepsUsers(s, step); }
    forall t | t in TargetsOf(s.tables, send.audience)
      ensures t in s.queues && (send.frame.Frame? ==> MayFollow(send.frame, StatusOf(s.queues[t], u)))
    {
      var v :| v in s.tables.users && Admits(send.audience, v) && s.tables.users[v].tx == t;
      assert UserOk(s, v);
      if send.frame.Frame? {
        FrameMayFollow(s, c, v);
      }
    }
    MoveKeepsInv(s, s', c);
  }

  lemma TaskIsOk(s: System, c: ConnId)
    requires TasksOk(s) && c in s.tasks
    ensures PhaseOk(s, c)
  {
  }

  /** Nobody is about to hear anything else of a user that sends a frame. */
  lemma FrameMayFollow(s: System, c: ConnId, v: UserId)
    requires UsersOk(s) && TasksOk(s) && AllInformed(s) && c in s.tasks && Carried(s.tasks[c].phase).Frame?
    requires v in s.tables.users && v != s.tasks[c].owner
    ensures s.tables.users[v].tx in s.queues
    ensures MayFollow(Carried(s.tasks[c].phase), StatusOf(s.queues[s.tables.users[v].tx], s.tasks[c].owner))
  {
    hide StatusOf, FitsShare;
    var u, t := s.tasks[c].owner, s.tables.users[v].tx;
    assert PhaseOk(s, c) && Informed(s, u, v);
    forall d | d in s.tasks && d != c && s.tasks[d].owner == u ensures !IsAnnouncement(Carried(s.tasks[d].phase)) {
      assert Compatible(s.tasks[c].phase, s.tasks[d].phase);
    }
    assert forall d :: !IsToldBy(s, u, t, d);
  }

  lemma FinishSendKeepsInv(s: System, step: Step)
    requires Inv(s) && Enabled(s, step) && step.FinishSend?
    ensures Inv(Apply(s, step))
  {
    hide StatusOf, Bracketed, TasksOk, FitsShare;
    var c, s' := step.c, Apply(s, step);
    assert PhaseOk(s, c) by { TaskIsOk(s, c); }
    assert UsersOk(s') by { StepKeepsUsers(s, step); }
    MoveKeepsInv(s, s', c);
  }

  // ----- Steps that change the share -----

  /** The user's share changes, its other tasks are quiet, and everybody registered will be told. */
  lemma ShareChangeKeepsInv(s: System, s': System, c: ConnId)
    requires Inv(s) && LocalChange(s, s', c) && UsersOk(s') && OthersQuiet(s, c) && PhaseOk(s', c)
    requires s'.tasks[c].phase.Busy? && IsAnnouncement(Carried(s'.tasks[c].phase))
    ensures Inv(s')
  {
    hide StatusOf, Bracketed, FitsShare, Agrees, PhaseOk;
    var u := s.tasks[c].owner;
    forall v | v in s'.tables.users && v != u ensures Informed(s', u, v) {
      assert UserOk(s', v);
      assert IsToldBy(s', u, s'.tables.users[v].tx, c);
    }
    LocalChangeKeepsInv(s, s', c);
  }

  lemma CommitStartKeepsInv(s: System, step: Step)
    requires Inv(s) && Enabled(s, step) && NoOverlap(s, step) && step.CommitStart?
    ensures Inv(Apply(s, step))
  {
    hide Inv, StatusOf, Bracketed, FitsShare, OthersQuiet, UsersOk;
    assert UsersOk(Apply(s, step)) by { InvHasUsers(s); StepKeepsUsers(s, step); }
    ShareChangeKeepsInv(s, Apply(s, step), step.c);
  }

  lemma StopShareKeepsInv(s: System, step: Step)
    requires Inv(s) && Enabled(s, step) && NoOverlap(s, step) && step.StopShare?
    ensures Inv(Apply(s, step))
  {
    hide Inv, StatusOf, Bracketed, FitsShare, OthersQuiet, UsersOk;
    var c, s' := step.c, Apply(s, step);
    assert UsersOk(s') by { InvHasUsers(s); StepKeepsUsers(s, step); }
    if s.tasks[c].owner in s.tables.screenShares {
      ShareChangeKeepsInv(s, s', c);
    } else {
      QuietMoveKeepsInv(s, s', c);
    }
  }

  lemma HangUpKeepsInv(s: System, step: Step)
    requires Inv(s) && Enabled(s, step) && NoOverlap(s, step) && step.HangUp?
    ensures Inv(Apply(s, step))
  {
    hide Inv, StatusOf, Bracketed, FitsShare, OthersQuiet, UsersOk, Without;
    var c, s' := step.c, Apply(s, step);
    assert UsersOk(s') by { InvHasUsers(s); StepKeepsUsers(s, step); }
    HangUpPhase(s, step);
    if s.tasks[c].owner in s.tables.screenShares {
      ShareChangeKeepsInv(s, s', c);
    } else {
      QuietMoveKeepsInv(s, s', c);
    }
  }

  lemma HangUpPhase(s: System, step: Step)
    requires Enabled(s, step) && step.HangUp?
    ensures var s' := Apply(s, step);
            && step.c in s'.tasks && PhaseOk(s', step.c) && s'.tasks[step.c].phase.Busy?
            && Carried(s'.tasks[step.c].phase) ==
                 if s.tasks[step.c].owner in s.tables.screenShares then Stopped(s.tasks[step.c].owner) else Other
  {
    hide StatusOf;
    var stop := if s.tasks[step.c].owner in s.tables.screenShares then [Send(Stopped(s.tasks[step.c].owner), Everyone)]
                else [];
    assert AllOther((stop + Others([Everyone]))[1..]) && AllOther((stop + Others([Everyone, Everyone]))[1..]);
  }

  // ----- Connecting -----

  lemma ConnectKeepsInv(s: System, step: Step)
    requires Inv(s) && Enabled(s, step) && step.Connect?
    ensures Inv(Apply(s, step))
  {
    hide StatusOf, Bracketed, FitsShare, UsersOk, PhaseOk, Informed, Settle, Others, Compatible;
    var c, s' := step.c, Apply(s, step);
    assert UsersOk(s') by { StepKeepsUsers(s, step); }
    forall d | d in s'.tasks ensures PhaseOk(s', d) {
      ConnectKeepsPhase(s, step, d);
    }
    ConnectedTask(s, step);
    QuietIsCompatible(s'.tasks[c].phase);
    forall u, v | v in s'.tables.users && v != u ensures Informed(s', u, v) {
      ConnectKeepsInformed(s, step, u, v);
    }
    NothingOnNewQueue(step.owner);
  }

  lemma QuietIsCompatible(a: Phase)
    requires Carried(a).Other?
    ensures forall b :: Compatible(a, b) && Compatible(b, a)
  {
  }

  lemma ConnectKeepsPhase(s: System, step: Step, d: ConnId)
    requires UsersOk(s) && TasksOk(s) && Enabled(s, step) && step.Connect? && d in Apply(s, step).tasks
    ensures PhaseOk(Apply(s, step), d)
  {
    hide StatusOf, FitsShare;
    if d != step.c { assert PhaseOk(s, d); }
  }

  lemma ConnectKeepsInformed(s: System, step: Step, u: UserId, v: UserId)
    requires Inv(s) && Enabled(s, step) && step.Connect? && v in Apply(s, step).tables.users && v != u
    ensures Informed(Apply(s, step), u, v)
  {
    hide StatusOf, Bracketed, FitsShare, Announcing, Settle, Others, PhaseOk;
    var s' := Apply(s, step);
    if v == step.owner {
      NothingOnNewQueue(u);
    } else {
      assert Informed(s, u, v) && UserOk(s, v);
      var t := s.tables.users[v].tx;
      if !Agrees(StatusOf(s.queues[t], u), ShareOf(s, u)) {
        var d :| IsToldBy(s, u, t, d);
        assert IsToldBy(s', u, t, d);
      }
    }
  }

  // ----- Delivering -----

  lemma DeliverKeepsInv(s: System, step: Step)
    requires Inv(s) && Enabled(s, step) && step.Deliver?
    ensures Inv(Apply(s, step))
  {
    hide StatusOf, Bracketed, FitsShare, UsersOk, PhaseOk, Informed, TasksOk, Enabled, Apply;
    var s', t := Apply(s, step), step.target;
    assert UsersOk(s') by { StepKeepsUsers(s, step); }
    DeliverEffect(s, step);
    DeliverKeepsTasks(s, step);
    forall u, v | v in s'.tables.users && v != u ensures Informed(s', u, v) {
      DeliverKeepsInformed(s, step, u, v);
    }
    forall q | q in s'.queues ensures Bracketed(s'.queues[q]) {
      if q == t { DeliverKeepsBracketed(s, step); }
    }
  }

  lemma DeliverEffect(s: System, step: Step)
    requires Enabled(s, step) && step.Deliver?
    ensures var p, s' := s.tasks[step.c].phase, Apply(s, step);
            && step.c in s.tasks && p.Delivering? && step.target in p.targets && step.target in s.queues
            && s'.tables == s.tables
            && s'.queues == s.queues[step.target := s.queues[step.target] + [p.frame]]
            && s'.tasks == s.tasks[step.c := Task(s.tasks[step.c].owner, p.(targets := p.targets - {step.target}))]
  {
  }

  lemma DeliverKeepsBracketed(s: System, step: Step)
    requires TasksOk(s) && AllBracketed(s) && Enabled(s, step) && step.Deliver?
    ensures Bracketed(Apply(s, step).queues[step.target])
  {
    hide StatusOf, Bracketed, FitsShare;
    assert PhaseOk(s, step.c);
    StatusAfter(s.queues[step.target], s.tasks[step.c].phase.frame, s.tasks[step.c].owner);
  }

  lemma DeliverKeepsTasks(s: System, step: Step)
    requires UsersOk(s) && TasksOk(s) && Enabled(s, step) && step.Deliver?
    ensures TasksOk(Apply(s, step))
  {
    hide StatusOf, FitsShare, PhaseOk, Compatible, Apply, Enabled, UsersOk;
    var s' := Apply(s, step);
    DeliverEffect(s, step);
    forall d | d in s'.tasks ensures PhaseOk(s', d) {
      if d == step.c { DeliverKeepsOwnPhase(s, step); } else { DeliverKeepsOtherPhase(s, step, d); }
    }
    SameCarriedSameCompatible(s.tasks[step.c].phase, s'.tasks[step.c].phase);
  }

  lemma TasksAreOk(s: System, c: ConnId, d: ConnId)
    requires TasksOk(s) && c in s.tasks && d in s.tasks && c != d
    ensures PhaseOk(s, c) && PhaseOk(s, d)
    ensures s.tasks[c].owner == s.tasks[d].owner ==> Compatible(s.tasks[c].phase, s.tasks[d].phase)
  {
  }

  lemma SameCarriedSameCompatible(a: Phase, a': Phase)
    requires Carried(a) == Carried(a')
    ensures forall b :: (Compatible(a, b) <==> Compatible(a', b)) && (Compatible(b, a) <==> Compatible(b, a'))
  {
  }

  lemma DeliverKeepsOwnPhase(s: System, step: Step)
    requires UsersOk(s) && Enabled(s, step) && step.Deliver? && PhaseOk(s, step.c)
    ensures PhaseOk(Apply(s, step), step.c)
  {
    hide StatusOf, FitsShare;
    assert Apply(s, step).queues.Keys == s.queues.Keys;
  }

  /** Another task's frame may still follow: what is put on the queue is from another user, or is
      a frame as well. */
  lemma DeliverKeepsOtherPhase(s: System, step: Step, d: ConnId)
    requires UsersOk(s) && TasksOk(s) && Enabled(s, step) && step.Deliver? && d in s.tasks && d != step.c
    ensures PhaseOk(Apply(s, step), d)
  {
    hide StatusOf, FitsShare, UsersOk, TasksOk, Apply;
    var c, t := step.c, step.target;
    DeliverEffect(s, step);
    TasksAreOk(s, c, d);
    StatusAfter(s.queues[t], s.tasks[c].phase.frame, s.tasks[d].owner);
  }

  lemma DeliverKeepsInformed(s: System, step: Step, u: UserId, v: UserId)
    requires UsersOk(s) && TasksOk(s) && AllInformed(s) && Enabled(s, step) && step.Deliver?
    requires v in s.tables.users && v != u
    ensures v in Apply(s, step).tables.users && Informed(Apply(s, step), u, v)
  {
    hide StatusOf, Bracketed, FitsShare, Apply, UsersOk;
    var c, s' := step.c, Apply(s, step);
    var t := s.tables.users[v].tx;
    var f := s.tasks[c].phase.frame;
    DeliverEffect(s, step);
    assert Informed(s, u, v) && PhaseOk(s, c);
    StatusAfter(s.queues[step.target], f, u);
    if t == step.target && IsAnnouncement(f) && f.user == u {
      assert Agrees(StatusOf(s'.queues[t], u), ShareOf(s', u));
    } else if !Agrees(StatusOf(s.queues[t], u), ShareOf(s, u)) {
      var d :| IsToldBy(s, u, t, d);
      assert IsToldBy(s', u, t, d);
    }
  }

  // ----- Every step -----

  lemma StepKeepsInv(s: System, step: Step)
    requires Inv(s) && Enabled(s, step) && NoOverlap(s, step)
    ensures Inv(Apply(s, step))
  {
    hide Inv, Apply, Enabled, NoOverlap;
    match step
    case Connect(_, _, _, _, _) => ConnectKeepsInv(s, step);
    case CommitStart(_) => CommitStartKeepsInv(s, step);
    case StopShare(_) => StopShareKeepsInv(s, step);
    case OfferFrame(_, _) => OfferFrameKeepsInv(s, step);
    case TakeTargets(_) => TakeTargetsKeepsInv(s, step);
    case Deliver(_, _) => DeliverKeepsInv(s, step);
    case FinishSend(_) => FinishSendKeepsInv(s, step);
    case HangUp(_) => HangUpKeepsInv(s, step);
    case HearFrom(_, _) => HearFromKeepsInv(s, step);
    case _ => QuietStepKeepsInv(s, step);
  }
}
