/** What holds of the server's tables and queues in every reachable state. */
module ServerRuns {
  import opened Prelude
  import opened ServerTables
  import opened ScreenShare
  import opened ServerSystem
  import opened ServerInvariant

  // ----- The tables in all runs -----

  /** The critical section a step goes through, if it changes the tables. */
  function CriticalSection(s: System, step: Step): seq<TableOp>
    requires Enabled(s, step)
  {
    match step
    case Connect(c, owner, name, isAdmin, _) => [RegisterOp(owner, UserConnection(name, isAdmin, c))]
    case Join(c, room) => [JoinOp(s.tasks[c].owner, room)]
    case Leave(c) => [LeaveOp(s.tasks[c].owner)]
    case CommitStart(c) => [InsertShareOp(s.tasks[c].owner, s.tasks[c].phase.info)]
    case StopShare(c) => [RemoveShareOp(s.tasks[c].owner)]
    case HangUp(c) => [DisconnectOp(s.tasks[c].owner)]
    case HearFrom(u, a) => [RememberOp(u, a)]
    case _ => []
  }

  function CriticalSections(steps: seq<Step>): seq<TableOp>
    requires EnabledRun(steps)
    decreases |steps|
  {
    if steps == [] then []
    else CriticalSections(Init(steps)) + CriticalSection(After(Init(steps)), Last(steps))
  }

  /** However the tasks are interleaved, the tables are what the critical sections make of them
      in the order they were entered, and so what an `InnerState` with that history holds. */
  lemma {:induction false} TablesAreSerial(steps: seq<Step>)
    requires EnabledRun(steps)
    ensures After(steps).tables == DoAll(CriticalSections(steps))
    decreases |steps|
  {
    if steps == [] {
      assert DoAll([]) == EMPTY;
    } else {
      TablesAreSerial(Init(steps));
      StepIsCriticalSection(After(Init(steps)), Last(steps));
      var before, more := CriticalSections(Init(steps)), CriticalSection(After(Init(steps)), Last(steps));
      if more == [] {
        assert before + more == before;
      } else {
        DoAllAppend(before, more[0]);
      }
    }
  }

  lemma StepIsCriticalSection(s: System, step: Step)
    requires Enabled(s, step)
    ensures var more := CriticalSection(s, step);
            && |more| <= 1
            && Apply(s, step).tables == if more == [] then s.tables else Do(s.tables, more[0])
  {
    hide CheckStart, Admit, NormalizeRequested, Settle, Others;
  }

  /** In every reachable state each user is in at most one voice room, however many connections
      it has open. */
  lemma {:induction false} ReachableRooms(steps: seq<Step>)
    requires EnabledRun(steps)
    ensures OneRoomEach(After(steps).tables.voiceRooms)
  {
    TablesAreSerial(steps);
    OneRoomAlways(CriticalSections(steps));
  }

  /** Everybody in a room or sharing is registered. */
  ghost predicate AllRegistered(t: Tables) {
    && (forall r, u :: r in t.voiceRooms && u in t.voiceRooms[r] ==> u in t.users)
    && (forall u :: u in t.screenShares ==> u in t.users)
  }

  /** A step that enters a room or a share is taken for a registered user. */
  predicate EntersRegistered(s: System, step: Step)
    requires Enabled(s, step)
  {
    step.Join? || step.CommitStart? ==> s.tasks[step.c].owner in s.tables.users
  }

  /** Exactly when a step keeps members and sharers registered. */
  lemma StepKeepsRegisteredIff(s: System, step: Step)
    requires Enabled(s, step) && AllRegistered(s.tables)
    ensures AllRegistered(Apply(s, step).tables) <==> EntersRegistered(s, step)
  {
    hide CheckStart, Admit, NormalizeRequested, Settle, Others;
    if step.Join? {
      assert s.tasks[step.c].owner in Apply(s, step).tables.voiceRooms[step.room];
    } else if step.CommitStart? {
      assert s.tasks[step.c].owner in Apply(s, step).tables.screenShares;
    }
  }

  ghost predicate RegisteredThroughout(steps: seq<Step>)
    requires EnabledRun(steps)
    decreases |steps|
  {
    AllRegistered(After(steps).tables) && (steps == [] || RegisteredThroughout(Init(steps)))
  }

  predicate AlwaysEntersRegistered(steps: seq<Step>)
    requires EnabledRun(steps)
    decreases |steps|
  {
    steps == [] || (AlwaysEntersRegistered(Init(steps)) && EntersRegistered(After(Init(steps)), Last(steps)))
  }

  /** Members and sharers are registered at every moment of a run, with any number of connections
      per user, if and only if nobody ever enters a room or a share while unregistered. */
  lemma {:induction false} RegisteredThroughoutIff(steps: seq<Step>)
    requires EnabledRun(steps)
    ensures RegisteredThroughout(steps) <==> AlwaysEntersRegistered(steps)
    decreases |steps|
  {
    hide Apply, Enabled, AllRegistered, EntersRegistered;
    if steps == [] {
      assert AllRegistered(START.tables) by { StartIsRegistered(); }
    } else {
      RegisteredThroughoutIff(Init(steps));
      if RegisteredThroughout(Init(steps)) {
        StepKeepsRegisteredIff(After(Init(steps)), Last(steps));
      }
    }
  }

  lemma StartIsRegistered()
    ensures AllRegistered(START.tables)
  {
  }

  /** In every reachable state every connection has its queue, and every user is registered with a
      connection of its own that has not begun to hang up. */
  lemma {:induction false} RunKeepsUsers(steps: seq<Step>)
    requires EnabledRun(steps)
    ensures UsersOk(After(steps))
    decreases |steps|
  {
    hide Apply, Enabled, UsersOk;
    if steps == [] {
      assert UsersOk(START) by { StartIsSound(); }
    } else {
      RunKeepsUsers(Init(steps));
      StepKeepsUsers(After(Init(steps)), Last(steps));
    }
  }

  lemma RunAppend(steps: seq<Step>, step: Step)
    requires EnabledRun(steps) && Enabled(After(steps), step)
    ensures EnabledRun(steps + [step]) && After(steps + [step]) == Apply(After(steps), step)
  {
    assert Init(steps + [step]) == steps && Last(steps + [step]) == step;
  }

  // ----- Shares in all runs -----

  /** What the run says `u` shares: its latest accepted start, unless it has stopped or hung up
      since. */
  function LatestStart(steps: seq<Step>, u: UserId): Option<ScreenShareInfo>
    requires EnabledRun(steps)
    decreases |steps|
  {
    if steps == [] then None
    else
      var s, step := After(Init(steps)), Last(steps);
      if step.CommitStart? && s.tasks[step.c].owner == u then Some(s.tasks[step.c].phase.info)
      else if (step.StopShare? || step.HangUp?) && s.tasks[step.c].owner == u then None
      else LatestStart(Init(steps), u)
  }

  lemma {:induction false} ShareIsLatestStart(steps: seq<Step>, u: UserId)
    requires EnabledRun(steps)
    ensures ShareOf(After(steps), u) == LatestStart(steps, u)
    decreases |steps|
  {
    hide Apply, ShareOf;
    if steps == [] {
      NothingShared(u);
    } else {
      ShareIsLatestStart(Init(steps), u);
      StepChangesShare(After(Init(steps)), Last(steps), u);
    }
  }

  lemma NothingShared(u: UserId)
    ensures ShareOf(START, u) == None
  {
  }

  lemma StepChangesShare(s: System, step: Step, u: UserId)
    requires Enabled(s, step)
    ensures ShareOf(Apply(s, step), u) ==
              if step.CommitStart? && s.tasks[step.c].owner == u then Some(s.tasks[step.c].phase.info)
              else if (step.StopShare? || step.HangUp?) && s.tasks[step.c].owner == u then None
              else ShareOf(s, u)
  {
    hide Apply;
    StepIsCriticalSection(s, step);
  }

  // ----- Lost connections, in all runs -----

  /** A connection that is lost leaves every table as it was, so its user stays registered, in its
      room and sharing if it was. */
  lemma DropLineLeavesUser(s: System, c: ConnId)
    requires IsIdle(s, c)
    ensures var s' := Apply(s, DropLine(c));
            s'.tables == s.tables && s'.tasks[c].phase.Closed?
    ensures OneConnectionEach(s) ==>
              s.tasks[c].owner in s.tables.users && s.tables.users[s.tasks[c].owner].tx == c
  {
    if OneConnectionEach(s) { assert ConnectionOk(s, c); }
  }

  /** In every reachable state the connection a user is registered with has ended if and only if
      it was lost; one that hung up is nobody's. */
  lemma {:induction false} EndedIffLost(steps: seq<Step>, u: UserId)
    requires EnabledRun(steps) && u in After(steps).tables.users
    ensures var s, c := After(steps), After(steps).tables.users[u].tx;
            c in s.tasks && (s.tasks[c].phase.Closed? <==> DropLine(c) in steps)
    decreases |steps|
  {
    hide UsersOk, Apply, Enabled;
    if steps == [] {
      assert false;
    } else {
      var before, step := Init(steps), Last(steps);
      var s, s' := After(before), After(steps);
      var c := s'.tables.users[u].tx;
      RunKeepsUsers(before);
      assert forall x :: x in steps <==> x in before || x == step by { assert steps == before + [step]; }
      StepEnds(s, step, u);
      if step.Connect? && step.owner == u {
        if DropLine(c) in before { LostIsEnded(before, c); }
      } else {
        EndedIffLost(before, u);
      }
    }
  }

  lemma {:induction false} LostIsEnded(steps: seq<Step>, c: ConnId)
    requires EnabledRun(steps) && DropLine(c) in steps
    ensures c in After(steps).tasks
    decreases |steps|
  {
    hide Apply;
    if Last(steps) == DropLine(c) {
      StepTask(After(Init(steps)), Last(steps), c);
    } else {
      LostIsEnded(Init(steps), c);
      StepTask(After(Init(steps)), Last(steps), c);
    }
  }

  /** How one step can change the connection a user is registered with. */
  lemma StepEnds(s: System, step: Step, u: UserId)
    requires UsersOk(s) && Enabled(s, step) && u in Apply(s, step).tables.users
    ensures var s' := Apply(s, step);
            var c := s'.tables.users[u].tx;
            && c in s'.tasks
            && (if step.Connect? && step.owner == u then c !in s.tasks && !s'.tasks[c].phase.Closed?
                else && u in s.tables.users && s.tables.users[u].tx == c && c in s.tasks
                     && (s'.tasks[c].phase.Closed? <==> s.tasks[c].phase.Closed? || step == DropLine(c)))
  {
    hide Apply;
    StepUsers(s, step);
    if u in s.tables.users {
      assert UserOk(s, u);
      StepTask(s, step, s.tables.users[u].tx);
    }
    if step.Connect? {
      ConnectedTask(s, step);
    }
  }

  // ----- Queues, while share operations of one user do not overlap -----

  lemma {:induction false} RunKeepsInv(steps: seq<Step>, n: nat)
    requires EnabledRun(steps) && n <= |steps| && NoOverlapSince(steps, n)
    requires EnabledRun(steps[..n]) && Inv(After(steps[..n]))
    ensures Inv(After(steps))
    decreases |steps|
  {
    hide Inv, Apply, Enabled, NoOverlap;
    if |steps| == n {
      assert steps[..n] == steps;
    } else {
      assert Init(steps)[..n] == steps[..n];
      RunKeepsInv(Init(steps), n);
      StepKeepsInv(After(Init(steps)), Last(steps));
    }
  }

  /** In every reachable state queues, tasks and the table of active shares agree. */
  lemma ReachableInv(steps: seq<Step>)
    requires EnabledRun(steps) && NoOverlapRun(steps)
    ensures Inv(After(steps))
  {
    hide Inv, NoOverlapSince;
    assert steps[..0] == [] && After([]) == START;
    StartIsSound();
    RunKeepsInv(steps, 0);
  }

  /** Step `n` puts frame `f` at position `j` of the queue of `c`, when its sender's latest
      accepted start is still in force and `f` fits it. */
  ghost predicate RelaysFitting(steps: seq<Step>, n: nat, c: ConnId, j: nat, f: ServerFrame)
    requires f.Frame?
  {
    && n < |steps| && EnabledRun(steps[..n]) && Enabled(After(steps[..n]), steps[n])
    && steps[n].Deliver? && steps[n].target == c
    && |After(steps[..n]).queues[c]| == j
    && After(steps[..n]).tasks[steps[n].c].phase.frame == f
    && LatestStart(steps[..n], f.user).Some?
    && FitsShare(f, LatestStart(steps[..n], f.user).value)
  }

  /** Every frame on every queue of every such state, whether or not the queue holds a start of its
      sender, was put there while its sender shared, and fits the latest accepted start. */
  lemma {:induction false} QueuedFramesFitLatestStart(steps: seq<Step>, c: ConnId, j: nat)
    requires EnabledRun(steps) && NoOverlapRun(steps)
    requires c in After(steps).queues && j < |After(steps).queues[c]| && After(steps).queues[c][j].Frame?
    ensures exists n: nat :: RelaysFitting(steps, n, c, j, After(steps).queues[c][j])
    decreases |steps|
  {
    hide Inv, FitsShare, LatestStart, NoOverlap, Apply, Enabled;
    var f := After(steps).queues[c][j];
    assert steps != [] by { NothingQueued(); }
    var before, step := Init(steps), Last(steps);
    var s := After(before);
    ReachableInv(before);
    QueueGrowth(s, step, c);
    if c in s.queues && j < |s.queues[c]| {
      QueuedFramesFitLatestStart(before, c, j);
      var n: nat :| RelaysFitting(before, n, c, j, f);
      assert before[..n] == steps[..n];
      assert RelaysFitting(steps, n, c, j, f);
    } else {
      DeliveredFrameFits(s, step);
      ShareIsLatestStart(before, f.user);
      assert steps[..|steps| - 1] == before;
      assert RelaysFitting(steps, |steps| - 1, c, j, f);
    }
  }

  lemma NothingQueued()
    ensures After([]).queues == map[]
  {
  }

  /** Queues only grow, and only by deliveries. */
  lemma QueueGrowth(s: System, step: Step, c: ConnId)
    requires Inv(s) && Enabled(s, step) && c in Apply(s, step).queues
    ensures var q := Apply(s, step).queues[c];
            if c !in s.queues then q == []
            else q == s.queues[c] || (&& step.Deliver? && step.target == c
                                      && q == s.queues[c] + [s.tasks[step.c].phase.frame])
  {
    hide Apply, TasksOk, AllInformed, AllBracketed;
    StepKeys(s, step);
  }

  lemma DeliveredFrameFits(s: System, step: Step)
    requires Inv(s) && Enabled(s, step) && step.Deliver? && s.tasks[step.c].phase.frame.Frame?
    ensures var f := s.tasks[step.c].phase.frame;
            ShareOf(s, f.user).Some? && FitsShare(f, ShareOf(s, f.user).value)
  {
    assert PhaseOk(s, step.c);
  }

  /** In every such state and on every queue, no frame of `u` comes after a stop of `u` without a
      start in between, and every frame fits the last start seen before it. */
  lemma ReachableQueues(steps: seq<Step>, c: ConnId, j: nat)
    requires EnabledRun(steps) && NoOverlapRun(steps)
    requires c in After(steps).queues && j < |After(steps).queues[c]| && After(steps).queues[c][j].Frame?
    ensures var q := After(steps).queues[c];
            var u := q[j].user;
            && (forall i :: 0 <= i < j && q[i] == Stopped(u) ==>
                  exists k :: i < k < j && q[k].Started? && q[k].user == u)
            && (forall k :: 0 <= k < j && q[k].Started? && q[k].user == u
                            && (forall m :: k < m < j ==> !(q[m].Started? && q[m].user == u)) ==>
                  FitsShare(q[j], q[k].info))
  {
    hide EnabledRun, After, NoOverlapRun, FitsShare;
    assert Inv(After(steps)) by { ReachableInv(steps); }
    var q := After(steps).queues[c];
    BracketedAt(q, j);
    StatusMeaning(q[..j], q[j].user);
  }

  lemma {:induction false} BracketedAt(q: seq<ServerFrame>, j: nat)
    requires Bracketed(q) && j < |q| && q[j].Frame?
    ensures MayFollow(q[j], StatusOf(q[..j], q[j].user))
  {
    var n := |q| - 1;
    if j == n {
    } else {
      BracketedAt(q[..n], j);
      assert q[..n][..j] == q[..j];
    }
  }

  /** `StatusOf` in terms of positions: unseen means no announcement, ended means a stop with no
      start after it, live means a start with no stop after it. */
  lemma {:induction false} StatusMeaning(q: seq<ServerFrame>, u: UserId)
    ensures match StatusOf(q, u)
            case Unseen => forall i :: 0 <= i < |q| && !q[i].Other? && !q[i].Frame? ==> q[i].user != u
            case Ended => exists i :: 0 <= i < |q| && q[i] == Stopped(u)
                            && forall k :: i < k < |q| ==> !(q[k].Started? && q[k].user == u)
            case Live(info) => exists i :: 0 <= i < |q| && q[i].Started? && q[i].user == u && q[i].info == info
                                 && (forall k :: i < k < |q| ==>
                                       q[k] != Stopped(u) && !(q[k].Started? && q[k].user == u))
  {
    if q == [] {
    } else {
      var n := |q| - 1;
      StatusMeaning(q[..n], u);
      if q[n] == Stopped(u) {
        assert StatusOf(q, u) == Ended;
      } else if !(q[n].Started? && q[n].user == u) {
        assert StatusOf(q, u) == StatusOf(q[..n], u);
        if StatusOf(q, u).Ended? {
          var i :| 0 <= i < n && q[..n][i] == Stopped(u)
                   && forall k :: i < k < n ==> !(q[..n][k].Started? && q[..n][k].user == u);
          assert q[i] == Stopped(u);
          assert forall k :: i < k < n ==> q[..n][k] == q[k];
        }
      }
    }
  }

  /** None of the user's tasks has anything left to send about its share. */
  predicate AtRest(s: System, u: UserId) {
    forall d :: d in s.tasks && s.tasks[d].owner == u ==> Carried(s.tasks[d].phase).Other?
  }

  predicate IsLastAnnouncement(q: seq<ServerFrame>, u: UserId, i: nat) {
    && i < |q| && IsAnnouncement(q[i]) && q[i].user == u
    && forall k :: i < k < |q| ==> !(IsAnnouncement(q[k]) && q[k].user == u)
  }

  lemma {:induction false} LastAnnouncementIsStatus(q: seq<ServerFrame>, u: UserId, i: nat)
    requires IsLastAnnouncement(q, u, i)
    ensures StatusOf(q, u) == if q[i].Started? then Live(q[i].info) else Ended
  {
    var n := |q| - 1;
    if i == n {
    } else {
      assert q[..n][i] == q[i];
      LastAnnouncementIsStatus(q[..n], u, i);
    }
  }

  /** Once everything about a user's share has been sent, the last announcement on the queue of
      every other registered user is the truth: a start with exactly what the user shares, or a
      stop if it shares nothing. No stopped share lives on, and none that runs is thought over. */
  lemma AnnouncementsAreTrueAtRest(steps: seq<Step>, u: UserId, v: UserId, i: nat)
    requires EnabledRun(steps) && NoOverlapRun(steps)
    requires AtRest(After(steps), u) && v in After(steps).tables.users && v != u
    ensures var s := After(steps);
            var t := s.tables.users[v].tx;
            && t in s.queues
            && (IsLastAnnouncement(s.queues[t], u, i) ==>
                  LatestStart(steps, u) == if s.queues[t][i].Started? then Some(s.queues[t][i].info) else None)
  {
    hide EnabledRun, After, NoOverlapRun, LatestStart, IsLastAnnouncement, StatusOf;
    var s := After(steps);
    assert Inv(s) by { ReachableInv(steps); }
    ShareIsLatestStart(steps, u);
    assert Informed(s, u, v);
    var t := s.tables.users[v].tx;
    assert forall d :: !IsToldBy(s, u, t, d);
    if IsLastAnnouncement(s.queues[t], u, i) {
      LastAnnouncementIsStatus(s.queues[t], u, i);
    }
  }

  // ----- Runs with one connection per user -----

  /** An open connection is its user's only one, and the registered one until it hangs up. */
  ghost predicate ConnectionOk(s: System, c: ConnId)
    requires c in s.tasks
  {
    var u := s.tasks[c].owner;
    && (!s.tasks[c].phase.Closed? && !IsClosing(s.tasks[c].phase) ==>
          u in s.tables.users && s.tables.users[u].tx == c)
    && (!s.tasks[c].phase.Closed? ==>
          forall d :: d in s.tasks && s.tasks[d].owner == u && !s.tasks[d].phase.Closed? ==> d == c)
  }

  ghost predicate OneConnectionEach(s: System) {
    forall c :: c in s.tasks ==> ConnectionOk(s, c)
  }

  lemma StepKeepsOneConnection(s: System, step: Step)
    requires UsersOk(s) && OneConnectionEach(s) && Enabled(s, step) && Alone(s, step)
    ensures OneConnectionEach(Apply(s, step))
  {
    hide Apply, UsersOk;
    var s' := Apply(s, step);
    assert s.queues.Keys == s.tasks.Keys by { UsersAreKeyed(s); }
    StepKeys(s, step);
    StepUsers(s, step);
    if step.Connect? { ConnectedTask(s, step); }
    forall d | d in s.tasks
      ensures d in s'.tasks && s'.tasks[d].owner == s.tasks[d].owner
      ensures s.tasks[d].phase.Closed? ==> s'.tasks[d].phase.Closed?
    {
      StepTask(s, step, d);
    }
    forall c | c in s'.tasks ensures ConnectionOk(s', c) {
      if c in s.tasks {
        StepTask(s, step, c);
        assert ConnectionOk(s, c);
      }
    }
  }

  lemma UsersAreKeyed(s: System)
    requires UsersOk(s)
    ensures s.queues.Keys == s.tasks.Keys
  {
  }

  /** With one open connection per user nothing overlaps, and nobody enters unregistered. */
  lemma {:induction false} AloneRunsDoNotOverlap(steps: seq<Step>)
    requires EnabledRun(steps) && AloneRun(steps)
    ensures OneConnectionEach(After(steps)) && NoOverlapRun(steps) && AlwaysEntersRegistered(steps)
    decreases |steps|
  {
    hide Apply, Enabled, Alone, OneConnectionEach, NoOverlap, EntersRegistered;
    if steps == [] {
      NobodyConnected();
    } else {
      var s, step := After(Init(steps)), Last(steps);
      AloneRunsDoNotOverlap(Init(steps));
      RunKeepsUsers(Init(steps));
      AloneStepDoesNotOverlap(s, step);
      StepKeepsOneConnection(s, step);
    }
  }

  lemma NobodyConnected()
    ensures OneConnectionEach(START)
  {
  }

  lemma AloneStepDoesNotOverlap(s: System, step: Step)
    requires OneConnectionEach(s) && Enabled(s, step)
    ensures NoOverlap(s, step) && EntersRegistered(s, step)
  {
    if step.CommitStart? || step.StopShare? || step.HangUp? || step.OfferFrame? || step.Join? {
      assert ConnectionOk(s, step.c);
    }
  }

  /** While nobody has two open connections, every member of a room and every sharer is registered
      in every reachable state, and each user is in at most one room. */
  lemma ReachableTables(steps: seq<Step>)
    requires EnabledRun(steps) && AloneRun(steps)
    ensures OneRoomEach(After(steps).tables.voiceRooms) && AllRegistered(After(steps).tables)
  {
    hide AlwaysEntersRegistered, AllRegistered, NoOverlapRun, OneConnectionEach;
    ReachableRooms(steps);
    AloneRunsDoNotOverlap(steps);
    RegisteredThroughoutIff(steps);
  }
}
