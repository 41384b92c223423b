/** Two runs of the server in which a user logs in twice, and which break what holds while nobody
    does. */
module SecondLogins {
  import opened Prelude
  import opened ServerTables
  import opened ScreenShare
  import opened ServerSystem
  import opened ServerRuns

  // ----- A member that is not registered -----

  /** The steps of two logins of one user, of which the first hangs up. */
  function TwoLogins(u: UserId, name: string): seq<Step> {
    [Connect(0, u, name, false, []), Connect(1, u, name, false, []), HangUp(0)]
  }

  lemma TwoLoginsState(u: UserId, name: string)
    ensures EnabledRun(TwoLogins(u, name))
    ensures var s := After(TwoLogins(u, name));
            1 in s.tasks && s.tasks[1] == Task(u, Idle) && u !in s.tables.users
  {
    var first, second := Connect(0, u, name, false, []), Connect(1, u, name, false, []);
    assert EnabledRun([]) && After([]) == START;
    RunAppend([], first);
    assert [] + [first] == [first];
    RunAppend([first], second);
    assert [first] + [second] == [first, second];
    RunAppend([first, second], HangUp(0));
    assert [first, second] + [HangUp(0)] == TwoLogins(u, name);
  }

  /** A user that logs in twice can enter a room unregistered: it hangs up one connection and
      joins on the other. */
  lemma SecondConnectionBreaksTables(u: UserId, name: string, room: RoomId)
    ensures var steps := TwoLogins(u, name) + [Join(1, room)];
            && EnabledRun(steps)
            && var t := After(steps).tables;
               room in t.voiceRooms && u in t.voiceRooms[room] && u !in t.users
  {
    TwoLoginsState(u, name);
    RunAppend(TwoLogins(u, name), Join(1, room));
  }

  // ----- A frame after the stop -----

  /** `u` has connections 1 and 2, where `p1` and `p2` stand; what it sends to others goes to the
      queue `q` of connection 0 alone. */
  ghost predicate Scene(s: System, u: UserId, share: Option<ScreenShareInfo>, p1: Phase, p2: Phase,
                        q: seq<ServerFrame>)
  {
    && 1 in s.tasks && s.tasks[1] == Task(u, p1)
    && 2 in s.tasks && s.tasks[2] == Task(u, p2)
    && u in s.tables.users && TargetsOf(s.tables, EveryoneBut(u)) == {0}
    && ShareOf(s, u) == share
    && 0 in s.queues && s.queues[0] == q
  }

  /** The run leads to the scene. */
  ghost predicate Plays(steps: seq<Step>, u: UserId, share: Option<ScreenShareInfo>, p1: Phase, p2: Phase,
                        q: seq<ServerFrame>)
  {
    EnabledRun(steps) && Scene(After(steps), u, share, p1, p2, q)
  }

  lemma ThreeConnects(u: UserId, v: UserId) returns (steps: seq<Step>)
    requires u != v
    ensures Plays(steps, u, None, Idle, Idle, [])
  {
    var first, second := Connect(0, v, "", false, []), Connect(1, u, "", false, []);
    var third := Connect(2, u, "", false, []);
    assert EnabledRun([]) && After([]) == START;
    RunAppend([], first);
    RunAppend([] + [first], second);
    RunAppend([] + [first] + [second], third);
    steps := [] + [first] + [second] + [third];
    var t := After(steps).tables;
    assert t.users.Keys == {u, v} && Admits(EveryoneBut(u), v) && t.users[v].tx == 0;
  }

  /** Playing one more step, whose effect on the scene is known. */
  lemma Play(steps: seq<Step>, step: Step, u: UserId, share: Option<ScreenShareInfo>, p1: Phase, p2: Phase,
             q: seq<ServerFrame>) returns (more: seq<Step>)
    requires EnabledRun(steps) && Enabled(After(steps), step)
    requires Scene(Apply(After(steps), step), u, share, p1, p2, q)
    ensures Plays(more, u, share, p1, p2, q)
  {
    hide Apply, Enabled, Scene;
    RunAppend(steps, step);
    more := steps + [step];
  }

  /** What connection `c` of `u` does to the scene by one step on its way to send a frame. */
  lemma TakeMove(s: System, c: ConnId, u: UserId, share: Option<ScreenShareInfo>, f: ServerFrame, p: Phase,
                 q: seq<ServerFrame>)
    requires (c == 1 || c == 2) && SceneOf(s, c, u, share, Busy([Send(f, EveryoneBut(u))], false), p, q)
    ensures Enabled(s, TakeTargets(c))
    ensures SceneOf(Apply(s, TakeTargets(c)), c, u, share, Delivering(f, {0}, [], false), p, q)
  {
    assert [Send(f, EveryoneBut(u))][1..] == [];
  }

  lemma DeliverMove(s: System, c: ConnId, u: UserId, share: Option<ScreenShareInfo>, f: ServerFrame, p: Phase,
                    q: seq<ServerFrame>)
    requires (c == 1 || c == 2) && SceneOf(s, c, u, share, Delivering(f, {0}, [], false), p, q)
    ensures Enabled(s, Deliver(c, 0))
    ensures SceneOf(Apply(s, Deliver(c, 0)), c, u, share, Delivering(f, {}, [], false), p, q + [f])
  {
    var told: set<ConnId> := {0};
    assert told - {0} == {};
  }

  lemma FinishMove(s: System, u: UserId, share: Option<ScreenShareInfo>, f: ServerFrame, p: Phase, q: seq<ServerFrame>)
    requires Scene(s, u, share, Delivering(f, {}, [], false), p, q)
    ensures Enabled(s, FinishSend(1)) && Scene(Apply(s, FinishSend(1)), u, share, Idle, p, q)
  {
  }

  /** The scene with `mine` on connection `c` and `other` on the other one. */
  ghost predicate SceneOf(s: System, c: ConnId, u: UserId, share: Option<ScreenShareInfo>, mine: Phase, other: Phase,
                          q: seq<ServerFrame>)
  {
    if c == 1 then Scene(s, u, share, mine, other, q) else Scene(s, u, share, other, mine, q)
  }

  /** Connection 1 tells connection 0 what it has to say. */
  lemma Tell(steps: seq<Step>, u: UserId, share: Option<ScreenShareInfo>, f: ServerFrame, p2: Phase,
             q: seq<ServerFrame>) returns (more: seq<Step>)
    requires Plays(steps, u, share, Busy([Send(f, EveryoneBut(u))], false), p2, q)
    ensures Plays(more, u, share, Idle, p2, q + [f])
  {
    hide Apply, Enabled, Scene, EnabledRun, After;
    TakeMove(After(steps), 1, u, share, f, p2, q);
    more := Play(steps, TakeTargets(1), u, share, Delivering(f, {0}, [], false), p2, q);
    DeliverMove(After(more), 1, u, share, f, p2, q);
    more := Play(more, Deliver(1, 0), u, share, Delivering(f, {}, [], false), p2, q + [f]);
    FinishMove(After(more), u, share, f, p2, q + [f]);
    more := Play(more, FinishSend(1), u, share, Idle, p2, q + [f]);
  }

  /** Connection 1 starts a share. */
  lemma StartMoves(s: System, u: UserId, r: StartRequest, q: seq<ServerFrame>)
    requires CheckStart(r).Ok?
    ensures var info, codecs := CheckStart(r).value, NormalizeRequested(r.requestedCodecs);
            && (Scene(s, u, None, Idle, Idle, q) ==>
                  && Enabled(s, BeginStart(1, r))
                  && Scene(Apply(s, BeginStart(1, r)), u, None, Starting(info, codecs), Idle, q))
            && (Scene(s, u, None, Starting(info, codecs), Idle, q) ==>
                  && Enabled(s, CommitStart(1))
                  && Scene(Apply(s, CommitStart(1)), u, Some(info),
                           Busy([Send(Started(u, info, codecs), EveryoneBut(u))], false), Idle, q))
  {
    hide CheckStart, NormalizeRequested;
  }

  /** A frame is admitted on connection 2; then connection 1 stops the share. */
  lemma StopMoves(s: System, u: UserId, info: ScreenShareInfo, payload: FramePayload, q: seq<ServerFrame>)
    requires Admit(u, Some(info), payload).Ok?
    ensures var ready := Busy([Send(Admit(u, Some(info), payload).value, EveryoneBut(u))], false);
            && (Scene(s, u, Some(info), Idle, Idle, q) ==>
                  && Enabled(s, OfferFrame(2, payload))
                  && Scene(Apply(s, OfferFrame(2, payload)), u, Some(info), Idle, ready, q))
            && (Scene(s, u, Some(info), Idle, ready, q) ==>
                  && Enabled(s, StopShare(1))
                  && Scene(Apply(s, StopShare(1)), u, None, Busy([Send(Stopped(u), EveryoneBut(u))], false), ready, q))
  {
    hide Admit;
  }

  /** The rule is needed for the queues as well: a user that logs in twice can stop its share on one
      connection between the moment a frame is admitted on the other and the moment it is put on
      a queue. The run works for every accepted start and every frame admitted to it. */
  lemma SecondConnectionBreaksQueues(u: UserId, v: UserId, r: StartRequest, payload: FramePayload)
    returns (steps: seq<Step>)
    requires u != v && CheckStart(r).Ok? && Admit(u, Some(CheckStart(r).value), payload).Ok?
    ensures EnabledRun(steps) && 0 in After(steps).queues
    ensures var q := After(steps).queues[0];
            |q| == 3 && q[1] == Stopped(u) && q[2].Frame? && q[2].user == u
  {
    hide CheckStart, Admit, NormalizeRequested, FitsShare, Apply, Enabled, EnabledRun, After, Scene;
    var info, codecs := CheckStart(r).value, NormalizeRequested(r.requestedCodecs);
    var started, frame := Started(u, info, codecs), Admit(u, Some(info), payload).value;
    var ready := Busy([Send(frame, EveryoneBut(u))], false);
    steps := ThreeConnects(u, v);
    StartMoves(After(steps), u, r, []);
    steps := Play(steps, BeginStart(1, r), u, None, Starting(info, codecs), Idle, []);
    StartMoves(After(steps), u, r, []);
    steps := Play(steps, CommitStart(1), u, Some(info), Busy([Send(started, EveryoneBut(u))], false), Idle, []);
    steps := Tell(steps, u, Some(info), started, Idle, []);
    StopMoves(After(steps), u, info, payload, [] + [started]);
    steps := Play(steps, OfferFrame(2, payload), u, Some(info), Idle, ready, [] + [started]);
    StopMoves(After(steps), u, info, payload, [] + [started]);
    steps := Play(steps, StopShare(1), u, None, Busy([Send(Stopped(u), EveryoneBut(u))], false), ready, [] + [started]);
    steps := Tell(steps, u, None, Stopped(u), ready, [] + [started]);
    var q := [] + [started] + [Stopped(u)];
    TakeMove(After(steps), 2, u, None, frame, Idle, q);
    steps := Play(steps, TakeTargets(2), u, None, Idle, Delivering(frame, {0}, [], false), q);
    DeliverMove(After(steps), 2, u, None, frame, Idle, q);
    steps := Play(steps, Deliver(2, 0), u, None, Idle, Delivering(frame, {}, [], false), q + [frame]);
    SceneQueue(After(steps), u, None, Idle, Delivering(frame, {}, [], false), q + [frame]);
    AdmitIff(u, Some(info), payload);
  }

  lemma SceneQueue(s: System, u: UserId, share: Option<ScreenShareInfo>, p1: Phase, p2: Phase, q: seq<ServerFrame>)
    requires Scene(s, u, share, p1, p2, q)
    ensures 0 in s.queues && s.queues[0] == q
  {
  }
}
