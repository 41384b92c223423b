/** The server state behind the lock as a mutable object. Each method is one critical section
    and is proved to do to the tables what ServerTables says. */
module InnerStates {
  import opened Prelude
  import opened ServerTables

  /** `targets` are the addresses of `members`, who are the users in `expected`, each once. */
  ghost predicate ListsTargets(members: seq<UserId>, targets: seq<Addr>, expected: map<UserId, Addr>) {
    && |members| == |targets|
    && (forall i, j :: 0 <= i < j < |members| ==> members[i] != members[j])
    && (forall m :: m in members <==> m in expected)
    && (forall i :: 0 <= i < |members| ==> members[i] in expected && targets[i] == expected[members[i]])
  }

  class InnerState {
    var users: map<UserId, UserConnection>
    var voiceRooms: map<RoomId, set<UserId>>
    var voiceAddrs: map<UserId, Addr>
    var screenShares: map<UserId, ScreenShareInfo>

    /** Every critical section that has changed the tables, oldest first. */
    ghost var history: seq<TableOp>

    function Model(): Tables
      reads this
    {
      Tables(users, voiceRooms, voiceAddrs, screenShares)
    }

    ghost predicate Valid()
      reads this
    {
      Model() == DoAll(history)
    }

    constructor ()
      ensures Valid() && history == [] && Model() == EMPTY
    {
      users, voiceRooms, voiceAddrs, screenShares := map[], map[], map[], map[];
      history := [];
    }

    /** Every user's connection, room, address and share are the latest the history gave it. */
    lemma UserFollowsHistory(u: UserId)
      requires Valid()
      ensures Lookup(users, u) == LastConnection(history, u)
      ensures Lookup(voiceAddrs, u) == LastAddr(history, u)
      ensures Lookup(screenShares, u) == LastShare(history, u)
      ensures forall r ::
                r in voiceRooms && u in voiceRooms[r] <==>
                  LastRoom(history, u).Some? && r == LastRoom(history, u).value
    {
      TablesFollowHistory(history, u);
      assert forall r :: r in RoomsOf(voiceRooms, u) <==> r in voiceRooms && u in voiceRooms[r];
    }

    /** Nobody is in two rooms, whatever this object has been through. */
    lemma OneRoomEachAlways()
      requires Valid()
      ensures OneRoomEach(voiceRooms)
    {
      OneRoomAlways(history);
    }

    method RegisterConnection(u: UserId, displayName: string, isAdmin: bool, tx: ConnId)
      requires Valid()
      modifies this
      ensures Valid() && history == old(history) + [RegisterOp(u, UserConnection(displayName, isAdmin, tx))]
      ensures Model() == Register(old(Model()), u, UserConnection(displayName, isAdmin, tx))
    {
      hide DoAll;
      DoAllAppend(history, RegisterOp(u, UserConnection(displayName, isAdmin, tx)));
      history := history + [RegisterOp(u, UserConnection(displayName, isAdmin, tx))];
      users := users[u := UserConnection(displayName, isAdmin, tx)];
    }

    /** Takes the user out of every room, one room after another, and lists the rooms left. */
    method RemoveFromRooms(u: UserId) returns (changed: set<RoomId>)
      modifies this`voiceRooms
      ensures voiceRooms == Without(old(voiceRooms), u)
      ensures changed == RoomsOf(old(voiceRooms), u)
    {
      hide DoAll;
      changed := {};
      var todo := voiceRooms.Keys;
      while todo != {}
        invariant voiceRooms.Keys == old(voiceRooms).Keys && todo <= voiceRooms.Keys
        invariant forall r :: r in voiceRooms ==>
                    voiceRooms[r] == if r in todo then old(voiceRooms)[r] else old(voiceRooms)[r] - {u}
        invariant forall r :: r in changed <==> r in voiceRooms && r !in todo && u in old(voiceRooms)[r]
        decreases |todo|
      {
        var r :| r in todo;
        todo := todo - {r};
        if u in voiceRooms[r] {
          changed := changed + {r};
        }
        voiceRooms := voiceRooms[r := voiceRooms[r] - {u}];
      }
    }

    method DisconnectUser(u: UserId) returns (changed: set<RoomId>, hadShare: bool)
      requires Valid()
      modifies this
      ensures Valid() && history == old(history) + [DisconnectOp(u)]
      ensures Model() == Disconnect(old(Model()), u)
      ensures changed == RoomsOf(old(voiceRooms), u) && hadShare == (u in old(screenShares))
    {
      hide DoAll;
      DoAllAppend(history, DisconnectOp(u));
      history := history + [DisconnectOp(u)];
      users := users - {u};
      voiceAddrs := voiceAddrs - {u};
      hadShare := u in screenShares;
      screenShares := screenShares - {u};
      changed := RemoveFromRooms(u);
    }

    method JoinVoice(u: UserId, room: RoomId)
      requires Valid()
      modifies this
      ensures Valid() && history == old(history) + [JoinOp(u, room)]
      ensures Model() == ServerTables.JoinVoice(old(Model()), u, room)
    {
      hide DoAll;
      DoAllAppend(history, JoinOp(u, room));
      history := history + [JoinOp(u, room)];
      var _ := RemoveFromRooms(u);
      var members := if room in voiceRooms then voiceRooms[room] else {};
      voiceRooms := voiceRooms[room := members + {u}];
    }

    method LeaveVoice(u: UserId) returns (changed: set<RoomId>)
      requires Valid()
      modifies this
      ensures Valid() && history == old(history) + [LeaveOp(u)]
      ensures Model() == ServerTables.LeaveVoice(old(Model()), u)
      ensures changed == RoomsOf(old(voiceRooms), u)
    {
      hide DoAll;
      DoAllAppend(history, LeaveOp(u));
      history := history + [LeaveOp(u)];
      changed := RemoveFromRooms(u);
    }

    method RememberVoiceAddr(u: UserId, a: Addr)
      requires Valid()
      modifies this
      ensures Valid() && history == old(history) + [RememberOp(u, a)]
      ensures Model() == ServerTables.RememberVoiceAddr(old(Model()), u, a)
    {
      hide DoAll;
      DoAllAppend(history, RememberOp(u, a));
      history := history + [RememberOp(u, a)];
      voiceAddrs := voiceAddrs[u := a];
    }

    /** The relay's targets in some order, the address of each member once. */
    method VoiceTargets(room: RoomId, sender: UserId) returns (targets: seq<Addr>)
      ensures exists members :: ListsTargets(members, targets, ServerTables.VoiceTargets(Model(), room, sender))
    {
      targets := [];
      ghost var members: seq<UserId> := [];
      ghost var expected := ServerTables.VoiceTargets(Model(), room, sender);
      if room !in voiceRooms {
        assert ListsTargets(members, targets, expected);
        return;
      }
      var todo := voiceRooms[room];
      while todo != {}
        invariant todo <= voiceRooms[room]
        invariant ListsTargets(members, targets, expected - todo)
        decreases |todo|
      {
        var m :| m in todo;
        todo := todo - {m};
        if m != sender && m in voiceAddrs {
          targets := targets + [voiceAddrs[m]];
          members := members + [m];
        }
      }
      assert expected - todo == expected;
    }

    method InsertShare(u: UserId, info: ScreenShareInfo)
      requires Valid()
      modifies this
      ensures Valid() && history == old(history) + [InsertShareOp(u, info)]
      ensures Model() == ServerTables.InsertShare(old(Model()), u, info)
    {
      hide DoAll;
      DoAllAppend(history, InsertShareOp(u, info));
      history := history + [InsertShareOp(u, info)];
      screenShares := screenShares[u := info];
    }

    method RemoveShare(u: UserId) returns (hadShare: bool)
      requires Valid()
      modifies this
      ensures Valid() && history == old(history) + [RemoveShareOp(u)]
      ensures Model() == ServerTables.RemoveShare(old(Model()), u)
      ensures hadShare == (u in old(screenShares))
    {
      hide DoAll;
      DoAllAppend(history, RemoveShareOp(u));
      history := history + [RemoveShareOp(u)];
      hadShare := u in screenShares;
      screenShares := screenShares - {u};
    }
  }
}
