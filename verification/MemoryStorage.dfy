/** The in-memory storage as the mutable object behind its lock. Each method is one critical
    section and is proved to do what StorageModel says. */
module MemoryStorages {
  import opened Prelude
  import opened StorageModel
  import opened StorageRuns
  import StorageHistory
  import StableSort

  class MemoryStorage {
    const policy: RetentionPolicy
    var users: map<string, StoredUser>
    var displayNameIndex: map<string, string>
    var invites: map<string, Option<string>>
    var sessions: map<string, string>
    var messages: map<string, MemoryMessage>
    var log: seq<AuditEntry>

    /** Every operation so far that can change the storage, oldest first. */
    ghost var history: seq<Event>

    function Model(): Store
      reads this
    {
      Store(users, displayNameIndex, invites, sessions, messages, log)
    }

    /** The fields are what the history makes of an empty store, and messages are stored under their
        own identifier. */
    ghost predicate Valid()
      reads this
    {
      && Model() == Run(policy, EMPTY, history)
      && (forall id :: id in messages ==> messages[id].message.id == id)
    }

    /** An operation that does not read the clock happens at the last reading. */
    ghost function Happens(op: Op): Event
      reads this
    {
      Event(if history == [] then 0 else Last(history).now, op)
    }

    constructor (policy: RetentionPolicy)
      ensures Valid() && history == [] && Model() == EMPTY && this.policy == policy
    {
      this.policy := policy;
      users, displayNameIndex, invites, sessions, messages, log := map[], map[], map[], map[], map[], [];
      history := [];
    }

    method EnsureBootstrapAdmin(displayName: string, hash: string, freshId: string) returns (account: Account)
      requires Valid()
      modifies this
      ensures Valid() && history == old(history) + [old(Happens(BootstrapAdmin(displayName, hash, freshId)))]
      ensures (Model(), account) == StorageModel.EnsureBootstrapAdmin(old(Model()), displayName, hash, freshId)
    {
      hide DisplayNameKey, Cutoff, KeepFrom, Run;
      RunAppend(policy, EMPTY, history, Happens(BootstrapAdmin(displayName, hash, freshId)));
      history := history + [Happens(BootstrapAdmin(displayName, hash, freshId))];
      var key := DisplayNameKey(displayName);
      var userId := if key in displayNameIndex then displayNameIndex[key] else freshId;
      displayNameIndex := displayNameIndex[key := userId];
      users := users[userId := StoredUser(displayName, Some(hash), true)];
      account := Account(userId, displayName, Some(hash), true);
    }

    method CreateInvite(code: string)
      requires Valid()
      modifies this
      ensures Valid() && history == old(history) + [old(Happens(NewInvite(code)))]
      ensures Model() == StorageModel.CreateInvite(old(Model()), code)
    {
      hide DisplayNameKey, Cutoff, KeepFrom, Run;
      RunAppend(policy, EMPTY, history, Happens(NewInvite(code)));
      history := history + [Happens(NewInvite(code))];
      invites := invites[code := None];
    }

    method CreateUserWithInvite(displayName: string, hash: string, code: string, freshId: string)
      returns (r: CreateAccountResult)
      requires Valid()
      modifies this
      ensures Valid() && history == old(history) + [old(Happens(Redeem(displayName, hash, code, freshId)))]
      ensures (Model(), r) == StorageModel.CreateUserWithInvite(old(Model()), displayName, hash, code, freshId)
    {
      hide DisplayNameKey, Cutoff, KeepFrom, Run;
      RunAppend(policy, EMPTY, history, Happens(Redeem(displayName, hash, code, freshId)));
      history := history + [Happens(Redeem(displayName, hash, code, freshId))];
      if code !in invites {
        return InvalidInvite;
      }
      if invites[code].Some? {
        return InvalidInvite;
      }
      var key := DisplayNameKey(displayName);
      if key in displayNameIndex {
        return DisplayNameTaken;
      }
      displayNameIndex := displayNameIndex[key := freshId];
      users := users[freshId := StoredUser(displayName, Some(hash), false)];
      invites := invites[code := Some(freshId)];
      return Created(Account(freshId, displayName, Some(hash), false));
    }

    method CreateUserWithPasswordHash(displayName: string, hash: string, isAdmin: bool, freshId: string)
      returns (r: CreateAccountResult)
      requires Valid()
      modifies this
      ensures Valid() && history == old(history) + [old(Happens(NewUser(displayName, hash, isAdmin, freshId)))]
      ensures (Model(), r) == StorageModel.CreateUserWithPasswordHash(old(Model()), displayName, hash, isAdmin, freshId)
    {
      hide DisplayNameKey, Cutoff, KeepFrom, Run;
      RunAppend(policy, EMPTY, history, Happens(NewUser(displayName, hash, isAdmin, freshId)));
      history := history + [Happens(NewUser(displayName, hash, isAdmin, freshId))];
      var key := DisplayNameKey(displayName);
      if key in displayNameIndex {
        return DisplayNameTaken;
      }
      displayNameIndex := displayNameIndex[key := freshId];
      users := users[freshId := StoredUser(displayName, Some(hash), isAdmin)];
      return Created(Account(freshId, displayName, Some(hash), isAdmin));
    }

    method FindUserByDisplayName(displayName: string) returns (r: Option<Account>)
      requires Valid()
      ensures r == StorageModel.FindUserByDisplayName(Model(), displayName)
    {
      var key := DisplayNameKey(displayName);
      if key !in displayNameIndex {
        return None;
      }
      var userId := displayNameIndex[key];
      if userId !in users {
        return None;
      }
      var user := users[userId];
      return Some(Account(userId, user.displayName, user.passwordHash, user.isAdmin));
    }

    method RegisterEphemeralUser(userId: string, displayName: string)
      requires Valid()
      modifies this
      ensures Valid() && history == old(history) + [old(Happens(Ephemeral(userId, displayName)))]
      ensures Model() == StorageModel.RegisterEphemeralUser(old(Model()), userId, displayName)
    {
      hide DisplayNameKey, Cutoff, KeepFrom, Run;
      RunAppend(policy, EMPTY, history, Happens(Ephemeral(userId, displayName)));
      history := history + [Happens(Ephemeral(userId, displayName))];
      users := users[userId := StoredUser(displayName, None, false)];
    }

    method CreateSession(token: string, userId: string) returns (r: Option<SessionInfo>)
      requires Valid()
      modifies this
      ensures Valid() && history == old(history) + [old(Happens(NewSession(token, userId)))]
      ensures (Model(), r) == StorageModel.CreateSession(old(Model()), token, userId)
    {
      hide DisplayNameKey, Cutoff, KeepFrom, Run;
      RunAppend(policy, EMPTY, history, Happens(NewSession(token, userId)));
      history := history + [Happens(NewSession(token, userId))];
      if userId !in users {
        return None;
      }
      sessions := sessions[token := userId];
      return Some(SessionInfo(userId, users[userId].displayName, users[userId].isAdmin));
    }

    method ValidateSession(token: string) returns (r: Option<SessionInfo>)
      requires Valid()
      ensures r == StorageModel.ValidateSession(Model(), token)
    {
      if token !in sessions {
        return None;
      }
      var userId := sessions[token];
      if userId !in users {
        return None;
      }
      return Some(SessionInfo(userId, users[userId].displayName, users[userId].isAdmin));
    }

    method SaveMessage(message: ChatMessage)
      requires Valid()
      modifies this
      ensures Valid() && history == old(history) + [old(Happens(Save(message)))]
      ensures Model() == StorageModel.SaveMessage(old(Model()), message)
    {
      hide DisplayNameKey, Cutoff, KeepFrom, Run;
      RunAppend(policy, EMPTY, history, Happens(Save(message)));
      history := history + [Happens(Save(message))];
      messages := messages[message.id := MemoryMessage(message, None, None)];
    }

    method SoftDeleteMessage(id: string, actor: string, isAdmin: bool, now: u64, auditId: string)
      returns (r: DeleteMessageResult)
      requires Valid()
      modifies this
      ensures Valid() && history == old(history) + [Event(now, Delete(id, actor, isAdmin, auditId))]
      ensures (Model(), r) == SoftDelete(old(Model()), id, actor, isAdmin, now, auditId)
    {
      hide Step, Run;
      RunAppend(policy, EMPTY, history, Event(now, Delete(id, actor, isAdmin, auditId)));
      DeleteStep(policy, Model(), now, id, actor, isAdmin, auditId);
      history := history + [Event(now, Delete(id, actor, isAdmin, auditId))];
      if id !in messages {
        return NotFound;
      }
      var stored := messages[id];
      if stored.deletedAt.Some? {
        return NotFound;
      }
      if stored.message.userId != actor && !isAdmin {
        return Forbidden;
      }
      var message := stored.message;
      messages := messages[id := stored.(deletedAt := Some(now), deletedBy := Some(actor))];
      log := log + [AuditEntry(auditId, actor, message.userId, message.id, message.channelId, message.body, now)];
      return Deleted(id, message.channelId, actor, now);
    }

    /** Drops expired messages and audit entries one by one. */
    method PurgeExpired(now: u64)
      requires Valid()
      modifies this
      ensures Valid() && history == old(history) + [Event(now, Purge)]
      ensures Model() == StorageModel.PurgeExpired(old(Model()), policy, now)
    {
      hide DisplayNameKey, Cutoff, KeepFrom, Run;
      RunAppend(policy, EMPTY, history, Event(now, Purge));
      history := history + [Event(now, Purge)];
      var visibleCutoff := Cutoff(policy.visibleHistoryDays, now);
      var auditCutoff := Cutoff(policy.auditLogDays, now);
      RetainMessages(visibleCutoff);
      RetainLog(auditCutoff);
    }

    method RetainMessages(cutoff: u64)
      modifies this`messages
      ensures messages ==
                map id | id in old(messages) && old(messages)[id].message.unixMs >= cutoff :: old(messages)[id]
    {
      var todo := messages.Keys;
      while todo != {}
        invariant todo <= messages.Keys
        invariant forall id :: id in messages <==>
                    id in old(messages) && (id in todo || old(messages)[id].message.unixMs >= cutoff)
        invariant forall id :: id in messages ==> messages[id] == old(messages)[id]
        decreases |todo|
      {
        var id :| id in todo;
        todo := todo - {id};
        if messages[id].message.unixMs < cutoff {
          messages := messages - {id};
        }
      }
    }

    method RetainLog(cutoff: u64)
      modifies this`log
      ensures log == KeepFrom(old(log), cutoff)
    {
      var kept: seq<AuditEntry> := [];
      for i := 0 to |log|
        invariant kept == KeepFrom(log[..i], cutoff)
      {
        assert log[..i + 1][..i] == log[..i];
        if log[i].unixMs >= cutoff {
          kept := kept + [log[i]];
        }
      }
      assert log[..|log|] == log;
      log := kept;
    }

    /** The messages are met in whatever order the hash map yields them. */
    method RecentMessages(channel: string, limit: nat, now: u64) returns (r: seq<ChatMessage>)
      requires Valid()
      ensures IsHistory(r, Visible(Model(), policy, channel, now), limit)
    {
      var cutoff := Cutoff(policy.visibleHistoryDays, now);
      var found := FindVisible(channel, cutoff);
      QueryGivesHistory(found, Visible(Model(), policy, channel, now), limit);
      r := LastOf(StableSort.Sort(found, MessageTime), limit);
    }

    method FindVisible(channel: string, cutoff: u64) returns (found: seq<ChatMessage>)
      requires Valid()
      ensures Lists(found, set id | id in messages && IsVisible(messages[id], channel, cutoff) :: messages[id].message)
    {
      found := [];
      var todo := messages.Keys;
      while todo != {}
        invariant todo <= messages.Keys
        invariant StableSort.Distinct(found)
        invariant forall m :: m in found <==>
                    m.id in messages && m.id !in todo && messages[m.id].message == m
                    && IsVisible(messages[m.id], channel, cutoff)
        decreases |todo|
      {
        var id :| id in todo;
        todo := todo - {id};
        if IsVisible(messages[id], channel, cutoff) {
          assert messages[id].message !in found;
          found := found + [messages[id].message];
        }
      }
    }

    method AuditLog(limit: nat) returns (r: seq<AuditEntry>)
      requires Valid()
      ensures r == AuditQuery(Model(), limit)
    {
      r := LastOf(StableSort.Sort(log, EntryTime), limit);
    }

    // ----- What holds of an object after any history -----

    /** No two names lead to one user, a name is found if and only if it is indexed, under the user
        with that name, and a session is valid if and only if its token is known. */
    lemma AccountsAreSound()
      requires Valid() && AllFresh(policy, history)
      ensures forall k, l | k in displayNameIndex && l in displayNameIndex ::
                displayNameIndex[k] == displayNameIndex[l] ==> k == l
      ensures forall name: string ::
                StorageModel.FindUserByDisplayName(Model(), name).Some? <==> DisplayNameKey(name) in displayNameIndex
      ensures forall token :: StorageModel.ValidateSession(Model(), token).Some? <==> token in sessions
    {
      ReachableAccounts(policy, history);
    }

    /** An invite has yielded one account if it is consumed and none otherwise, at every moment of the
        history, if and only if its code was never issued again once used. */
    lemma InvitesYieldOneAccount(code: string)
      requires Valid()
      ensures OneAccountThroughout(policy, history, code) <==> NeverReissued(policy, history, code)
      ensures NeverReissued(policy, history, code) ==>
                Redemptions(policy, history, code) == if code in invites && invites[code].Some? then 1 else 0
    {
      hide Run, Redemptions, NeverReissued;
      InviteYieldsOneAccountIff(policy, history, code);
    }

    /** A history query chooses from exactly the messages that were saved in its channel, have not been
        deleted and are at most the visible days old. */
    lemma QueriesChooseFrom(channel: string, now: u64, m: ChatMessage)
      requires Valid() && forall i :: 0 <= i < |history| ==> history[i].now <= now
      ensures m in Visible(Model(), policy, channel, now) <==>
                && Saved(history, m.id) == Some(m)
                && m.channelId == channel
                && !StorageHistory.DeletedBefore(policy, history, m.id)
                && now - m.unixMs <= policy.visibleHistoryDays * 86_400_000
    {
      hide Run, Visible;
      StorageHistory.VisibleIff(policy, history, channel, now, m);
    }

    /** No message was deleted twice, a deleted message is never seen again, and the log is exactly
        the deletions not older than the last purge's cutoff. */
    lemma LogIsDeletions(channel: string, now: u64)
      requires Valid() && FreshMessages(history) && ClockMonotone(history)
      ensures log == KeepFrom(Deletions(policy, history), AuditCutoff(policy, history))
      ensures forall i, j :: 0 <= i < j < |Deletions(policy, history)| ==>
                Deletions(policy, history)[i].targetMessage != Deletions(policy, history)[j].targetMessage
      ensures forall i, m :: 0 <= i < |Deletions(policy, history)| && m in Visible(Model(), policy, channel, now) ==>
                m.id != Deletions(policy, history)[i].targetMessage
    {
      hide Run, Deletions, Visible;
      AuditLogIsDeletions(policy, history);
      DeletedOnceAndForAll(policy, history, channel, now);
    }
  }
}
