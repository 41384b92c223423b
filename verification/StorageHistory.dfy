/** What the storage holds, in terms of the requests it has seen and of nothing that it stores. */
module StorageHistory {
  import opened Prelude
  import opened StorageModel
  import opened StorageRuns
  import Text

  const DAY: nat := 86_400_000

  // ----- Messages -----

  /** The message last saved under the identifier has been dropped by a purge, being more than the
      visible days old. */
  predicate PurgedAway(policy: RetentionPolicy, events: seq<Event>, id: string) {
    if events == [] then false
    else
      match Last(events).op
      case Save(m) => m.id != id && PurgedAway(policy, Init(events), id)
      case Purge =>
        || PurgedAway(policy, Init(events), id)
        || (Saved(Init(events), id).Some?
            && Last(events).now - Saved(Init(events), id).value.unixMs > policy.visibleHistoryDays * DAY)
      case _ => PurgedAway(policy, Init(events), id)
  }

  /** The message last saved under the identifier has been deleted by its author or an administrator
      while it was there. */
  predicate DeletedBefore(policy: RetentionPolicy, events: seq<Event>, id: string)
    decreases |events|, 0
  {
    if events == [] then false
    else
      match Last(events).op
      case Save(m) => m.id != id && DeletedBefore(policy, Init(events), id)
      case Delete(target, actor, isAdmin, _) =>
        || DeletedBefore(policy, Init(events), id)
        || (target == id && MayDelete(policy, Init(events), id, actor, isAdmin))
      case _ => DeletedBefore(policy, Init(events), id)
  }

  /** A deletion would succeed now. */
  predicate MayDelete(policy: RetentionPolicy, events: seq<Event>, id: string, actor: string, isAdmin: bool)
    decreases |events|, 1
  {
    && Saved(events, id).Some? && !PurgedAway(policy, events, id) && !DeletedBefore(policy, events, id)
    && (Saved(events, id).value.userId == actor || isAdmin)
  }

  /** The stored message, if there is one, and whether it is marked, are what the requests say. */
  ghost predicate MessageFollows(s: Store, policy: RetentionPolicy, events: seq<Event>, id: string) {
    && (id in s.messages <==> Saved(events, id).Some? && !PurgedAway(policy, events, id))
    && (id in s.messages ==>
          && Some(s.messages[id].message) == Saved(events, id)
          && (s.messages[id].deletedAt.Some? <==> DeletedBefore(policy, events, id)))
  }

  lemma {:induction false} MessagesFollowRequests(policy: RetentionPolicy, events: seq<Event>, id: string)
    ensures MessageFollows(Run(policy, EMPTY, events), policy, events, id)
  {
    hide Step, CanDelete, MessageFollows;
    if events == [] {
      NothingFollows(policy, id);
    } else {
      var s, e := Run(policy, EMPTY, Init(events)), Last(events);
      MessagesFollowRequests(policy, Init(events), id);
      match e.op
      case Save(_) => SaveFollows(policy, events, s, id);
      case Delete(_, _, _, _) => DeleteFollows(policy, events, s, id);
      case Purge => PurgeFollows(policy, events, s, id);
      case _ =>
        MessagesUntouched(policy, s, e);
        OtherFollows(policy, events, s, Step(policy, s, e), id);
    }
  }

  lemma NothingFollows(policy: RetentionPolicy, id: string)
    ensures MessageFollows(EMPTY, policy, [], id)
  {
  }

  lemma SaveFollows(policy: RetentionPolicy, events: seq<Event>, s: Store, id: string)
    requires events != [] && Last(events).op.Save? && MessageFollows(s, policy, Init(events), id)
    ensures MessageFollows(Step(policy, s, Last(events)), policy, events, id)
  {
  }

  lemma DeleteFollows(policy: RetentionPolicy, events: seq<Event>, s: Store, id: string)
    requires events != [] && Last(events).op.Delete? && MessageFollows(s, policy, Init(events), id)
    ensures MessageFollows(Step(policy, s, Last(events)), policy, events, id)
  {
    hide Step;
    var e, before := Last(events), Init(events);
    DeleteMarks(policy, s, e);
    assert DeletedBefore(policy, events, id) <==>
             DeletedBefore(policy, before, id)
             || (e.op.id == id && MayDelete(policy, before, id, e.op.actor, e.op.isAdmin));
    assert PurgedAway(policy, events, id) == PurgedAway(policy, before, id);
    if e.op.id == id {
      assert CanDelete(s, id, e.op.actor, e.op.isAdmin) <==> MayDelete(policy, before, id, e.op.actor, e.op.isAdmin);
    }
  }

  lemma PurgeFollows(policy: RetentionPolicy, events: seq<Event>, s: Store, id: string)
    requires events != [] && Last(events).op.Purge? && MessageFollows(s, policy, Init(events), id)
    ensures MessageFollows(Step(policy, s, Last(events)), policy, events, id)
  {
    hide Cutoff, KeepFrom;
    if id in s.messages {
      CutoffIsWindow(policy.visibleHistoryDays, Last(events).now, s.messages[id].message.unixMs);
    }
  }

  lemma OtherFollows(policy: RetentionPolicy, events: seq<Event>, s: Store, s': Store, id: string)
    requires events != [] && MessageFollows(s, policy, Init(events), id) && s'.messages == s.messages
    requires !Last(events).op.Save? && !Last(events).op.Delete? && !Last(events).op.Purge?
    ensures MessageFollows(s', policy, events, id)
  {
  }

  /** While the clock has not passed `now`, what is young enough at `now` has not been purged. */
  lemma {:induction false} YoungIsKept(policy: RetentionPolicy, events: seq<Event>, id: string, now: u64)
    requires forall i :: 0 <= i < |events| ==> events[i].now <= now
    requires Saved(events, id).Some? && now - Saved(events, id).value.unixMs <= policy.visibleHistoryDays * DAY
    ensures !PurgedAway(policy, events, id)
  {
    if events == [] {
      assert false;
    } else if !(Last(events).op.Save? && Last(events).op.message.id == id) {
      assert Last(events).now <= now;
      YoungIsKept(policy, Init(events), id, now);
    }
  }

  /** A history query chooses from exactly the messages that were saved in the channel, have not been
      deleted and are at most the visible days old. */
  lemma VisibleIff(policy: RetentionPolicy, events: seq<Event>, channel: string, now: u64, m: ChatMessage)
    requires forall i :: 0 <= i < |events| ==> events[i].now <= now
    ensures m in Visible(Run(policy, EMPTY, events), policy, channel, now) <==>
              && Saved(events, m.id) == Some(m)
              && m.channelId == channel
              && !DeletedBefore(policy, events, m.id)
              && now - m.unixMs <= policy.visibleHistoryDays * DAY
  {
    hide Run, Cutoff, Saved, PurgedAway, DeletedBefore;
    var s := Run(policy, EMPTY, events);
    MessagesFollowRequests(policy, events, m.id);
    CutoffIsWindow(policy.visibleHistoryDays, now, m.unixMs);
    if Saved(events, m.id) == Some(m) && now - m.unixMs <= policy.visibleHistoryDays * DAY {
      YoungIsKept(policy, events, m.id, now);
    }
    forall id | id in s.messages ensures s.messages[id].message.id == id {
      MessagesFollowRequests(policy, events, id);
      SavedUnderId(events, id);
    }
  }

  lemma {:induction false} SavedUnderId(events: seq<Event>, id: string)
    ensures Saved(events, id).Some? ==> Saved(events, id).value.id == id
  {
    if events == [] {
    } else {
      SavedUnderId(Init(events), id);
    }
  }

  /** With fresh identifiers, the message last saved under an identifier is the one saved. */
  lemma {:induction false} SavedIffAmong(events: seq<Event>, m: ChatMessage)
    requires FreshMessages(events)
    ensures Saved(events, m.id) == Some(m) <==> exists i :: 0 <= i < |events| && events[i].op == Save(m)
  {
    if events == [] {
    } else {
      var n := |events| - 1;
      SavedIffAmong(Init(events), m);
      assert forall i :: 0 <= i < n ==> Init(events)[i] == events[i];
      if Saved(Init(events), m.id) == Some(m) {
        var i :| 0 <= i < n && Init(events)[i].op == Save(m);
        assert events[i].op == Save(m);
      }
    }
  }

  /** The three answers to a delete request in any reachable state, in terms of what was requested
      before. */
  lemma DeleteAnswer(policy: RetentionPolicy, events: seq<Event>, id: string, actor: string, isAdmin: bool, now: u64,
                     auditId: string)
    ensures var r := SoftDelete(Run(policy, EMPTY, events), id, actor, isAdmin, now, auditId).1;
            var there := && Saved(events, id).Some?
                         && !PurgedAway(policy, events, id) && !DeletedBefore(policy, events, id);
            && (r == NotFound <==> !there)
            && (r == Forbidden <==> there && Saved(events, id).value.userId != actor && !isAdmin)
            && (MayDelete(policy, events, id, actor, isAdmin) ==>
                  r == Deleted(id, Saved(events, id).value.channelId, actor, now))
  {
    hide Run, Saved, PurgedAway, DeletedBefore;
    MessagesFollowRequests(policy, events, id);
  }

  /** The audit entry of every deletion that succeeded, oldest first. */
  function DeletionRecords(policy: RetentionPolicy, events: seq<Event>): seq<AuditEntry> {
    if events == [] then []
    else
      var before, e := Init(events), Last(events);
      DeletionRecords(policy, before) +
      if e.op.Delete? && MayDelete(policy, before, e.op.id, e.op.actor, e.op.isAdmin) then
        var m := Saved(before, e.op.id).value;
        [AuditEntry(id := e.op.auditId, actor := e.op.actor, targetUser := m.userId, targetMessage := e.op.id,
                    channelId := m.channelId, body := m.body, unixMs := e.now)]
      else []
  }

  lemma {:induction false} DeletionsAreRecords(policy: RetentionPolicy, events: seq<Event>)
    ensures Deletions(policy, events) == DeletionRecords(policy, events)
  {
    hide Run, Saved, PurgedAway, DeletedBefore, MessageFollows;
    if events == [] {
    } else {
      var before, op := Init(events), Last(events).op;
      DeletionsAreRecords(policy, before);
      if op.Delete? {
        DeletableIff(policy, before, op.id, op.actor, op.isAdmin);
        SavedUnderId(before, op.id);
      }
    }
  }

  lemma DeletableIff(policy: RetentionPolicy, events: seq<Event>, id: string, actor: string, isAdmin: bool)
    ensures CanDelete(Run(policy, EMPTY, events), id, actor, isAdmin) <==> MayDelete(policy, events, id, actor, isAdmin)
  {
    hide Run, Saved, PurgedAway, DeletedBefore;
    MessagesFollowRequests(policy, events, id);
  }

  /** The audit log is exactly the records of the successful deletions that were at most the audit
      days old at the last purge. */
  lemma AuditLogIsRecords(policy: RetentionPolicy, events: seq<Event>, e: AuditEntry)
    requires FreshMessages(events) && ClockMonotone(events)
    ensures Run(policy, EMPTY, events).auditLog
         == KeepFrom(DeletionRecords(policy, events), AuditCutoff(policy, events))
    ensures e in Run(policy, EMPTY, events).auditLog <==>
              && e in DeletionRecords(policy, events)
              && (LastPurge(events).Some? ==> LastPurge(events).value - e.unixMs <= policy.auditLogDays * DAY)
  {
    hide Run, Deletions, DeletionRecords, KeepFrom, Cutoff;
    AuditLogIsDeletions(policy, events);
    DeletionsAreRecords(policy, events);
    KeptFrom(DeletionRecords(policy, events), AuditCutoff(policy, events), e);
    CutoffOfLastPurge(policy, events, e.unixMs);
  }

  function LastPurge(events: seq<Event>): Option<u64> {
    if events == [] then None
    else if Last(events).op.Purge? then Some(Last(events).now)
    else LastPurge(Init(events))
  }

  lemma {:induction false} CutoffOfLastPurge(policy: RetentionPolicy, events: seq<Event>, t: u64)
    ensures t >= AuditCutoff(policy, events) <==>
              (LastPurge(events).Some? ==> LastPurge(events).value - t <= policy.auditLogDays * DAY)
  {
    hide Cutoff;
    if events == [] {
    } else if Last(events).op.Purge? {
      CutoffIsWindow(policy.auditLogDays, Last(events).now, t);
    } else {
      CutoffOfLastPurge(policy, Init(events), t);
    }
  }

  // ----- Names and invites -----

  /** Two names are one if and only if they are the same up to the case of the letters A to Z and to
      surrounding space. */
  lemma SameNameIff(a: string, b: string)
    ensures DisplayNameKey(a) == DisplayNameKey(b) <==> Text.SameLetters(Text.Trim(a), Text.Trim(b))
  {
    Text.LowercaseIgnoresCase(Text.Trim(a), Text.Trim(b));
  }

  /** Somebody has an account under the name. */
  predicate IsClaimed(events: seq<Event>, key: string) {
    if events == [] then false
    else
      match Last(events).op
      case BootstrapAdmin(name, _, _) => DisplayNameKey(name) == key || IsClaimed(Init(events), key)
      case NewUser(name, _, _, _) => DisplayNameKey(name) == key || IsClaimed(Init(events), key)
      case Redeem(name, _, code, _) =>
        (DisplayNameKey(name) == key && IsOpen(Init(events), code)) || IsClaimed(Init(events), key)
      case _ => IsClaimed(Init(events), key)
  }

  /** The invite has been issued and no account has been created with it since. */
  predicate IsOpen(events: seq<Event>, code: string) {
    if events == [] then false
    else
      match Last(events).op
      case NewInvite(issued) => issued == code || IsOpen(Init(events), code)
      case Redeem(name, _, used, _) =>
        IsOpen(Init(events), code) && (used != code || IsClaimed(Init(events), DisplayNameKey(name)))
      case _ => IsOpen(Init(events), code)
  }

  ghost predicate AccountsFollow(s: Store, events: seq<Event>) {
    && (forall key :: key in s.displayNameIndex <==> IsClaimed(events, key))
    && (forall code :: code in s.invites && s.invites[code].None? <==> IsOpen(events, code))
  }

  lemma {:induction false} AccountsFollowRequests(policy: RetentionPolicy, events: seq<Event>)
    ensures AccountsFollow(Run(policy, EMPTY, events), events)
  {
    hide Step, AccountsFollow;
    if events == [] {
      NobodyClaimed();
    } else {
      AccountsFollowRequests(policy, Init(events));
      StepFollows(policy, events, Run(policy, EMPTY, Init(events)));
    }
  }

  lemma NobodyClaimed()
    ensures AccountsFollow(EMPTY, [])
  {
  }

  lemma StepFollows(policy: RetentionPolicy, events: seq<Event>, s: Store)
    requires events != [] && AccountsFollow(s, Init(events))
    ensures AccountsFollow(Step(policy, s, Last(events)), events)
  {
    hide Step, DisplayNameKey;
    var s' := Step(policy, s, Last(events));
    forall key ensures key in s'.displayNameIndex <==> IsClaimed(events, key) {
      StepClaims(policy, events, s, key);
    }
    forall code ensures code in s'.invites && s'.invites[code].None? <==> IsOpen(events, code) {
      StepOpens(policy, events, s, code);
    }
  }

  lemma StepClaims(policy: RetentionPolicy, events: seq<Event>, s: Store, key: string)
    requires events != [] && AccountsFollow(s, Init(events))
    ensures key in Step(policy, s, Last(events)).displayNameIndex <==> IsClaimed(events, key)
  {
    hide DisplayNameKey, Cutoff, KeepFrom, SoftDelete, PurgeExpired, IsOpen;
    match Last(events).op
    case Purge => AccountsUntouched(policy, s, Last(events));
    case Delete(_, _, _, _) => AccountsUntouched(policy, s, Last(events));
    case _ =>
  }

  lemma StepOpens(policy: RetentionPolicy, events: seq<Event>, s: Store, code: string)
    requires events != [] && AccountsFollow(s, Init(events))
    ensures var s' := Step(policy, s, Last(events));
            code in s'.invites && s'.invites[code].None? <==> IsOpen(events, code)
  {
    hide DisplayNameKey, Cutoff, KeepFrom, SoftDelete, PurgeExpired, IsClaimed;
    match Last(events).op
    case Purge => AccountsUntouched(policy, s, Last(events));
    case Delete(_, _, _, _) => AccountsUntouched(policy, s, Last(events));
    case _ =>
  }

  /** Which of the three answers a request to create an account with an invite gets in any reachable
      state; only a new account changes anything, and it is an ordinary one under the name as
      given, with the given password. */
  lemma RedeemAnswer(policy: RetentionPolicy, events: seq<Event>, name: string, hash: string, code: string,
                     freshId: string)
    ensures var s := Run(policy, EMPTY, events);
            var (s', r) := CreateUserWithInvite(s, name, hash, code, freshId);
            && (r == InvalidInvite <==> !IsOpen(events, code))
            && (r == DisplayNameTaken <==> IsOpen(events, code) && IsClaimed(events, DisplayNameKey(name)))
            && (!r.Created? ==> s' == s)
            && (r.Created? ==>
                  && r.account == Account(userId := freshId, displayName := name, passwordHash := Some(hash),
                                          isAdmin := false)
                  && FindUserByDisplayName(s', name) == Some(r.account)
                  && s'.users == s.users[freshId := s'.users[freshId]]
                  && s'.sessions == s.sessions && s'.messages == s.messages && s'.auditLog == s.auditLog)
  {
    hide Run, DisplayNameKey, IsOpen, IsClaimed;
    AccountsFollowRequests(policy, events);
  }

  /** The same for an account created by an administrator or at start-up, which has the rights
      given. */
  lemma NewUserAnswer(policy: RetentionPolicy, events: seq<Event>, name: string, hash: string, isAdmin: bool,
                      freshId: string)
    ensures var s := Run(policy, EMPTY, events);
            var (s', r) := CreateUserWithPasswordHash(s, name, hash, isAdmin, freshId);
            && (r == DisplayNameTaken <==> IsClaimed(events, DisplayNameKey(name)))
            && (!r.Created? ==> s' == s)
            && (r.Created? ==>
                  && r.account == Account(userId := freshId, displayName := name, passwordHash := Some(hash),
                                          isAdmin := isAdmin)
                  && FindUserByDisplayName(s', name) == Some(r.account)
                  && s'.users == s.users[freshId := s'.users[freshId]])
  {
    hide Run, DisplayNameKey, IsOpen, IsClaimed;
    AccountsFollowRequests(policy, events);
  }

  /** A user registered without an account has the name as given, no password and no rights; a
      session leads to whoever it was created for. */
  lemma SessionOfEphemeralUser(s: Store, id: string, name: string, token: string)
    ensures var s' := RegisterEphemeralUser(s, id, name);
            var (s'', r) := CreateSession(s', token, id);
            && s'.users == s.users[id := StoredUser(displayName := name, passwordHash := None, isAdmin := false)]
            && r == Some(SessionInfo(userId := id, displayName := name, isAdmin := false))
            && ValidateSession(s'', token) == r
            && (forall other :: other != token ==> ValidateSession(s'', other) == ValidateSession(s', other))
  {
  }

  /** A session is created exactly for a user that exists, and otherwise nothing changes. */
  lemma SessionAnswer(s: Store, token: string, id: string)
    ensures var (s', r) := CreateSession(s, token, id);
            && (r.Some? <==> id in s.users)
            && (r.None? ==> s' == s)
            && (r.Some? ==>
                  && r.value.userId == id
                  && s' == s.(sessions := s'.sessions) && s'.sessions - {token} == s.sessions - {token}
                  && ValidateSession(s', token) == r)
  {
  }
}
