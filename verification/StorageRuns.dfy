/** What the storage keeps over whole runs of operations. */
module StorageRuns {
  import opened Prelude
  import opened StorageModel
  import StableSort

  datatype Op =
    | BootstrapAdmin(displayName: string, hash: string, freshId: string)
    | NewInvite(code: string)
    | Redeem(displayName: string, hash: string, code: string, freshId: string)
    | NewUser(displayName: string, hash: string, isAdmin: bool, freshId: string)
    | Ephemeral(freshId: string, displayName: string)
    | NewSession(token: string, userId: string)
    | Save(message: ChatMessage)
    | Delete(id: string, actor: string, isAdmin: bool, auditId: string)
    | Purge

  /** An operation and the clock reading it uses. */
  datatype Event = Event(now: u64, op: Op)

  function Step(policy: RetentionPolicy, s: Store, e: Event): Store {
    match e.op
    case BootstrapAdmin(name, hash, id) => EnsureBootstrapAdmin(s, name, hash, id).0
    case NewInvite(code) => CreateInvite(s, code)
    case Redeem(name, hash, code, id) => CreateUserWithInvite(s, name, hash, code, id).0
    case NewUser(name, hash, isAdmin, id) => CreateUserWithPasswordHash(s, name, hash, isAdmin, id).0
    case Ephemeral(id, name) => RegisterEphemeralUser(s, id, name)
    case NewSession(token, id) => CreateSession(s, token, id).0
    case Save(m) => SaveMessage(s, m)
    case Delete(id, actor, isAdmin, auditId) => SoftDelete(s, id, actor, isAdmin, e.now, auditId).0
    case Purge => PurgeExpired(s, policy, e.now)
  }

  function Run(policy: RetentionPolicy, s: Store, events: seq<Event>): Store {
    if events == [] then s
    else Step(policy, Run(policy, s, events[..|events| - 1]), events[|events| - 1])
  }

  function Init(events: seq<Event>): seq<Event>
    requires events != []
  {
    events[..|events| - 1]
  }

  function Last(events: seq<Event>): Event
    requires events != []
  {
    events[|events| - 1]
  }

  lemma RunAppend(policy: RetentionPolicy, s: Store, events: seq<Event>, e: Event)
    ensures Run(policy, s, events + [e]) == Step(policy, Run(policy, s, events), e)
  {
    assert (events + [e])[..|events|] == events;
  }

  lemma DeleteStep(policy: RetentionPolicy, s: Store, now: u64, id: string, actor: string, isAdmin: bool,
                   auditId: string)
    ensures Step(policy, s, Event(now, Delete(id, actor, isAdmin, auditId)))
         == SoftDelete(s, id, actor, isAdmin, now, auditId).0
  {
  }

  // ----- Accounts -----

  /** Identifiers and invite codes drawn for this operation are not in use. */
  predicate DrawsFresh(s: Store, op: Op) {
    match op
    case BootstrapAdmin(_, _, id) => id !in s.users
    case NewInvite(code) => code !in s.invites
    case Redeem(_, _, _, id) => id !in s.users
    case NewUser(_, _, _, id) => id !in s.users
    case Ephemeral(id, _) => id !in s.users
    case _ => true
  }

  ghost predicate AllFresh(policy: RetentionPolicy, events: seq<Event>) {
    events == [] ||
    (AllFresh(policy, Init(events)) && DrawsFresh(Run(policy, EMPTY, Init(events)), Last(events).op))
  }

  ghost predicate AccountsOk(s: Store) {
    && (forall key :: key in s.displayNameIndex ==>
          && s.displayNameIndex[key] in s.users
          && DisplayNameKey(s.users[s.displayNameIndex[key]].displayName) == key)
    && (forall token :: token in s.sessions ==> s.sessions[token] in s.users)
    && (forall code :: code in s.invites && s.invites[code].Some? ==> s.invites[code].value in s.users)
  }

  lemma StepKeepsAccounts(policy: RetentionPolicy, s: Store, e: Event)
    requires AccountsOk(s) && DrawsFresh(s, e.op)
    ensures AccountsOk(Step(policy, s, e))
    ensures s.users.Keys <= Step(policy, s, e).users.Keys
  {
    hide DisplayNameKey, PurgeExpired, SoftDelete, AddNamedUser, AddUser;
    match e.op
    case BootstrapAdmin(name, hash, id) => NamedUserKeepsAccounts(s, id, StoredUser(name, Some(hash), true));
    case Redeem(name, hash, code, id) => RedeemKeepsAccounts(s, name, hash, code, id);
    case NewUser(name, hash, isAdmin, id) => NamedUserKeepsAccounts(s, id, StoredUser(name, Some(hash), isAdmin));
    case Ephemeral(id, name) => UserKeepsAccounts(s, id, StoredUser(name, None, false));
    case Delete(id, actor, isAdmin, auditId) => MessagesOnly(policy, s, e);
    case Purge => MessagesOnly(policy, s, e);
    case _ =>
  }

  lemma UserKeepsAccounts(s: Store, id: string, user: StoredUser)
    requires AccountsOk(s) && id !in s.users
    ensures AccountsOk(AddUser(s, id, user)) && s.users.Keys <= AddUser(s, id, user).users.Keys
  {
    hide DisplayNameKey;
  }

  /** The index entry is new, or the user keeps its key. */
  lemma NamedUserKeepsAccounts(s: Store, freshId: string, user: StoredUser)
    requires AccountsOk(s) && freshId !in s.users
    ensures var key := DisplayNameKey(user.displayName);
            var id := if key in s.displayNameIndex then s.displayNameIndex[key] else freshId;
            AccountsOk(AddNamedUser(s, id, user)) && s.users.Keys <= AddNamedUser(s, id, user).users.Keys
  {
    hide DisplayNameKey;
  }

  lemma RedeemKeepsAccounts(s: Store, name: string, hash: string, code: string, freshId: string)
    requires AccountsOk(s) && freshId !in s.users
    ensures var s' := CreateUserWithInvite(s, name, hash, code, freshId).0;
            AccountsOk(s') && s.users.Keys <= s'.users.Keys
  {
    hide DisplayNameKey, AddNamedUser;
    NamedUserKeepsAccounts(s, freshId, StoredUser(name, Some(hash), false));
    if CreateUserWithInvite(s, name, hash, code, freshId).1.Created? {
      assert freshId in AddNamedUser(s, freshId, StoredUser(name, Some(hash), false)).users by {
        NamedUserIsThere(s, freshId, StoredUser(name, Some(hash), false));
      }
    }
  }

  lemma NamedUserIsThere(s: Store, id: string, user: StoredUser)
    ensures id in AddNamedUser(s, id, user).users && AddNamedUser(s, id, user).invites == s.invites
  {
  }

  lemma MessagesOnly(policy: RetentionPolicy, s: Store, e: Event)
    requires e.op.Delete? || e.op.Purge?
    ensures var s' := Step(policy, s, e);
            s'.users == s.users && s'.displayNameIndex == s.displayNameIndex && s'.invites == s.invites
            && s'.sessions == s.sessions
  {
  }

  lemma {:induction false} RunKeepsAccounts(policy: RetentionPolicy, events: seq<Event>)
    requires AllFresh(policy, events)
    ensures AccountsOk(Run(policy, EMPTY, events))
  {
    hide AccountsOk, DrawsFresh, Step;
    if events == [] {
      NoAccounts();
    } else {
      RunKeepsAccounts(policy, Init(events));
      StepKeepsAccounts(policy, Run(policy, EMPTY, Init(events)), Last(events));
    }
  }

  lemma NoAccounts()
    ensures AccountsOk(EMPTY)
  {
  }

  /** In every reachable store two names share a user only if they are the same name; a name is
      found exactly when it is indexed, and a session exactly when its token is known. */
  lemma ReachableAccounts(policy: RetentionPolicy, events: seq<Event>)
    requires AllFresh(policy, events)
    ensures var s := Run(policy, EMPTY, events);
            && (forall k, l | k in s.displayNameIndex && l in s.displayNameIndex ::
                  s.displayNameIndex[k] == s.displayNameIndex[l] ==> k == l)
            && (forall name: string ::
                  FindUserByDisplayName(s, name).Some? <==> DisplayNameKey(name) in s.displayNameIndex)
            && (forall name: string :: FindUserByDisplayName(s, name).Some? ==>
                  DisplayNameKey(FindUserByDisplayName(s, name).value.displayName) == DisplayNameKey(name))
            && (forall token :: ValidateSession(s, token).Some? <==> token in s.sessions)
  {
    hide DisplayNameKey, Run;
    RunKeepsAccounts(policy, events);
  }

  /** A new account is found under every spelling of its name, and its sessions validate. */
  lemma CreatedAccountIsFound(s: Store, name: string, hash: string, isAdmin: bool, freshId: string,
                              spelling: string, token: string)
    requires DisplayNameKey(spelling) == DisplayNameKey(name)
    ensures var (s', r) := CreateUserWithPasswordHash(s, name, hash, isAdmin, freshId);
            && (r.Created? <==> DisplayNameKey(name) !in s.displayNameIndex)
            && (r.Created? ==>
                  && FindUserByDisplayName(s', spelling) == Some(r.account)
                  && CreateSession(s', token, freshId).1 == Some(SessionInfo(freshId, name, isAdmin))
                  && ValidateSession(CreateSession(s', token, freshId).0, token)
                     == CreateSession(s', token, freshId).1)
  {
    hide DisplayNameKey;
  }

  /** The bootstrap administrator is found under its name, keeps the identity the name had, and
      no other name is affected. */
  lemma BootstrapAdminIsFound(s: Store, name: string, hash: string, freshId: string, other: string)
    requires AccountsOk(s) && freshId !in s.users
    ensures var (s', account) := EnsureBootstrapAdmin(s, name, hash, freshId);
            && FindUserByDisplayName(s', name) == Some(account)
            && account.isAdmin && account.passwordHash == Some(hash) && account.displayName == name
            && (FindUserByDisplayName(s, name).None? ==> account.userId == freshId)
            && (FindUserByDisplayName(s, name).Some? ==> account.userId == FindUserByDisplayName(s, name).value.userId)
            && (DisplayNameKey(other) != DisplayNameKey(name) ==>
                  FindUserByDisplayName(s', other) == FindUserByDisplayName(s, other))
  {
    hide DisplayNameKey;
  }

  /** No name leads to an ephemeral user, and no lookup changes. */
  lemma EphemeralUserIsUnnamed(s: Store, id: string, name: string, other: string)
    requires AccountsOk(s) && id !in s.users
    ensures var s' := RegisterEphemeralUser(s, id, name);
            && FindUserByDisplayName(s', other) == FindUserByDisplayName(s, other)
            && (FindUserByDisplayName(s', other).Some? ==> FindUserByDisplayName(s', other).value.userId != id)
  {
    hide DisplayNameKey;
  }

  /** How many accounts were created with the invite. */
  function Redemptions(policy: RetentionPolicy, events: seq<Event>, code: string): nat {
    if events == [] then 0
    else
      var s := Run(policy, EMPTY, Init(events));
      var op := Last(events).op;
      Redemptions(policy, Init(events), code) +
      if op.Redeem? && op.code == code
         && CreateUserWithInvite(s, op.displayName, op.hash, op.code, op.freshId).1.Created?
      then 1 else 0
  }

  predicate IsConsumed(s: Store, code: string) {
    code in s.invites && s.invites[code].Some?
  }

  predicate RedeemsNow(s: Store, op: Op, code: string) {
    && op.Redeem? && op.code == code
    && CreateUserWithInvite(s, op.displayName, op.hash, op.code, op.freshId).1.Created?
  }

  /** The code is never issued again once it has been used; issuing it again before is harmless. */
  predicate NeverReissued(policy: RetentionPolicy, events: seq<Event>, code: string) {
    events == [] ||
    (&& NeverReissued(policy, Init(events), code)
     && !(Last(events).op == NewInvite(code) && IsConsumed(Run(policy, EMPTY, Init(events)), code)))
  }

  /** At every moment the invite has yielded one account if it is marked as consumed, else none. */
  predicate OneAccountThroughout(policy: RetentionPolicy, events: seq<Event>, code: string) {
    && (events == [] || OneAccountThroughout(policy, Init(events), code))
    && Redemptions(policy, events, code) == if IsConsumed(Run(policy, EMPTY, events), code) then 1 else 0
  }

  /** In any run, with any identifiers, an invite accounts for exactly the account it has yielded at
      every moment if and only if its code is never issued again once used. */
  lemma {:induction false} InviteYieldsOneAccountIff(policy: RetentionPolicy, events: seq<Event>, code: string)
    ensures OneAccountThroughout(policy, events, code) <==> NeverReissued(policy, events, code)
  {
    hide Step, IsConsumed, RedeemsNow;
    if events == [] {
      assert !IsConsumed(EMPTY, code) by { NothingConsumed(code); }
    } else {
      InviteYieldsOneAccountIff(policy, Init(events), code);
      InvitesChange(policy, Run(policy, EMPTY, Init(events)), Last(events), code);
      RedemptionsLast(policy, events, code);
    }
  }

  lemma NothingConsumed(code: string)
    ensures !IsConsumed(EMPTY, code)
  {
  }

  lemma RedemptionsLast(policy: RetentionPolicy, events: seq<Event>, code: string)
    requires events != []
    ensures Redemptions(policy, events, code) == Redemptions(policy, Init(events), code) +
              if RedeemsNow(Run(policy, EMPTY, Init(events)), Last(events).op, code) then 1 else 0
  {
  }

  /** One step marks the invite by redeeming it and unmarks it by issuing its code again. */
  lemma InvitesChange(policy: RetentionPolicy, s: Store, e: Event, code: string)
    ensures RedeemsNow(s, e.op, code) ==> !IsConsumed(s, code)
    ensures IsConsumed(Step(policy, s, e), code) <==>
              (IsConsumed(s, code) && e.op != NewInvite(code)) || RedeemsNow(s, e.op, code)
  {
    hide DisplayNameKey, SoftDelete, PurgeExpired;
    match e.op
    case Purge => AccountsUntouched(policy, s, e);
    case Delete(_, _, _, _) => AccountsUntouched(policy, s, e);
    case _ =>
  }

  lemma AccountsUntouched(policy: RetentionPolicy, s: Store, e: Event)
    requires e.op.Delete? || e.op.Purge?
    ensures var s' := Step(policy, s, e);
            s'.displayNameIndex == s.displayNameIndex && s'.invites == s.invites
  {
  }

  /** With fresh codes each invite yields at most one account, and is marked once it has. */
  lemma {:induction false} InviteYieldsOneAccount(policy: RetentionPolicy, events: seq<Event>, code: string)
    requires AllFresh(policy, events)
    ensures var s := Run(policy, EMPTY, events);
            Redemptions(policy, events, code) == if code in s.invites && s.invites[code].Some? then 1 else 0
  {
    hide Redemptions, Run, NeverReissued;
    FreshCodesAreNotReissued(policy, events, code);
    InviteYieldsOneAccountIff(policy, events, code);
  }

  lemma {:induction false} FreshCodesAreNotReissued(policy: RetentionPolicy, events: seq<Event>, code: string)
    requires AllFresh(policy, events)
    ensures NeverReissued(policy, events, code)
  {
    hide Run;
    if events == [] {
    } else {
      FreshCodesAreNotReissued(policy, Init(events), code);
    }
  }

  /** Issuing a consumed code again lets it be redeemed again. */
  lemma ReissuedInviteIsRedeemable(s: Store, code: string, name: string, hash: string, freshId: string)
    requires code in s.invites && s.invites[code].Some? && DisplayNameKey(name) !in s.displayNameIndex
    ensures CreateUserWithInvite(s, name, hash, code, freshId).1 == InvalidInvite
    ensures CreateUserWithInvite(CreateInvite(s, code), name, hash, code, freshId).1.Created?
  {
    hide DisplayNameKey;
  }

  /** So a used code that is issued again can yield a second account, under any free name. */
  lemma ReissueYieldsSecondAccount(policy: RetentionPolicy, events: seq<Event>, code: string, name: string,
                                   hash: string, freshId: string, now: u64)
    requires NeverReissued(policy, events, code) && IsConsumed(Run(policy, EMPTY, events), code)
    requires DisplayNameKey(name) !in Run(policy, EMPTY, events).displayNameIndex
    ensures var reissue, redeem := Event(now, NewInvite(code)), Event(now, Redeem(name, hash, code, freshId));
            Redemptions(policy, events + [reissue] + [redeem], code) == 2
  {
    hide Run, Redemptions, NeverReissued, DisplayNameKey;
    var reissue, redeem := Event(now, NewInvite(code)), Event(now, Redeem(name, hash, code, freshId));
    var s, mid := Run(policy, EMPTY, events), events + [reissue];
    InviteYieldsOneAccountIff(policy, events, code);
    RunAppend(policy, EMPTY, events, reissue);
    assert Init(mid) == events && Last(mid) == reissue;
    RedemptionsLast(policy, mid, code);
    assert Init(mid + [redeem]) == mid && Last(mid + [redeem]) == redeem;
    RedemptionsLast(policy, mid + [redeem], code);
    ReissuedInviteIsRedeemable(s, code, name, hash, freshId);
  }

  // ----- Deletions and the audit log -----

  /** The message last saved under the identifier. */
  function Saved(events: seq<Event>, id: string): Option<ChatMessage> {
    if events == [] then None
    else if Last(events).op.Save? && Last(events).op.message.id == id then Some(Last(events).op.message)
    else Saved(Init(events), id)
  }

  /** What the audit log ought to say about every successful deletion, oldest first: the deleted
      message as it was saved, who deleted it and when. */
  function Deletions(policy: RetentionPolicy, events: seq<Event>): seq<AuditEntry> {
    if events == [] then []
    else
      var s, e := Run(policy, EMPTY, Init(events)), Last(events);
      Deletions(policy, Init(events)) +
      if e.op.Delete? && CanDelete(s, e.op.id, e.op.actor, e.op.isAdmin) && Saved(Init(events), e.op.id).Some?
      then [AuditOf(Saved(Init(events), e.op.id).value, e.op.actor, e.now, e.op.auditId)] else []
  }

  /** The three outcomes of a delete request, and what it leaves alone. */
  lemma DeleteOutcome(s: Store, id: string, actor: string, isAdmin: bool, now: u64, auditId: string)
    ensures var (s', r) := SoftDelete(s, id, actor, isAdmin, now, auditId);
            && (r.Deleted? <==> CanDelete(s, id, actor, isAdmin))
            && (r.NotFound? <==> id !in s.messages || s.messages[id].deletedAt.Some?)
            && (!r.Deleted? ==> s' == s)
            && (r.Deleted? ==>
                  && r == Deleted(id, s.messages[id].message.channelId, actor, now)
                  && SoftDelete(s', id, actor, isAdmin, now, auditId) == (s', NotFound)
                  && s'.messages.Keys == s.messages.Keys
                  && forall other :: other in s.messages && other != id ==> s'.messages[other] == s.messages[other])
  {
  }

  /** The cutoff of the last purge, or zero. */
  function AuditCutoff(policy: RetentionPolicy, events: seq<Event>): u64 {
    if events == [] then 0
    else if Last(events).op.Purge? then Cutoff(policy.auditLogDays, Last(events).now)
    else AuditCutoff(policy, Init(events))
  }

  /** No message identifier is saved twice. */
  predicate FreshMessages(events: seq<Event>) {
    events == [] ||
    (FreshMessages(Init(events)) && (Last(events).op.Save? ==> Saved(Init(events), Last(events).op.message.id) == None))
  }

  predicate ClockMonotone(events: seq<Event>) {
    forall i, j :: 0 <= i < j < |events| ==> events[i].now <= events[j].now
  }

  /** The stored messages are saved ones, and the deleted ones among them are marked. */
  ghost predicate MessagesOk(s: Store, events: seq<Event>, deletions: seq<AuditEntry>) {
    && (forall id :: id in s.messages ==>
          s.messages[id].message.id == id && Saved(events, id) == Some(s.messages[id].message))
    && (forall i :: 0 <= i < |deletions| ==> Saved(events, deletions[i].targetMessage).Some?)
    && (forall i :: 0 <= i < |deletions| && deletions[i].targetMessage in s.messages ==>
          s.messages[deletions[i].targetMessage].deletedAt.Some?)
    && (forall i, j :: 0 <= i < j < |deletions| ==> deletions[i].targetMessage != deletions[j].targetMessage)
  }

  lemma {:induction false} RunKeepsMessages(policy: RetentionPolicy, events: seq<Event>)
    requires FreshMessages(events)
    ensures MessagesOk(Run(policy, EMPTY, events), events, Deletions(policy, events))
  {
    hide MessagesOk, Step, Saved, CanDelete;
    if events == [] {
      NoMessages();
    } else {
      var s, e, deletions := Run(policy, EMPTY, Init(events)), Last(events), Deletions(policy, Init(events));
      RunKeepsMessages(policy, Init(events));
      assert deletions + [] == deletions;
      match e.op
      case Save(_) => SaveKeepsMessages(policy, s, events, deletions);
      case Delete(_, _, _, _) => DeleteKeepsMessages(policy, s, events, deletions);
      case _ => OtherKeepsMessages(policy, s, events, deletions);
    }
  }

  lemma NoMessages()
    ensures MessagesOk(EMPTY, [], [])
  {
  }

  lemma SaveKeepsMessages(policy: RetentionPolicy, s: Store, events: seq<Event>, deletions: seq<AuditEntry>)
    requires events != [] && MessagesOk(s, Init(events), deletions) && FreshMessages(events) && Last(events).op.Save?
    ensures MessagesOk(Step(policy, s, Last(events)), events, deletions)
  {
  }

  /** What a successful deletion does to the messages, and what it logs. */
  lemma DeleteKeepsMessages(policy: RetentionPolicy, s: Store, events: seq<Event>, deletions: seq<AuditEntry>)
    requires events != [] && MessagesOk(s, Init(events), deletions) && Last(events).op.Delete?
    ensures var e := Last(events);
            var saved := Saved(Init(events), e.op.id);
            MessagesOk(Step(policy, s, e), events,
                       deletions + if CanDelete(s, e.op.id, e.op.actor, e.op.isAdmin) && saved.Some?
                                   then [AuditOf(saved.value, e.op.actor, e.now, e.op.auditId)] else [])
  {
    hide DisplayNameKey, Cutoff, KeepFrom, PurgeExpired, AddNamedUser;
    assert deletions + [] == deletions;
  }

  lemma OtherKeepsMessages(policy: RetentionPolicy, s: Store, events: seq<Event>, deletions: seq<AuditEntry>)
    requires events != [] && MessagesOk(s, Init(events), deletions)
    requires !Last(events).op.Save? && !Last(events).op.Delete?
    ensures MessagesOk(Step(policy, s, Last(events)), events, deletions)
  {
    hide Step;
    MessagesOnlyShrink(policy, s, Last(events));
  }

  lemma MessagesOnlyShrink(policy: RetentionPolicy, s: Store, e: Event)
    requires !e.op.Save? && !e.op.Delete?
    ensures var s' := Step(policy, s, e);
            forall id :: id in s'.messages ==> id in s.messages && s'.messages[id] == s.messages[id]
  {
    hide DisplayNameKey, Cutoff, KeepFrom;
  }

  /** A message is deleted at most once, and once deleted it is in no later history. */
  lemma DeletedOnceAndForAll(policy: RetentionPolicy, events: seq<Event>, channel: string, now: u64)
    requires FreshMessages(events)
    ensures var deletions := Deletions(policy, events);
            && (forall i, j :: 0 <= i < j < |deletions| ==> deletions[i].targetMessage != deletions[j].targetMessage)
            && (forall i, m ::
                  0 <= i < |deletions| && m in Visible(Run(policy, EMPTY, events), policy, channel, now) ==>
                    m.id != deletions[i].targetMessage)
  {
    hide Deletions, Run, Cutoff;
    RunKeepsMessages(policy, events);
  }

  lemma CutoffGrows(days: u64, earlier: u64, later: u64)
    requires earlier <= later
    ensures Cutoff(days, earlier) <= Cutoff(days, later) <= later
  {
  }

  lemma {:induction false} AuditCutoffGrows(policy: RetentionPolicy, events: seq<Event>, now: u64)
    requires forall i :: 0 <= i < |events| ==> events[i].now <= now
    ensures AuditCutoff(policy, events) <= Cutoff(policy.auditLogDays, now)
  {
    hide Cutoff;
    if events == [] {
      CutoffGrows(policy.auditLogDays, 0, now);
    } else {
      AuditCutoffGrows(policy, Init(events), now);
      CutoffGrows(policy.auditLogDays, Last(events).now, now);
    }
  }

  lemma {:induction false} KeepFromTwice(log: seq<AuditEntry>, earlier: u64, later: u64)
    requires earlier <= later
    ensures KeepFrom(KeepFrom(log, earlier), later) == KeepFrom(log, later)
  {
    if log == [] {
    } else {
      var n := |log| - 1;
      KeepFromTwice(log[..n], earlier, later);
      var kept := KeepFrom(log[..n], earlier);
      if log[n].unixMs >= earlier {
        assert (kept + [log[n]])[..|kept|] == kept;
      } else {
        assert kept + [] == kept && KeepFrom(log[..n], later) + [] == KeepFrom(log[..n], later);
      }
    }
  }

  lemma KeepFromAppend(log: seq<AuditEntry>, entry: AuditEntry, cutoff: u64)
    requires entry.unixMs >= cutoff
    ensures KeepFrom(log + [entry], cutoff) == KeepFrom(log, cutoff) + [entry]
  {
    assert (log + [entry])[..|log|] == log;
  }

  /** The audit log is exactly the deletions not older than the last purge's cutoff, in order,
      each with the body, author and channel that were saved and the actor that deleted. */
  lemma {:induction false} AuditLogIsDeletions(policy: RetentionPolicy, events: seq<Event>)
    requires FreshMessages(events) && ClockMonotone(events)
    ensures Run(policy, EMPTY, events).auditLog == KeepFrom(Deletions(policy, events), AuditCutoff(policy, events))
  {
    hide Step, KeepFrom, Cutoff;
    if events == [] {
      NothingKept();
    } else {
      var s, e := Run(policy, EMPTY, Init(events)), Last(events);
      AuditLogIsDeletions(policy, Init(events));
      AuditCutoffGrows(policy, Init(events), e.now);
      match e.op
      case Delete(_, _, _, _) => DeleteExtendsAudit(policy, events);
      case Purge =>
        assert Step(policy, s, e).auditLog == KeepFrom(s.auditLog, Cutoff(policy.auditLogDays, e.now)) by {
          PurgeCutsAudit(policy, s, e);
        }
        KeepFromTwice(Deletions(policy, Init(events)), AuditCutoff(policy, Init(events)),
                      Cutoff(policy.auditLogDays, e.now));
        assert Deletions(policy, Init(events)) + [] == Deletions(policy, Init(events));
      case _ =>
        AuditUntouched(policy, s, e);
        assert Deletions(policy, Init(events)) + [] == Deletions(policy, Init(events));
    }
  }

  lemma NothingKept()
    ensures KeepFrom([], 0) == []
  {
  }

  lemma PurgeCutsAudit(policy: RetentionPolicy, s: Store, e: Event)
    requires e.op.Purge?
    ensures Step(policy, s, e).auditLog == KeepFrom(s.auditLog, Cutoff(policy.auditLogDays, e.now))
  {
  }

  lemma AuditUntouched(policy: RetentionPolicy, s: Store, e: Event)
    requires !e.op.Delete? && !e.op.Purge?
    ensures Step(policy, s, e).auditLog == s.auditLog
  {
    hide DisplayNameKey;
  }

  lemma DeleteExtendsAudit(policy: RetentionPolicy, events: seq<Event>)
    requires events != [] && FreshMessages(events) && Last(events).op.Delete?
    requires AuditCutoff(policy, Init(events)) <= Cutoff(policy.auditLogDays, Last(events).now)
    requires Run(policy, EMPTY, Init(events)).auditLog
          == KeepFrom(Deletions(policy, Init(events)), AuditCutoff(policy, Init(events)))
    ensures Run(policy, EMPTY, events).auditLog == KeepFrom(Deletions(policy, events), AuditCutoff(policy, events))
  {
    hide KeepFrom, Cutoff, Saved, Run, Step, CanDelete;
    var s, e := Run(policy, EMPTY, Init(events)), Last(events);
    CutoffGrows(policy.auditLogDays, e.now, e.now);
    assert Run(policy, EMPTY, events) == Step(policy, s, e) by { RunLast(policy, events); }
    DeleteLogs(policy, s, e);
    if CanDelete(s, e.op.id, e.op.actor, e.op.isAdmin) {
      StoredIsSaved(policy, events, e.op.id);
      var entry := AuditOf(s.messages[e.op.id].message, e.op.actor, e.now, e.op.auditId);
      KeepFromAppend(Deletions(policy, Init(events)), entry, AuditCutoff(policy, Init(events)));
    } else {
      assert Deletions(policy, Init(events)) + [] == Deletions(policy, Init(events));
    }
  }

  lemma RunLast(policy: RetentionPolicy, events: seq<Event>)
    requires events != []
    ensures Run(policy, EMPTY, events) == Step(policy, Run(policy, EMPTY, Init(events)), Last(events))
  {
  }

  lemma DeleteLogs(policy: RetentionPolicy, s: Store, e: Event)
    requires e.op.Delete?
    ensures CanDelete(s, e.op.id, e.op.actor, e.op.isAdmin) ==> e.op.id in s.messages
    ensures Step(policy, s, e).auditLog ==
              if CanDelete(s, e.op.id, e.op.actor, e.op.isAdmin)
              then s.auditLog + [AuditOf(s.messages[e.op.id].message, e.op.actor, e.now, e.op.auditId)]
              else s.auditLog
  {
  }

  lemma StoredIsSaved(policy: RetentionPolicy, events: seq<Event>, id: string)
    requires events != [] && FreshMessages(events) && id in Run(policy, EMPTY, Init(events)).messages
    ensures Saved(Init(events), id) == Some(Run(policy, EMPTY, Init(events)).messages[id].message)
  {
    RunKeepsMessages(policy, Init(events));
  }

  // ----- Purging is invisible -----

  type Messages = map<string, MemoryMessage>

  /** The two agree on every message from `cutoff` on. */
  ghost predicate AgreeFrom(m: Messages, m': Messages, cutoff: u64) {
    && (forall id :: id in m && m[id].message.unixMs >= cutoff ==> id in m' && m'[id] == m[id])
    && (forall id :: id in m' && m'[id].message.unixMs >= cutoff ==> id in m && m[id] == m'[id])
  }

  lemma StepKeepsAgreement(policy: RetentionPolicy, s: Store, s': Store, cutoff: u64, e: Event)
    requires AgreeFrom(s.messages, s'.messages, cutoff) && cutoff <= Cutoff(policy.visibleHistoryDays, e.now)
    ensures AgreeFrom(Step(policy, s, e).messages, Step(policy, s', e).messages, cutoff)
  {
    hide Step, CanDelete;
    match e.op
    case Save(m) => SaveKeepsAgreement(policy, s, s', cutoff, e);
    case Delete(_, _, _, _) =>
      DeleteMarks(policy, s, e);
      DeleteMarks(policy, s', e);
      DeleteKeepsAgreement(s, s', cutoff, e);
    case Purge => PurgeKeepsAgreement(policy, s, s', cutoff, e);
    case _ =>
      MessagesUntouched(policy, s, e);
      MessagesUntouched(policy, s', e);
  }

  lemma SaveKeepsAgreement(policy: RetentionPolicy, s: Store, s': Store, cutoff: u64, e: Event)
    requires AgreeFrom(s.messages, s'.messages, cutoff) && e.op.Save?
    ensures AgreeFrom(Step(policy, s, e).messages, Step(policy, s', e).messages, cutoff)
  {
  }

  function Marked(s: Store, e: Event): Messages
    requires e.op.Delete?
  {
    if CanDelete(s, e.op.id, e.op.actor, e.op.isAdmin) then
      s.messages[e.op.id := MemoryMessage(s.messages[e.op.id].message, Some(e.now), Some(e.op.actor))]
    else s.messages
  }

  lemma DeleteMarks(policy: RetentionPolicy, s: Store, e: Event)
    requires e.op.Delete?
    ensures Step(policy, s, e).messages == Marked(s, e)
  {
  }

  lemma DeleteKeepsAgreement(s: Store, s': Store, cutoff: u64, e: Event)
    requires AgreeFrom(s.messages, s'.messages, cutoff) && e.op.Delete?
    ensures AgreeFrom(Marked(s, e), Marked(s', e), cutoff)
  {
    var id := e.op.id;
    if id in s.messages && s.messages[id].message.unixMs >= cutoff {
      assert id in s'.messages && s'.messages[id] == s.messages[id];
      assert CanDelete(s, id, e.op.actor, e.op.isAdmin) == CanDelete(s', id, e.op.actor, e.op.isAdmin) by {
        SameMessageSameRight(s, s', id, e.op.actor, e.op.isAdmin);
      }
    }
  }

  lemma SameMessageSameRight(s: Store, s': Store, id: string, actor: string, isAdmin: bool)
    requires id in s.messages && id in s'.messages && s.messages[id] == s'.messages[id]
    ensures CanDelete(s, id, actor, isAdmin) == CanDelete(s', id, actor, isAdmin)
  {
  }

  lemma PurgeKeepsAgreement(policy: RetentionPolicy, s: Store, s': Store, cutoff: u64, e: Event)
    requires AgreeFrom(s.messages, s'.messages, cutoff) && e.op.Purge?
    ensures AgreeFrom(Step(policy, s, e).messages, Step(policy, s', e).messages, cutoff)
  {
    hide Cutoff, KeepFrom;
  }

  lemma MessagesUntouched(policy: RetentionPolicy, s: Store, e: Event)
    requires !e.op.Save? && !e.op.Delete? && !e.op.Purge?
    ensures Step(policy, s, e).messages == s.messages
  {
    hide DisplayNameKey;
  }

  lemma {:induction false} RunKeepsAgreement(policy: RetentionPolicy, s: Store, s': Store, cutoff: u64,
                                             events: seq<Event>)
    requires AgreeFrom(s.messages, s'.messages, cutoff)
    requires forall i :: 0 <= i < |events| ==> cutoff <= Cutoff(policy.visibleHistoryDays, events[i].now)
    ensures AgreeFrom(Run(policy, s, events).messages, Run(policy, s', events).messages, cutoff)
  {
    hide Cutoff, Step, AgreeFrom;
    if events == [] {
    } else {
      RunKeepsAgreement(policy, s, s', cutoff, Init(events));
      StepKeepsAgreement(policy, Run(policy, s, Init(events)), Run(policy, s', Init(events)), cutoff, Last(events));
    }
  }

  lemma AgreementShows(s: Store, s': Store, cutoff: u64, policy: RetentionPolicy, channel: string, now: u64)
    requires AgreeFrom(s.messages, s'.messages, cutoff) && cutoff <= Cutoff(policy.visibleHistoryDays, now)
    ensures Visible(s, policy, channel, now) == Visible(s', policy, channel, now)
  {
    hide Cutoff;
  }

  /** A purge inserted anywhere, at a time no later than what follows, changes no later query:
      the messages a query chooses from are the same, hence so are its possible answers. */
  lemma PurgeIsInvisible(policy: RetentionPolicy, s: Store, purge: u64, later: seq<Event>, channel: string, now: u64)
    requires purge <= now && forall i :: 0 <= i < |later| ==> purge <= later[i].now
    ensures Visible(Run(policy, PurgeExpired(s, policy, purge), later), policy, channel, now)
         == Visible(Run(policy, s, later), policy, channel, now)
  {
    hide Visible, Run;
    var cutoff := Cutoff(policy.visibleHistoryDays, purge);
    forall i | 0 <= i < |later| ensures cutoff <= Cutoff(policy.visibleHistoryDays, later[i].now) {
      CutoffGrows(policy.visibleHistoryDays, purge, later[i].now);
    }
    CutoffGrows(policy.visibleHistoryDays, purge, now);
    PurgeAgrees(policy, s, purge);
    RunKeepsAgreement(policy, PurgeExpired(s, policy, purge), s, cutoff, later);
    AgreementShows(Run(policy, PurgeExpired(s, policy, purge), later), Run(policy, s, later), cutoff, policy, channel,
                   now);
  }

  lemma PurgeAgrees(policy: RetentionPolicy, s: Store, purge: u64)
    ensures AgreeFrom(PurgeExpired(s, policy, purge).messages, s.messages, Cutoff(policy.visibleHistoryDays, purge))
  {
    hide Cutoff, KeepFrom;
  }

  lemma {:induction false} KeptFrom(log: seq<AuditEntry>, cutoff: u64, e: AuditEntry)
    ensures e in KeepFrom(log, cutoff) <==> e in log && e.unixMs >= cutoff
  {
    if log == [] {
    } else {
      KeptFrom(log[..|log| - 1], cutoff, e);
      assert log == log[..|log| - 1] + [log[|log| - 1]];
    }
  }

  /** A purge keeps exactly the messages and audit entries that are young enough. */
  lemma PurgeKeepsWindow(s: Store, policy: RetentionPolicy, now: u64, id: string, e: AuditEntry)
    ensures var s' := PurgeExpired(s, policy, now);
            && (id in s'.messages <==>
                  id in s.messages && now - s.messages[id].message.unixMs <= policy.visibleHistoryDays * DAY_MS)
            && (id in s'.messages ==> s'.messages[id] == s.messages[id])
            && (e in s'.auditLog <==> e in s.auditLog && now - e.unixMs <= policy.auditLogDays * DAY_MS)
  {
    hide Cutoff, KeepFrom;
    KeptFrom(s.auditLog, Cutoff(policy.auditLogDays, now), e);
    CutoffIsWindow(policy.auditLogDays, now, e.unixMs);
    if id in s.messages {
      CutoffIsWindow(policy.visibleHistoryDays, now, s.messages[id].message.unixMs);
    }
  }

  // ----- Audit queries -----

  lemma {:induction false} KeepFromAscending(log: seq<AuditEntry>, cutoff: u64, top: u64)
    requires StableSort.Ascending(log, EntryTime) && forall i :: 0 <= i < |log| ==> log[i].unixMs <= top
    ensures var kept := KeepFrom(log, cutoff);
            StableSort.Ascending(kept, EntryTime) && forall i :: 0 <= i < |kept| ==> kept[i].unixMs <= top
  {
    if log == [] {
    } else {
      var n := |log| - 1;
      assert forall i :: 0 <= i < n ==> EntryTime(log[i]) <= EntryTime(log[n]);
      var kept := KeepFrom(log[..n], cutoff);
      KeepFromAscending(log[..n], cutoff, log[n].unixMs);
      AscendingAppend(kept, log[n]);
      assert KeepFrom(log, cutoff) == if log[n].unixMs >= cutoff then kept + [log[n]] else kept;
    }
  }

  lemma AscendingAppend(log: seq<AuditEntry>, e: AuditEntry)
    requires StableSort.Ascending(log, EntryTime) && forall i :: 0 <= i < |log| ==> log[i].unixMs <= e.unixMs
    ensures StableSort.Ascending(log + [e], EntryTime)
  {
  }

  lemma {:induction false} AuditLogAscends(policy: RetentionPolicy, events: seq<Event>, now: u64)
    requires ClockMonotone(events) && forall i :: 0 <= i < |events| ==> events[i].now <= now
    ensures var log := Run(policy, EMPTY, events).auditLog;
            StableSort.Ascending(log, EntryTime) && forall i :: 0 <= i < |log| ==> log[i].unixMs <= now
  {
    hide Step, KeepFrom, Cutoff;
    if events == [] {
    } else {
      var s, e := Run(policy, EMPTY, Init(events)), Last(events);
      AuditLogAscends(policy, Init(events), e.now);
      match e.op
      case Delete(_, _, _, _) => DeleteAppendsAudit(policy, s, e);
      case Purge =>
        PurgeCutsAudit(policy, s, e);
        KeepFromAscending(s.auditLog, Cutoff(policy.auditLogDays, e.now), e.now);
      case _ => AuditUntouched(policy, s, e);
    }
  }

  lemma DeleteAppendsAudit(policy: RetentionPolicy, s: Store, e: Event)
    requires e.op.Delete?
    ensures var log := Step(policy, s, e).auditLog;
            log == s.auditLog || exists entry: AuditEntry :: entry.unixMs == e.now && log == s.auditLog + [entry]
  {
  }

  /** An audit query returns the last entries that were written, in the order they were. */
  lemma AuditQueryIsTail(policy: RetentionPolicy, events: seq<Event>, limit: nat)
    requires ClockMonotone(events)
    ensures var s := Run(policy, EMPTY, events);
            AuditQuery(s, limit) == LastOf(s.auditLog, limit)
  {
    AuditLogAscends(policy, events, TWO_64 - 1);
    StableSort.SortedStays(Run(policy, EMPTY, events).auditLog, EntryTime);
  }
}
