/** The in-memory storage on values: accounts, invites, sessions, messages and the audit log.
    The clock and freshly drawn identifiers are parameters. */
module StorageModel {
  import opened Prelude
  import StableSort
  import Text

  const DAY_MS: u64 := 86_400_000

  datatype RetentionPolicy = RetentionPolicy(visibleHistoryDays: u64, auditLogDays: u64)

  datatype Account = Account(userId: string, displayName: string, passwordHash: Option<string>, isAdmin: bool)

  datatype SessionInfo = SessionInfo(userId: string, displayName: string, isAdmin: bool)

  datatype CreateAccountResult = Created(account: Account) | DisplayNameTaken | InvalidInvite

  datatype DeleteMessageResult =
    | Deleted(messageId: string, channelId: string, deletedBy: string, deletedAt: u64)
    | Forbidden
    | NotFound

  datatype ChatMessage = ChatMessage(
    id: string, channelId: string, userId: string, displayName: string, body: string, unixMs: u64)

  datatype AuditEntry = AuditEntry(
    id: string, actor: string, targetUser: string, targetMessage: string, channelId: string, body: string,
    unixMs: u64)

  datatype StoredUser = StoredUser(displayName: string, passwordHash: Option<string>, isAdmin: bool)

  datatype MemoryMessage = MemoryMessage(message: ChatMessage, deletedAt: Option<u64>, deletedBy: Option<string>)

  datatype Store = Store(
    users: map<string, StoredUser>,
    displayNameIndex: map<string, string>,
    /** The user that consumed each invite, if any. */
    invites: map<string, Option<string>>,
    sessions: map<string, string>,
    messages: map<string, MemoryMessage>,
    auditLog: seq<AuditEntry>)

  const EMPTY := Store(map[], map[], map[], map[], map[], [])

  function DisplayNameKey(displayName: string): string {
    Text.ToAsciiLowercase(Text.Trim(displayName))
  }

  /** `now` less the given number of days, both operations saturating in 64 bits. */
  function Cutoff(days: u64, now: u64): u64 {
    Max(now - Min(days * DAY_MS, TWO_64 - 1), 0)
  }

  /** A time is at or after the cutoff exactly when it is at most that many days ago; neither
      saturation can be noticed. */
  lemma CutoffIsWindow(days: u64, now: u64, t: u64)
    ensures t >= Cutoff(days, now) <==> now - t <= days * DAY_MS
  {
  }

  // ----- Accounts -----

  function AddUser(s: Store, id: string, user: StoredUser): Store {
    s.(users := s.users[id := user])
  }

  function AddNamedUser(s: Store, id: string, user: StoredUser): Store {
    AddUser(s.(displayNameIndex := s.displayNameIndex[DisplayNameKey(user.displayName) := id]), id, user)
  }

  function AccountOf(id: string, user: StoredUser): Account {
    Account(id, user.displayName, user.passwordHash, user.isAdmin)
  }

  function EnsureBootstrapAdmin(s: Store, displayName: string, hash: string, freshId: string): (Store, Account) {
    var key := DisplayNameKey(displayName);
    var id := if key in s.displayNameIndex then s.displayNameIndex[key] else freshId;
    var user := StoredUser(displayName, Some(hash), true);
    (AddNamedUser(s, id, user), AccountOf(id, user))
  }

  function CreateInvite(s: Store, code: string): Store {
    s.(invites := s.invites[code := None])
  }

  function CreateUserWithPasswordHash(s: Store, displayName: string, hash: string, isAdmin: bool, freshId: string)
    : (Store, CreateAccountResult)
  {
    if DisplayNameKey(displayName) in s.displayNameIndex then (s, DisplayNameTaken)
    else
      var user := StoredUser(displayName, Some(hash), isAdmin);
      (AddNamedUser(s, freshId, user), Created(AccountOf(freshId, user)))
  }

  function CreateUserWithInvite(s: Store, displayName: string, hash: string, code: string, freshId: string)
    : (Store, CreateAccountResult)
  {
    if code !in s.invites || s.invites[code].Some? then (s, InvalidInvite)
    else
      var (s', r) := CreateUserWithPasswordHash(s, displayName, hash, false, freshId);
      if r.Created? then (s'.(invites := s'.invites[code := Some(freshId)]), r) else (s, r)
  }

  function FindUserByDisplayName(s: Store, displayName: string): Option<Account> {
    var key := DisplayNameKey(displayName);
    if key !in s.displayNameIndex then None
    else
      var id := s.displayNameIndex[key];
      if id !in s.users then None else Some(AccountOf(id, s.users[id]))
  }

  function RegisterEphemeralUser(s: Store, id: string, displayName: string): Store {
    AddUser(s, id, StoredUser(displayName, None, false))
  }

  function SessionOf(id: string, user: StoredUser): SessionInfo {
    SessionInfo(id, user.displayName, user.isAdmin)
  }

  /** `None` is the error for a user that does not exist. */
  function CreateSession(s: Store, token: string, userId: string): (Store, Option<SessionInfo>) {
    if userId !in s.users then (s, None)
    else (s.(sessions := s.sessions[token := userId]), Some(SessionOf(userId, s.users[userId])))
  }

  function ValidateSession(s: Store, token: string): Option<SessionInfo> {
    if token !in s.sessions || s.sessions[token] !in s.users then None
    else Some(SessionOf(s.sessions[token], s.users[s.sessions[token]]))
  }

  // ----- Messages -----

  function SaveMessage(s: Store, message: ChatMessage): Store {
    s.(messages := s.messages[message.id := MemoryMessage(message, None, None)])
  }

  function AuditOf(message: ChatMessage, actor: string, now: u64, auditId: string): AuditEntry {
    AuditEntry(auditId, actor, message.userId, message.id, message.channelId, message.body, now)
  }

  /** The actor may delete the message and it is there to be deleted. */
  predicate CanDelete(s: Store, id: string, actor: string, isAdmin: bool) {
    id in s.messages && s.messages[id].deletedAt == None && (s.messages[id].message.userId == actor || isAdmin)
  }

  function SoftDelete(s: Store, id: string, actor: string, isAdmin: bool, now: u64, auditId: string)
    : (Store, DeleteMessageResult)
  {
    if id !in s.messages || s.messages[id].deletedAt.Some? then (s, NotFound)
    else if !CanDelete(s, id, actor, isAdmin) then (s, Forbidden)
    else
      var message := s.messages[id].message;
      (s.(messages := s.messages[id := MemoryMessage(message, Some(now), Some(actor))],
          auditLog := s.auditLog + [AuditOf(message, actor, now, auditId)]),
       Deleted(id, message.channelId, actor, now))
  }

  function KeepFrom(log: seq<AuditEntry>, cutoff: u64): seq<AuditEntry> {
    if log == [] then []
    else
      var n := |log| - 1;
      KeepFrom(log[..n], cutoff) + if log[n].unixMs >= cutoff then [log[n]] else []
  }

  function PurgeExpired(s: Store, policy: RetentionPolicy, now: u64): Store {
    s.(messages := map id | id in s.messages && s.messages[id].message.unixMs >= Cutoff(policy.visibleHistoryDays, now)
                     :: s.messages[id],
       auditLog := KeepFrom(s.auditLog, Cutoff(policy.auditLogDays, now)))
  }

  // ----- Queries -----

  predicate IsVisible(m: MemoryMessage, channel: string, cutoff: u64) {
    m.message.channelId == channel && m.deletedAt == None && m.message.unixMs >= cutoff
  }

  /** The messages a history query chooses from. */
  function Visible(s: Store, policy: RetentionPolicy, channel: string, now: u64): set<ChatMessage> {
    var cutoff := Cutoff(policy.visibleHistoryDays, now);
    set id | id in s.messages && IsVisible(s.messages[id], channel, cutoff) :: s.messages[id].message
  }

  function MessageTime(m: ChatMessage): int {
    m.unixMs
  }

  function EntryTime(e: AuditEntry): int {
    e.unixMs
  }

  function LastOf<T>(s: seq<T>, limit: nat): seq<T> {
    if |s| > limit then s[|s| - limit..] else s
  }

  /** A history: the newest messages, oldest first, as many as there are up to the limit. */
  ghost predicate IsHistory(r: seq<ChatMessage>, visible: set<ChatMessage>, limit: nat) {
    && |r| == Min(limit, |visible|)
    && StableSort.Distinct(r)
    && (forall m :: m in r ==> m in visible)
    && StableSort.Ascending(r, MessageTime)
    && (forall m, x :: m in visible && m !in r && x in r ==> m.unixMs <= x.unixMs)
  }

  /** The audit entries a query returns: the newest, oldest first. */
  function AuditQuery(s: Store, limit: nat): seq<AuditEntry> {
    LastOf(StableSort.Sort(s.auditLog, EntryTime), limit)
  }

  // ----- History queries -----

  /** `order` lists the visible messages, each once. */
  ghost predicate Lists(order: seq<ChatMessage>, visible: set<ChatMessage>) {
    StableSort.Distinct(order) && forall m :: m in order <==> m in visible
  }

  lemma OmittedAreOlder(sorted: seq<ChatMessage>, cut: nat, m: ChatMessage, x: ChatMessage)
    requires cut <= |sorted| && StableSort.Ascending(sorted, MessageTime)
    requires m in sorted && m !in sorted[cut..] && x in sorted[cut..]
    ensures m.unixMs <= x.unixMs
  {
    StableSort.SuffixHolds(sorted, cut);
    var i :| 0 <= i < |sorted| && sorted[i] == m;
    var j :| 0 <= j < |sorted| - cut && sorted[cut..][j] == x;
    assert MessageTime(sorted[i]) <= MessageTime(sorted[cut + j]);
  }

  /** The end of a sorted listing is a history. */
  lemma EndOfSortedIsHistory(sorted: seq<ChatMessage>, visible: set<ChatMessage>, limit: nat)
    requires Lists(sorted, visible) && StableSort.Ascending(sorted, MessageTime)
    ensures IsHistory(LastOf(sorted, limit), visible, limit)
  {
    StableSort.DistinctSize(sorted, visible);
    var cut := |sorted| - Min(limit, |sorted|);
    var r := LastOf(sorted, limit);
    assert r == sorted[cut..];
    forall m, x | m in visible && m !in r && x in r ensures m.unixMs <= x.unixMs {
      OmittedAreOlder(sorted, cut, m, x);
    }
  }

  /** Whatever order the messages are found in, sorting and cutting gives a history. */
  lemma QueryGivesHistory(order: seq<ChatMessage>, visible: set<ChatMessage>, limit: nat)
    requires Lists(order, visible)
    ensures IsHistory(LastOf(StableSort.Sort(order, MessageTime), limit), visible, limit)
  {
    StableSort.SortKeepsElements(order, MessageTime);
    EndOfSortedIsHistory(StableSort.Sort(order, MessageTime), visible, limit);
  }

  /** Every history is the outcome for some order in which the messages are found: together with
      the lemma above, the possible answers of a query are exactly the histories. */
  lemma HistoryIsPossible(r: seq<ChatMessage>, visible: set<ChatMessage>, limit: nat)
    requires IsHistory(r, visible, limit)
    ensures exists order :: Lists(order, visible) && LastOf(StableSort.Sort(order, MessageTime), limit) == r
  {
    hide StableSort.Sort;
    var list := StableSort.ListOf(visible - (set m | m in r));
    var older := StableSort.Sort(list, MessageTime);
    StableSort.SortKeepsElements(list, MessageTime);
    var order := older + r;
    OlderFirst(older, r, visible, limit);
    StableSort.SortedStays(order, MessageTime);
    StableSort.DistinctSize(order, visible);
    assert LastOf(order, limit) == r;
  }

  lemma OlderFirst(older: seq<ChatMessage>, r: seq<ChatMessage>, visible: set<ChatMessage>, limit: nat)
    requires IsHistory(r, visible, limit) && Lists(older, visible - (set m | m in r))
    requires StableSort.Ascending(older, MessageTime)
    ensures Lists(older + r, visible) && StableSort.Ascending(older + r, MessageTime)
  {
    var order := older + r;
    forall i, j | 0 <= i < j < |order|
      ensures order[i] != order[j] && MessageTime(order[i]) <= MessageTime(order[j])
    {
      if i < |older| <= j {
        assert order[i] in older && order[j] in r;
      }
    }
  }
}
