/**
 * A conversation's unread counters and delivery marks, what they equal after any run of sends, reads
 * and listings, and how its messages grow while a reader pages through them.
 */
module ChatLedger {
  import opened Common
  import ChatMessages

  type UserId = nat

  datatype Delivery = Sent | Delivered | Read

  datatype Message = Message(stamp: ChatMessages.Stamp, senderId: UserId, delivery: Delivery)

  /** `unread` counts per user id; the two mirrors are older fields that keep the same numbers by role. */
  datatype Conversation = Conversation(
    clientId: UserId, providerUserId: UserId,
    unread: map<UserId, int>, unreadClientCount: int, unreadProviderCount: int,
    messages: seq<Message>)

  // ---- Operations ----

  predicate Participant(c: Conversation, user: UserId) { user == c.clientId || user == c.providerUserId }

  function ReadUnread(unread: map<UserId, int>, user: UserId): nat {
    if user in unread then Max(unread[user], 0) else 0
  }

  function UnreadRecord(c: Conversation): map<UserId, int> {
    map[c.clientId := ReadUnread(c.unread, c.clientId)][c.providerUserId := ReadUnread(c.unread, c.providerUserId)]
  }

  function WithUnread(c: Conversation, unread: map<UserId, int>): Conversation
    requires c.clientId in unread && c.providerUserId in unread
  {
    c.(unread := unread, unreadClientCount := unread[c.clientId], unreadProviderCount := unread[c.providerUserId])
  }

  function Open(clientId: UserId, providerUserId: UserId): Conversation {
    var blank := Conversation(clientId, providerUserId, map[], 0, 0, []);
    WithUnread(blank, UnreadRecord(blank))
  }

  /** The text left after sanitising, if any, and the attachments left after normalising. */
  datatype Payload = Payload(hasText: bool, attachments: nat)

  predicate Sendable(p: Payload) { p.attachments <= 5 && (p.hasText || p.attachments > 0) }

  function Recipient(c: Conversation, sender: UserId): UserId {
    if sender == c.clientId then c.providerUserId else c.clientId
  }

  function Send(c: Conversation, sender: UserId, payload: Payload, stamp: ChatMessages.Stamp): Result<Conversation> {
    if !Participant(c, sender) then Err(Forbidden)
    else if !Sendable(payload) then Err(BadRequest)
    else
      var cleared := UnreadRecord(c)[sender := 0];
      var to := Recipient(c, sender);
      var unread := cleared[to := cleared[to] + 1];
      Ok(WithUnread(c, unread).(messages := c.messages + [Message(stamp, sender, Sent)]))
  }

  function MarkOne(m: Message, reader: UserId, to: Delivery): Message {
    if m.senderId != reader && m.delivery != Read then m.(delivery := to) else m
  }

  /** Raise the delivery of every message the reader did not send. */
  function Marked(messages: seq<Message>, reader: UserId, to: Delivery): (r: seq<Message>)
    ensures |r| == |messages| && forall i | 0 <= i < |r| :: r[i] == MarkOne(messages[i], reader, to)
  {
    seq(|messages|, i requires 0 <= i < |messages| => MarkOne(messages[i], reader, to))
  }

  function MarkRead(c: Conversation, user: UserId): Result<Conversation> {
    if !Participant(c, user) then Err(Forbidden)
    else Ok(WithUnread(c, UnreadRecord(c)[user := 0]).(messages := Marked(c.messages, user, Read)))
  }

  /** What asking for a page of messages writes. */
  function Fetch(c: Conversation, user: UserId): Result<Conversation> {
    if !Participant(c, user) then Err(Forbidden) else Ok(c.(messages := Marked(c.messages, user, Delivered)))
  }

  // ---- Runs ----

  datatype Step =
    | SendStep(user: UserId, payload: Payload, stamp: ChatMessages.Stamp)
    | ReadStep(user: UserId)
    | FetchStep(user: UserId)

  function Apply(c: Conversation, s: Step): Conversation {
    var r := match s
      case SendStep(u, p, stamp) => Send(c, u, p, stamp)
      case ReadStep(u) => MarkRead(c, u)
      case FetchStep(u) => Fetch(c, u);
    if r.Ok? then r.value else c
  }

  function Run(c: Conversation, steps: seq<Step>): Conversation {
    if steps == [] then c else Apply(Run(c, steps[..|steps| - 1]), steps[|steps| - 1])
  }

  /** The two counts below after one more step, given what they were. */
  function SinceAfter(s: Step, before: nat, user: UserId, other: UserId): nat {
    match s
    case SendStep(u, p, _) =>
      if !Sendable(p) then before else if u == user then 0 else if u == other then before + 1 else before
    case ReadStep(u) => if u == user then 0 else before
    case FetchStep(_) => before
  }

  function SinceReadAfter(s: Step, before: nat, user: UserId, other: UserId): nat {
    match s
    case SendStep(u, p, _) => if Sendable(p) && u == other then before + 1 else before
    case ReadStep(u) => if u == user then 0 else before
    case FetchStep(_) => before
  }

  /** Messages `other` sent since `user` last sent or read. */
  function SentSince(steps: seq<Step>, user: UserId, other: UserId): nat {
    if steps == [] then 0
    else SinceAfter(steps[|steps| - 1], SentSince(steps[..|steps| - 1], user, other), user, other)
  }

  /** Messages `other` sent since `user` last read. */
  function SentSinceRead(steps: seq<Step>, user: UserId, other: UserId): nat {
    if steps == [] then 0
    else SinceReadAfter(steps[|steps| - 1], SentSinceRead(steps[..|steps| - 1], user, other), user, other)
  }

  function NotRead(messages: seq<Message>, sender: UserId): nat {
    if messages == [] then 0
    else
      var last := messages[|messages| - 1];
      NotRead(messages[..|messages| - 1], sender) + if last.senderId == sender && last.delivery != Read then 1 else 0
  }

  lemma {:induction false} NotReadMarked(messages: seq<Message>, reader: UserId, to: Delivery, sender: UserId)
    ensures NotRead(Marked(messages, reader, to), sender)
         == if sender != reader && to == Read then 0 else NotRead(messages, sender)
  {
    if messages != [] {
      var n := |messages| - 1;
      NotReadMarked(messages[..n], reader, to, sender);
      assert Marked(messages, reader, to)[..n] == Marked(messages[..n], reader, to);
    }
  }

  ghost predicate LedgerHolds(c: Conversation, steps: seq<Step>, user: UserId, other: UserId) {
    && user in c.unread && c.unread[user] == SentSince(steps, user, other)
    && NotRead(c.messages, other) == SentSinceRead(steps, user, other)
    && SentSince(steps, user, other) <= SentSinceRead(steps, user, other)
  }

  predicate Counterparts(c: Conversation, user: UserId, other: UserId) {
    && user != other
    && ((user == c.clientId && other == c.providerUserId) || (user == c.providerUserId && other == c.clientId))
  }

  /** What a step does to the counts of one user about the other. */
  ghost predicate Counted(c: Conversation, d: Conversation, s: Step, user: UserId, other: UserId) {
    match s
    case SendStep(u, p, _) =>
      if !Sendable(p) || (u != user && u != other) then d == c
      else
        && user in d.unread
        && d.unread[user] == (if u == user then 0 else ReadUnread(c.unread, user) + 1)
        && NotRead(d.messages, other) == NotRead(c.messages, other) + if u == other then 1 else 0
    case ReadStep(u) =>
      if u != user && u != other then d == c
      else
        && user in d.unread
        && d.unread[user] == (if u == user then 0 else ReadUnread(c.unread, user))
        && NotRead(d.messages, other) == if u == user then 0 else NotRead(c.messages, other)
    case FetchStep(_) =>
      d.unread == c.unread && NotRead(d.messages, other) == NotRead(c.messages, other)
  }

  lemma ApplyCounted(c: Conversation, s: Step, user: UserId, other: UserId)
    requires Counterparts(c, user, other)
    ensures Counted(c, Apply(c, s), s, user, other)
  {
    match s
    case SendStep(u, p, stamp) =>
      var sent := c.messages + [Message(stamp, u, Sent)];
      assert sent[..|sent| - 1] == c.messages;
    case ReadStep(u) => NotReadMarked(c.messages, u, Read, other);
    case FetchStep(u) => NotReadMarked(c.messages, u, Delivered, other);
  }

  lemma LedgerCounted(c: Conversation, d: Conversation, s: Step, user: UserId, other: UserId, since: nat,
                      sinceRead: nat)
    requires user != other && Counted(c, d, s, user, other)
    requires user in c.unread && c.unread[user] == since <= sinceRead == NotRead(c.messages, other)
    ensures user in d.unread && d.unread[user] == SinceAfter(s, since, user, other)
    ensures NotRead(d.messages, other) == SinceReadAfter(s, sinceRead, user, other) >= SinceAfter(s, since, user, other)
  {
  }

  lemma LedgerStep(c: Conversation, steps: seq<Step>, s: Step, user: UserId, other: UserId)
    requires Counterparts(c, user, other) && LedgerHolds(c, steps, user, other)
    ensures LedgerHolds(Apply(c, s), steps + [s], user, other)
  {
    ApplyCounted(c, s, user, other);
    LedgerCounted(c, Apply(c, s), s, user, other, SentSince(steps, user, other), SentSinceRead(steps, user, other));
    assert (steps + [s])[..|steps|] == steps;
  }

  /** The counters and the mirrors after a run are what they should be, for both sides. */
  ghost predicate LedgerAfter(clientId: UserId, providerUserId: UserId, steps: seq<Step>) {
    var c := Run(Open(clientId, providerUserId), steps);
    && c.clientId == clientId && c.providerUserId == providerUserId
    && LedgerHolds(c, steps, clientId, providerUserId) && LedgerHolds(c, steps, providerUserId, clientId)
    && c.unreadClientCount == c.unread[clientId] && c.unreadProviderCount == c.unread[providerUserId]
  }

  /**
   * After any run between two different users, each one's counter is the number of messages the other
   * sent since the user last sent or read, never more than the other's messages not yet marked read,
   * and the role mirrors show the same numbers.
   */
  lemma {:induction false} LedgerExact(clientId: UserId, providerUserId: UserId, steps: seq<Step>)
    requires clientId != providerUserId
    ensures LedgerAfter(clientId, providerUserId, steps)
  {
    if steps != [] {
      var init, s := steps[..|steps| - 1], steps[|steps| - 1];
      LedgerExact(clientId, providerUserId, init);
      var c := Run(Open(clientId, providerUserId), init);
      LedgerStep(c, init, s, clientId, providerUserId);
      LedgerStep(c, init, s, providerUserId, clientId);
      assert init + [s] == steps;
    }
  }

  /** In a conversation with oneself the first message already counts as unread. */
  lemma SelfConversationMiscounts(user: UserId, stamp: ChatMessages.Stamp)
    ensures var steps := [SendStep(user, Payload(true, 0), stamp)];
      Run(Open(user, user), steps).unread == map[user := 1] && SentSince(steps, user, user) == 0
  {
    var steps := [SendStep(user, Payload(true, 0), stamp)];
    assert steps[..0] == [];
    assert Run(Open(user, user), steps[..0]) == Open(user, user);
  }

  /** The ledger is right after every run exactly when the two users differ, which opening one does not check. */
  lemma LedgerHoldsIff(clientId: UserId, providerUserId: UserId)
    ensures (forall steps :: LedgerAfter(clientId, providerUserId, steps)) <==> clientId != providerUserId
  {
    if clientId == providerUserId {
      var stamp := ChatMessages.Stamp(0, 0);
      SelfConversationMiscounts(clientId, stamp);
      assert !LedgerAfter(clientId, clientId, [SendStep(clientId, Payload(true, 0), stamp)]);
    } else {
      forall steps ensures LedgerAfter(clientId, providerUserId, steps) {
        LedgerExact(clientId, providerUserId, steps);
      }
    }
  }

  // ---- Messages over a run ----

  function Rank(d: Delivery): nat {
    match d
    case Sent => 0
    case Delivered => 1
    case Read => 2
  }

  /** Messages are only added, and a delivery mark never moves back. */
  ghost predicate Progressed(before: seq<Message>, after: seq<Message>) {
    && |before| <= |after|
    && forall i | 0 <= i < |before| ::
      && after[i].stamp == before[i].stamp && after[i].senderId == before[i].senderId
      && Rank(after[i].delivery) >= Rank(before[i].delivery)
  }

  lemma {:induction false} DeliveryNeverMovesBack(c: Conversation, steps: seq<Step>)
    ensures Progressed(c.messages, Run(c, steps).messages)
  {
    if steps != [] { DeliveryNeverMovesBack(c, steps[..|steps| - 1]); }
  }

  // ---- One call ----

  /** What a stored count is read as: missing and negative ones as nothing. */
  function StoredCount(c: Conversation, user: UserId): nat {
    if user in c.unread && c.unread[user] > 0 then c.unread[user] else 0
  }

  /** Both counts are written under the users' ids and again by role. */
  ghost predicate CountsBecome(d: Conversation, client: int, provider: int) {
    && d.unread.Keys == {d.clientId, d.providerUserId}
    && d.unread[d.clientId] == client == d.unreadClientCount
    && d.unread[d.providerUserId] == provider == d.unreadProviderCount
  }

  /** A message needs text or an attachment, and takes at most five. */
  lemma SendExact(c: Conversation, sender: UserId, payload: Payload, stamp: ChatMessages.Stamp)
    requires c.clientId != c.providerUserId
    ensures var r := Send(c, sender, payload, stamp);
      if sender != c.clientId && sender != c.providerUserId then r == Err(Forbidden)
      else if payload.attachments > 5 || (!payload.hasText && payload.attachments == 0) then r == Err(BadRequest)
      else
        && r.Ok? && r.value.clientId == c.clientId && r.value.providerUserId == c.providerUserId
        && r.value.messages == c.messages + [Message(stamp, sender, Sent)]
        && CountsBecome(r.value, if sender == c.clientId then 0 else StoredCount(c, c.clientId) + 1,
                        if sender == c.providerUserId then 0 else StoredCount(c, c.providerUserId) + 1)
  {
  }

  /** After a reading every message of the other is read, and the reader's count is nothing. */
  lemma ReadExact(c: Conversation, user: UserId)
    requires c.clientId != c.providerUserId
    ensures var r := MarkRead(c, user);
      if user != c.clientId && user != c.providerUserId then r == Err(Forbidden)
      else
        && r.Ok? && r.value.clientId == c.clientId && r.value.providerUserId == c.providerUserId
        && |r.value.messages| == |c.messages|
        && (forall i | 0 <= i < |c.messages| :: r.value.messages[i] ==
              if c.messages[i].senderId == user then c.messages[i] else c.messages[i].(delivery := Read))
        && CountsBecome(r.value, if user == c.clientId then 0 else StoredCount(c, c.clientId),
                        if user == c.providerUserId then 0 else StoredCount(c, c.providerUserId))
  {
  }

  /** After a listing every message of the other is delivered at least, and nothing else has changed. */
  lemma FetchExact(c: Conversation, user: UserId)
    ensures var r := Fetch(c, user);
      if user != c.clientId && user != c.providerUserId then r == Err(Forbidden)
      else
        && r.Ok? && r.value == c.(messages := r.value.messages) && |r.value.messages| == |c.messages|
        && forall i | 0 <= i < |c.messages| :: r.value.messages[i] ==
             if c.messages[i].senderId == user || c.messages[i].delivery == Read then c.messages[i]
             else c.messages[i].(delivery := Delivered)
  {
  }

  // ---- Delivery over a run ----

  /** The step sends a message. */
  predicate Sends(clientId: UserId, providerUserId: UserId, s: Step) {
    s.SendStep? && s.user in {clientId, providerUserId} && Sendable(s.payload)
  }

  /** After step `k` the user has listed the messages or read them. */
  ghost predicate ListedAfter(steps: seq<Step>, k: nat, user: UserId) {
    exists j :: k < j < |steps| && steps[j] in {FetchStep(user), ReadStep(user)}
  }

  ghost predicate ReadAfter(steps: seq<Step>, k: nat, user: UserId) {
    exists j :: k < j < |steps| && steps[j] == ReadStep(user)
  }

  /** The mark of a message sent at step `k` says what its recipient has done since. */
  ghost predicate MarkTells(m: Message, steps: seq<Step>, k: nat, recipient: UserId) {
    && (m.delivery == Sent <==> !ListedAfter(steps, k, recipient))
    && (m.delivery == Read <==> ReadAfter(steps, k, recipient))
  }

  /** One more step, by whomever, and the mark of a message `sender` sent. */
  lemma MarkStep(m: Message, steps: seq<Step>, k: nat, s: Step, recipient: UserId, after: Message)
    requires k < |steps| && m.senderId != recipient && MarkTells(m, steps, k, recipient)
    requires after == match s
      case SendStep(_, _, _) => m
      case ReadStep(u) => if u == recipient then MarkOne(m, u, Read) else m
      case FetchStep(u) => if u == recipient then MarkOne(m, u, Delivered) else m
    ensures MarkTells(after, steps + [s], k, recipient)
  {
    var all := steps + [s];
    assert forall j | 0 <= j < |steps| :: all[j] == steps[j];
    assert all[|steps|] == s;
    assert ListedAfter(all, k, recipient)
      <==> ListedAfter(steps, k, recipient) || s in {FetchStep(recipient), ReadStep(recipient)} by {
      if ListedAfter(steps, k, recipient) {
        var j :| k < j < |steps| && steps[j] in {FetchStep(recipient), ReadStep(recipient)};
        assert all[j] in {FetchStep(recipient), ReadStep(recipient)};
      }
    }
    assert ReadAfter(all, k, recipient) <==> ReadAfter(steps, k, recipient) || s == ReadStep(recipient) by {
      if ReadAfter(steps, k, recipient) {
        var j :| k < j < |steps| && steps[j] == ReadStep(recipient);
        assert all[j] == ReadStep(recipient);
      }
    }
  }

  /** What one step does to a message that is stored already. */
  lemma StoredMessageStep(c: Conversation, s: Step, n: nat, sender: UserId, recipient: UserId)
    requires Counterparts(c, sender, recipient) && n < |c.messages| && c.messages[n].senderId == sender
    ensures n < |Apply(c, s).messages|
    ensures Apply(c, s).messages[n] == match s
      case SendStep(_, _, _) => c.messages[n]
      case ReadStep(u) => if u == recipient then MarkOne(c.messages[n], u, Read) else c.messages[n]
      case FetchStep(u) => if u == recipient then MarkOne(c.messages[n], u, Delivered) else c.messages[n]
  {
  }

  /**
   * In any run between two different users every message that was sent is stored with its sender and time, is
   * past `Sent` exactly when its recipient has listed or read the conversation since, and is `Read` exactly when
   * the recipient has read it since.
   */
  lemma {:induction false} DeliveryExact(clientId: UserId, providerUserId: UserId, steps: seq<Step>, k: nat)
    requires clientId != providerUserId && k < |steps| && Sends(clientId, providerUserId, steps[k])
    ensures var n := |Run(Open(clientId, providerUserId), steps[..k]).messages|;
      var messages := Run(Open(clientId, providerUserId), steps).messages;
      && n < |messages| && messages[n].senderId == steps[k].user && messages[n].stamp == steps[k].stamp
      && MarkTells(messages[n], steps, k, if steps[k].user == clientId then providerUserId else clientId)
  {
    var init, last := steps[..|steps| - 1], steps[|steps| - 1];
    var c := Run(Open(clientId, providerUserId), init);
    LedgerExact(clientId, providerUserId, init);
    if k == |steps| - 1 {
      assert steps[..k] == init;
    } else {
      DeliveryExact(clientId, providerUserId, init, k);
      assert init[..k] == steps[..k] && steps == init + [last];
      var n := |Run(Open(clientId, providerUserId), steps[..k]).messages|;
      var recipient := if steps[k].user == clientId then providerUserId else clientId;
      StoredMessageStep(c, last, n, steps[k].user, recipient);
      MarkStep(c.messages[n], init, k, last, recipient, Apply(c, last).messages[n]);
    }
  }

  function Stamps(messages: seq<Message>): (r: seq<ChatMessages.Stamp>)
    ensures |r| == |messages| && forall i | 0 <= i < |r| :: r[i] == messages[i].stamp
  {
    seq(|messages|, i requires 0 <= i < |messages| => messages[i].stamp)
  }

  /** Every message sent during the run is newer than those stored when it is sent. */
  ghost predicate ClockAdvances(c: Conversation, steps: seq<Step>) {
    steps == [] || (
      var s := steps[|steps| - 1];
      && ClockAdvances(c, steps[..|steps| - 1])
      && (s.SendStep? ==> forall m | m in Run(c, steps[..|steps| - 1]).messages ::
         ChatMessages.Newer(s.stamp, m.stamp)))
  }

  /** Whatever a run does, it leaves a store that a page cursor can be followed through. */
  lemma {:induction false} RunGrows(c: Conversation, steps: seq<Step>)
    requires ChatMessages.Distinct(Stamps(c.messages)) && ClockAdvances(c, steps)
    ensures ChatMessages.Grown(Stamps(c.messages), Stamps(Run(c, steps).messages))
  {
    var start := Stamps(c.messages);
    if steps != [] {
      var before := Run(c, steps[..|steps| - 1]);
      var after := Run(c, steps);
      RunGrows(c, steps[..|steps| - 1]);
      var a, b := Stamps(before.messages), Stamps(after.messages);
      assert a <= b && |b| <= |a| + 1;
      if |b| > |a| {
        forall i | 0 <= i < |a| ensures ChatMessages.Newer(b[|a|], a[i]) {
          assert before.messages[i] in before.messages;
        }
      }
      assert start == a[..|start|] == b[..|start|];
    }
  }

  /**
   * A reader who pages while both users keep writing: each request sees the conversation after one more
   * stretch of the run, and together the pages deliver the messages stored at the first request once.
   */
  lemma ReaderSeesEveryMessageOnce(states: seq<Conversation>, stretches: seq<seq<Step>>, pages: seq<ChatMessages.Page>,
                                   limit: Option<int>, offset: Option<int>)
    requires |states| == |stretches| == |pages| > 0 && ChatMessages.Distinct(Stamps(states[0].messages))
    requires forall i | 0 <= i < |states| ::
      states[i] == Run(states[0], stretches[i]) && ClockAdvances(states[0], stretches[i])
    requires ChatMessages.Session(seq(|states|, i requires 0 <= i < |states| => Stamps(states[i].messages)), pages,
                                  limit, offset)
    ensures var original := Stamps(states[0].messages);
      && 0 < |pages| * ChatMessages.PageSize(limit)
      && ChatMessages.Page(ChatMessages.Delivered(pages, |pages|), pages[|pages| - 1].next)
         == ChatMessages.Window(ChatMessages.NewestFirst(original),
                                Min(ChatMessages.Skipped(ChatMessages.Absent, offset), |original|),
                                |pages| * ChatMessages.PageSize(limit))
  {
    var stores := seq(|states|, i requires 0 <= i < |states| => Stamps(states[i].messages));
    forall i | 1 <= i < |stores| ensures ChatMessages.Grown(stores[0], stores[i]) {
      RunGrows(states[0], stretches[i]);
    }
    ChatMessages.PagesDeliverEverythingOnce(stores, pages, limit, offset);
  }
}
