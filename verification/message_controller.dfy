/** The server's message handlers over a store of messages and the presence registry:
    the conversation query, the three send handlers (persist, then push `newMessage` to an
    online receiver) and the bulk mark-seen handler with its `messageSeen` fan-out. */
module MessageController {
  import opened Wrappers
  import opened Common
  import opened MessageModel
  import Presence

  /** A server-to-client push over one live connection. */
  datatype PushEvent = NewMessage(msg: Message) | MessageSeen(msg: Message)
  datatype Push = Push(to: ConnId, event: PushEvent)

  /** Everything the handlers read or change: the persisted messages in insertion order, the
      presence registry, and every push emitted so far, oldest first. */
  datatype Server = Server(store: seq<Message>, presence: Presence.State, pushes: seq<Push>)

  /** The HTTP responses: 200 with a conversation, 201 with the created message, 400, 200 with
      the mark-seen count, or 500. */
  datatype Response =
    | Conversation(messages: seq<Message>)
    | Created(msg: Message)
    | BadRequest
    | Marked(updatedCount: nat)
    | InternalError

  datatype Handled = Handled(server: Server, response: Response)

  /** A push of `event` to `u`'s live connection if `u` is registered, nothing otherwise. */
  function PushTo(reg: Presence.Registry, u: UserId, event: PushEvent): (ps: seq<Push>)
    ensures u in reg ==> ps == [Push(reg[u], event)]
    ensures u !in reg ==> ps == []
  {
    match Presence.Lookup(reg, u)
    case Some(c) => [Push(c, event)]
    case None => []
  }

  // ---------------------------------------------------------------------------------------
  // The conversation query

  /** `m` was sent from one of `a`, `b` to the other. */
  predicate InPair(m: Message, a: UserId, b: UserId) {
    (m.senderId == a && m.receiverId == b) || (m.senderId == b && m.receiverId == a)
  }

  /** The stored messages between `a` and `b`, in store order, each as often as it is stored. */
  function Between(store: seq<Message>, a: UserId, b: UserId): (r: seq<Message>)
    ensures forall m :: multiset(r)[m] == if InPair(m, a, b) then multiset(store)[m] else 0
    ensures forall m :: m in r <==> m in store && InPair(m, a, b)
    decreases |store|
  {
    if store == [] then []
    else
      var rest := Between(store[1..], a, b);
      assert store == [store[0]] + store[1..];
      assert forall m :: m in store <==> m == store[0] || m in store[1..];
      if InPair(store[0], a, b) then [store[0]] + rest else rest
  }

  predicate SortedByCreation(s: seq<Message>) {
    forall i, j | 0 <= i < j < |s| :: s[i].createdAt <= s[j].createdAt
  }

  /** `m` placed before the first message of `s` created no earlier than it. */
  function InsertByCreation(m: Message, s: seq<Message>): (r: seq<Message>)
    requires SortedByCreation(s)
    ensures SortedByCreation(r)
    ensures multiset(r) == multiset(s) + multiset{m}
    decreases |s|
  {
    if s == [] || m.createdAt <= s[0].createdAt then [m] + s
    else
      var rest := InsertByCreation(m, s[1..]);
      assert s == [s[0]] + s[1..];
      assert forall x | x in multiset(rest) :: s[0].createdAt <= x.createdAt by {
        forall x | x in multiset(rest) ensures s[0].createdAt <= x.createdAt {
          assert x == m || x in multiset(s[1..]);
        }
      }
      assert forall k | 0 <= k < |rest| :: s[0].createdAt <= rest[k].createdAt by {
        forall k | 0 <= k < |rest| ensures s[0].createdAt <= rest[k].createdAt {
          assert rest[k] in multiset(rest);
        }
      }
      [s[0]] + rest
  }

  /** The store's `sort({ createdAt: 1 })`: ascending creation time, ties in input order. */
  function SortByCreation(s: seq<Message>): (r: seq<Message>)
    ensures SortedByCreation(r)
    ensures multiset(r) == multiset(s)
    decreases |s|
  {
    if s == [] then []
    else
      assert s == [s[0]] + s[1..];
      InsertByCreation(s[0], SortByCreation(s[1..]))
  }

  /** `getMessages`: the caller's conversation with `peer`, ascending by creation time; a store
      failure is a 500. */
  function GetMessages(store: seq<Message>, me: UserId, peer: UserId, dbUp: bool): (r: Response)
    ensures !dbUp <==> r == InternalError
    ensures dbUp <==> r.Conversation?
    ensures r.Conversation? ==>
      && SortedByCreation(r.messages)
      && forall m :: multiset(r.messages)[m] == if InPair(m, me, peer) then multiset(store)[m] else 0
  {
    if dbUp then Conversation(SortByCreation(Between(store, me, peer))) else InternalError
  }

  lemma {:induction false} BetweenSymmetric(store: seq<Message>, a: UserId, b: UserId)
    ensures Between(store, a, b) == Between(store, b, a)
    decreases |store|
  {
    if store != [] {
      BetweenSymmetric(store[1..], a, b);
    }
  }

  /** Either party of a pair fetches the very same conversation. */
  lemma ConversationSymmetric(store: seq<Message>, a: UserId, b: UserId, dbUp: bool)
    ensures GetMessages(store, a, b, dbUp) == GetMessages(store, b, a, dbUp)
  {
    BetweenSymmetric(store, a, b);
  }

  // ---------------------------------------------------------------------------------------
  // Sending

  /** Persist `m`, then push it to its receiver's live connection if the receiver is online. */
  function Deliver(sv: Server, m: Message): (sv': Server)
    ensures sv'.store == sv.store + [m]
    ensures sv'.presence == sv.presence
    ensures |sv'.pushes| == |sv.pushes| + (if m.receiverId in sv.presence.registry then 1 else 0)
    ensures sv'.pushes[..|sv.pushes|] == sv.pushes
    ensures forall k | |sv.pushes| <= k < |sv'.pushes| ::
              sv'.pushes[k] == Push(sv.presence.registry[m.receiverId], NewMessage(m))
  {
    sv.(store := sv.store + [m],
        pushes := sv.pushes + PushTo(sv.presence.registry, m.receiverId, NewMessage(m)))
  }

  /** The `image` field of a text-send request is a data URL uploaded to the external image host
      before saving; the host answers with a URL or fails. */
  datatype ImageHostResult = Uploaded(secureUrl: string) | UploadFailed

  /** The JSON body of a text-send request. */
  datatype TextBody = TextBody(text: Option<string>, image: Option<string>)

  /** The stored reference to an uploaded document, as the handlers build it from the multer
      file name. */
  function DocumentPath(filename: string): string { "uploads/" + filename }

  /** The stored reference to an uploaded image, as served by the static image route. */
  function ImagePath(filename: string): string { "/images/" + filename }

  /** `sendMesssage`: `text || ""` is stored, a truthy `image` is uploaded first and its URL
      stored, a file handed over by upload middleware (if any) becomes a document path, and
      nothing checks that any content is present. */
  function SendMessage(sv: Server, sender: UserId, receiver: UserId, body: TextBody,
                       file: Option<string>, host: ImageHostResult, id: MessageId,
                       now: Timestamp, dbUp: bool): (r: Handled)
    ensures r.response.Created? || r.response == InternalError
    ensures r.response.Created? <==> dbUp && (Truthy(body.image) ==> host.Uploaded?)
    ensures r.response == InternalError ==> r.server == sv
    ensures r.response.Created? ==>
      var m := r.response.msg;
      && r.server == Deliver(sv, m)
      && m.id == id && m.senderId == sender && m.receiverId == receiver
      && !m.seen && m.createdAt == now && m.updatedAt == now
      && m.text == Some(if Truthy(body.text) then body.text.value else "")
      && (m.image.Some? <==> Truthy(body.image) && host.secureUrl != "")
      && (m.image.Some? ==> m.image.value == host.secureUrl)
      && (m.document.Some? <==> Truthy(file))
      && (m.document.Some? ==> m.document.value == DocumentPath(file.value))
  {
    if Truthy(body.image) && host.UploadFailed? then Handled(sv, InternalError)
    else if !dbUp then Handled(sv, InternalError)
    else
      var text := if Truthy(body.text) then body.text.value else "";
      var imageUrl := if Truthy(body.image) && host.secureUrl != "" then Some(host.secureUrl)
                      else None;
      var document := if Truthy(file) then Some(DocumentPath(file.value)) else None;
      var c := Create(Draft(Some(sender), Some(receiver), Some(text), imageUrl, document,
                            Some(false)), id, now);
      Handled(Deliver(sv, c.msg), Created(c.msg))
  }

  /** `sendMessageWithPDF`: 400 without a file, else a document-only message. */
  function SendMessageWithPdf(sv: Server, sender: UserId, receiver: UserId, file: Option<string>,
                              id: MessageId, now: Timestamp, dbUp: bool): (r: Handled)
    ensures file.None? ==> r == Handled(sv, BadRequest)
    ensures file.Some? && !dbUp ==> r == Handled(sv, InternalError)
    ensures file.Some? && dbUp ==>
      r.response.Created? &&
      var m := r.response.msg;
      && r.server == Deliver(sv, m)
      && m.id == id && m.senderId == sender && m.receiverId == receiver
      && !m.seen && m.createdAt == now && m.updatedAt == now
      && m.text.None? && m.image.None? && m.document == Some(DocumentPath(file.value))
  {
    if file.None? then Handled(sv, BadRequest)
    else if !dbUp then Handled(sv, InternalError)
    else
      var c := Create(Draft(Some(sender), Some(receiver), None, None,
                            Some(DocumentPath(file.value)), Some(false)), id, now);
      Handled(Deliver(sv, c.msg), Created(c.msg))
  }

  /** `sendMessageWithImage`: 400 without a file, else an image-only message. */
  function SendMessageWithImage(sv: Server, sender: UserId, receiver: UserId, file: Option<string>,
                                id: MessageId, now: Timestamp, dbUp: bool): (r: Handled)
    ensures file.None? ==> r == Handled(sv, BadRequest)
    ensures file.Some? && !dbUp ==> r == Handled(sv, InternalError)
    ensures file.Some? && dbUp ==>
      r.response.Created? &&
      var m := r.response.msg;
      && r.server == Deliver(sv, m)
      && m.id == id && m.senderId == sender && m.receiverId == receiver
      && !m.seen && m.createdAt == now && m.updatedAt == now
      && m.text.None? && m.document.None? && m.image == Some(ImagePath(file.value))
  {
    if file.None? then Handled(sv, BadRequest)
    else if !dbUp then Handled(sv, InternalError)
    else
      var c := Create(Draft(Some(sender), Some(receiver), None, Some(ImagePath(file.value)),
                            None, Some(false)), id, now);
      Handled(Deliver(sv, c.msg), Created(c.msg))
  }

  /** A created message reaches its receiver's connection exactly once if the receiver is online
      and not at all otherwise; no other connection is pushed to. */
  lemma DeliverPushesIffOnline(sv: Server, m: Message)
    ensures var sv' := Deliver(sv, m);
            var added := sv'.pushes[|sv.pushes|..];
            && (m.receiverId in sv.presence.registry ==>
                  added == [Push(sv.presence.registry[m.receiverId], NewMessage(m))])
            && (m.receiverId !in sv.presence.registry ==> added == [])
  {
  }

  // ---------------------------------------------------------------------------------------
  // Mark-seen

  /** The bulk update's filter: listed, addressed to the caller, not yet seen. */
  predicate Eligible(m: Message, caller: UserId, ids: seq<MessageId>) {
    m.id in ids && m.receiverId == caller && !m.seen
  }

  /** The bulk update: every eligible message gets `seen` set (and its update time stamped);
      every other message is left alone. */
  function UpdateSeen(store: seq<Message>, caller: UserId, ids: seq<MessageId>, now: Timestamp)
    : (store': seq<Message>)
    ensures |store'| == |store|
    ensures forall i | 0 <= i < |store| ::
              if Eligible(store[i], caller, ids) then store'[i] == MarkedSeen(store[i], now)
              else store'[i] == store[i]
    decreases |store|
  {
    if store == [] then []
    else
      var m := if Eligible(store[0], caller, ids) then MarkedSeen(store[0], now) else store[0];
      [m] + UpdateSeen(store[1..], caller, ids, now)
  }

  /** How many messages the bulk update's filter matches. */
  function CountEligible(store: seq<Message>, caller: UserId, ids: seq<MessageId>): nat
    decreases |store|
  {
    if store == [] then 0
    else (if Eligible(store[0], caller, ids) then 1 else 0) + CountEligible(store[1..], caller, ids)
  }

  /** How many positions went from unseen to seen between two versions of a store. */
  function NumFlipped(before: seq<Message>, after: seq<Message>): nat
    requires |before| == |after|
    decreases |before|
  {
    if before == [] then 0
    else (if !before[0].seen && after[0].seen then 1 else 0) + NumFlipped(before[1..], after[1..])
  }

  /** The store's count of matched documents is the count of documents actually modified. */
  lemma {:induction false} CountIsNumFlipped(store: seq<Message>, caller: UserId,
                                             ids: seq<MessageId>, now: Timestamp)
    ensures CountEligible(store, caller, ids) == NumFlipped(store, UpdateSeen(store, caller, ids, now))
    decreases |store|
  {
    if store != [] {
      var after := UpdateSeen(store, caller, ids, now);
      assert after[1..] == UpdateSeen(store[1..], caller, ids, now);
      CountIsNumFlipped(store[1..], caller, ids, now);
    }
  }

  /** `Message.find({ _id: { $in: ids } })`: the stored messages whose id is listed, in store
      order, each as often as it is stored, whoever they belong to. */
  function Refetch(store: seq<Message>, ids: seq<MessageId>): (r: seq<Message>)
    ensures forall m :: multiset(r)[m] == if m.id in ids then multiset(store)[m] else 0
    ensures forall m :: m in r <==> m in store && m.id in ids
    decreases |store|
  {
    if store == [] then []
    else
      var rest := Refetch(store[1..], ids);
      assert store == [store[0]] + store[1..];
      assert forall m :: m in store <==> m == store[0] || m in store[1..];
      if store[0].id in ids then [store[0]] + rest else rest
  }

  /** How many of `m`'s two parties are online: the number of `messageSeen` pushes the fan-out
      owes it. */
  function OnlineParties(m: Message, reg: Presence.Registry): nat {
    (if m.receiverId in reg then 1 else 0) + (if m.senderId in reg then 1 else 0)
  }

  /** The online parties of every message in `msgs`, added up. */
  function TotalOnlineParties(msgs: seq<Message>, reg: Presence.Registry): nat
    decreases |msgs|
  {
    if msgs == [] then 0 else OnlineParties(msgs[0], reg) + TotalOnlineParties(msgs[1..], reg)
  }

  /** For each message, a `messageSeen` push to its receiver and then to its sender, each only
      if that user is online: one push per online party of each message, and no other. */
  function FanOut(msgs: seq<Message>, reg: Presence.Registry): (ps: seq<Push>)
    ensures |ps| == TotalOnlineParties(msgs, reg)
    ensures forall p | p in ps :: p.event.MessageSeen? && p.event.msg in msgs
              && ((p.event.msg.receiverId in reg && p.to == reg[p.event.msg.receiverId])
                  || (p.event.msg.senderId in reg && p.to == reg[p.event.msg.senderId]))
    ensures forall m | m in msgs && m.receiverId in reg :: Push(reg[m.receiverId], MessageSeen(m)) in ps
    ensures forall m | m in msgs && m.senderId in reg :: Push(reg[m.senderId], MessageSeen(m)) in ps
    decreases |msgs|
  {
    if msgs == [] then []
    else
      var rest := FanOut(msgs[1..], reg);
      assert forall m :: m in msgs <==> m == msgs[0] || m in msgs[1..];
      PushTo(reg, msgs[0].receiverId, MessageSeen(msgs[0]))
        + PushTo(reg, msgs[0].senderId, MessageSeen(msgs[0])) + rest
  }

  /** `markMessagesAsSeen`: two separate store calls. The bulk update comes first; its failure is
      a 500 with nothing changed. Only if it modified something, a re-fetch of every listed id
      follows, then a `messageSeen` fan-out, and the response carries the modified count. A
      failed re-fetch is a 500 as well, but the update it follows has already been committed,
      and nothing is pushed. */
  function MarkMessagesAsSeen(sv: Server, caller: UserId, ids: seq<MessageId>, now: Timestamp,
                              updateOk: bool, refetchOk: bool): (r: Handled)
    ensures !updateOk ==> r == Handled(sv, InternalError)
    ensures updateOk ==>
      && |r.server.store| == |sv.store|
      && (forall i | 0 <= i < |sv.store| ::
            if Eligible(sv.store[i], caller, ids) then r.server.store[i] == MarkedSeen(sv.store[i], now)
            else r.server.store[i] == sv.store[i])
      && r.server.presence == sv.presence
      && var n := NumFlipped(sv.store, r.server.store);
      && (n == 0 ==> r.response == Marked(0) && r.server.pushes == sv.pushes)
      && (n > 0 && refetchOk ==>
            && r.response == Marked(n)
            && r.server.pushes == sv.pushes + FanOut(Refetch(r.server.store, ids), sv.presence.registry))
      && (n > 0 && !refetchOk ==> r.response == InternalError && r.server.pushes == sv.pushes)
  {
    if !updateOk then Handled(sv, InternalError)
    else
      var store' := UpdateSeen(sv.store, caller, ids, now);
      var count := CountEligible(sv.store, caller, ids);
      CountIsNumFlipped(sv.store, caller, ids, now);
      if count == 0 then Handled(sv.(store := store'), Marked(0))
      else if !refetchOk then Handled(sv.(store := store'), InternalError)
      else
        var pushes := FanOut(Refetch(store', ids), sv.presence.registry);
        Handled(sv.(store := store', pushes := sv.pushes + pushes), Marked(count))
  }

  /** After a bulk update nothing it could match is left. */
  lemma NothingEligibleAfterUpdate(store: seq<Message>, caller: UserId, ids: seq<MessageId>,
                                   now: Timestamp)
    ensures forall m | m in UpdateSeen(store, caller, ids, now) :: !Eligible(m, caller, ids)
  {
  }

  /** A bulk update that matches nothing changes no message and counts zero. */
  lemma {:induction false} UpdateWithoutMatchIsIdentity(store: seq<Message>, caller: UserId,
                                                        ids: seq<MessageId>, now: Timestamp)
    requires forall m | m in store :: !Eligible(m, caller, ids)
    ensures UpdateSeen(store, caller, ids, now) == store
    ensures CountEligible(store, caller, ids) == 0
    decreases |store|
  {
    if store != [] {
      assert store[0] in store;
      assert forall m | m in store[1..] :: m in store;
      UpdateWithoutMatchIsIdentity(store[1..], caller, ids, now);
    }
  }

  /** Mark-seen is idempotent: repeating it with the same ids flips nothing, counts zero and
      pushes nothing. That holds even when the first call's re-fetch failed, so a retry after
      that 500 never pushes the receipts the first call committed. */
  lemma MarkSeenIdempotent(sv: Server, caller: UserId, ids: seq<MessageId>, t1: Timestamp,
                           t2: Timestamp, refetch1: bool, refetch2: bool)
    ensures var first := MarkMessagesAsSeen(sv, caller, ids, t1, true, refetch1).server;
            MarkMessagesAsSeen(first, caller, ids, t2, true, refetch2) == Handled(first, Marked(0))
  {
    var first := MarkMessagesAsSeen(sv, caller, ids, t1, true, refetch1).server;
    NothingEligibleAfterUpdate(sv.store, caller, ids, t1);
    UpdateWithoutMatchIsIdentity(first.store, caller, ids, t2);
  }

  /** Mark-seen never lowers a read receipt and changes nothing but read receipts and update
      times. */
  lemma MarkSeenOnlyRaisesSeen(sv: Server, caller: UserId, ids: seq<MessageId>, now: Timestamp,
                               updateOk: bool, refetchOk: bool)
    ensures var r := MarkMessagesAsSeen(sv, caller, ids, now, updateOk, refetchOk);
            |r.server.store| == |sv.store|
            && forall i | 0 <= i < |sv.store| :: SeenOnlyRaised(sv.store[i], r.server.store[i])
  {
  }

  /** The fan-out re-fetches without the receiver filter: once anything was modified, every
      stored message whose id was listed is pushed to its online receiver and online sender,
      including messages the caller sent and messages that were already seen. */
  lemma FanOutCoversEveryListedMessage(sv: Server, caller: UserId, ids: seq<MessageId>,
                                       now: Timestamp, m: Message)
    requires CountEligible(sv.store, caller, ids) > 0
    requires m in UpdateSeen(sv.store, caller, ids, now) && m.id in ids
    ensures var r := MarkMessagesAsSeen(sv, caller, ids, now, true, true);
            && (m.receiverId in sv.presence.registry ==>
                  Push(sv.presence.registry[m.receiverId], MessageSeen(m)) in r.server.pushes)
            && (m.senderId in sv.presence.registry ==>
                  Push(sv.presence.registry[m.senderId], MessageSeen(m)) in r.server.pushes)
  {
    CountIsNumFlipped(sv.store, caller, ids, now);
  }
}
