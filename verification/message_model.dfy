/** The stored message record and the rules the document schema applies when one is created:
    two required participant ids, three independently optional content fields, a `seen` flag
    that defaults to false, and creation/update timestamps set by the store. */
module MessageModel {
  import opened Wrappers
  import opened Common

  datatype Message = Message(
    id: MessageId,
    senderId: UserId,
    receiverId: UserId,
    text: Option<string>,
    image: Option<string>,
    document: Option<string>,
    seen: bool,
    createdAt: Timestamp,
    updatedAt: Timestamp)

  /** What a handler hands to the schema constructor. Fields left `undefined` are `None`. */
  datatype Draft = Draft(
    senderId: Option<UserId>,
    receiverId: Option<UserId>,
    text: Option<string>,
    image: Option<string>,
    document: Option<string>,
    seen: Option<bool>)

  /** A required path of the schema. */
  datatype RequiredPath = Sender | Receiver

  /** A refused draft names every required path it leaves unset, as one validation error does. */
  datatype Created = Saved(msg: Message) | Invalid(missing: set<RequiredPath>)

  /** Validating and saving `d`, with `id` and `now` standing for the key and the clock the store
      assigns. Both participant ids are required; nothing else is. */
  function Create(d: Draft, id: MessageId, now: Timestamp): (c: Created)
    ensures c.Saved? <==> d.senderId.Some? && d.receiverId.Some?
    ensures c.Invalid? ==> (Sender in c.missing <==> d.senderId.None?)
    ensures c.Invalid? ==> (Receiver in c.missing <==> d.receiverId.None?)
    ensures c.Saved? ==>
      && c.msg.id == id
      && c.msg.senderId == d.senderId.value
      && c.msg.receiverId == d.receiverId.value
      && c.msg.text == d.text && c.msg.image == d.image && c.msg.document == d.document
      && c.msg.seen == d.seen.GetOr(false)
      && c.msg.createdAt == now && c.msg.updatedAt == now
  {
    match (d.senderId, d.receiverId)
    case (Some(s), Some(r)) =>
      var seen := match d.seen case Some(b) => b case None => false;
      Saved(Message(id, s, r, d.text, d.image, d.document, seen, now, now))
    case _ =>
      Invalid((if d.senderId.None? then {Sender} else {})
              + (if d.receiverId.None? then {Receiver} else {}))
  }

  /** A draft that leaves `seen` unset is stored unseen. */
  lemma SeenDefaultsToFalse(d: Draft, id: MessageId, now: Timestamp)
    requires d.senderId.Some? && d.receiverId.Some? && d.seen.None?
    ensures Create(d, id, now).Saved? && !Create(d, id, now).msg.seen
  {
  }

  /** The schema imposes no "some content present" rule: a draft with neither text, image nor
      document is saved all the same. */
  lemma NoContentIsAccepted(s: UserId, r: UserId, id: MessageId, now: Timestamp)
    ensures var c := Create(Draft(Some(s), Some(r), None, None, None, None), id, now);
            c.Saved? && c.msg.text.None? && c.msg.image.None? && c.msg.document.None?
  {
  }

  /** The same message with its read receipt set, as an update stamped `now` writes it. */
  function MarkedSeen(m: Message, now: Timestamp): (m': Message)
    ensures m'.seen
    ensures m'.id == m.id && m'.senderId == m.senderId && m'.receiverId == m.receiverId
    ensures m'.text == m.text && m'.image == m.image && m'.document == m.document
    ensures m'.createdAt == m.createdAt && m'.updatedAt == now
  {
    m.(seen := true, updatedAt := now)
  }

  /** `m'` is `m` with at most its read receipt raised and its update time changed: the only
      ways a stored or displayed message ever changes. */
  predicate SeenOnlyRaised(m: Message, m': Message) {
    && m'.id == m.id && m'.senderId == m.senderId && m'.receiverId == m.receiverId
    && m'.text == m.text && m'.image == m.image && m'.document == m.document
    && m'.createdAt == m.createdAt
    && (m.seen ==> m'.seen)
  }
}
