/** End-to-end runs across the server and the client: a text message sent to an online user with
    the conversation open, the read receipt that user's client requests, and the tick that comes
    back to the sender. */
module Scenarios {
  import opened Wrappers
  import opened Common
  import opened MessageModel
  import MessageController
  import ChatStore

  /** Sending to a user who is offline stores the message and pushes nothing. */
  lemma OfflineSendPushesNothing(sv: MessageController.Server, sender: UserId, receiver: UserId,
                                 text: string, id: MessageId, now: Timestamp)
    requires receiver !in sv.presence.registry
    ensures var r := MessageController.SendMessage(sv, sender, receiver,
                       MessageController.TextBody(Some(text), None), None,
                       MessageController.UploadFailed, id, now, true);
            && r.response.Created?
            && r.server.store == sv.store + [r.response.msg]
            && r.server.pushes == sv.pushes
  {
  }

  /** A text sent to an online receiver whose client has the sender's conversation open is pushed
      to that client, appended there already marked seen, and answered with a mark-seen call
      naming it. */
  lemma PushedMessageShownAsSeen(sv: MessageController.Server, sender: UserId, receiver: UserId,
                                 text: string, id: MessageId, now: Timestamp,
                                 c: ChatStore.Client, markSeenOk: bool)
    requires receiver in sv.presence.registry
    requires c.subscriptions == [ChatStore.Subscription(sender, receiver)]
    requires forall i | 0 <= i < |c.messages| :: c.messages[i].id != id
    ensures var r := MessageController.SendMessage(sv, sender, receiver,
                       MessageController.TextBody(Some(text), None), None,
                       MessageController.UploadFailed, id, now, true);
            && r.response.Created?
            && var m := r.response.msg;
            && r.server.pushes[|sv.pushes|]
                 == MessageController.Push(sv.presence.registry[receiver], MessageController.NewMessage(m))
            && var st := ChatStore.OnNewMessage(c, m, markSeenOk);
            && st.client.messages == c.messages + [m.(seen := true)]
            && st.effects[0] == ChatStore.Http(ChatStore.PostMarkSeen([id]))
  {
    var r := MessageController.SendMessage(sv, sender, receiver,
               MessageController.TextBody(Some(text), None), None,
               MessageController.UploadFailed, id, now, true);
    var m := r.response.msg;
    var sub := ChatStore.Subscription(sender, receiver);
    assert ChatStore.ForChat(sub, m) && ChatStore.NeedsReceipt(sub, m);
    var h := ChatStore.HandleNewMessage(c.messages, sub, m, markSeenOk);
    assert c.subscriptions[1..] == [];
    assert ChatStore.RunNewMessage(h.0, [], m, markSeenOk) == (h.0, []);
    assert h.0 == ChatStore.MarkLocallySeen(c.messages + [m], [m.id]);
    assert h.0 == c.messages + [m.(seen := true)];
  }

  /** The receiver's mark-seen call for a message whose id is unique in the store flips it, counts
      one, and, when the sender is online, pushes the updated message to the sender; the sender's
      client, with the conversation open, then shows its copy as seen. */
  lemma ReceiptReachesSender(sv: MessageController.Server, i: nat, now: Timestamp,
                             c: ChatStore.Client, k: nat)
    requires i < |sv.store| && !sv.store[i].seen
    requires forall j | 0 <= j < |sv.store| :: sv.store[j].id == sv.store[i].id ==> j == i
    requires sv.store[i].senderId in sv.presence.registry
    requires c.subscriptions == [ChatStore.Subscription(sv.store[i].receiverId, sv.store[i].senderId)]
    requires k < |c.messages| && c.messages[k] == sv.store[i]
    ensures var m := sv.store[i];
            var r := MessageController.MarkMessagesAsSeen(sv, m.receiverId, [m.id], now, true, true);
            && r.response == MessageController.Marked(1)
            && MessageController.Push(sv.presence.registry[m.senderId],
                 MessageController.MessageSeen(MarkedSeen(m, now))) in r.server.pushes
            && ChatStore.OnMessageSeen(c, MarkedSeen(m, now)).client.messages[k].seen
  {
    var m := sv.store[i];
    var ids := [m.id];
    var r := MessageController.MarkMessagesAsSeen(sv, m.receiverId, ids, now, true, true);
    assert MessageController.Eligible(sv.store[i], m.receiverId, ids);
    assert r.server.store[i] == MarkedSeen(m, now);
    FlipCount(sv.store, r.server.store, i, m.receiverId, ids, now);
    assert MarkedSeen(m, now) in r.server.store;
    MessageController.FanOutCoversEveryListedMessage(sv, m.receiverId, ids, now, MarkedSeen(m, now));
  }

  /** When exactly position `i` of the store is listed and eligible, the update flips exactly one
      position. */
  lemma {:induction false} FlipCount(store: seq<Message>, store': seq<Message>, i: nat,
                                     caller: UserId, ids: seq<MessageId>, now: Timestamp)
    requires |store| == |store'|
    requires forall j | 0 <= j < |store| ::
               store'[j] == if MessageController.Eligible(store[j], caller, ids)
                            then MarkedSeen(store[j], now) else store[j]
    requires i < |store| && MessageController.Eligible(store[i], caller, ids)
    requires forall j | 0 <= j < |store| :: store[j].id in ids ==> j == i
    ensures MessageController.NumFlipped(store, store') == 1
    decreases |store|
  {
    if i == 0 {
      NoFlips(store[1..], store'[1..], caller, ids, now);
    } else {
      FlipCount(store[1..], store'[1..], i - 1, caller, ids, now);
    }
  }

  /** When no position of the store is listed, the update flips nothing. This is the induction
      helper for `FlipCount`: it takes any store' related to the store position by position,
      not only the one `UpdateSeen` builds. */
  lemma {:induction false} NoFlips(store: seq<Message>, store': seq<Message>, caller: UserId,
                                   ids: seq<MessageId>, now: Timestamp)
    requires |store| == |store'|
    requires forall j | 0 <= j < |store| ::
               store'[j] == if MessageController.Eligible(store[j], caller, ids)
                            then MarkedSeen(store[j], now) else store[j]
    requires forall j | 0 <= j < |store| :: store[j].id !in ids
    ensures MessageController.NumFlipped(store, store') == 0
    decreases |store|
  {
    if store != [] {
      NoFlips(store[1..], store'[1..], caller, ids, now);
    }
  }
}
