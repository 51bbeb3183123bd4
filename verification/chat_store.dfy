/** The client's chat store: the local message list of the open conversation, changed by the
    history fetch (with its optimistic mark-seen), by the three send operations and by the two
    push handlers that `subscribeToMessages` registers. Each operation is a pure function of the
    state, the event and the outcome of the remote calls it makes, and returns the new state with
    the requests and socket emits it issued. */
module ChatStore {
  import opened Wrappers
  import opened Common
  import opened MessageModel

  /** One pair of push handlers, with the selected user and the signed-in user they closed over
      when they were registered. */
  datatype Subscription = Subscription(selected: UserId, auth: UserId)

  /** The local state: the displayed messages, the selected conversation partner, and the
      handler pairs currently registered on the socket (registering again adds another pair). */
  datatype Client = Client(messages: seq<Message>, selected: Option<UserId>,
                           subscriptions: seq<Subscription>)

  /** A REST call the client makes. */
  datatype Request =
    | FetchConversation(peer: UserId)
    | PostMarkSeen(ids: seq<MessageId>)
    | PostText(peer: UserId, text: string)
    | PostPdf(peer: UserId, file: File)
    | PostImage(peer: UserId, picked: Option<File>)

  /** Something the client sends out: a REST call, or a `messageSeen` emit on the socket. */
  datatype Effect = Http(request: Request) | EmitMessageSeen(msg: Message)

  datatype Step = Step(client: Client, effects: seq<Effect>)

  /** The local read-receipt flip: `{ ...msg, seen: true }` for every message whose id is listed. */
  function MarkLocallySeen(msgs: seq<Message>, ids: seq<MessageId>): (r: seq<Message>)
    ensures |r| == |msgs|
    ensures forall i | 0 <= i < |msgs| ::
              r[i] == if msgs[i].id in ids then msgs[i].(seen := true) else msgs[i]
    ensures OnlyReceiptsRaised(msgs, r)
  {
    seq(|msgs|, i requires 0 <= i < |msgs| =>
      if msgs[i].id in ids then msgs[i].(seen := true) else msgs[i])
  }

  /** `after` is `before` with some read receipts raised, position by position, and nothing
      else changed: the client never restamps a message, so update times are kept too. */
  predicate OnlyReceiptsRaised(before: seq<Message>, after: seq<Message>) {
    |before| == |after|
    && forall i | 0 <= i < |before| ::
         SeenOnlyRaised(before[i], after[i]) && after[i].updatedAt == before[i].updatedAt
  }

  /** The messages addressed to `auth` that are still unseen, in list order. */
  function UnseenFor(msgs: seq<Message>, auth: UserId): (r: seq<Message>)
    ensures forall m :: m in r <==> m in msgs && m.receiverId == auth && !m.seen
    decreases |msgs|
  {
    if msgs == [] then []
    else
      var rest := UnseenFor(msgs[1..], auth);
      assert forall m :: m in msgs <==> m == msgs[0] || m in msgs[1..];
      if msgs[0].receiverId == auth && !msgs[0].seen then [msgs[0]] + rest else rest
  }

  function IdsOf(msgs: seq<Message>): (ids: seq<MessageId>)
    ensures |ids| == |msgs|
    ensures forall i | 0 <= i < |msgs| :: ids[i] == msgs[i].id
  {
    seq(|msgs|, i requires 0 <= i < |msgs| => msgs[i].id)
  }

  /** Some message in `msgs` with the same id as `m` is addressed to `auth` and unseen. */
  predicate HasUnseenTwin(msgs: seq<Message>, auth: UserId, m: Message) {
    exists j | 0 <= j < |msgs| :: msgs[j].id == m.id && msgs[j].receiverId == auth && !msgs[j].seen
  }

  /** `getMessages(peer)`: the fetched list replaces the local one; then, when signed in and some
      fetched message is addressed to the signed-in user and unseen, one mark-seen call names all
      of them, and they are flipped locally whether that call succeeds or fails. A failed fetch
      leaves the list alone. */
  function GetMessages(c: Client, peer: UserId, auth: Option<UserId>,
                       fetched: Outcome<seq<Message>>): (st: Step)
    ensures st.client.selected == c.selected && st.client.subscriptions == c.subscriptions
    ensures |st.effects| >= 1 && st.effects[0] == Http(FetchConversation(peer))
    ensures fetched.Failure? ==> st == Step(c, [Http(FetchConversation(peer))])
    ensures fetched.Success? ==>
      var list := fetched.value;
      && OnlyReceiptsRaised(list, st.client.messages)
      && (forall i | 0 <= i < |list| ::
            st.client.messages[i].seen
              == (list[i].seen || (auth.Some? && HasUnseenTwin(list, auth.value, list[i]))))
      && (|st.effects| == 2 <==> auth.Some? && exists m | m in list :: m.receiverId == auth.value && !m.seen)
      && |st.effects| <= 2
      && (|st.effects| == 2 ==> st.effects[1] == Http(PostMarkSeen(IdsOf(UnseenFor(list, auth.value)))))
  {
    var fetch := Http(FetchConversation(peer));
    match fetched
    case Failure => Step(c, [fetch])
    case Success(list) =>
      if auth.None? then Step(c.(messages := list), [fetch])
      else
        var unseen := UnseenFor(list, auth.value);
        if |unseen| == 0 then
          assert forall m | m in list :: !(m.receiverId == auth.value && !m.seen);
          assert forall i | 0 <= i < |list| :: !HasUnseenTwin(list, auth.value, list[i]);
          Step(c.(messages := list), [fetch])
        else
          assert unseen[0] in list;
          var ids := IdsOf(unseen);
          UnseenIdsAreTwins(list, auth.value);
          var flipped := MarkLocallySeen(list, ids);
          Step(c.(messages := flipped), [fetch, Http(PostMarkSeen(ids))])
  }

  /** A message's id is among the ids of the unseen-for-`auth` messages exactly when some message
      with that id is addressed to `auth` and unseen. */
  lemma UnseenIdsAreTwins(list: seq<Message>, auth: UserId)
    ensures var ids := IdsOf(UnseenFor(list, auth));
            forall i | 0 <= i < |list| :: list[i].id in ids <==> HasUnseenTwin(list, auth, list[i])
  {
    var unseen := UnseenFor(list, auth);
    var ids := IdsOf(unseen);
    forall i | 0 <= i < |list|
      ensures list[i].id in ids <==> HasUnseenTwin(list, auth, list[i])
    {
      if list[i].id in ids {
        var k :| 0 <= k < |ids| && ids[k] == list[i].id;
        assert unseen[k] in list;
        var j :| 0 <= j < |list| && list[j] == unseen[k];
      }
      if HasUnseenTwin(list, auth, list[i]) {
        var j :| 0 <= j < |list| && list[j].id == list[i].id
                 && list[j].receiverId == auth && !list[j].seen;
        assert list[j] in unseen;
        var k :| 0 <= k < |unseen| && unseen[k] == list[j];
        assert ids[k] == list[i].id;
      }
    }
  }

  /** Ids are unique in a list, as the store's keys are. */
  predicate UniqueIds(msgs: seq<Message>) {
    forall i, j | 0 <= i < j < |msgs| :: msgs[i].id != msgs[j].id
  }

  /** With unique ids, after a successful fetch exactly the fetched messages addressed to the
      signed-in user and unseen are shown as seen; the rest are shown as fetched, in fetch order. */
  lemma FetchFlipsExactlyUnseenForMe(c: Client, peer: UserId, auth: UserId, list: seq<Message>)
    requires UniqueIds(list)
    ensures var shown := GetMessages(c, peer, Some(auth), Success(list)).client.messages;
            && |shown| == |list|
            && forall i | 0 <= i < |list| ::
                 shown[i] == if list[i].receiverId == auth && !list[i].seen
                             then list[i].(seen := true) else list[i]
  {
    var shown := GetMessages(c, peer, Some(auth), Success(list)).client.messages;
    forall i | 0 <= i < |list|
      ensures shown[i] == if list[i].receiverId == auth && !list[i].seen
                          then list[i].(seen := true) else list[i]
    {
      if HasUnseenTwin(list, auth, list[i]) {
        var j :| 0 <= j < |list| && list[j].id == list[i].id && list[j].receiverId == auth && !list[j].seen;
        assert j == i;
      }
      if list[i].receiverId == auth && !list[i].seen {
        assert HasUnseenTwin(list, auth, list[i]);
      }
    }
  }

  // ---------------------------------------------------------------------------------------
  // Sending

  /** The common shape of the three sends: with no selected user nothing is requested and
      nothing changes; otherwise `request` goes out and, on success, the server's message is
      appended to the list as it was when the send began. */
  function SendWith(c: Client, request: UserId -> Request, res: Outcome<Message>): (st: Step)
    ensures st.client.selected == c.selected && st.client.subscriptions == c.subscriptions
    ensures c.selected.None? ==> st == Step(c, [])
    ensures c.selected.Some? ==> st.effects == [Http(request(c.selected.value))]
    ensures c.selected.Some? && res.Success? ==> st.client.messages == c.messages + [res.value]
    ensures res.Failure? ==> st.client == c
  {
    match c.selected
    case None => Step(c, [])
    case Some(peer) =>
      var messages := if res.Success? then c.messages + [res.value] else c.messages;
      Step(c.(messages := messages), [Http(request(peer))])
  }

  /** `sendMessage`: with no selected user, reading its id throws inside the `try`, so nothing is
      sent. */
  function SendMessage(c: Client, text: string, res: Outcome<Message>): (st: Step)
    ensures st.client.selected == c.selected && st.client.subscriptions == c.subscriptions
    ensures c.selected.None? ==> st == Step(c, [])
    ensures c.selected.Some? ==>
      && st.effects == [Http(PostText(c.selected.value, text))]
      && st.client.messages == (if res.Success? then c.messages + [res.value] else c.messages)
  {
    SendWith(c, peer => PostText(peer, text), res)
  }

  /** `sendPDF`: an explicit "no user selected" guard, then the upload. */
  function SendPdf(c: Client, file: File, res: Outcome<Message>): (st: Step)
    ensures st.client.selected == c.selected && st.client.subscriptions == c.subscriptions
    ensures c.selected.None? ==> st == Step(c, [])
    ensures c.selected.Some? ==>
      && st.effects == [Http(PostPdf(c.selected.value, file))]
      && st.client.messages == (if res.Success? then c.messages + [res.value] else c.messages)
  {
    SendWith(c, peer => PostPdf(peer, file), res)
  }

  /** `sendImage`: an explicit "no user selected" guard, then the upload. */
  function SendImage(c: Client, file: Option<File>, res: Outcome<Message>): (st: Step)
    ensures st.client.selected == c.selected && st.client.subscriptions == c.subscriptions
    ensures c.selected.None? ==> st == Step(c, [])
    ensures c.selected.Some? ==>
      && st.effects == [Http(PostImage(c.selected.value, file))]
      && st.client.messages == (if res.Success? then c.messages + [res.value] else c.messages)
  {
    SendWith(c, peer => PostImage(peer, file), res)
  }

  // ---------------------------------------------------------------------------------------
  // Subscriptions and push handlers

  function SetSelectedUser(c: Client, u: Option<UserId>): (c': Client)
    ensures c'.selected == u && c'.messages == c.messages && c'.subscriptions == c.subscriptions
  {
    c.(selected := u)
  }

  /** `subscribeToMessages`: registers one more handler pair, closing over the selected user and
      the signed-in user, unless either of them or the socket is missing. */
  function Subscribe(c: Client, hasSocket: bool, auth: Option<UserId>): (c': Client)
    ensures c'.messages == c.messages && c'.selected == c.selected
    ensures c.selected.Some? && hasSocket && auth.Some? ==>
              c'.subscriptions == c.subscriptions + [Subscription(c.selected.value, auth.value)]
    ensures !(c.selected.Some? && hasSocket && auth.Some?) ==> c' == c
  {
    if c.selected.None? || !hasSocket || auth.None? then c
    else c.(subscriptions := c.subscriptions + [Subscription(c.selected.value, auth.value)])
  }

  /** `unsubscribeFromMessages`: removes every handler pair, if there is a socket. */
  function Unsubscribe(c: Client, hasSocket: bool): (c': Client)
    ensures c'.messages == c.messages && c'.selected == c.selected
    ensures hasSocket ==> c'.subscriptions == []
    ensures !hasSocket ==> c' == c
  {
    if hasSocket then c.(subscriptions := []) else c
  }

  /** The pushed message belongs to the conversation a handler pair was registered for. */
  predicate ForChat(sub: Subscription, m: Message) {
    m.senderId == sub.selected || m.receiverId == sub.selected
  }

  /** The pushed message is addressed to the signed-in user and unseen. */
  predicate NeedsReceipt(sub: Subscription, m: Message) {
    m.receiverId == sub.auth && !m.seen
  }

  /** One `newMessage` handler: a message of the open conversation is appended; if it is
      addressed to the signed-in user and unseen, a mark-seen call names it, it is flipped
      locally whatever the call's outcome, and a `messageSeen` emit follows only on success. */
  function HandleNewMessage(msgs: seq<Message>, sub: Subscription, m: Message, markSeenOk: bool)
    : (r: (seq<Message>, seq<Effect>))
    ensures !ForChat(sub, m) ==> r == (msgs, [])
    ensures ForChat(sub, m) && !NeedsReceipt(sub, m) ==> r == (msgs + [m], [])
    ensures ForChat(sub, m) && NeedsReceipt(sub, m) ==>
      && r.0 == MarkLocallySeen(msgs + [m], [m.id])
      && r.0[|msgs|] == m.(seen := true)
      && r.1 == [Http(PostMarkSeen([m.id]))] + (if markSeenOk then [EmitMessageSeen(m.(seen := true))] else [])
  {
    if !ForChat(sub, m) then (msgs, [])
    else
      var appended := msgs + [m];
      if !NeedsReceipt(sub, m) then (appended, [])
      else
        var flipped := MarkLocallySeen(appended, [m.id]);
        var emits := if markSeenOk then [EmitMessageSeen(m.(seen := true))] else [];
        (flipped, [Http(PostMarkSeen([m.id]))] + emits)
  }

  /** Every registered handler pair runs, in registration order. */
  function RunNewMessage(msgs: seq<Message>, subs: seq<Subscription>, m: Message, markSeenOk: bool)
    : (r: (seq<Message>, seq<Effect>))
    ensures |r.0| >= |msgs|
    ensures forall i | 0 <= i < |msgs| :: r.0[i] == msgs[i] || r.0[i] == msgs[i].(seen := true)
    decreases |subs|
  {
    if subs == [] then (msgs, [])
    else
      var first := HandleNewMessage(msgs, subs[0], m, markSeenOk);
      var rest := RunNewMessage(first.0, subs[1..], m, markSeenOk);
      (rest.0, first.1 + rest.1)
  }

  /** A `newMessage` push arriving at the client. */
  function OnNewMessage(c: Client, m: Message, markSeenOk: bool): (st: Step)
    ensures st.client.selected == c.selected && st.client.subscriptions == c.subscriptions
    ensures c.subscriptions == [] ==> st == Step(c, [])
  {
    var r := RunNewMessage(c.messages, c.subscriptions, m, markSeenOk);
    Step(c.(messages := r.0), r.1)
  }

  /** One `messageSeen` handler: the message with that id is flipped, if it is shown at all. */
  function RunMessageSeen(msgs: seq<Message>, subs: seq<Subscription>, updated: Message)
    : (r: seq<Message>)
    ensures subs == [] ==> r == msgs
    ensures subs != [] ==> r == MarkLocallySeen(msgs, [updated.id])
    decreases |subs|
  {
    if subs == [] then msgs
    else
      var once := MarkLocallySeen(msgs, [updated.id]);
      var r := RunMessageSeen(once, subs[1..], updated);
      assert MarkLocallySeen(once, [updated.id]) == once;
      r
  }

  /** A `messageSeen` push arriving at the client. */
  function OnMessageSeen(c: Client, updated: Message): (st: Step)
    ensures st.effects == []
    ensures st.client.selected == c.selected && st.client.subscriptions == c.subscriptions
    ensures c.subscriptions == [] ==> st == Step(c, [])
    ensures OnlyReceiptsRaised(c.messages, st.client.messages)
    ensures c.subscriptions != [] ==>
              forall i | 0 <= i < |c.messages| ::
                st.client.messages[i].seen == (c.messages[i].seen || c.messages[i].id == updated.id)
    ensures (forall i | 0 <= i < |c.messages| :: c.messages[i].id != updated.id) ==> st.client == c
  {
    Step(c.(messages := RunMessageSeen(c.messages, c.subscriptions, updated)), [])
  }

  // ---------------------------------------------------------------------------------------
  // Properties of the push handlers

  /** With one handler pair, a pushed message is appended exactly when it belongs to the open
      conversation; the shown list is otherwise untouched except for receipts raised. */
  lemma NewMessageAppendedIffForChat(c: Client, sub: Subscription, m: Message, markSeenOk: bool)
    requires c.subscriptions == [sub]
    ensures var st := OnNewMessage(c, m, markSeenOk);
            && |st.client.messages| == |c.messages| + (if ForChat(sub, m) then 1 else 0)
            && (!ForChat(sub, m) ==> st == Step(c, []))
            && (ForChat(sub, m) ==> st.client.messages[|c.messages|].id == m.id)
  {
    assert c.subscriptions[1..] == [];
    var r := HandleNewMessage(c.messages, sub, m, markSeenOk);
    assert RunNewMessage(r.0, [], m, markSeenOk) == (r.0, []);
  }

  /** An unseen message pushed to the signed-in user is shown as seen whether its mark-seen call
      succeeds or fails; only success emits `messageSeen`. */
  lemma ReceiptFlipRegardlessOfOutcome(c: Client, sub: Subscription, m: Message)
    requires c.subscriptions == [sub] && ForChat(sub, m) && NeedsReceipt(sub, m)
    ensures OnNewMessage(c, m, true).client == OnNewMessage(c, m, false).client
    ensures OnNewMessage(c, m, true).client.messages[|c.messages|] == m.(seen := true)
    ensures OnNewMessage(c, m, true).effects
              == [Http(PostMarkSeen([m.id])), EmitMessageSeen(m.(seen := true))]
    ensures OnNewMessage(c, m, false).effects == [Http(PostMarkSeen([m.id]))]
  {
    assert c.subscriptions[1..] == [];
    var r := HandleNewMessage(c.messages, sub, m, true);
    assert RunNewMessage(r.0, [], m, true) == (r.0, []);
    var r' := HandleNewMessage(c.messages, sub, m, false);
    assert RunNewMessage(r'.0, [], m, false) == (r'.0, []);
  }

  /** Handler pairs accumulate: with two pairs registered for the open conversation, every
      push of that conversation is appended twice. A message addressed to the signed-in user and
      unseen, which is what the server pushes to its receiver, is flipped by both handlers and
      asks for its receipt twice. */
  lemma DoubleSubscriptionDuplicates(c: Client, sub: Subscription, m: Message, markSeenOk: bool)
    requires c.subscriptions == [sub, sub] && ForChat(sub, m)
    ensures var st := OnNewMessage(c, m, markSeenOk);
            var receipt := if NeedsReceipt(sub, m)
                           then [Http(PostMarkSeen([m.id]))]
                                + (if markSeenOk then [EmitMessageSeen(m.(seen := true))] else [])
                           else [];
            && st.client.messages == (if NeedsReceipt(sub, m)
                                      then MarkLocallySeen(c.messages + [m, m], [m.id])
                                      else c.messages + [m, m])
            && st.effects == receipt + receipt
    ensures var shown := if NeedsReceipt(sub, m) then m.(seen := true) else m;
            (forall i | 0 <= i < |c.messages| :: c.messages[i].id != m.id) ==>
              OnNewMessage(c, m, markSeenOk).client.messages == c.messages + [shown, shown]
  {
    var r1 := HandleNewMessage(c.messages, sub, m, markSeenOk);
    var r2 := HandleNewMessage(r1.0, sub, m, markSeenOk);
    assert c.subscriptions[1..] == [sub] && [sub][1..] == [];
    assert RunNewMessage(r2.0, [], m, markSeenOk) == (r2.0, []);
    assert r2.1 + [] == r2.1;
    assert RunNewMessage(r1.0, [sub], m, markSeenOk) == (r2.0, r2.1);
    assert OnNewMessage(c, m, markSeenOk) == Step(c.(messages := r2.0), r1.1 + r2.1);
    var xs := c.messages + [m, m];
    if NeedsReceipt(sub, m) {
      var want := MarkLocallySeen(xs, [m.id]);
      assert |r2.0| == |want|;
      forall i | 0 <= i < |xs| ensures r2.0[i] == want[i] {
        if i < |c.messages| + 1 {
          assert (r1.0 + [m])[i] == r1.0[i];
          assert (c.messages + [m])[i] == xs[i];
        } else {
          assert (r1.0 + [m])[i] == m && xs[i] == m;
        }
      }
      assert r2.0 == want;
    } else {
      assert r2.0 == c.messages + [m] + [m];
    }
  }

  /** No client operation ever lowers a read receipt of a message it keeps. */
  lemma NoHandlerClearsSeen(c: Client, m: Message, markSeenOk: bool, res: Outcome<Message>,
                            text: string, file: File, picked: Option<File>)
    ensures forall i | 0 <= i < |c.messages| ::
              c.messages[i].seen ==> OnNewMessage(c, m, markSeenOk).client.messages[i].seen
    ensures forall i | 0 <= i < |c.messages| ::
              c.messages[i].seen ==> OnMessageSeen(c, m).client.messages[i].seen
    ensures forall i | 0 <= i < |c.messages| ::
              c.messages[i].seen ==> SendMessage(c, text, res).client.messages[i].seen
    ensures forall i | 0 <= i < |c.messages| ::
              c.messages[i].seen ==> SendPdf(c, file, res).client.messages[i].seen
    ensures forall i | 0 <= i < |c.messages| ::
              c.messages[i].seen ==> SendImage(c, picked, res).client.messages[i].seen
  {
  }
}
