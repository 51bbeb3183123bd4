/** The socket server's presence registry: a map from user id to the id of that user's live
    connection, changed by connection-open and connection-close, with the full list of online
    user ids broadcast to every client after each change. */
module Presence {
  import opened Wrappers
  import opened Common

  type Registry = map<UserId, ConnId>

  /** The registry plus every `getOnlineUsers` broadcast sent so far, oldest first. */
  datatype State = State(registry: Registry, broadcasts: seq<set<UserId>>)

  /** The process starts with nobody online and nothing broadcast. */
  const Initial: State := State(map[], [])

  /** `getReceiverSocketId`: the live connection registered for `u`, if any. */
  function Lookup(reg: Registry, u: UserId): (c: Option<ConnId>)
    ensures c.Some? <==> u in reg
    ensures c.Some? ==> c.value == reg[u]
  {
    if u in reg then Some(reg[u]) else None
  }

  /** The property key `userSocketMap[userId]` uses: an absent parameter is coerced to the
      string "undefined". */
  function KeyOf(handshakeUser: Option<string>): (k: UserId)
    ensures handshakeUser.Some? ==> k == handshakeUser.value
    ensures handshakeUser.None? ==> k == "undefined"
  {
    match handshakeUser
    case Some(u) => u
    case None => "undefined"
  }

  /** Connection-open: a claimed user id is bound to the new connection, overwriting any earlier
      binding; then the current online list goes to everyone. */
  function Connect(st: State, handshakeUser: Option<string>, conn: ConnId): (st': State)
    ensures Truthy(handshakeUser) ==> Lookup(st'.registry, handshakeUser.value) == Some(conn)
    ensures !Truthy(handshakeUser) ==> st'.registry == st.registry
    ensures forall u :: (!Truthy(handshakeUser) || u != handshakeUser.value) ==>
              Lookup(st'.registry, u) == Lookup(st.registry, u)
    ensures st'.broadcasts == st.broadcasts + [st'.registry.Keys]
  {
    var reg := if Truthy(handshakeUser) then st.registry[handshakeUser.value := conn]
               else st.registry;
    State(reg, st.broadcasts + [reg.Keys])
  }

  /** Connection-close: the key the connection was opened with is deleted, whatever connection
      it is bound to now; then the current online list goes to everyone. */
  function Disconnect(st: State, handshakeUser: Option<string>): (st': State)
    ensures Lookup(st'.registry, KeyOf(handshakeUser)) == None
    ensures forall u :: u != KeyOf(handshakeUser) ==> Lookup(st'.registry, u) == Lookup(st.registry, u)
    ensures st'.registry.Keys == st.registry.Keys - {KeyOf(handshakeUser)}
    ensures st'.broadcasts == st.broadcasts + [st'.registry.Keys]
  {
    var reg := st.registry - {KeyOf(handshakeUser)};
    State(reg, st.broadcasts + [reg.Keys])
  }

  /** Events seen by the socket server, each tagged with the handshake it was opened with. */
  datatype Event =
    | Opened(handshakeUser: Option<string>, conn: ConnId)
    | Closed(handshakeUser: Option<string>)

  function Step(st: State, e: Event): State {
    match e
    case Opened(h, c) => Connect(st, h, c)
    case Closed(h) => Disconnect(st, h)
  }

  /** The state after a whole run of events from process start. */
  function Replay(events: seq<Event>): State
    decreases |events|
  {
    if events == [] then Initial else Step(Replay(events[..|events| - 1]), events[|events| - 1])
  }

  /** Event `e` binds `u` to `c`. */
  predicate Binds(e: Event, u: UserId, c: ConnId) {
    e.Opened? && Truthy(e.handshakeUser) && e.handshakeUser.value == u && e.conn == c
  }

  /** Event `e` changes `u`'s entry (binds it to something, or deletes it). */
  predicate Touches(e: Event, u: UserId) {
    (e.Opened? && Truthy(e.handshakeUser) && e.handshakeUser.value == u)
    || (e.Closed? && KeyOf(e.handshakeUser) == u)
  }

  /** `u` is bound to `c` after `events` exactly when some event bound it to `c` and no later event
      touched `u`: the last connect wins and any later close of the same user id evicts it. */
  predicate LastBinding(events: seq<Event>, u: UserId, c: ConnId) {
    exists i | 0 <= i < |events| :: Binds(events[i], u, c)
      && forall j | i < j < |events| :: !Touches(events[j], u)
  }

  lemma {:induction false} ReplayRegistry(events: seq<Event>, u: UserId, c: ConnId)
    ensures Lookup(Replay(events).registry, u) == Some(c) <==> LastBinding(events, u, c)
    decreases |events|
  {
    if events == [] {
    } else {
      var n := |events| - 1;
      var init := events[..n];
      var e := events[n];
      ReplayRegistry(init, u, c);
      if Touches(e, u) {
        if Binds(e, u, c) {
          assert LastBinding(events, u, c) by {
            assert Binds(events[n], u, c);
          }
        } else {
          assert !LastBinding(events, u, c);
        }
      } else {
        assert Lookup(Replay(events).registry, u) == Lookup(Replay(init).registry, u);
        if LastBinding(init, u, c) {
          var i :| 0 <= i < |init| && Binds(init[i], u, c)
            && forall j | i < j < |init| :: !Touches(init[j], u);
          assert events[i] == init[i];
          assert forall j | i < j < |events| :: !Touches(events[j], u) by {
            forall j | i < j < |events| ensures !Touches(events[j], u) {
              if j < n { assert events[j] == init[j]; }
            }
          }
        }
        if LastBinding(events, u, c) {
          var i :| 0 <= i < |events| && Binds(events[i], u, c)
            && forall j | i < j < |events| :: !Touches(events[j], u);
          assert i != n;
          assert Binds(init[i], u, c);
          assert forall j | i < j < |init| :: !Touches(init[j], u) by {
            forall j | i < j < |init| ensures !Touches(init[j], u) {
              assert init[j] == events[j];
            }
          }
        }
      }
    }
  }

  /** Every event broadcasts once, and broadcast `k` is the online set right after event `k`. */
  lemma {:induction false} ReplayBroadcasts(events: seq<Event>)
    ensures |Replay(events).broadcasts| == |events|
    ensures forall k | 0 <= k < |events| ::
              Replay(events).broadcasts[k] == Replay(events[..k + 1]).registry.Keys
    decreases |events|
  {
    if events != [] {
      var n := |events| - 1;
      var init := events[..n];
      ReplayBroadcasts(init);
      assert events[..n + 1] == events;
      forall k | 0 <= k < n
        ensures Replay(events).broadcasts[k] == Replay(events[..k + 1]).registry.Keys
      {
        assert init[..k + 1] == events[..k + 1];
      }
    }
  }

  /** The registry race the close handler leaves open: user `u` reconnects on `newer` before the
      close of the older connection `older` arrives, and that stale close takes `u` offline. */
  lemma StaleCloseEvictsNewerConnection(u: UserId, older: ConnId, newer: ConnId)
    requires u != ""
    ensures var st := Disconnect(Connect(Connect(Initial, Some(u), older), Some(u), newer), Some(u));
            Lookup(st.registry, u) == None
  {
  }
}
