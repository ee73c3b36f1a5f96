/** Runs of the two-party system: sends, deliveries, duplicates, forgeries, reflections and restarts. */
module RatchetRuns {
  import opened Basics
  import opened RatchetKeys
  import opened Ratchet
  import opened RatchetProtocol
  import opened RatchetOrigin

  datatype Event =
    | Send(from: Party, plaintext: Bytes, nonce: nat, newPriv: Priv)
    | Deliver(id: MessageId, newPriv: Priv)
    | Inject(to: Party, header: Header, body: Ciphertext, newPriv: Priv)
    | Reflect(id: MessageId, newPriv: Priv)
    | Reload(party: Party)

  predicate Sent(sys: System, id: MessageId) {
    id.epoch < |sys.epochs| && id.num < |sys.epochs[id.epoch].sent|
  }

  function Receiver(id: MessageId): Party {
    Other(SenderOf(id.epoch))
  }

  function PacketOf(sys: System, id: MessageId): Packet
    requires Sent(sys, id)
  {
    sys.epochs[id.epoch].sent[id.num]
  }

  /** What the receiver's session does with a message from the network. */
  function Delivery(sys: System, id: MessageId, newPriv: Priv): Effect<Bytes>
    requires Sent(sys, id)
  {
    var packet := PacketOf(sys, id);
    Decrypt(SessionOf(sys, Receiver(id)), packet.header, packet.body, newPriv)
  }

  /** The same when the message is sent back to its own sender. */
  function Reflection(sys: System, id: MessageId, newPriv: Priv): Effect<Bytes>
    requires Sent(sys, id)
  {
    var packet := PacketOf(sys, id);
    Decrypt(SessionOf(sys, SenderOf(id.epoch)), packet.header, packet.body, newPriv)
  }

  /** No message of a newer chain has reached the same receiver before. */
  ghost predicate InOrder(sys: System, id: MessageId) {
    forall j :: j in sys.got && j.epoch % 2 == id.epoch % 2 ==> j.epoch <= id.epoch
  }

  /** The ciphertext was sealed, and under this header. */
  predicate Genuine(header: Header, body: Ciphertext) {
    body.Sealed? && body.header == header
  }

  /** Generated keys are new; the adversary seals under no key built on the shared secret; first deliveries come in the order of
      their chains and find room for skipped keys. Duplicates may come at any time. */
  ghost predicate Enabled(sys: System, ev: Event)
    requires |sys.epochs| > 0
  {
    match ev
    case Send(_, _, _, newPriv) => !Known(sys.epochs, newPriv)
    case Deliver(id, newPriv) =>
      && !Known(sys.epochs, newPriv) && Sent(sys, id)
      && (id !in sys.got ==> InOrder(sys, id) && Fits(SessionOf(sys, Receiver(id)), PacketOf(sys, id).header))
    case Inject(_, header, body, _) => !Genuine(header, body) || !BuiltOn(body.key, sys.epochs[0].root)
    case Reflect(id, _) => Sent(sys, id)
    case Reload(_) => true
  }

  /** The newest chain of a party. */
  function NewestOf(epochs: seq<Epoch>, p: Party): nat {
    if |epochs| < 2 then 0 else if SenderOf(|epochs| - 1) == p then |epochs| - 1 else |epochs| - 2
  }

  function Record(epochs: seq<Epoch>, e: nat, packet: Packet): seq<Epoch>
    requires e < |epochs|
  {
    epochs[e := epochs[e].(sent := epochs[e].sent + [packet])]
  }

  /** A step; an operation that fails is not saved. */
  function Next(sys: System, ev: Event): System
    requires |sys.epochs| > 0
    requires ev.Deliver? || ev.Reflect? ==> Sent(sys, ev.id)
  {
    match ev
    case Send(from, plaintext, nonce, newPriv) =>
      var s := SessionOf(sys, from);
      var r := Encrypt(s, plaintext, nonce, newPriv);
      if r.result.Err? then sys
      else
        var epochs := if s.sendKey.None? then sys.epochs + [NextEpoch(sys.epochs, newPriv)] else sys.epochs;
        var packet := Packet(r.result.value.0, r.result.value.1, plaintext);
        WithSession(sys, from, r.state).(epochs := Record(epochs, NewestOf(epochs, from), packet))
    case Deliver(id, newPriv) =>
      var r := Delivery(sys, id, newPriv);
      if r.result.Err? then sys
      else
        var followed := SessionOf(sys, Receiver(id)).dhRemote != Some(PacketOf(sys, id).header.pub);
        var epochs := if followed then sys.epochs + [NextEpoch(sys.epochs, newPriv)] else sys.epochs;
        WithSession(sys, Receiver(id), r.state).(epochs := epochs, got := sys.got + {id})
    case Inject(to, header, body, newPriv) =>
      var r := Decrypt(SessionOf(sys, to), header, body, newPriv);
      if r.result.Err? then sys else WithSession(sys, to, r.state)
    case Reflect(id, newPriv) =>
      var r := Reflection(sys, id, newPriv);
      if r.result.Err? then sys else WithSession(sys, SenderOf(id.epoch), r.state)
    case Reload(party) =>
      WithSession(sys, party, SessionOf(sys, party).(order := []))
  }

  // ---- sending ----

  lemma RecordKeepsHistory(epochs: seq<Epoch>, e: nat, packet: Packet)
    requires HistoryOk(epochs) && e < |epochs| <= e + 2
    requires packet.header == Header(|epochs[e].sent|, PrevLen(epochs, e), Pub(epochs[e].priv), [])
    requires packet.body.Sealed? && packet.body.key == epochs[e].KeyOf(|epochs[e].sent|)
    requires packet.body.plaintext == packet.plaintext && packet.body.header == packet.header
    ensures HistoryOk(Record(epochs, e, packet)) && Evolves(epochs, Record(epochs, e, packet))
  {
    var later := Record(epochs, e, packet);
    forall g, n | 0 <= g < |later| && 0 <= n < |later[g].sent| ensures PacketOk(later, g, n) {
      if g != e || n < |epochs[e].sent| {
        assert PacketOk(epochs, g, n);
      }
    }
    forall g | 0 <= g < |later| - 1 ensures Linked(later, g) {
      assert Linked(epochs, g);
    }
  }

  /** The session after sending on chain e, and the packet it put on the network. */
  lemma SendOnChain(epochs: seq<Epoch>, s: Session, e: nat, plaintext: Bytes, nonce: nat, newPriv: Priv)
    requires HistoryOk(epochs) && Sending(epochs, s, e) && |epochs| <= e + 2
    requires Encrypt(s, plaintext, nonce, newPriv).result.Ok?
    ensures var r := Encrypt(s, plaintext, nonce, newPriv);
      var later := Record(epochs, e, Packet(r.result.value.0, r.result.value.1, plaintext));
      && HistoryOk(later) && Evolves(epochs, later) && Sending(later, r.state, e)
      && r.state == s.(sendKey := r.state.sendKey, sendNum := r.state.sendNum)
  {
    var r := Encrypt(s, plaintext, nonce, newPriv);
    RecordKeepsHistory(epochs, e, Packet(r.result.value.0, r.result.value.1, plaintext));
  }

  lemma ReceivingSameFields(epochs: seq<Epoch>, got: set<MessageId>, s: Session, t: Session, q: nat)
    requires Receiving(epochs, got, s, q)
    requires s.dhRemote == t.dhRemote && s.recvNum == t.recvNum && s.recvKey == t.recvKey && s.skipped == t.skipped
    ensures Receiving(epochs, got, t, q)
  {}

  /** The two parties' places, one chain apart, make the system synced. */
  lemma SyncedFrom(now: System, p: Party, e: nat, e': nat)
    requires HistoryOk(now.epochs) && |now.epochs| > 1 && (forall id :: id in now.got ==> id.epoch < |now.epochs|)
    requires var last := |now.epochs| - 1; (e == last && e' == last - 1) || (e == last - 1 && e' == last)
    requires p == SenderOf(e) && InEpoch(now, p, e) && InEpoch(now, Other(p), e')
    ensures Synced(now)
  {}

  lemma SenderStays(sys: System, p: Party, e: nat, t: Session, later: seq<Epoch>)
    requires InEpoch(sys, p, e) && (forall id :: id in sys.got ==> id.epoch < |sys.epochs|)
    requires Evolves(sys.epochs, later) && |later| == |sys.epochs| && Sending(later, t, e)
    requires forall f :: 0 <= f < |later| && f != e ==> later[f] == sys.epochs[f]
    requires t == SessionOf(sys, p).(sendKey := t.sendKey, sendNum := t.sendNum)
    ensures InEpoch(WithSession(sys, p, t).(epochs := later), p, e)
  {
    var s := SessionOf(sys, p);
    if e > 0 {
      ReceivingFrame(sys.epochs, sys.got, s, e - 1, later, sys.got);
      ReceivingSameFields(later, sys.got, s, t, e - 1);
    }
  }

  /** Where the other party of a synced system stands, and the facts about the history. */
  lemma OtherPlace(sys: System, p: Party, e: nat) returns (e': nat)
    requires Synced(sys) && |sys.epochs| > 1 && p == SenderOf(e) && e < |sys.epochs| <= e + 2
    ensures e' < |sys.epochs| <= e' + 2 && (e' == e + 1 || e == e' + 1) && InEpoch(sys, Other(p), e')
    ensures HistoryOk(sys.epochs) && forall id :: id in sys.got ==> id.epoch < |sys.epochs|
  {
    e' := if e == |sys.epochs| - 1 then e - 1 else e + 1;
  }

  /** Party p, in chain e, changes only its sending side, in step with one more packet on chain e. */
  lemma SentOnChain(sys: System, p: Party, e: nat, t: Session, later: seq<Epoch>)
    requires Synced(sys) && p == SenderOf(e) && e < |sys.epochs| <= e + 2 && InEpoch(sys, p, e)
    requires HistoryOk(later) && Evolves(sys.epochs, later) && |later| == |sys.epochs| && Sending(later, t, e)
    requires forall f :: 0 <= f < |later| && f != e ==> later[f] == sys.epochs[f]
    requires t == SessionOf(sys, p).(sendKey := t.sendKey, sendNum := t.sendNum)
    ensures Synced(WithSession(sys, p, t).(epochs := later))
  {
    var now, last := WithSession(sys, p, t).(epochs := later), |sys.epochs| - 1;
    SenderStays(sys, p, e, t, later);
    if last == 0 {
      ReceivingFrame(sys.epochs, sys.got, sys.bob, 0, later, now.got);
    } else {
      var e' := OtherPlace(sys, p, e);
      OtherUnmoved(sys, p, e, e', t, later, sys.got);
      SyncedFrom(now, p, e, e');
    }
  }

  /** The other party, one chain away, keeps its place while p sends on chain e or receives on e'. */
  lemma OtherUnmoved(sys: System, p: Party, e: nat, e': nat, t: Session, later: seq<Epoch>, got: set<MessageId>)
    requires e < |sys.epochs| && InEpoch(sys, Other(p), e') && (e' == e + 1 || e == e' + 1)
    requires forall id :: id in sys.got ==> id.epoch < |sys.epochs|
    requires Evolves(sys.epochs, later) && |later| == |sys.epochs|
    requires forall f :: 0 <= f < |later| && f != e ==> later[f] == sys.epochs[f]
    requires forall id: MessageId :: id.epoch % 2 != e' % 2 ==> (id in sys.got <==> id in got)
    ensures InEpoch(WithSession(sys, p, t).(epochs := later, got := got), Other(p), e')
  {
    InEpochFrame(sys, Other(p), e', WithSession(sys, p, t).(epochs := later, got := got));
  }

  /** Bob's first send creates chain 1 before using it. */
  lemma SilentBecomesSender(sys: System, newPriv: Priv)
    requires Synced(sys) && |sys.epochs| == 1 && !Known(sys.epochs, newPriv)
    ensures var r := EnsureSending(sys.bob, newPriv);
      r.result.Ok? && Synced(sys.(bob := r.state, epochs := sys.epochs + [NextEpoch(sys.epochs, newPriv)]))
  {
    GrowHistory(sys.epochs, newPriv);
    var r := EnsureSending(sys.bob, newPriv);
    var now := sys.(bob := r.state, epochs := sys.epochs + [NextEpoch(sys.epochs, newPriv)]);
    InEpochFrame(sys, Alice, 0, now);
    ReceivingFrame(sys.epochs, sys.got, sys.bob, 0, now.epochs, now.got);
    ReceivingSameFields(now.epochs, now.got, sys.bob, now.bob, 0);
  }

  /** Where a party with a sending chain stands. */
  lemma SenderPlace(sys: System, p: Party) returns (e: nat)
    requires Synced(sys) && (p == Alice || |sys.epochs| > 1)
    ensures p == SenderOf(e) && e == NewestOf(sys.epochs, p) && e < |sys.epochs| <= e + 2 && InEpoch(sys, p, e)
  {
    e := NewestOf(sys.epochs, p);
  }

  lemma SendInPlace(sys: System, p: Party, plaintext: Bytes, nonce: nat, newPriv: Priv)
    requires Synced(sys) && (p == Alice || |sys.epochs| > 1)
    ensures Synced(Next(sys, Send(p, plaintext, nonce, newPriv)))
  {
    var e := SenderPlace(sys, p);
    var s := SessionOf(sys, p);
    var r := Encrypt(s, plaintext, nonce, newPriv);
    if r.result.Ok? {
      var packet := Packet(r.result.value.0, r.result.value.1, plaintext);
      SendOnChain(sys.epochs, s, e, plaintext, nonce, newPriv);
      SentOnChain(sys, p, e, r.state, Record(sys.epochs, e, packet));
      NextSend(sys, p, plaintext, nonce, newPriv);
    }
  }

  lemma NextSend(sys: System, p: Party, plaintext: Bytes, nonce: nat, newPriv: Priv)
    requires |sys.epochs| > 0 && SessionOf(sys, p).sendKey.Some?
    requires Encrypt(SessionOf(sys, p), plaintext, nonce, newPriv).result.Ok?
    ensures var r := Encrypt(SessionOf(sys, p), plaintext, nonce, newPriv);
      && r.result.Ok?
      && Next(sys, Send(p, plaintext, nonce, newPriv))
         == WithSession(sys, p, r.state).(epochs :=
              Record(sys.epochs, NewestOf(sys.epochs, p), Packet(r.result.value.0, r.result.value.1, plaintext)))
  {}

  /** For a silent Bob, sending is creating chain 1 and then sending on it. */
  lemma NextSilentSend(sys: System, plaintext: Bytes, nonce: nat, newPriv: Priv)
    requires |sys.epochs| == 1 && sys.bob.sendKey.None? && EnsureSending(sys.bob, newPriv).result.Ok?
    ensures var started := sys.(bob := EnsureSending(sys.bob, newPriv).state,
                                epochs := sys.epochs + [NextEpoch(sys.epochs, newPriv)]);
      var ev := Send(Bob, plaintext, nonce, newPriv);
      Next(sys, ev) == if Encrypt(sys.bob, plaintext, nonce, newPriv).result.Ok? then Next(started, ev) else sys
  {
    var ready := EnsureSending(sys.bob, newPriv).state;
    assert Encrypt(ready, plaintext, nonce, newPriv) == Encrypt(sys.bob, plaintext, nonce, newPriv);
  }

  lemma SendKeepsSynced(sys: System, p: Party, plaintext: Bytes, nonce: nat, newPriv: Priv)
    requires Synced(sys) && !Known(sys.epochs, newPriv)
    ensures Synced(Next(sys, Send(p, plaintext, nonce, newPriv)))
  {
    if p == Alice || |sys.epochs| > 1 {
      SendInPlace(sys, p, plaintext, nonce, newPriv);
    } else {
      SilentBecomesSender(sys, newPriv);
      NextSilentSend(sys, plaintext, nonce, newPriv);
      var ready := EnsureSending(sys.bob, newPriv).state;
      SendInPlace(sys.(bob := ready, epochs := sys.epochs + [NextEpoch(sys.epochs, newPriv)]), Bob, plaintext, nonce, newPriv);
    }
  }

  // ---- delivering ----

  /** Where the receiver of a message stands. */
  ghost predicate OnCurrentChain(sys: System, p: Party, q: nat) {
    && q < |sys.epochs|
    && Receiving(sys.epochs, sys.got, SessionOf(sys, p), q)
    && (|sys.epochs| == 1 || (q + 1 < |sys.epochs| <= q + 3 && InEpoch(sys, p, q + 1)))
  }

  /** In-order delivery concerns the chain its receiver is receiving now, or the newest one. */
  lemma WhichChain(sys: System, id: MessageId)
    requires Synced(sys) && Sent(sys, id) && InOrder(sys, id)
    ensures var last := |sys.epochs| - 1;
      if last > 0 && id.epoch == last then InEpoch(sys, Receiver(id), last - 1) && Receiver(id) == SenderOf(last - 1)
      else OnCurrentChain(sys, Receiver(id), id.epoch) && (last > 0 ==> Receiver(id) == SenderOf(id.epoch + 1))
  {
    var last := |sys.epochs| - 1;
    if last > 0 && id.epoch < last {
      var q := if id.epoch % 2 == last % 2 then last - 2 else last - 1;
      if id.epoch < q {
        assert false;
      }
    }
  }

  /** The receiver consumed one message of its current chain. */
  lemma DeliveredCurrent(sys: System, p: Party, q: nat, n: nat, t: Session)
    requires Synced(sys) && |sys.epochs| > 1 && OnCurrentChain(sys, p, q) && p == SenderOf(q + 1)
    requires SameSending(SessionOf(sys, p), t) && Receiving(sys.epochs, sys.got + {MessageId(q, n)}, t, q)
    ensures Synced(WithSession(sys, p, t).(got := sys.got + {MessageId(q, n)}))
  {
    var e' := OtherPlace(sys, p, q + 1);
    DeliveredBetween(sys, p, q, n, e', t);
  }

  lemma DeliveredBetween(sys: System, p: Party, q: nat, n: nat, e': nat, t: Session)
    requires HistoryOk(sys.epochs) && q + 1 < |sys.epochs| <= q + 3 && e' < |sys.epochs| <= e' + 2
    requires forall id :: id in sys.got ==> id.epoch < |sys.epochs|
    requires p == SenderOf(q + 1) && InEpoch(sys, p, q + 1) && InEpoch(sys, Other(p), e') && (e' == q + 2 || e' == q)
    requires SameSending(SessionOf(sys, p), t) && Receiving(sys.epochs, sys.got + {MessageId(q, n)}, t, q)
    ensures Synced(WithSession(sys, p, t).(got := sys.got + {MessageId(q, n)}))
  {
    ReceiverStays(sys, p, q, n, t);
    OtherStays(sys, p, q, n, e', t);
    SyncedFrom(WithSession(sys, p, t).(got := sys.got + {MessageId(q, n)}), p, q + 1, e');
  }

  lemma OtherStays(sys: System, p: Party, q: nat, n: nat, e': nat, t: Session)
    requires q + 1 < |sys.epochs| && InEpoch(sys, Other(p), e') && (e' == q + 2 || e' == q)
    requires forall id :: id in sys.got ==> id.epoch < |sys.epochs|
    ensures InEpoch(WithSession(sys, p, t).(got := sys.got + {MessageId(q, n)}), Other(p), e')
  {
    assert e' % 2 == q % 2;
    OtherUnmoved(sys, p, q + 1, e', t, sys.epochs, sys.got + {MessageId(q, n)});
  }

  lemma ReceiverStays(sys: System, p: Party, q: nat, n: nat, t: Session)
    requires InEpoch(sys, p, q + 1)
    requires SameSending(SessionOf(sys, p), t) && Receiving(sys.epochs, sys.got + {MessageId(q, n)}, t, q)
    ensures InEpoch(WithSession(sys, p, t).(got := sys.got + {MessageId(q, n)}), p, q + 1)
  {
    assert MessageId(q, n) in sys.got + {MessageId(q, n)};
  }

  lemma DeliveredToSilent(sys: System, n: nat, t: Session)
    requires Synced(sys) && |sys.epochs| == 1
    requires SameSending(sys.bob, t) && Receiving(sys.epochs, sys.got + {MessageId(0, n)}, t, 0)
    ensures Synced(sys.(bob := t, got := sys.got + {MessageId(0, n)}))
  {
    InEpochFrame(sys, Alice, 0, sys.(bob := t, got := sys.got + {MessageId(0, n)}));
  }

  /** The party one chain behind followed the newest chain e + 1 into its own chain e + 2. */
  lemma DeliveredNewest(sys: System, p: Party, e: nat, n: nat, t: Session, newPriv: Priv)
    requires Synced(sys) && |sys.epochs| == e + 2 && p == SenderOf(e) && !Known(sys.epochs, newPriv)
    requires var later := sys.epochs + [NextEpoch(sys.epochs, newPriv)];
      Sending(later, t, e + 2) && Receiving(later, sys.got + {MessageId(e + 1, n)}, t, e + 1)
    ensures Synced(WithSession(sys, p, t).(epochs := sys.epochs + [NextEpoch(sys.epochs, newPriv)],
                                           got := sys.got + {MessageId(e + 1, n)}))
  {
    var e' := OtherPlace(sys, p, e);
    FollowedTo(sys, p, e, n, t, newPriv);
  }

  lemma FollowedTo(sys: System, p: Party, e: nat, n: nat, t: Session, newPriv: Priv)
    requires HistoryOk(sys.epochs) && |sys.epochs| == e + 2 && p == SenderOf(e) && !Known(sys.epochs, newPriv)
    requires InEpoch(sys, Other(p), e + 1) && forall id :: id in sys.got ==> id.epoch < |sys.epochs|
    requires var later := sys.epochs + [NextEpoch(sys.epochs, newPriv)];
      Sending(later, t, e + 2) && Receiving(later, sys.got + {MessageId(e + 1, n)}, t, e + 1)
    ensures Synced(WithSession(sys, p, t).(epochs := sys.epochs + [NextEpoch(sys.epochs, newPriv)],
                                           got := sys.got + {MessageId(e + 1, n)}))
  {
    var now := WithSession(sys, p, t).(epochs := sys.epochs + [NextEpoch(sys.epochs, newPriv)],
                                       got := sys.got + {MessageId(e + 1, n)});
    GrowHistory(sys.epochs, newPriv);
    InEpochFrame(sys, Other(p), e + 1, now);
    assert MessageId(e + 1, n) in now.got;
    SyncedFrom(now, p, e + 2, e + 1);
  }

  lemma NextDeliver(sys: System, id: MessageId, newPriv: Priv)
    requires |sys.epochs| > 0 && Sent(sys, id) && PacketOf(sys, id).header.Header?
    requires Delivery(sys, id, newPriv).result.Ok?
    ensures var p := Receiver(id);
      var t := Delivery(sys, id, newPriv).state;
      Next(sys, Deliver(id, newPriv)) ==
        if SessionOf(sys, p).dhRemote == Some(PacketOf(sys, id).header.pub)
        then WithSession(sys, p, t).(got := sys.got + {id})
        else WithSession(sys, p, t).(epochs := sys.epochs + [NextEpoch(sys.epochs, newPriv)], got := sys.got + {id})
  {}

  /** A first delivery on the receiver's current chain. */
  lemma FirstOnCurrent(sys: System, id: MessageId, newPriv: Priv)
    requires Synced(sys) && Sent(sys, id) && id !in sys.got && OnCurrentChain(sys, Receiver(id), id.epoch)
    requires |sys.epochs| > 1 ==> Receiver(id) == SenderOf(id.epoch + 1)
    requires Fits(SessionOf(sys, Receiver(id)), PacketOf(sys, id).header)
    ensures Delivery(sys, id, newPriv).result == Ok(PacketOf(sys, id).plaintext)
    ensures Synced(Next(sys, Deliver(id, newPriv)))
  {
    var p, q, n := Receiver(id), id.epoch, id.num;
    DeliveryOnCurrent(sys, id, newPriv);
    assert PacketOk(sys.epochs, q, n);
    ReceiveCurrent(sys.epochs, sys.got, SessionOf(sys, p), q, n);
    NextDeliver(sys, id, newPriv);
    if |sys.epochs| == 1 {
      DeliveredToSilent(sys, n, Delivery(sys, id, newPriv).state);
    } else {
      DeliveredCurrent(sys, p, q, n, Delivery(sys, id, newPriv).state);
    }
  }

  /** On the current chain there is no key to follow. */
  lemma DeliveryOnCurrent(sys: System, id: MessageId, newPriv: Priv)
    requires HistoryOk(sys.epochs) && Sent(sys, id) && Receiving(sys.epochs, sys.got, SessionOf(sys, Receiver(id)), id.epoch)
    ensures PacketOf(sys, id).header.Header? && SessionOf(sys, Receiver(id)).dhRemote == Some(PacketOf(sys, id).header.pub)
    ensures Delivery(sys, id, newPriv) == Receive(SessionOf(sys, Receiver(id)), PacketOf(sys, id).header, PacketOf(sys, id).body)
  {
    assert PacketOk(sys.epochs, id.epoch, id.num);
  }

  /** Every first delivery decrypts to the plaintext sent and leaves the system in step. */
  lemma FirstDelivery(sys: System, id: MessageId, newPriv: Priv)
    requires Synced(sys) && Enabled(sys, Deliver(id, newPriv)) && id !in sys.got
    ensures Delivery(sys, id, newPriv).result == Ok(PacketOf(sys, id).plaintext)
    ensures Synced(Next(sys, Deliver(id, newPriv)))
  {
    var last := |sys.epochs| - 1;
    WhichChain(sys, id);
    if last > 0 && id.epoch == last {
      assert PacketOk(sys.epochs, id.epoch, id.num);
      ReceiveNewest(sys, Receiver(id), last - 1, id.num, newPriv);
      DeliveredNewest(sys, Receiver(id), last - 1, id.num, Delivery(sys, id, newPriv).state, newPriv);
      NextDeliver(sys, id, newPriv);
    } else {
      FirstOnCurrent(sys, id, newPriv);
    }
  }

  // ---- duplicates, forgeries and restarts ----

  lemma {:induction false} StepsInjective(ck: Key, a: nat, b: nat)
    requires ck.ChainKey?
    ensures Steps(ck, a) == Steps(ck, b) <==> a == b
  {
    if a > 0 && b > 0 {
      StepsInjective(ck, a - 1, b - 1);
    }
  }

  /** A party that got a message of a later chain than the first is receiving that chain or a newer one. */
  lemma ReceiverPlace(sys: System, p: Party, j: MessageId) returns (q: nat)
    requires Synced(sys) && j in sys.got && p == Receiver(j) && j.epoch > 0
    ensures q + 1 < |sys.epochs| && InEpoch(sys, p, q + 1) && j.epoch <= q && q % 2 == j.epoch % 2
  {
    var e := SenderPlace(sys, p);
    PlaceBound(sys, p, e, j);
    q := e - 1;
  }

  lemma PlaceBound(sys: System, p: Party, e: nat, j: MessageId)
    requires InEpoch(sys, p, e) && j in sys.got && j.epoch < |sys.epochs| && j.epoch % 2 != e % 2
    ensures j.epoch < e
  {
    if e > 0 {
      var s := SessionOf(sys, p);
      assert SlotExact(sys.epochs, sys.got, s.skipped, e - 1, s.recvNum, j.epoch, j.num);
    }
  }

  /** A message delivered before is never accepted again, however far the conversation has moved on. */
  lemma DuplicateRejected(sys: System, id: MessageId, newPriv: Priv)
    requires Synced(sys) && Sent(sys, id) && id in sys.got
    ensures Delivery(sys, id, newPriv).result.Err?
    ensures InOrder(sys, id) ==> Delivery(sys, id, newPriv).result == Err(AuthenticationFailed)
  {
    if InOrder(sys, id) {
      CurrentDuplicateRejected(sys, id, newPriv);
    } else {
      var j :| j in sys.got && j.epoch % 2 == id.epoch % 2 && j.epoch > id.epoch;
      var q := ReceiverPlace(sys, Receiver(id), j);
      OldDuplicateRejected(sys, id, q, newPriv);
    }
  }

  /** Its chain has been overtaken: the receiver ratchets onto the old key and finds nothing stored. */
  lemma OldDuplicateRejected(sys: System, id: MessageId, q: nat, newPriv: Priv)
    requires HistoryOk(sys.epochs) && Sent(sys, id) && id in sys.got && InEpoch(sys, Receiver(id), q + 1)
    requires id.epoch < q && id.epoch % 2 == q % 2 && q + 1 < |sys.epochs|
    ensures Delivery(sys, id, newPriv).result.Err?
  {
    var s, epoch := SessionOf(sys, Receiver(id)), sys.epochs[id.epoch];
    assert PacketOk(sys.epochs, id.epoch, id.num);
    assert SlotExact(sys.epochs, sys.got, s.skipped, q, s.recvNum, id.epoch, id.num);
    KeysDiffer(sys.epochs, id.epoch, q);
    RootsGrow(sys.epochs, id.epoch, q + 1);
    OutgrownChainUnreadable(s, epoch, id.num, PacketOf(sys, id), newPriv);
  }

  lemma CurrentDuplicateRejected(sys: System, id: MessageId, newPriv: Priv)
    requires Synced(sys) && Sent(sys, id) && InOrder(sys, id) && id in sys.got
    ensures Delivery(sys, id, newPriv).result == Err(AuthenticationFailed)
  {
    var last, p := |sys.epochs| - 1, Receiver(id);
    WhichChain(sys, id);
    assert PacketOk(sys.epochs, id.epoch, id.num);
    if last > 0 && id.epoch == last {
      NotYetDelivered(sys, p, last - 1, id.num);
    } else {
      var s := SessionOf(sys, p);
      assert SlotExact(sys.epochs, sys.got, s.skipped, id.epoch, s.recvNum, id.epoch, id.num);
      StepsInjective(sys.epochs[id.epoch].Chain(), id.num, s.recvNum);
    }
  }

  lemma NotYetDelivered(sys: System, p: Party, e: nat, n: nat)
    requires |sys.epochs| == e + 2 && InEpoch(sys, p, e)
    ensures MessageId(e + 1, n) !in sys.got
  {
    if e == 0 {
      assert MessageId(e + 1, n).epoch % 2 == 1;
    } else {
      var s := SessionOf(sys, p);
      assert SlotExact(sys.epochs, sys.got, s.skipped, e - 1, s.recvNum, e + 1, n);
    }
  }

  /** Nothing the adversary can make is accepted by either side: no unsealed ciphertext, no ciphertext under a
      changed header, and nothing sealed, under whatever header, with a key not built on the secret. */
  lemma ForgeryRejected(sys: System, p: Party, header: Header, body: Ciphertext, newPriv: Priv)
    requires Synced(sys) && (!Genuine(header, body) || !BuiltOn(body.key, sys.epochs[0].root))
    ensures Decrypt(SessionOf(sys, p), header, body, newPriv).result.Err?
  {
    SyncedBuilt(sys, p);
    var s := SessionOf(sys, p);
    if Decrypt(s, header, body, newPriv).result.Ok? {
      AcceptsOnlyBuilt(s, sys.epochs[0].root, header, body, newPriv);
    }
  }

  /** No message is accepted by its own sender. */
  lemma ReflectionRejected(sys: System, id: MessageId, newPriv: Priv)
    requires Synced(sys) && Sent(sys, id)
    ensures Reflection(sys, id, newPriv).result.Err?
  {
    var e := SenderPlace(sys, SenderOf(id.epoch));
    OwnMessageUnreadable(sys, SenderOf(id.epoch), e, id.epoch, id.num, newPriv);
  }

  lemma ReloadKeepsSynced(sys: System, p: Party)
    requires Synced(sys)
    ensures Synced(Next(sys, Reload(p)))
  {
    var s := SessionOf(sys, p);
    forall q: nat | Receiving(sys.epochs, sys.got, s, q)
      ensures Receiving(sys.epochs, sys.got, s.(order := []), q)
    {
      ReceivingSameFields(sys.epochs, sys.got, s, s.(order := []), q);
    }
  }

  // ---- whole runs ----

  lemma StepKeepsSynced(sys: System, ev: Event)
    requires Synced(sys) && Enabled(sys, ev)
    ensures Synced(Next(sys, ev))
  {
    match ev
    case Send(p, plaintext, nonce, newPriv) => SendKeepsSynced(sys, p, plaintext, nonce, newPriv);
    case Deliver(id, newPriv) =>
      if id in sys.got {
        DuplicateRejected(sys, id, newPriv);
      } else {
        FirstDelivery(sys, id, newPriv);
      }
    case Inject(to, header, body, newPriv) => ForgeryRejected(sys, to, header, body, newPriv);
    case Reflect(id, newPriv) => ReflectionRejected(sys, id, newPriv);
    case Reload(p) => ReloadKeepsSynced(sys, p);
  }

  ghost predicate ValidRun(sys: System, events: seq<Event>)
    decreases |events|
  {
    |sys.epochs| > 0 &&
    (events == [] || (Enabled(sys, events[0]) && ValidRun(Next(sys, events[0]), events[1..])))
  }

  ghost function RunTo(sys: System, events: seq<Event>): (end: System)
    requires ValidRun(sys, events)
    ensures |end.epochs| > 0
    decreases |events|
  {
    if events == [] then sys else RunTo(Next(sys, events[0]), events[1..])
  }

  lemma {:induction false} RunKeepsSynced(sys: System, events: seq<Event>)
    requires Synced(sys) && ValidRun(sys, events)
    ensures Synced(RunTo(sys, events))
    decreases |events|
  {
    if events != [] {
      StepKeepsSynced(sys, events[0]);
      RunKeepsSynced(Next(sys, events[0]), events[1..]);
    }
  }

  /** After any valid run from a matching start, whatever message is delivered next: the first time, in the
      order of chains and with room for skipped keys, it decrypts to what was sent, and every later time it
      is refused, whatever else has arrived. */
  lemma EveryDelivery(secret: Key, alicePriv: Priv, bobPriv: Priv, events: seq<Event>, id: MessageId, newPriv: Priv)
    requires alicePriv != bobPriv && ValidRun(Start(secret, alicePriv, bobPriv), events)
    requires Enabled(RunTo(Start(secret, alicePriv, bobPriv), events), Deliver(id, newPriv))
    ensures var sys := RunTo(Start(secret, alicePriv, bobPriv), events);
      && (id !in sys.got ==> Delivery(sys, id, newPriv).result == Ok(PacketOf(sys, id).plaintext))
      && (id in sys.got ==> Delivery(sys, id, newPriv).result.Err?)
      && (id in sys.got && InOrder(sys, id) ==> Delivery(sys, id, newPriv).result == Err(AuthenticationFailed))
  {
    StartSynced(secret, alicePriv, bobPriv);
    RunKeepsSynced(Start(secret, alicePriv, bobPriv), events);
    var sys := RunTo(Start(secret, alicePriv, bobPriv), events);
    if id in sys.got {
      DuplicateRejected(sys, id, newPriv);
    } else {
      FirstDelivery(sys, id, newPriv);
    }
  }
}
