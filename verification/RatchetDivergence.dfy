/** What happens outside the order that keeps two sessions in step: a message of an older chain still
    decrypts with its stored key, but the receiver ratchets onto that old key first. From then on it can
    read of the sender's current chain only messages whose keys it has stored by then. */
module RatchetDivergence {
  import opened Basics
  import opened RatchetKeys
  import opened Ratchet
  import opened RatchetProtocol
  import opened RatchetRuns

  /** The receiver of chain q is given a message of an older chain that it had skipped. */
  ghost predicate LateDelivery(sys: System, id: MessageId, q: nat) {
    && Synced(sys) && Sent(sys, id) && id !in sys.got
    && id.epoch < q && id.epoch % 2 == q % 2 && q + 1 < |sys.epochs| && InEpoch(sys, Receiver(id), q + 1)
    && var s := SessionOf(sys, Receiver(id));
    && PacketOf(sys, id).header.Header?
    && |s.skipped| + SkipCount(s, PacketOf(sys, id).header.prevLen) <= MAX_SKIPPED_KEYS
  }

  /** Keeping the current chain before the ratchet step leaves the late message's key in the store, and
      no key of the current chain at or after the position it reaches. */
  lemma LateKeyKept(sys: System, id: MessageId, q: nat)
    requires LateDelivery(sys, id, q)
    ensures PacketOk(sys.epochs, id.epoch, id.num)
    ensures var s, until := SessionOf(sys, Receiver(id)), PacketOf(sys, id).header.prevLen;
      var kept, slot := SkipOldChain(s, until), SlotOf(sys.epochs, id.epoch, id.num);
      && kept.result.Ok? && SameSending(s, kept.state)
      && slot in kept.state.skipped && kept.state.skipped[slot] == sys.epochs[id.epoch].KeyOf(id.num)
      && (forall n: nat :: n >= s.recvNum && n >= until ==> SlotOf(sys.epochs, q, n) !in kept.state.skipped)
  {
    var s, until := SessionOf(sys, Receiver(id)), PacketOf(sys, id).header.prevLen;
    var slot := SlotOf(sys.epochs, id.epoch, id.num);
    assert PacketOk(sys.epochs, id.epoch, id.num);
    assert SlotExact(sys.epochs, sys.got, s.skipped, q, s.recvNum, id.epoch, id.num);
    KeysDiffer(sys.epochs, id.epoch, q);
    var pub, chain := Pub(sys.epochs[q].priv), sys.epochs[q].Chain();
    var kept := SkipOldChain(s, until).state;
    if s.recvNum < until {
      SkipToExact(s, pub, chain, until);
      assert Covers(s.skipped, kept.skipped, slot, pub, chain, s.recvNum, until);
    }
    forall n: nat | n >= s.recvNum && n >= until ensures SlotOf(sys.epochs, q, n) !in kept.skipped {
      assert SlotExact(sys.epochs, sys.got, s.skipped, q, s.recvNum, q, n);
      if s.recvNum < until {
        assert Covers(s.skipped, kept.skipped, SlotOf(sys.epochs, q, n), pub, chain, s.recvNum, until);
      }
    }
  }

  /** The late message itself is read, from the stored key, after a ratchet step onto its old key. */
  lemma LateMessageDecrypts(sys: System, id: MessageId, q: nat, newPriv: Priv)
    requires LateDelivery(sys, id, q)
    ensures var r := Delivery(sys, id, newPriv);
      var s := SessionOf(sys, Receiver(id));
      && r.result == Ok(PacketOf(sys, id).plaintext)
      && r.state.dhRemote == Some(Pub(sys.epochs[id.epoch].priv))
      && r.state.rootKey.Some? && Depth(r.state.rootKey.value) == Depth(s.rootKey.value) + 2
      && (forall n: nat :: n >= s.recvNum && n >= PacketOf(sys, id).header.prevLen ==>
            SlotOf(sys.epochs, q, n) !in r.state.skipped)
  {
    var s, packet := SessionOf(sys, Receiver(id)), PacketOf(sys, id);
    LateKeyKept(sys, id, q);
    KeysDiffer(sys.epochs, id.epoch, q);
    DecryptOnNewKey(s, packet.header, packet.body, newPriv);
  }

  /** How far the keys of the current chain have been derived once the late message is in. */
  function DerivedTo(sys: System, id: MessageId): nat
    requires Sent(sys, id) && PacketOf(sys, id).header.Header?
  {
    var s, until := SessionOf(sys, Receiver(id)), PacketOf(sys, id).header.prevLen;
    if s.recvNum < until then until else s.recvNum
  }

  /** An undelivered message of the current chain before that position has its key in the store. */
  lemma EarlierKeyKept(sys: System, id: MessageId, q: nat, n: nat)
    requires LateDelivery(sys, id, q) && n < DerivedTo(sys, id) && MessageId(q, n) !in sys.got
    ensures var s, until := SessionOf(sys, Receiver(id)), PacketOf(sys, id).header.prevLen;
      var kept, slot := SkipOldChain(s, until).state, SlotOf(sys.epochs, q, n);
      slot in kept.skipped && kept.skipped[slot] == sys.epochs[q].KeyOf(n)
  {
    var s, until := SessionOf(sys, Receiver(id)), PacketOf(sys, id).header.prevLen;
    var slot, pub, chain := SlotOf(sys.epochs, q, n), Pub(sys.epochs[q].priv), sys.epochs[q].Chain();
    assert SlotExact(sys.epochs, sys.got, s.skipped, q, s.recvNum, q, n);
    if s.recvNum < until {
      SkipToExact(s, pub, chain, until);
      assert Covers(s.skipped, SkipOldChain(s, until).state.skipped, slot, pub, chain, s.recvNum, until);
    }
  }

  /** The session the late message leaves: at the start of a receiving chain on the old key. */
  lemma LateState(sys: System, id: MessageId, q: nat, newPriv: Priv)
    requires LateDelivery(sys, id, q)
    ensures var t, s, packet := Delivery(sys, id, newPriv).state, SessionOf(sys, Receiver(id)), PacketOf(sys, id);
      && t.dhRemote == Some(Pub(sys.epochs[id.epoch].priv)) && t.recvKey.Some? && t.recvNum == 0
      && t.dhPriv.Some? && t.rootKey.Some?
      && t.skipped == SkipOldChain(s, packet.header.prevLen).state.skipped - {SlotOf(sys.epochs, id.epoch, id.num)}
  {
    var s, packet := SessionOf(sys, Receiver(id)), PacketOf(sys, id);
    LateKeyKept(sys, id, q);
    KeysDiffer(sys.epochs, id.epoch, q);
    DecryptOnNewKey(s, packet.header, packet.body, newPriv);
  }

  /** A stored key is used after one more ratchet step, if there is room for what that step stores. */
  lemma StoredKeyReads(t: Session, header: Header, c: Ciphertext, newPriv: Priv)
    requires header.Header? && t.dhRemote.Some? && t.recvKey.Some? && t.recvNum == 0 && t.dhPriv.Some? && t.rootKey.Some?
    requires t.dhRemote.value != header.pub && |t.skipped| + header.prevLen <= MAX_SKIPPED_KEYS
    requires var slot := Slot(header.pub, header.msgNum); slot in t.skipped && c.Sealed? && c.key == t.skipped[slot] && c.header == header
    ensures Decrypt(t, header, c, newPriv).result == Ok(c.plaintext)
  {
    var slot, pub, chain := Slot(header.pub, header.msgNum), t.dhRemote.value, t.recvKey.value;
    SkipToExact(t, pub, chain, header.prevLen);
    var kept := SkipTo(t, pub, header.prevLen).state;
    assert Covers(t.skipped, kept.skipped, slot, pub, chain, 0, header.prevLen);
    DecryptOnNewKey(t, header, c, newPriv);
  }

  /** With room in the store, the next message delivered from the current chain, if not delivered before, is
      read if and only if its key was derived before the late message came or by it. */
  lemma StillReadIff(sys: System, id: MessageId, q: nat, newPriv: Priv, n: nat, nextPriv: Priv)
    requires LateDelivery(sys, id, q) && n < |sys.epochs[q].sent| && MessageId(q, n) !in sys.got
    requires |Delivery(sys, id, newPriv).state.skipped| + PrevLen(sys.epochs, q) <= MAX_SKIPPED_KEYS
    ensures var t, packet := Delivery(sys, id, newPriv).state, sys.epochs[q].sent[n];
      var r := Decrypt(t, packet.header, packet.body, nextPriv).result;
      && (r.Ok? <==> n < DerivedTo(sys, id))
      && (r.Ok? ==> r.value == packet.plaintext)
  {
    if n < DerivedTo(sys, id) {
      var t, packet := Delivery(sys, id, newPriv).state, sys.epochs[q].sent[n];
      assert PacketOk(sys.epochs, q, n);
      EarlierKeyKept(sys, id, q, n);
      LateState(sys, id, q, newPriv);
      KeysDiffer(sys.epochs, id.epoch, q);
      StoredKeyReads(t, packet.header, packet.body, nextPriv);
    } else {
      LateDeliveryEndsChain(sys, id, q, newPriv, n, nextPriv);
    }
  }

  /** Afterwards no message of the current chain from that position on is readable, whichever arrives next. */
  lemma LateDeliveryEndsChain(sys: System, id: MessageId, q: nat, newPriv: Priv, n: nat, nextPriv: Priv)
    requires LateDelivery(sys, id, q)
    requires DerivedTo(sys, id) <= n < |sys.epochs[q].sent|
    ensures var t := Delivery(sys, id, newPriv).state;
      var packet := sys.epochs[q].sent[n];
      Decrypt(t, packet.header, packet.body, nextPriv).result.Err?
  {
    LateMessageDecrypts(sys, id, q, newPriv);
    assert PacketOk(sys.epochs, q, n) && Linked(sys.epochs, q);
    assert sys.epochs[id.epoch].priv != sys.epochs[q].priv;
    assert SlotOf(sys.epochs, q, n) !in Delivery(sys, id, newPriv).state.skipped;
    OutgrownChainUnreadable(Delivery(sys, id, newPriv).state, sys.epochs[q], n, sys.epochs[q].sent[n], nextPriv);
  }

  /** A message overtaken by a newer chain is a late delivery to a receiver that is past its chain. */
  lemma OvertakenIsLate(sys: System, id: MessageId) returns (q: nat)
    requires Synced(sys) && Sent(sys, id) && id !in sys.got && !InOrder(sys, id)
    requires Fits(SessionOf(sys, Receiver(id)), PacketOf(sys, id).header)
    ensures LateDelivery(sys, id, q)
  {
    var j :| j in sys.got && j.epoch % 2 == id.epoch % 2 && j.epoch > id.epoch;
    q := ReceiverPlace(sys, Receiver(id), j);
    assert PacketOk(sys.epochs, id.epoch, id.num);
    assert sys.epochs[id.epoch].priv != sys.epochs[q].priv;
  }

  lemma OldRemoteNotSynced(sys: System, p: Party, f: nat)
    requires f + 3 < |sys.epochs| && SessionOf(sys, p).dhRemote == Some(Pub(sys.epochs[f].priv))
    ensures !Synced(sys)
  {}

  /** The receiver is left following a key older than both chains a synced receiver may follow. */
  lemma LateDeliveryDiverges(sys: System, id: MessageId, q: nat, newPriv: Priv)
    requires LateDelivery(sys, id, q)
    ensures !Synced(Next(sys, Deliver(id, newPriv)))
  {
    LateMessageDecrypts(sys, id, q, newPriv);
    NextDeliver(sys, id, newPriv);
    assert sys.epochs[id.epoch].priv != sys.epochs[q].priv;
    assert PacketOk(sys.epochs, id.epoch, id.num);
    OldRemoteNotSynced(Next(sys, Deliver(id, newPriv)), Receiver(id), id.epoch);
  }

  /** First deliveries always decrypt to the plaintext sent, and keep the two sides in step exactly
      when no newer chain of the same sender has been delivered before. */
  lemma SyncKeptIffInOrder(sys: System, id: MessageId, newPriv: Priv)
    requires Synced(sys) && Sent(sys, id) && id !in sys.got && !Known(sys.epochs, newPriv)
    requires Fits(SessionOf(sys, Receiver(id)), PacketOf(sys, id).header)
    ensures Delivery(sys, id, newPriv).result == Ok(PacketOf(sys, id).plaintext)
    ensures Synced(Next(sys, Deliver(id, newPriv))) <==> InOrder(sys, id)
  {
    if InOrder(sys, id) {
      FirstDelivery(sys, id, newPriv);
    } else {
      var q := OvertakenIsLate(sys, id);
      LateMessageDecrypts(sys, id, q, newPriv);
      LateDeliveryDiverges(sys, id, q, newPriv);
    }
  }
}
