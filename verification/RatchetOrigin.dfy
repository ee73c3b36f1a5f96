/** Where keys come from: everything a session derives is built on the secret it was started with, so a
    ciphertext sealed by someone who does not have that secret is never accepted. */
module RatchetOrigin {
  import opened Basics
  import opened RatchetKeys
  import opened Ratchet
  import opened RatchetEviction
  import opened RatchetProtocol

  /** The key is the secret or derived from it. */
  predicate BuiltOn(k: Key, secret: Key) {
    k == secret ||
    match k
    case SharedSecret(_) => false
    case RootKey(rk, _) => BuiltOn(rk, secret)
    case ChainKey(rk, _) => BuiltOn(rk, secret)
    case NextChain(ck) => BuiltOn(ck, secret)
    case MessageKey(ck) => BuiltOn(ck, secret)
  }

  /** Every key the session can receive with is built on the secret. */
  ghost predicate Built(s: Session, secret: Key) {
    && (s.rootKey.Some? ==> BuiltOn(s.rootKey.value, secret))
    && (s.recvKey.Some? ==> BuiltOn(s.recvKey.value, secret))
    && (forall slot :: slot in s.skipped ==> BuiltOn(s.skipped[slot], secret))
  }

  lemma BuiltRound(s: Session, secret: Key, pub: Pub, until: nat) returns (next: Session)
    requires Built(s, secret) && s.recvNum < until && s.recvKey.Some? && CanEvict(s)
    ensures Built(next, secret) && next.recvNum == s.recvNum + 1 && SkipTo(s, pub, until) == SkipTo(next, pub, until)
  {
    SkipStep(s, pub, until);
    StepStores(s, pub);
    next := Stepped(s, pub);
  }

  lemma {:induction false} SkipBuilt(s: Session, secret: Key, pub: Pub, until: nat)
    requires Built(s, secret)
    ensures Built(SkipTo(s, pub, until).state, secret)
    decreases until - s.recvNum
  {
    if s.recvNum < until && s.recvKey.Some? && CanEvict(s) {
      var next := BuiltRound(s, secret, pub, until);
      SkipBuilt(next, secret, pub, until);
    }
  }

  lemma FollowBuilt(s: Session, secret: Key, header: Header, newPriv: Priv)
    requires Built(s, secret) && header.Header?
    ensures Built(FollowRemote(s, header, newPriv).state, secret)
  {
    if s.dhRemote.Some? {
      SkipBuilt(s, secret, s.dhRemote.value, header.prevLen);
    }
    RatchetBuilt(SkipOldChain(s, header.prevLen).state, secret, header.pub, newPriv);
  }

  lemma RatchetBuilt(s: Session, secret: Key, remote: Pub, newPriv: Priv)
    requires Built(s, secret)
    ensures Built(DhRatchet(s, remote, newPriv).state, secret)
  {}

  lemma ReceivedKeyBuilt(s: Session, secret: Key, header: Header, c: Ciphertext)
    requires Built(s, secret) && header.Header? && Receive(s, header, c).result.Ok?
    ensures c.Sealed? && BuiltOn(c.key, secret)
  {
    SkipBuilt(s, secret, header.pub, header.msgNum);
  }

  /** A session accepts only what was sealed under a key built on its secret, whatever the header. */
  lemma AcceptsOnlyBuilt(s: Session, secret: Key, header: Header, c: Ciphertext, newPriv: Priv)
    requires Built(s, secret) && Decrypt(s, header, c, newPriv).result.Ok?
    ensures c.Sealed? && BuiltOn(c.key, secret)
  {
    FollowBuilt(s, secret, header, newPriv);
    ReceivedKeyBuilt(FollowRemote(s, header, newPriv).state, secret, header, c);
  }

  // ---- both sides of a synced system ----

  lemma {:induction false} StepsBuilt(ck: Key, n: nat, secret: Key)
    requires BuiltOn(ck, secret)
    ensures BuiltOn(Steps(ck, n), secret)
  {
    if n > 0 {
      StepsBuilt(ck, n - 1, secret);
    }
  }

  lemma {:induction false} RootsBuilt(epochs: seq<Epoch>, e: nat)
    requires HistoryOk(epochs) && e < |epochs|
    ensures BuiltOn(epochs[e].root, epochs[0].root)
  {
    if e > 0 {
      RootsBuilt(epochs, e - 1);
      assert Linked(epochs, e - 1);
    }
  }

  lemma StoreBuilt(epochs: seq<Epoch>, got: set<MessageId>, s: Session, q: nat)
    requires HistoryOk(epochs) && Receiving(epochs, got, s, q)
    ensures s.recvKey.Some? && BuiltOn(s.recvKey.value, epochs[0].root)
    ensures forall slot :: slot in s.skipped ==> BuiltOn(s.skipped[slot], epochs[0].root)
  {
    RootsBuilt(epochs, q);
    StepsBuilt(epochs[q].Chain(), s.recvNum, epochs[0].root);
    forall slot | slot in s.skipped ensures BuiltOn(s.skipped[slot], epochs[0].root) {
      assert Theirs(epochs, slot.pub.of, q);
      var f :| 0 <= f < |epochs| && f % 2 == q % 2 && epochs[f].priv == slot.pub.of;
      assert SlotOf(epochs, f, slot.num) == slot;
      assert SlotExact(epochs, got, s.skipped, q, s.recvNum, f, slot.num);
      RootsBuilt(epochs, f);
      StepsBuilt(epochs[f].Chain(), slot.num, epochs[0].root);
    }
  }

  lemma InEpochBuilt(sys: System, p: Party, e: nat)
    requires HistoryOk(sys.epochs) && InEpoch(sys, p, e)
    ensures Built(SessionOf(sys, p), sys.epochs[0].root)
  {
    RootsBuilt(sys.epochs, e);
    if e > 0 {
      StoreBuilt(sys.epochs, sys.got, SessionOf(sys, p), e - 1);
    }
  }

  /** Both sessions of a synced system hold only keys built on the shared secret. */
  lemma SyncedBuilt(sys: System, p: Party)
    requires Synced(sys)
    ensures Built(SessionOf(sys, p), sys.epochs[0].root)
  {
    var last := |sys.epochs| - 1;
    if p == SenderOf(last) {
      InEpochBuilt(sys, p, last);
    } else if last > 0 {
      InEpochBuilt(sys, p, last - 1);
    } else {
      StoreBuilt(sys.epochs, sys.got, sys.bob, 0);
    }
  }
}
