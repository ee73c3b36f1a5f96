/** What a late delivery costs for good: over every later run, whatever arrives, the receiver derives no
    further key of the sender's current chain, so it reads at most the messages whose keys it had stored,
    and the sender reads nothing of the receiver's new chain. */
module RatchetAftermath {
  import opened Basics
  import opened RatchetKeys
  import opened Ratchet
  import opened RatchetEviction
  import opened RatchetProtocol
  import opened RatchetRuns
  import opened RatchetDivergence
  import opened RatchetReplay

  function RootOf(k: Key): Key
    requires k.MessageKey? && IsChain(k.ck)
  {
    Base(k.ck).rk
  }

  /** The session neither holds the message key nor is on the key's chain nor at the root of that chain. */
  ghost predicate Blind(s: Session, k: Key) {
    && k.MessageKey? && IsChain(k.ck)
    && s.rootKey != Some(RootOf(k))
    && (s.recvKey.Some? ==> Base(s.recvKey.value) != Base(k.ck))
    && (forall slot :: slot in s.skipped ==> s.skipped[slot] != k)
  }

  /** A generated key cannot lead to the root: the root is already outgrown, or made from other keys. */
  predicate Misses(s: Session, k: Key, newPriv: Priv)
    requires k.MessageKey? && IsChain(k.ck)
  {
    || (s.rootKey.Some? && Depth(s.rootKey.value) > Depth(RootOf(k)))
    || (RootOf(k).RootKey? && newPriv != RootOf(k).dh.low && newPriv != RootOf(k).dh.high)
  }

  lemma BlindRound(s: Session, k: Key, pub: Pub, until: nat) returns (next: Session)
    requires Blind(s, k) && s.recvNum < until && s.recvKey.Some? && CanEvict(s)
    ensures Blind(next, k) && next.recvNum == s.recvNum + 1 && SkipTo(s, pub, until) == SkipTo(next, pub, until)
    ensures next.rootKey == s.rootKey
  {
    SkipStep(s, pub, until);
    StepStores(s, pub);
    next := Stepped(s, pub);
  }

  lemma {:induction false} SkipBlind(s: Session, k: Key, pub: Pub, until: nat)
    requires Blind(s, k)
    ensures var t := SkipTo(s, pub, until).state; Blind(t, k) && t.rootKey == s.rootKey
    decreases until - s.recvNum
  {
    if s.recvNum < until && s.recvKey.Some? {
      if CanEvict(s) {
        var next := BlindRound(s, k, pub, until);
        SkipBlind(next, k, pub, until);
      }
    }
  }

  lemma RatchetBlind(s: Session, k: Key, remote: Pub, newPriv: Priv)
    requires Blind(s, k) && Misses(s, k, newPriv)
    ensures Blind(DhRatchet(s, remote, newPriv).state, k)
  {
    if s.dhPriv.Some? && s.rootKey.Some? {
      var dh := Exchange(newPriv, remote);
      var rk := RootKey(s.rootKey.value, Exchange(s.dhPriv.value, remote));
      assert newPriv == dh.low || newPriv == dh.high;
      assert Depth(rk) == 1 + Depth(s.rootKey.value) && Depth(RootKey(rk, dh)) == 1 + Depth(rk);
    }
  }

  lemma FollowBlind(s: Session, k: Key, header: Header, newPriv: Priv)
    requires Blind(s, k) && Misses(s, k, newPriv) && header.Header?
    ensures Blind(FollowRemote(s, header, newPriv).state, k)
  {
    if s.dhRemote.Some? {
      SkipBlind(s, k, s.dhRemote.value, header.prevLen);
    }
    RatchetBlind(SkipOldChain(s, header.prevLen).state, k, header.pub, newPriv);
  }

  lemma ReceiveBlind(s: Session, k: Key, header: Header, c: Ciphertext)
    requires Blind(s, k) && header.Header?
    ensures Blind(Receive(s, header, c).state, k)
    ensures Receive(s, header, c).result.Ok? ==> c.Sealed? && c.key != k
  {
    SkipBlind(s, k, header.pub, header.msgNum);
  }

  /** A blind session refuses everything sealed under the key and stays blind, whatever it is given. */
  lemma DecryptBlind(s: Session, k: Key, header: Header, c: Ciphertext, newPriv: Priv)
    requires Blind(s, k) && Misses(s, k, newPriv)
    ensures Blind(Decrypt(s, header, c, newPriv).state, k)
    ensures Decrypt(s, header, c, newPriv).result.Ok? ==> c.Sealed? && c.key != k
  {
    if header.Header? {
      FollowBlind(s, k, header, newPriv);
      var followed := FollowRemote(s, header, newPriv);
      if followed.result.Ok? {
        ReceiveBlind(followed.state, k, header, c);
      }
    }
  }

  lemma EncryptBlind(s: Session, k: Key, plaintext: Bytes, nonce: nat, newPriv: Priv)
    requires Blind(s, k) && Misses(s, k, newPriv)
    ensures Blind(Encrypt(s, plaintext, nonce, newPriv).state, k)
  {}

  // ---- roots only grow ----

  predicate Grown(s: Session, t: Session) {
    s.rootKey.Some? ==> t.rootKey.Some? && Depth(t.rootKey.value) >= Depth(s.rootKey.value)
  }

  lemma RatchetGrows(s: Session, remote: Pub, newPriv: Priv)
    ensures Grown(s, DhRatchet(s, remote, newPriv).state)
  {
    if s.dhPriv.Some? && s.rootKey.Some? {
      var rk := RootKey(s.rootKey.value, Exchange(s.dhPriv.value, remote));
      assert Depth(RootKey(rk, Exchange(newPriv, remote))) == 1 + Depth(rk);
    }
  }

  lemma FollowGrows(s: Session, header: Header, newPriv: Priv)
    requires header.Header?
    ensures Grown(s, FollowRemote(s, header, newPriv).state)
  {
    if s.dhRemote.Some? {
      SkipKeepsSending(s, s.dhRemote.value, header.prevLen);
    }
    RatchetGrows(SkipOldChain(s, header.prevLen).state, header.pub, newPriv);
  }

  lemma DecryptGrows(s: Session, header: Header, c: Ciphertext, newPriv: Priv)
    ensures Grown(s, Decrypt(s, header, c, newPriv).state)
  {
    if header.Header? {
      FollowGrows(s, header, newPriv);
      var followed := FollowRemote(s, header, newPriv);
      if followed.result.Ok? {
        ReceiveKeepsSendKeys(followed.state, header, c);
      }
    }
  }

  lemma SavedGrows(s: Session, step: Step)
    ensures Grown(s, Saved(s, step))
  {
    if step.Call? && step.op.DecryptOp? {
      DecryptGrows(s, step.op.header, step.op.body, step.op.newPriv);
    }
  }

  lemma {:induction false} RunGrows(s: Session, steps: seq<Step>)
    ensures Grown(s, RunSaved(s, steps))
    decreases |steps|
  {
    if steps != [] {
      SavedGrows(s, steps[0]);
      RunGrows(Saved(s, steps[0]), steps[1..]);
    }
  }

  // ---- runs ----

  /** Every key generated in the run misses the root. */
  predicate AllMiss(s: Session, k: Key, steps: seq<Step>)
    requires k.MessageKey? && IsChain(k.ck)
  {
    || (s.rootKey.Some? && Depth(s.rootKey.value) > Depth(RootOf(k)))
    || (RootOf(k).RootKey? && forall step <- steps :: step.Call? ==>
          step.op.newPriv != RootOf(k).dh.low && step.op.newPriv != RootOf(k).dh.high)
  }

  lemma SavedBlind(s: Session, k: Key, step: Step)
    requires Blind(s, k) && AllMiss(s, k, [step])
    ensures Blind(Saved(s, step), k)
  {
    assert step in [step];
    if step.Call? {
      match step.op
      case DecryptOp(header, body, newPriv) => DecryptBlind(s, k, header, body, newPriv);
      case EncryptOp(plaintext, nonce, newPriv) => EncryptBlind(s, k, plaintext, nonce, newPriv);
    }
  }

  /** Over every run of saved operations on arbitrary input a blind session stays blind. */
  lemma {:induction false} RunBlind(s: Session, k: Key, steps: seq<Step>)
    requires Blind(s, k) && AllMiss(s, k, steps)
    ensures Blind(RunSaved(s, steps), k) && AllMiss(RunSaved(s, steps), k, [])
    decreases |steps|
  {
    if steps != [] {
      var step, rest := steps[0], steps[1..];
      assert steps == [step] + rest;
      SavedBlind(s, k, step);
      SavedGrows(s, step);
      RunBlind(Saved(s, step), k, rest);
    }
  }

  /** The run with one more decryption at its end. */
  function AndThen(steps: seq<Step>, header: Header, c: Ciphertext, newPriv: Priv): seq<Step> {
    steps + [Call(DecryptOp(header, c, newPriv))]
  }

  /** So whatever is sealed under the key is refused after any such run. */
  lemma NeverRead(s: Session, k: Key, steps: seq<Step>, header: Header, c: Ciphertext, newPriv: Priv)
    requires Blind(s, k) && AllMiss(s, k, AndThen(steps, header, c, newPriv)) && c.Sealed? && c.key == k
    ensures Decrypt(RunSaved(s, steps), header, c, newPriv).result.Err?
  {
    var all, last := AndThen(steps, header, c, newPriv), Call(DecryptOp(header, c, newPriv));
    assert forall step :: step in steps ==> step in all;
    assert last in all;
    RunBlind(s, k, steps);
    RunGrows(s, steps);
    DecryptBlind(RunSaved(s, steps), k, header, c, newPriv);
  }

  // ---- after a late delivery ----

  lemma KeysAreDistinct(epochs: seq<Epoch>, f: nat, m: nat, g: nat, n: nat)
    requires HistoryOk(epochs) && f < |epochs| && g < |epochs|
    ensures epochs[f].KeyOf(m) == epochs[g].KeyOf(n) ==> f == g && m == n
  {
    if epochs[f].KeyOf(m) == epochs[g].KeyOf(n) {
      BaseOfSteps(epochs[f].Chain(), m);
      BaseOfSteps(epochs[g].Chain(), n);
      assert epochs[f].root == epochs[g].root;
      if f <= g {
        RootsGrow(epochs, f, g);
      } else {
        RootsGrow(epochs, g, f);
      }
      StepsInjective(epochs[f].Chain(), m, n);
    }
  }

  /** Every key in the store of a party receiving chain q is the key of its slot. */
  lemma StoredKeys(epochs: seq<Epoch>, got: set<MessageId>, s: Session, q: nat, slot: Slot<Pub>) returns (f: nat)
    requires HistoryOk(epochs) && Receiving(epochs, got, s, q) && slot in s.skipped
    ensures f < |epochs| && f % 2 == q % 2 && slot == SlotOf(epochs, f, slot.num)
    ensures s.skipped[slot] == epochs[f].KeyOf(slot.num)
  {
    assert Theirs(epochs, slot.pub.of, q);
    f :| 0 <= f < |epochs| && f % 2 == q % 2 && epochs[f].priv == slot.pub.of;
    assert SlotExact(epochs, got, s.skipped, q, s.recvNum, f, slot.num);
  }

  /** Keeping the current chain up to a position before n does not store its key n. */
  lemma KeptLacks(epochs: seq<Epoch>, got: set<MessageId>, s: Session, q: nat, until: nat, n: nat, slot: Slot<Pub>)
    requires HistoryOk(epochs) && Receiving(epochs, got, s, q) && n >= s.recvNum && n >= until
    requires |s.skipped| + SkipCount(s, until) <= MAX_SKIPPED_KEYS && slot in SkipOldChain(s, until).state.skipped
    ensures SkipOldChain(s, until).state.skipped[slot] != epochs[q].KeyOf(n)
  {
    var pub, chain := Pub(epochs[q].priv), epochs[q].Chain();
    var kept := SkipOldChain(s, until).state;
    if s.recvNum < until {
      SkipToExact(s, pub, chain, until);
      assert Covers(s.skipped, kept.skipped, slot, pub, chain, s.recvNum, until);
    }
    if slot.pub == pub && s.recvNum <= slot.num < until {
      KeysAreDistinct(epochs, q, slot.num, q, n);
    } else {
      var f := StoredKeys(epochs, got, s, q, slot);
      assert SlotExact(epochs, got, s.skipped, q, s.recvNum, q, n);
      KeysAreDistinct(epochs, f, slot.num, q, n);
    }
  }

  /** Right after the late delivery the receiver is blind for the rest of the sender's current chain. */
  lemma ReceiverBlind(sys: System, id: MessageId, q: nat, newPriv: Priv, n: nat)
    requires LateDelivery(sys, id, q)
    requires n >= DerivedTo(sys, id)
    ensures var t, k := Delivery(sys, id, newPriv).state, sys.epochs[q].KeyOf(n);
      Blind(t, k) && t.rootKey.Some? && Depth(t.rootKey.value) > Depth(RootOf(k))
  {
    var s, packet, k := SessionOf(sys, Receiver(id)), PacketOf(sys, id), sys.epochs[q].KeyOf(n);
    var kept := SkipOldChain(s, packet.header.prevLen).state;
    LateKeyKept(sys, id, q);
    LateMessageDecrypts(sys, id, q, newPriv);
    KeysDiffer(sys.epochs, id.epoch, q);
    DecryptOnNewKey(s, packet.header, packet.body, newPriv);
    BaseOfSteps(sys.epochs[q].Chain(), n);
    assert Linked(sys.epochs, q);
    forall slot | slot in kept.skipped ensures kept.skipped[slot] != k {
      KeptLacks(sys.epochs, sys.got, s, q, packet.header.prevLen, n, slot);
    }
  }

  /** Over every later run, whatever the receiver is given, it reads no message of that chain from the
      reached position on. */
  lemma ReceiverNeverReads(sys: System, id: MessageId, q: nat, newPriv: Priv, n: nat,
                           steps: seq<Step>, header: Header, c: Ciphertext, generated: Priv)
    requires LateDelivery(sys, id, q) && c.Sealed? && c.key == sys.epochs[q].KeyOf(n)
    requires n >= DerivedTo(sys, id)
    ensures Decrypt(RunSaved(Delivery(sys, id, newPriv).state, steps), header, c, generated).result.Err?
  {
    ReceiverBlind(sys, id, q, newPriv, n);
    NeverRead(Delivery(sys, id, newPriv).state, c.key, steps, header, c, generated);
  }

  predicate ReadsAfter(t: Session, steps: seq<Step>, header: Header, c: Ciphertext, generated: Priv) {
    Decrypt(RunSaved(t, steps), header, c, generated).result.Ok?
  }

  /** Some later run ends with the message being read. */
  ghost predicate CanBeRead(t: Session, header: Header, c: Ciphertext) {
    exists steps, generated :: ReadsAfter(t, steps, header, c, generated)
  }

  lemma ReadNow(t: Session, header: Header, c: Ciphertext, generated: Priv)
    requires Decrypt(t, header, c, generated).result.Ok?
    ensures CanBeRead(t, header, c)
  {
    assert RunSaved(t, []) == t;
    assert ReadsAfter(t, [], header, c, generated);
  }

  /** An undelivered message of the sender's current chain can be read by the receiver in some later run if and
      only if its key had been derived by then. */
  lemma LaterReadableIff(sys: System, id: MessageId, q: nat, newPriv: Priv, n: nat)
    requires LateDelivery(sys, id, q) && n < |sys.epochs[q].sent| && MessageId(q, n) !in sys.got
    requires |Delivery(sys, id, newPriv).state.skipped| + PrevLen(sys.epochs, q) <= MAX_SKIPPED_KEYS
    ensures var packet := sys.epochs[q].sent[n];
      CanBeRead(Delivery(sys, id, newPriv).state, packet.header, packet.body) <==> n < DerivedTo(sys, id)
  {
    var t, packet := Delivery(sys, id, newPriv).state, sys.epochs[q].sent[n];
    assert PacketOk(sys.epochs, q, n);
    if n < DerivedTo(sys, id) {
      StillReadIff(sys, id, q, newPriv, n, 0);
      ReadNow(t, packet.header, packet.body, 0);
    } else {
      forall steps, generated ensures !ReadsAfter(t, steps, packet.header, packet.body, generated) {
        ReceiverNeverReads(sys, id, q, newPriv, n, steps, packet.header, packet.body, generated);
      }
    }
  }

  // ---- the other direction ----

  /** The root of the sending chain the receiver opens on the late message's old key. */
  function StrayRoot(sys: System, id: MessageId, q: nat): Key
    requires id.epoch < |sys.epochs| && q + 1 < |sys.epochs|
  {
    RootKey(sys.epochs[q + 1].RootAfter(), Exchange(sys.epochs[q + 1].priv, Pub(sys.epochs[id.epoch].priv)))
  }

  /** The receiver's new sending chain starts from that root. */
  lemma StrayChain(sys: System, id: MessageId, q: nat, newPriv: Priv)
    requires LateDelivery(sys, id, q)
    ensures var t := Delivery(sys, id, newPriv).state;
      t.sendKey == Some(ChainKey(StrayRoot(sys, id, q), Exchange(newPriv, Pub(sys.epochs[id.epoch].priv))))
  {
    var s, packet := SessionOf(sys, Receiver(id)), PacketOf(sys, id);
    LateKeyKept(sys, id, q);
    KeysDiffer(sys.epochs, id.epoch, q);
    DecryptOnNewKey(s, packet.header, packet.body, newPriv);
  }

  /** No root of the conversation is the stray one. */
  lemma StrayRootIsNew(sys: System, id: MessageId, q: nat, e: nat)
    requires HistoryOk(sys.epochs) && id.epoch < q && q + 1 < |sys.epochs| && e < |sys.epochs|
    ensures sys.epochs[e].RootAfter() != StrayRoot(sys, id, q)
  {
    var epochs := sys.epochs;
    if epochs[e].root == epochs[q + 1].RootAfter() {
      RootDepth(epochs, e, q + 1);
      assert Linked(epochs, q + 1);
      KeysDiffer(epochs, q + 2, id.epoch);
      KeysDiffer(epochs, q + 2, q + 1);
    }
  }

  lemma RootDepth(epochs: seq<Epoch>, e: nat, f: nat)
    requires HistoryOk(epochs) && e < |epochs| && f < |epochs| && epochs[e].root == epochs[f].RootAfter()
    ensures e == f + 1
  {
    if e <= f {
      RootsGrow(epochs, e, f);
    } else {
      RootsGrow(epochs, f, e);
    }
  }

  lemma StartRootIsNew(sys: System, id: MessageId, q: nat, e: nat)
    requires HistoryOk(sys.epochs) && id.epoch < q && q + 1 < |sys.epochs| && e < |sys.epochs|
    ensures sys.epochs[e].root != StrayRoot(sys, id, q)
  {
    if e > 0 {
      assert Linked(sys.epochs, e - 1);
      StrayRootIsNew(sys, id, q, e - 1);
    } else {
      RootsGrow(sys.epochs, 0, q + 1);
    }
  }

  /** The sender is blind for the stray chain. */
  lemma SenderBlind(sys: System, id: MessageId, q: nat, k: Key)
    requires LateDelivery(sys, id, q)
    requires k.MessageKey? && IsChain(k.ck) && RootOf(k) == StrayRoot(sys, id, q)
    ensures Blind(SessionOf(sys, SenderOf(id.epoch)), k)
  {
    var p := SenderOf(id.epoch);
    var e := SenderPlace(sys, p);
    var s := SessionOf(sys, p);
    StrayRootIsNew(sys, id, q, e);
    assert e > 0;
    PlaceBlind(sys, id, q, s, e - 1, k);
  }

  lemma PlaceBlind(sys: System, id: MessageId, q: nat, s: Session, r: nat, k: Key)
    requires HistoryOk(sys.epochs) && id.epoch < q && q + 1 < |sys.epochs| && Receiving(sys.epochs, sys.got, s, r)
    requires k.MessageKey? && IsChain(k.ck) && RootOf(k) == StrayRoot(sys, id, q)
    ensures s.recvKey.Some? && Base(s.recvKey.value) != Base(k.ck)
    ensures forall slot :: slot in s.skipped ==> s.skipped[slot] != k
  {
    BaseOfSteps(sys.epochs[r].Chain(), s.recvNum);
    StartRootIsNew(sys, id, q, r);
    forall slot | slot in s.skipped ensures s.skipped[slot] != k {
      var f := StoredKeys(sys.epochs, sys.got, s, r, slot);
      BaseOfSteps(sys.epochs[f].Chain(), slot.num);
      StartRootIsNew(sys, id, q, f);
    }
  }

  /** Generated keys are not the two the stray root was made from. */
  predicate NewKeys(sys: System, id: MessageId, q: nat, steps: seq<Step>)
    requires id.epoch < |sys.epochs| && q + 1 < |sys.epochs|
  {
    forall step <- steps :: step.Call? ==>
      step.op.newPriv != sys.epochs[q + 1].priv && step.op.newPriv != sys.epochs[id.epoch].priv
  }

  /** Over every later run the sender reads no message of the receiver's new sending chain. */
  lemma SenderNeverReads(sys: System, id: MessageId, q: nat, newPriv: Priv, m: nat,
                         steps: seq<Step>, header: Header, c: Ciphertext, generated: Priv)
    requires LateDelivery(sys, id, q) && NewKeys(sys, id, q, AndThen(steps, header, c, generated))
    requires var t := Delivery(sys, id, newPriv).state;
      t.sendKey.Some? ==> c.Sealed? && c.key == MessageKey(Steps(t.sendKey.value, m))
    ensures Delivery(sys, id, newPriv).state.sendKey.Some?
    ensures Decrypt(RunSaved(SessionOf(sys, SenderOf(id.epoch)), steps), header, c, generated).result.Err?
  {
    StrayChain(sys, id, q, newPriv);
    BaseOfSteps(Delivery(sys, id, newPriv).state.sendKey.value, m);
    SenderBlind(sys, id, q, c.key);
    NeverRead(SessionOf(sys, SenderOf(id.epoch)), c.key, steps, header, c, generated);
  }
}
