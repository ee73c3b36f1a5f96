/** Replay protection of one session against arbitrary input: whatever headers and ciphertexts are
    offered, in whatever order, no message key is ever used to accept twice. */
module RatchetReplay {
  import opened Basics
  import opened RatchetKeys
  import opened Ratchet
  import opened RatchetEviction

  /** The number of steps a chain key has taken. */
  function Index(k: Key): nat {
    match k
    case NextChain(ck) => 1 + Index(ck)
    case _ => 0
  }

  /** A position in the order in which a session derives message keys: root depth, then chain index. */
  datatype Position = Position(depth: nat, index: nat)

  predicate Before(a: Position, b: Position) {
    a.depth < b.depth || (a.depth == b.depth && a.index < b.index)
  }

  predicate IsChain(ck: Key) {
    Base(ck).ChainKey?
  }

  function ChainPosition(ck: Key): Position
    requires IsChain(ck)
  {
    Position(Depth(Base(ck).rk), Index(ck))
  }

  /** The key was derived strictly before the receiving chain's current position. */
  predicate Passed(k: Key, s: Session) {
    && k.MessageKey? && IsChain(k.ck) && s.recvKey.Some? && IsChain(s.recvKey.value)
    && Before(ChainPosition(k.ck), ChainPosition(s.recvKey.value))
  }

  /** Used and stored keys lie behind the receiving chain, no stored key was used, and no key is
      stored twice; the receiving chain lies behind the root. */
  ghost predicate Guarded(s: Session, used: set<Key>) {
    && (s.recvKey.Some? ==> s.rootKey.Some? && IsChain(s.recvKey.value)
                            && Depth(Base(s.recvKey.value).rk) < Depth(s.rootKey.value))
    && (forall k :: k in used ==> Passed(k, s))
    && (forall slot :: slot in s.skipped ==> Passed(s.skipped[slot], s) && s.skipped[slot] !in used)
    && (forall a, b :: a in s.skipped && b in s.skipped && a != b ==> s.skipped[a] != s.skipped[b])
  }

  lemma InitGuarded(pub: Pub, secret: Key, priv: Priv)
    ensures Guarded(InitAlice(pub, secret, priv), {}) && Guarded(InitBob(pub, secret, priv), {})
  {}

  /** Moving the chain one step puts its key behind it, unused and not yet stored. */
  lemma ChainMoves(s: Session, used: set<Key>)
    requires Guarded(s, used) && s.recvKey.Some?
    ensures var mk, moved := MessageKey(s.recvKey.value), s.(recvKey := Some(NextChain(s.recvKey.value)));
      Guarded(moved, used) && Passed(mk, moved) && mk !in used && mk !in s.skipped.Values
  {}

  /** A new key goes in the store, and anything may go out of it. */
  lemma InsertGuarded(s: Session, used: set<Key>, slot: Slot<Pub>, mk: Key, skipped: map<Slot<Pub>, Key>, order: seq<Slot<Pub>>)
    requires Guarded(s, used) && Passed(mk, s) && mk !in used && mk !in s.skipped.Values
    requires forall x :: x in skipped ==> (x == slot && skipped[x] == mk) || (x in s.skipped && skipped[x] == s.skipped[x])
    ensures Guarded(s.(skipped := skipped, order := order), used)
  {
    forall x | x in skipped && x in s.skipped ensures s.skipped[x] in s.skipped.Values {}
  }

  /** Moving the chain one step and storing its key, with or without eviction. */
  lemma StoreGuarded(s: Session, used: set<Key>, slot: Slot<Pub>)
    requires Guarded(s, used) && s.recvKey.Some?
    ensures var ck := s.recvKey.value;
      Guarded(StoreSkipped(s.(recvKey := Some(NextChain(ck))), slot, MessageKey(ck)).state, used)
  {
    var ck := s.recvKey.value;
    var moved := s.(recvKey := Some(NextChain(ck)));
    ChainMoves(s, used);
    var t := StoreSkipped(moved, slot, MessageKey(ck)).state;
    InsertGuarded(moved, used, slot, MessageKey(ck), t.skipped, t.order);
    assert t == moved.(skipped := t.skipped, order := t.order);
  }

  lemma {:induction false} SkipToGuarded(s: Session, used: set<Key>, pub: Pub, until: nat)
    requires Guarded(s, used)
    ensures Guarded(SkipTo(s, pub, until).state, used)
    decreases until - s.recvNum
  {
    if s.recvNum < until && s.recvKey.Some? && CanEvict(s) {
      var next := GuardedRound(s, used, pub, until);
      SkipToGuarded(next, used, pub, until);
    } else if s.recvNum < until && s.recvKey.Some? {
      StoreGuarded(s, used, Slot(pub, s.recvNum));
    }
  }

  lemma GuardedRound(s: Session, used: set<Key>, pub: Pub, until: nat) returns (next: Session)
    requires Guarded(s, used) && s.recvNum < until && s.recvKey.Some? && CanEvict(s)
    ensures Guarded(next, used) && next.recvNum == s.recvNum + 1 && SkipTo(s, pub, until) == SkipTo(next, pub, until)
  {
    StoreGuarded(s, used, Slot(pub, s.recvNum));
    SkipStep(s, pub, until);
    next := Stepped(s, pub);
  }

  lemma RatchetGuarded(s: Session, used: set<Key>, remote: Pub, newPriv: Priv)
    requires Guarded(s, used)
    ensures Guarded(DhRatchet(s, remote, newPriv).state, used)
  {}

  lemma FollowGuarded(s: Session, used: set<Key>, header: Header, newPriv: Priv)
    requires Guarded(s, used) && header.Header?
    ensures Guarded(FollowRemote(s, header, newPriv).state, used)
  {
    if s.dhRemote.Some? {
      SkipToGuarded(s, used, s.dhRemote.value, header.prevLen);
    }
    RatchetGuarded(SkipOldChain(s, header.prevLen).state, used, header.pub, newPriv);
  }

  /** Taking a stored key out of the store and using it. */
  lemma ConsumeGuarded(s: Session, used: set<Key>, slot: Slot<Pub>)
    requires Guarded(s, used) && slot in s.skipped
    ensures s.skipped[slot] !in used
    ensures Guarded(s.(skipped := s.skipped - {slot}), used + {s.skipped[slot]})
  {}

  /** Using the key at the chain's current position. */
  lemma AdvanceGuarded(s: Session, used: set<Key>)
    requires Guarded(s, used) && s.recvKey.Some?
    ensures MessageKey(s.recvKey.value) !in used
    ensures Guarded(s.(recvKey := Some(NextChain(s.recvKey.value)), recvNum := s.recvNum + 1),
                    used + {MessageKey(s.recvKey.value)})
  {}

  /** Whatever is offered, a session accepts only under a key it has not used before. */
  lemma DecryptGuarded(s: Session, used: set<Key>, header: Header, c: Ciphertext, newPriv: Priv)
    requires Guarded(s, used) && Decrypt(s, header, c, newPriv).result.Ok?
    ensures c.Sealed? && c.key !in used
    ensures Guarded(Decrypt(s, header, c, newPriv).state, used + {c.key})
  {
    FollowGuarded(s, used, header, newPriv);
    ReceiveGuarded(FollowRemote(s, header, newPriv).state, used, header, c);
  }

  lemma ReceiveGuarded(s: Session, used: set<Key>, header: Header, c: Ciphertext)
    requires Guarded(s, used) && header.Header? && Receive(s, header, c).result.Ok?
    ensures c.Sealed? && c.key !in used
    ensures Guarded(Receive(s, header, c).state, used + {c.key})
  {
    var slot := Slot(header.pub, header.msgNum);
    if slot in s.skipped {
      ConsumeGuarded(s, used, slot);
    } else {
      SkipToGuarded(s, used, header.pub, header.msgNum);
      AdvanceGuarded(SkipTo(s, header.pub, header.msgNum).state, used);
    }
  }

  lemma EncryptGuarded(s: Session, used: set<Key>, plaintext: Bytes, nonce: nat, newPriv: Priv)
    requires Guarded(s, used)
    ensures Guarded(Encrypt(s, plaintext, nonce, newPriv).state, used)
  {
    SendingGuarded(s, used, newPriv);
    SameReceiveGuarded(EnsureSending(s, newPriv).state, Encrypt(s, plaintext, nonce, newPriv).state, used);
  }

  lemma SendingGuarded(s: Session, used: set<Key>, newPriv: Priv)
    requires Guarded(s, used)
    ensures Guarded(EnsureSending(s, newPriv).state, used)
  {}

  lemma SameReceiveGuarded(s: Session, t: Session, used: set<Key>)
    requires Guarded(s, used) && s.recvKey == t.recvKey && s.rootKey == t.rootKey && s.skipped == t.skipped
    ensures Guarded(t, used)
  {}

  // ---- runs ----

  /** An operation whose result is saved, or a load of what was saved. */
  datatype Step = Call(op: Op) | Load

  /** The saved state after one step; a failed operation saves nothing. */
  function Saved(s: Session, step: Step): Session {
    match step
    case Call(op) => if Succeeds(s, op) then After(s, op) else s
    case Load => Forgot(s)
  }

  function RunSaved(s: Session, steps: seq<Step>): Session
    decreases |steps|
  {
    if steps == [] then s else RunSaved(Saved(s, steps[0]), steps[1..])
  }

  predicate Accepted(s: Session, step: Step) {
    step.Call? && step.op.DecryptOp? && Succeeds(s, step.op)
  }

  /** The ciphertexts accepted along a run, in order. */
  function AcceptedAlong(s: Session, steps: seq<Step>): seq<Ciphertext>
    decreases |steps|
  {
    if steps == [] then []
    else (if Accepted(s, steps[0]) then [steps[0].op.body] else []) + AcceptedAlong(Saved(s, steps[0]), steps[1..])
  }

  ghost predicate FreshKeys(cs: seq<Ciphertext>, used: set<Key>) {
    && (forall i :: 0 <= i < |cs| ==> cs[i].Sealed? && cs[i].key !in used)
    && (forall i, j :: 0 <= i < j < |cs| ==> cs[i].key != cs[j].key)
  }

  function UsedAfter(s: Session, step: Step, used: set<Key>): set<Key> {
    if Accepted(s, step) && step.op.body.Sealed? then used + {step.op.body.key} else used
  }

  lemma StepGuarded(s: Session, used: set<Key>, step: Step)
    requires Guarded(s, used)
    ensures Accepted(s, step) ==> step.op.body.Sealed? && step.op.body.key !in used
    ensures Guarded(Saved(s, step), UsedAfter(s, step, used))
  {
    if step.Call? && Succeeds(s, step.op) {
      match step.op
      case DecryptOp(header, body, newPriv) => DecryptGuarded(s, used, header, body, newPriv);
      case EncryptOp(plaintext, nonce, newPriv) => EncryptGuarded(s, used, plaintext, nonce, newPriv);
    }
  }

  lemma FreshCons(c: Ciphertext, cs: seq<Ciphertext>, used: set<Key>)
    requires c.Sealed? && c.key !in used && FreshKeys(cs, used + {c.key})
    ensures FreshKeys([c] + cs, used)
  {}

  lemma {:induction false} RunAcceptsFresh(s: Session, used: set<Key>, steps: seq<Step>)
    requires Guarded(s, used)
    ensures FreshKeys(AcceptedAlong(s, steps), used)
    decreases |steps|
  {
    if steps != [] {
      StepGuarded(s, used, steps[0]);
      RunAcceptsFresh(Saved(s, steps[0]), UsedAfter(s, steps[0], used), steps[1..]);
      var rest := AcceptedAlong(Saved(s, steps[0]), steps[1..]);
      if Accepted(s, steps[0]) {
        FreshCons(steps[0].op.body, rest, used);
      } else {
        assert [] + rest == rest;
      }
    }
  }

  /** From either initialisation, over any run of saved operations on arbitrary input: all accepted
      ciphertexts were opened under different keys, so none was accepted twice. */
  lemma NoReplay(pub: Pub, secret: Key, priv: Priv, asAlice: bool, steps: seq<Step>)
    ensures var cs := AcceptedAlong(if asAlice then InitAlice(pub, secret, priv) else InitBob(pub, secret, priv), steps);
      forall i, j :: 0 <= i < j < |cs| ==> cs[i].Sealed? && cs[j].Sealed? && cs[i].key != cs[j].key && cs[i] != cs[j]
  {
    InitGuarded(pub, secret, priv);
    RunAcceptsFresh(if asAlice then InitAlice(pub, secret, priv) else InitBob(pub, secret, priv), {}, steps);
  }

  // ---- keys used for sending ----

  /** The key was derived before the sending chain's current position, and before any chain the root can
      still give. */
  predicate Spent(k: Key, s: Session) {
    && k.MessageKey? && IsChain(k.ck) && s.rootKey.Some? && Depth(Base(k.ck).rk) < Depth(s.rootKey.value)
    && (s.sendKey.Some? && IsChain(s.sendKey.value) ==> Before(ChainPosition(k.ck), ChainPosition(s.sendKey.value)))
  }

  /** The sending chain lies behind the root, and every key sealed under lies behind the sending chain. */
  ghost predicate SendGuarded(s: Session, used: set<Key>) {
    && (s.sendKey.Some? ==> s.rootKey.Some? && IsChain(s.sendKey.value)
                            && Depth(Base(s.sendKey.value).rk) < Depth(s.rootKey.value))
    && (forall k :: k in used ==> Spent(k, s))
  }

  lemma SameSendGuarded(s: Session, t: Session, used: set<Key>)
    requires SendGuarded(s, used) && s.sendKey == t.sendKey && s.rootKey == t.rootKey
    ensures SendGuarded(t, used)
  {}

  /** A ratchet step puts the sending chain past everything sealed before. */
  lemma RatchetSendGuarded(s: Session, used: set<Key>, remote: Pub, newPriv: Priv)
    requires SendGuarded(s, used)
    ensures SendGuarded(DhRatchet(s, remote, newPriv).state, used)
  {}

  lemma FollowSendGuarded(s: Session, used: set<Key>, header: Header, newPriv: Priv)
    requires SendGuarded(s, used) && header.Header?
    ensures SendGuarded(FollowRemote(s, header, newPriv).state, used)
  {
    if s.dhRemote.Some? {
      SkipKeepsSending(s, s.dhRemote.value, header.prevLen);
    }
    var kept := SkipOldChain(s, header.prevLen).state;
    SameSendGuarded(s, kept, used);
    RatchetSendGuarded(kept, used, header.pub, newPriv);
  }

  lemma ReceiveKeepsSendKeys(s: Session, header: Header, c: Ciphertext)
    requires header.Header?
    ensures var t := Receive(s, header, c).state; t.sendKey == s.sendKey && t.rootKey == s.rootKey
  {
    SkipKeepsSending(s, header.pub, header.msgNum);
  }

  lemma DecryptSendGuarded(s: Session, used: set<Key>, header: Header, c: Ciphertext, newPriv: Priv)
    requires SendGuarded(s, used)
    ensures SendGuarded(Decrypt(s, header, c, newPriv).state, used)
  {
    if header.Header? {
      FollowSendGuarded(s, used, header, newPriv);
      var followed := FollowRemote(s, header, newPriv);
      if followed.result.Ok? {
        ReceiveKeepsSendKeys(followed.state, header, c);
        SameSendGuarded(followed.state, Receive(followed.state, header, c).state, used);
      }
    }
  }

  lemma EnsureSendGuarded(s: Session, used: set<Key>, newPriv: Priv)
    requires SendGuarded(s, used)
    ensures SendGuarded(EnsureSending(s, newPriv).state, used)
  {}

  /** Whatever its state, a session seals only under a key it has not sealed under before. */
  lemma EncryptSendGuarded(s: Session, used: set<Key>, plaintext: Bytes, nonce: nat, newPriv: Priv)
    requires SendGuarded(s, used) && Encrypt(s, plaintext, nonce, newPriv).result.Ok?
    ensures var r := Encrypt(s, plaintext, nonce, newPriv);
      var c := r.result.value.1;
      c.Sealed? && c.key !in used && SendGuarded(r.state, used + {c.key})
  {
    EnsureSendGuarded(s, used, newPriv);
    StepSendGuarded(EnsureSending(s, newPriv).state, used);
    var ready, r := EnsureSending(s, newPriv).state, Encrypt(s, plaintext, nonce, newPriv);
    SameSendGuarded(ready.(sendKey := Some(NextChain(ready.sendKey.value))), r.state, used + {MessageKey(ready.sendKey.value)});
  }

  lemma StepSendGuarded(s: Session, used: set<Key>)
    requires SendGuarded(s, used) && s.sendKey.Some?
    ensures MessageKey(s.sendKey.value) !in used
    ensures SendGuarded(s.(sendKey := Some(NextChain(s.sendKey.value))), used + {MessageKey(s.sendKey.value)})
  {}

  /** The ciphertexts sealed along a run, in order. */
  function SealedAlong(s: Session, steps: seq<Step>): seq<Ciphertext>
    decreases |steps|
  {
    if steps == [] then [] else SealedBy(s, steps[0]) + SealedAlong(Saved(s, steps[0]), steps[1..])
  }

  function SealedBy(s: Session, step: Step): seq<Ciphertext> {
    if step.Call? && step.op.EncryptOp? && Succeeds(s, step.op)
    then [Encrypt(s, step.op.plaintext, step.op.nonce, step.op.newPriv).result.value.1] else []
  }

  lemma {:induction false} RunSealsFresh(s: Session, used: set<Key>, steps: seq<Step>)
    requires SendGuarded(s, used)
    ensures FreshKeys(SealedAlong(s, steps), used)
    decreases |steps|
  {
    if steps != [] {
      var step, next, rest := steps[0], Saved(s, steps[0]), SealedAlong(Saved(s, steps[0]), steps[1..]);
      if SealedBy(s, step) != [] {
        EncryptSendGuarded(s, used, step.op.plaintext, step.op.nonce, step.op.newPriv);
        var c := SealedBy(s, step)[0];
        RunSealsFresh(next, used + {c.key}, steps[1..]);
        FreshCons(c, rest, used);
        assert SealedAlong(s, steps) == [c] + rest;
      } else {
        if step.Call? && step.op.DecryptOp? {
          DecryptSendGuarded(s, used, step.op.header, step.op.body, step.op.newPriv);
        }
        assert SendGuarded(next, used);
        RunSealsFresh(next, used, steps[1..]);
        assert SealedAlong(s, steps) == rest;
      }
    }
  }

  /** From either initialisation, over any run of saved operations with arbitrary incoming messages, no two
      messages are sealed under the same key. */
  lemma NoKeyReuse(pub: Pub, secret: Key, priv: Priv, asAlice: bool, steps: seq<Step>)
    ensures var cs := SealedAlong(if asAlice then InitAlice(pub, secret, priv) else InitBob(pub, secret, priv), steps);
      forall i, j :: 0 <= i < j < |cs| ==> cs[i].Sealed? && cs[j].Sealed? && cs[i].key != cs[j].key
  {
    RunSealsFresh(if asAlice then InitAlice(pub, secret, priv) else InitBob(pub, secret, priv), {}, steps);
  }
}
