/** What someone who takes a session's keys can compute. Keys are free terms, so a key can be computed exactly
    when it is known or its derivation starts from a computable key; a Diffie-Hellman output is known to
    whoever has one of its two private keys. */
module RatchetSecrecy {
  import opened Basics
  import opened RatchetKeys
  import opened Ratchet
  import opened RatchetEviction
  import opened RatchetOrigin
  import opened RatchetReplay

  predicate Learnable(dh: DhOutput, privs: set<Priv>) {
    dh.low in privs || dh.high in privs
  }

  predicate Derivable(known: set<Key>, privs: set<Priv>, k: Key) {
    k in known ||
    match k
    case SharedSecret(_) => false
    case RootKey(rk, dh) => Derivable(known, privs, rk) && Learnable(dh, privs)
    case ChainKey(rk, dh) => Derivable(known, privs, rk) && Learnable(dh, privs)
    case NextChain(ck) => Derivable(known, privs, ck)
    case MessageKey(ck) => Derivable(known, privs, ck)
  }

  function Held(k: Option<Key>): set<Key> {
    if k.Some? then {k.value} else {}
  }

  /** All keys in a session's memory. */
  function KeysIn(s: Session): set<Key> {
    Held(s.rootKey) + Held(s.sendKey) + Held(s.recvKey) + s.skipped.Values
  }

  /** A root: the shared secret under any number of root derivations. */
  predicate IsRoot(k: Key) {
    k.SharedSecret? || (k.RootKey? && IsRoot(k.rk))
  }

  /** A position of a chain that starts from a root. */
  predicate OnChain(k: Key) {
    match k
    case ChainKey(rk, _) => IsRoot(rk)
    case NextChain(ck) => OnChain(ck)
    case _ => false
  }

  /** The number of root derivations in a key. */
  function Level(k: Key): nat {
    match k
    case SharedSecret(_) => 0
    case RootKey(rk, _) => 1 + Level(rk)
    case ChainKey(rk, _) => Level(rk)
    case NextChain(ck) => Level(ck)
    case MessageKey(ck) => Level(ck)
  }

  // ---- building upon a key ----

  lemma {:induction false} BuiltLevel(k: Key, x: Key)
    requires BuiltOn(k, x)
    ensures Level(k) >= Level(x)
  {
    if k != x {
      match k
      case RootKey(rk, _) => BuiltLevel(rk, x);
      case ChainKey(rk, _) => BuiltLevel(rk, x);
      case NextChain(ck) => BuiltLevel(ck, x);
      case MessageKey(ck) => BuiltLevel(ck, x);
    }
  }

  lemma {:induction false} DerivableIsBuilt(known: set<Key>, privs: set<Priv>, k: Key)
    requires Derivable(known, privs, k)
    ensures exists x :: x in known && BuiltOn(k, x)
  {
    if k in known {
      assert BuiltOn(k, k);
    } else {
      match k
      case RootKey(rk, _) => DerivableIsBuilt(known, privs, rk);
      case ChainKey(rk, _) => DerivableIsBuilt(known, privs, rk);
      case NextChain(ck) => DerivableIsBuilt(known, privs, ck);
      case MessageKey(ck) => DerivableIsBuilt(known, privs, ck);
    }
  }

  lemma {:induction false} RootBuiltOnRoots(k: Key, x: Key)
    requires IsRoot(k) && BuiltOn(k, x)
    ensures IsRoot(x)
  {
    if k != x {
      RootBuiltOnRoots(k.rk, x);
    }
  }

  /** A chain position is built on earlier positions of its own chain and on roots, and nothing else. */
  lemma {:induction false} ChainBuiltOn(k: Key, x: Key)
    requires OnChain(k) && BuiltOn(k, x)
    ensures IsRoot(x) || (OnChain(x) && Level(x) == Level(k) && Index(x) <= Index(k))
  {
    if k != x {
      match k
      case ChainKey(rk, _) => RootBuiltOnRoots(rk, x);
      case NextChain(ck) => ChainBuiltOn(ck, x);
    }
  }

  // ---- what a session keeps ----

  /** The chain, if it is the key's own, has moved past the key. */
  predicate MovedPast(k: Key, ck: Option<Key>)
    requires k.MessageKey?
  {
    ck.Some? && Level(ck.value) == Level(k) ==> Index(k.ck) < Index(ck.value)
  }

  predicate Behind(k: Key, s: Session) {
    && k.MessageKey? && OnChain(k.ck) && s.rootKey.Some? && Level(k) < Level(s.rootKey.value)
    && MovedPast(k, s.recvKey) && MovedPast(k, s.sendKey)
  }

  predicate ChainOk(ck: Option<Key>, rk: Option<Key>) {
    ck.Some? ==> rk.Some? && OnChain(ck.value) && Level(ck.value) < Level(rk.value)
  }

  predicate ChainsOk(s: Session) {
    && (s.rootKey.Some? ==> IsRoot(s.rootKey.value))
    && ChainOk(s.recvKey, s.rootKey) && ChainOk(s.sendKey, s.rootKey)
    && (s.recvKey.Some? && s.sendKey.Some? ==> Level(s.recvKey.value) != Level(s.sendKey.value))
  }

  /** Each chain has a level of its own below the root's; every used or stored key lies behind both chains;
      no stored key was used, and none is stored twice. */
  ghost predicate Forward(s: Session, used: set<Key>) {
    && ChainsOk(s)
    && (forall k :: k in used ==> Behind(k, s))
    && (forall slot :: slot in s.skipped ==> Behind(s.skipped[slot], s) && s.skipped[slot] !in used)
    && (forall a, b :: a in s.skipped && b in s.skipped && a != b ==> s.skipped[a] != s.skipped[b])
  }

  /** None of the used keys can be computed from all the session's keys, whatever private keys are known. */
  lemma UsedKeysAreLost(s: Session, used: set<Key>, privs: set<Priv>, k: Key)
    requires Forward(s, used) && k in used
    ensures !Derivable(KeysIn(s), privs, k)
  {
    if Derivable(KeysIn(s), privs, k) {
      DerivableIsBuilt(KeysIn(s), privs, k);
      var x :| x in KeysIn(s) && BuiltOn(k, x);
      BuiltLevel(k, x);
      if x in s.skipped.Values {
        var slot :| slot in s.skipped && s.skipped[slot] == x;
        StoredNotBelow(s, used, slot, k);
      } else {
        ChainBuiltOn(k.ck, x);
        NotRootOf(s, x);
      }
    }
  }

  lemma StoredNotBelow(s: Session, used: set<Key>, slot: Slot<Pub>, k: Key)
    requires Forward(s, used) && k in used && slot in s.skipped
    ensures !BuiltOn(k, s.skipped[slot])
  {
    if BuiltOn(k, s.skipped[slot]) {
      assert Behind(k, s) && Behind(s.skipped[slot], s);
      ChainBuiltOn(k.ck, s.skipped[slot]);
    }
  }

  lemma NotRootOf(s: Session, x: Key)
    requires ChainsOk(s) && x in Held(s.sendKey) + Held(s.recvKey)
    ensures !IsRoot(x)
  {}

  // ---- how operations keep it ----

  lemma StartForward(pub: Pub, secret: Key, priv: Priv)
    requires IsRoot(secret)
    ensures Forward(InitAlice(pub, secret, priv), {}) && Forward(InitBob(pub, secret, priv), {})
  {}

  /** The same keys, and possibly fewer of them stored. */
  lemma SameForward(s: Session, t: Session, used: set<Key>)
    requires Forward(s, used)
    requires s.rootKey == t.rootKey && s.recvKey == t.recvKey && s.sendKey == t.sendKey
    requires forall x :: x in t.skipped ==> x in s.skipped && t.skipped[x] == s.skipped[x]
    ensures Forward(t, used)
  {}

  lemma BehindMoves(k: Key, s: Session, t: Session)
    requires Behind(k, s) && t.rootKey == s.rootKey
    requires t.recvKey == s.recvKey || (s.recvKey.Some? && t.recvKey == Some(NextChain(s.recvKey.value)))
    requires t.sendKey == s.sendKey || (s.sendKey.Some? && t.sendKey == Some(NextChain(s.sendKey.value)))
    ensures Behind(k, t)
  {}

  /** The key at the receiving chain's position lies behind the chain once it has moved, unused and unstored. */
  lemma ReceivingMoves(s: Session, used: set<Key>, t: Session)
    requires Forward(s, used) && s.recvKey.Some?
    requires t.rootKey == s.rootKey && t.sendKey == s.sendKey && t.recvKey == Some(NextChain(s.recvKey.value))
    ensures var mk := MessageKey(s.recvKey.value); Behind(mk, t) && mk !in used && mk !in s.skipped.Values
    ensures ChainsOk(t)
  {}

  lemma SendingMoves(s: Session, used: set<Key>, t: Session)
    requires Forward(s, used) && s.sendKey.Some?
    requires t.rootKey == s.rootKey && t.recvKey == s.recvKey && t.sendKey == Some(NextChain(s.sendKey.value))
    ensures var mk := MessageKey(s.sendKey.value); Behind(mk, t) && mk !in used && mk !in s.skipped.Values
    ensures ChainsOk(t)
  {}

  lemma RoundForward(s: Session, used: set<Key>, pub: Pub, until: nat) returns (next: Session)
    requires Forward(s, used) && s.recvNum < until && s.recvKey.Some? && CanEvict(s)
    ensures Forward(next, used) && next.recvNum == s.recvNum + 1 && SkipTo(s, pub, until) == SkipTo(next, pub, until)
  {
    SkipStep(s, pub, until);
    StepStores(s, pub);
    next := Stepped(s, pub);
    ReceivingMoves(s, used, next);
    MovedForward(s, used, next, Slot(pub, s.recvNum));
  }

  /** Storing the key at the receiving chain's position. */
  lemma MovedForward(s: Session, used: set<Key>, t: Session, slot: Slot<Pub>)
    requires Forward(s, used) && s.recvKey.Some? && ChainsOk(t)
    requires t.rootKey == s.rootKey && t.sendKey == s.sendKey && t.recvKey == Some(NextChain(s.recvKey.value))
    requires forall x :: x in t.skipped ==>
      (x == slot && t.skipped[x] == MessageKey(s.recvKey.value)) || (x in s.skipped && t.skipped[x] == s.skipped[x])
    ensures Forward(t, used)
  {
    ReceivingMoves(s, used, t);
    forall k | k in used ensures Behind(k, t) {
      BehindMoves(k, s, t);
    }
    forall x | x in t.skipped && x in s.skipped ensures s.skipped[x] in s.skipped.Values && Behind(s.skipped[x], t) {
      BehindMoves(s.skipped[x], s, t);
    }
  }

  lemma {:induction false} SkipForward(s: Session, used: set<Key>, pub: Pub, until: nat)
    requires Forward(s, used) && SkipTo(s, pub, until).result.Ok?
    ensures Forward(SkipTo(s, pub, until).state, used)
    decreases until - s.recvNum
  {
    if s.recvNum < until {
      var next := RoundForward(s, used, pub, until);
      SkipForward(next, used, pub, until);
    }
  }

  /** New chains start at the root's level, above every key derived so far. */
  lemma RatchetForward(s: Session, used: set<Key>, remote: Pub, newPriv: Priv)
    requires Forward(s, used)
    ensures Forward(DhRatchet(s, remote, newPriv).state, used)
  {
    var t := DhRatchet(s, remote, newPriv).state;
    forall k | Behind(k, s) ensures Behind(k, t) {
      RatchetBehind(k, s, remote, newPriv);
    }
  }

  lemma RatchetBehind(k: Key, s: Session, remote: Pub, newPriv: Priv)
    requires Behind(k, s)
    ensures Behind(k, DhRatchet(s, remote, newPriv).state)
  {}

  lemma FollowForward(s: Session, used: set<Key>, header: Header, newPriv: Priv)
    requires Forward(s, used) && header.Header? && FollowRemote(s, header, newPriv).result.Ok?
    ensures Forward(FollowRemote(s, header, newPriv).state, used)
  {
    if s.dhRemote != Some(header.pub) {
      if s.recvKey.Some? && s.dhRemote.Some? {
        SkipForward(s, used, s.dhRemote.value, header.prevLen);
      }
      RatchetForward(SkipOldChain(s, header.prevLen).state, used, header.pub, newPriv);
    }
  }

  lemma StoredUsed(s: Session, used: set<Key>, slot: Slot<Pub>)
    requires Forward(s, used) && slot in s.skipped
    ensures Forward(s.(skipped := s.skipped - {slot}), used + {s.skipped[slot]})
  {
    var t := s.(skipped := s.skipped - {slot});
    SameForward(s, t, used);
    assert Behind(s.skipped[slot], t);
  }

  lemma PositionUsed(s: Session, used: set<Key>, t: Session)
    requires Forward(s, used) && s.recvKey.Some? && t.skipped == s.skipped
    requires t.rootKey == s.rootKey && t.sendKey == s.sendKey && t.recvKey == Some(NextChain(s.recvKey.value))
    ensures Forward(t, used + {MessageKey(s.recvKey.value)})
  {
    ReceivingMoves(s, used, t);
    MovedForward(s, used, t, Slot(Pub(0), 0));
    forall x | x in s.skipped ensures s.skipped[x] in s.skipped.Values {}
  }

  lemma ReceiveForward(s: Session, used: set<Key>, header: Header, c: Ciphertext)
    requires Forward(s, used) && header.Header? && Receive(s, header, c).result.Ok?
    ensures c.Sealed? && Forward(Receive(s, header, c).state, used + {c.key})
  {
    var slot := Slot(header.pub, header.msgNum);
    if slot in s.skipped {
      StoredUsed(s, used, slot);
    } else {
      SkipForward(s, used, header.pub, header.msgNum);
      PositionUsed(SkipTo(s, header.pub, header.msgNum).state, used, Receive(s, header, c).state);
    }
  }

  lemma DecryptForward(s: Session, used: set<Key>, header: Header, c: Ciphertext, newPriv: Priv)
    requires Forward(s, used) && Decrypt(s, header, c, newPriv).result.Ok?
    ensures c.Sealed? && Forward(Decrypt(s, header, c, newPriv).state, used + {c.key})
  {
    FollowForward(s, used, header, newPriv);
    ReceiveForward(FollowRemote(s, header, newPriv).state, used, header, c);
  }

  lemma SendingForward(s: Session, used: set<Key>, newPriv: Priv)
    requires Forward(s, used)
    ensures Forward(EnsureSending(s, newPriv).state, used)
  {
    var t := EnsureSending(s, newPriv).state;
    forall k | Behind(k, s) ensures Behind(k, t) {
      SendingBehind(k, s, newPriv);
    }
  }

  lemma SendingBehind(k: Key, s: Session, newPriv: Priv)
    requires Behind(k, s)
    ensures Behind(k, EnsureSending(s, newPriv).state)
  {}

  lemma SealForward(s: Session, used: set<Key>, t: Session)
    requires Forward(s, used) && s.sendKey.Some? && t.skipped == s.skipped
    requires t.rootKey == s.rootKey && t.recvKey == s.recvKey && t.sendKey == Some(NextChain(s.sendKey.value))
    ensures Forward(t, used + {MessageKey(s.sendKey.value)})
  {
    SendingMoves(s, used, t);
    forall k | Behind(k, s) ensures Behind(k, t) {
      BehindMoves(k, s, t);
    }
    forall x | x in s.skipped ensures s.skipped[x] in s.skipped.Values {}
  }

  lemma EncryptForward(s: Session, used: set<Key>, plaintext: Bytes, nonce: nat, newPriv: Priv)
    requires Forward(s, used) && Encrypt(s, plaintext, nonce, newPriv).result.Ok?
    ensures var r := Encrypt(s, plaintext, nonce, newPriv);
      var c := r.result.value.1;
      c.Sealed? && Forward(r.state, used + {c.key})
  {
    SendingForward(s, used, newPriv);
    SealForward(EnsureSending(s, newPriv).state, used, Encrypt(s, plaintext, nonce, newPriv).state);
  }

  // ---- forward secrecy ----

  /** The keys under which ciphertexts were sealed. */
  function SealingKeys(cs: seq<Ciphertext>): set<Key> {
    set c | c in cs && c.Sealed? :: c.key
  }

  lemma SealingKeysCons(cs: seq<Ciphertext>, rest: seq<Ciphertext>)
    ensures SealingKeys(cs + rest) == SealingKeys(cs) + SealingKeys(rest)
  {}

  /** The ciphertexts one step accepts or seals. */
  function UsedBy(s: Session, step: Step): seq<Ciphertext> {
    (if Accepted(s, step) then [step.op.body] else []) + SealedBy(s, step)
  }

  function UsedAlong(s: Session, steps: seq<Step>): seq<Ciphertext>
    decreases |steps|
  {
    if steps == [] then [] else UsedBy(s, steps[0]) + UsedAlong(Saved(s, steps[0]), steps[1..])
  }

  lemma StepForward(s: Session, used: set<Key>, step: Step)
    requires Forward(s, used)
    ensures forall c :: c in UsedBy(s, step) ==> c.Sealed?
    ensures Forward(Saved(s, step), used + SealingKeys(UsedBy(s, step)))
  {
    if step.Call? && Succeeds(s, step.op) {
      match step.op
      case DecryptOp(header, body, newPriv) =>
        DecryptForward(s, used, header, body, newPriv);
        assert UsedBy(s, step) == [body] && SealingKeys([body]) == {body.key};
      case EncryptOp(plaintext, nonce, newPriv) =>
        EncryptForward(s, used, plaintext, nonce, newPriv);
        var c := Encrypt(s, plaintext, nonce, newPriv).result.value.1;
        assert UsedBy(s, step) == [c] && SealingKeys([c]) == {c.key};
    } else {
      assert used + SealingKeys([]) == used;
      SameForward(s, Saved(s, step), used);
    }
  }

  lemma {:induction false} RunForward(s: Session, used: set<Key>, steps: seq<Step>)
    requires Forward(s, used)
    ensures forall c :: c in UsedAlong(s, steps) ==> c.Sealed?
    ensures Forward(RunSaved(s, steps), used + SealingKeys(UsedAlong(s, steps)))
    decreases |steps|
  {
    if steps == [] {
      assert used + SealingKeys([]) == used;
    } else {
      StepForward(s, used, steps[0]);
      var here, rest := UsedBy(s, steps[0]), UsedAlong(Saved(s, steps[0]), steps[1..]);
      RunForward(Saved(s, steps[0]), used + SealingKeys(here), steps[1..]);
      SealingKeysCons(here, rest);
      assert used + SealingKeys(here) + SealingKeys(rest) == used + SealingKeys(here + rest);
    }
  }

  function Start(pub: Pub, id: nat, priv: Priv, asAlice: bool): Session {
    if asAlice then InitAlice(pub, SharedSecret(id), priv) else InitBob(pub, SharedSecret(id), priv)
  }

  /** From either initialisation, over any run of saved operations on arbitrary input: whoever takes all the
      session's keys at the end, and knows any private keys besides, can compute no key under which a message
      was sent or accepted before. */
  lemma ForwardSecrecy(pub: Pub, id: nat, priv: Priv, asAlice: bool, steps: seq<Step>, privs: set<Priv>, c: Ciphertext)
    requires c in UsedAlong(Start(pub, id, priv, asAlice), steps)
    ensures c.Sealed? && !Derivable(KeysIn(RunSaved(Start(pub, id, priv, asAlice), steps)), privs, c.key)
  {
    var s := Start(pub, id, priv, asAlice);
    StartForward(pub, SharedSecret(id), priv);
    RunForward(s, {}, steps);
    UsedKeysAreLost(RunSaved(s, steps), {} + SealingKeys(UsedAlong(s, steps)), privs, c.key);
  }

  // ---- what is exposed ----

  /** From a chain position on, the chain can be computed with no private key. */
  lemma {:induction false} ChainDerivable(known: set<Key>, privs: set<Priv>, k: Key, x: Key)
    requires x in known && OnChain(x) && OnChain(k) && BuiltOn(k, x)
    ensures Derivable(known, privs, k)
  {
    if k != x {
      match k
      case NextChain(ck) => ChainDerivable(known, privs, ck, x);
      case ChainKey(rk, _) => RootBuiltOnRoots(rk, x);
    }
  }

  /** A stored key, or one of a chain at or after its position. */
  predicate Ahead(s: Session, k: Key)
    requires k.MessageKey?
  {
    || k in s.skipped.Values
    || (s.recvKey.Some? && BuiltOn(k.ck, s.recvKey.value))
    || (s.sendKey.Some? && BuiltOn(k.ck, s.sendKey.value))
  }

  lemma AheadIsExposed(s: Session, privs: set<Priv>, k: Key)
    requires ChainsOk(s) && k.MessageKey? && OnChain(k.ck) && Ahead(s, k)
    ensures Derivable(KeysIn(s), privs, k)
  {
    if k !in s.skipped.Values {
      var x := if s.recvKey.Some? && BuiltOn(k.ck, s.recvKey.value) then s.recvKey.value else s.sendKey.value;
      assert x in KeysIn(s);
      ChainDerivable(KeysIn(s), privs, k.ck, x);
    }
  }

  /** Of the message keys below the current root, exactly those ahead can be computed from a session's keys. */
  lemma ExposedIff(s: Session, privs: set<Priv>, k: Key)
    requires Forward(s, {}) && k.MessageKey? && OnChain(k.ck)
    requires s.rootKey.Some? ==> Level(k) < Level(s.rootKey.value)
    ensures Derivable(KeysIn(s), privs, k) <==> Ahead(s, k)
  {
    if Derivable(KeysIn(s), privs, k) {
      DerivableIsBuilt(KeysIn(s), privs, k);
      var x :| x in KeysIn(s) && BuiltOn(k, x);
      BuiltLevel(k, x);
      if x in s.skipped.Values {
        StoredIsMessage(s, x);
        OnlyItself(k, x);
      }
    } else if Ahead(s, k) {
      AheadIsExposed(s, privs, k);
    }
  }

  lemma StoredIsMessage(s: Session, x: Key)
    requires Forward(s, {}) && x in s.skipped.Values
    ensures Behind(x, s)
  {
    var slot :| slot in s.skipped && s.skipped[slot] == x;
  }

  lemma OnlyItself(k: Key, x: Key)
    requires k.MessageKey? && OnChain(k.ck) && x.MessageKey? && BuiltOn(k, x)
    ensures k == x
  {
    if k != x {
      ChainBuiltOn(k.ck, x);
    }
  }
}
