/** Recovery after all keys of a session were taken: what the next Diffie-Hellman step closes, and what it
    leaves open. */
module RatchetRecovery {
  import opened Basics
  import opened RatchetKeys
  import opened Ratchet
  import opened RatchetEviction
  import opened RatchetOrigin
  import opened RatchetReplay
  import opened RatchetSecrecy

  /** Built on what a derivation from a root and an exchange gives: the next root or the new chain. */
  predicate Renewed(k: Key, rk: Key, dh: DhOutput) {
    BuiltOn(k, RootKey(rk, dh)) || BuiltOn(k, ChainKey(rk, dh))
  }

  /** Nothing known is renewed and neither private key is: no renewed key can be computed. */
  lemma {:induction false} RenewedIsSafe(known: set<Key>, privs: set<Priv>, k: Key, rk: Key, dh: DhOutput)
    requires Renewed(k, rk, dh) && !Learnable(dh, privs)
    requires forall x :: x in known ==> !Renewed(x, rk, dh)
    ensures !Derivable(known, privs, k)
  {
    match k
    case SharedSecret(_) =>
    case RootKey(r, d) => if k != RootKey(rk, dh) { RenewedIsSafe(known, privs, r, rk, dh); }
    case ChainKey(r, d) => if k != ChainKey(rk, dh) { RenewedIsSafe(known, privs, r, rk, dh); }
    case NextChain(ck) => RenewedIsSafe(known, privs, ck, rk, dh);
    case MessageKey(ck) => RenewedIsSafe(known, privs, ck, rk, dh);
  }

  lemma KeyLevels(s: Session, x: Key)
    requires Forward(s, {}) && x in KeysIn(s)
    ensures s.rootKey.Some? && (x == s.rootKey.value || Level(x) < Level(s.rootKey.value))
  {
    if x in s.skipped.Values {
      StoredIsMessage(s, x);
    }
  }

  lemma RenewedLevel(k: Key, rk: Key, dh: DhOutput)
    requires Renewed(k, rk, dh)
    ensures Level(k) >= Level(rk) && (IsRoot(k) ==> Level(k) > Level(rk))
  {
    if BuiltOn(k, RootKey(rk, dh)) {
      BuiltLevel(k, RootKey(rk, dh));
    } else {
      BuiltLevel(k, ChainKey(rk, dh));
      if IsRoot(k) {
        RootBuiltOnRoots(k, ChainKey(rk, dh));
      }
    }
  }

  /** A session holds no key renewed from a root built on its own. */
  lemma NothingRenewed(s: Session, x: Key, rk: Key, dh: DhOutput)
    requires Forward(s, {}) && x in KeysIn(s) && s.rootKey.Some? && BuiltOn(rk, s.rootKey.value)
    ensures !Renewed(x, rk, dh)
  {
    BuiltLevel(rk, s.rootKey.value);
    KeyLevels(s, x);
    if Renewed(x, rk, dh) {
      RenewedLevel(x, rk, dh);
    }
  }

  // ---- the keys a session receives with ----

  /** Whatever holds of a chain key holds of the keys it steps to. */
  ghost predicate Inherited(p: Key -> bool) {
    && (forall k {:trigger NextChain(k)} :: p(k) ==> p(NextChain(k)))
    && (forall k {:trigger MessageKey(k)} :: p(k) ==> p(MessageKey(k)))
  }

  /** Receiving chain and stored keys all satisfy p. */
  ghost predicate ReceivesWith(s: Session, p: Key -> bool) {
    && (s.recvKey.Some? ==> p(s.recvKey.value))
    && (forall slot :: slot in s.skipped ==> p(s.skipped[slot]))
  }

  lemma RoundReceives(s: Session, p: Key -> bool, pub: Pub, until: nat) returns (next: Session)
    requires Inherited(p) && ReceivesWith(s, p) && s.recvNum < until && s.recvKey.Some? && CanEvict(s)
    ensures ReceivesWith(next, p) && next.recvNum == s.recvNum + 1 && SkipTo(s, pub, until) == SkipTo(next, pub, until)
  {
    SkipStep(s, pub, until);
    StepStores(s, pub);
    next := Stepped(s, pub);
  }

  lemma {:induction false} SkipReceives(s: Session, p: Key -> bool, pub: Pub, until: nat)
    requires Inherited(p) && ReceivesWith(s, p) && SkipTo(s, pub, until).result.Ok?
    ensures ReceivesWith(SkipTo(s, pub, until).state, p)
    decreases until - s.recvNum
  {
    if s.recvNum < until {
      var next := RoundReceives(s, p, pub, until);
      SkipReceives(next, p, pub, until);
    }
  }

  lemma OldChainReceives(s: Session, p: Key -> bool, until: nat)
    requires Inherited(p) && ReceivesWith(s, p) && SkipOldChain(s, until).result.Ok?
    ensures var t := SkipOldChain(s, until).state;
      ReceivesWith(t, p) && t.rootKey == s.rootKey && t.sendKey == s.sendKey && t.dhPriv == s.dhPriv
  {
    if s.recvKey.Some? && s.dhRemote.Some? {
      SkipReceives(s, p, s.dhRemote.value, until);
      SkipKeepsSending(s, s.dhRemote.value, until);
    }
  }

  lemma KeyReceived(s: Session, p: Key -> bool, header: Header, c: Ciphertext)
    requires Inherited(p) && ReceivesWith(s, p) && header.Header? && Receive(s, header, c).result.Ok?
    ensures c.Sealed? && p(c.key)
    ensures var t := Receive(s, header, c).state; ReceivesWith(t, p) && t.rootKey == s.rootKey && t.sendKey == s.sendKey
  {
    if Slot(header.pub, header.msgNum) !in s.skipped {
      SkipReceives(s, p, header.pub, header.msgNum);
    }
    ReceiveKeepsSendKeys(s, header, c);
  }

  // ---- recovery of a session whose keys were taken ----

  /** What someone knows. */
  datatype Knowledge = Knowledge(keys: set<Key>, privs: set<Priv>)

  predicate Computes(a: Knowledge, k: Key) {
    Derivable(a.keys, a.privs, k)
  }

  function Computed(a: Knowledge): Key -> bool {
    k => Computes(a, k)
  }

  function ComputedOrRenewed(a: Knowledge, rk: Key, dh: DhOutput): Key -> bool {
    k => Computes(a, k) || Renewed(k, rk, dh)
  }

  /** Root and sending chain are renewed; each key to receive with is renewed or can be computed. */
  ghost predicate Healed(s: Session, a: Knowledge, rk: Key, dh: DhOutput) {
    && (s.rootKey.Some? ==> Renewed(s.rootKey.value, rk, dh))
    && s.sendKey.Some? && Renewed(s.sendKey.value, rk, dh)
    && ReceivesWith(s, ComputedOrRenewed(a, rk, dh))
  }

  lemma FollowHealed(s: Session, a: Knowledge, rk: Key, dh: DhOutput, header: Header, newPriv: Priv)
    requires Healed(s, a, rk, dh) && header.Header? && FollowRemote(s, header, newPriv).result.Ok?
    ensures Healed(FollowRemote(s, header, newPriv).state, a, rk, dh)
  {
    if s.dhRemote != Some(header.pub) {
      OldChainReceives(s, ComputedOrRenewed(a, rk, dh), header.prevLen);
    }
  }

  lemma StepHealed(s: Session, a: Knowledge, rk: Key, dh: DhOutput, step: Step)
    requires Healed(s, a, rk, dh)
    ensures Healed(Saved(s, step), a, rk, dh)
    ensures Accepted(s, step) ==> step.op.body.Sealed? && (Computes(a, step.op.body.key) || Renewed(step.op.body.key, rk, dh))
    ensures forall c :: c in SealedBy(s, step) ==> c.Sealed? && Renewed(c.key, rk, dh)
  {
    if Accepted(s, step) {
      FollowHealed(s, a, rk, dh, step.op.header, step.op.newPriv);
      var followed := FollowRemote(s, step.op.header, step.op.newPriv).state;
      KeyReceived(followed, ComputedOrRenewed(a, rk, dh), step.op.header, step.op.body);
    }
  }

  lemma {:induction false} RunHealed(s: Session, a: Knowledge, rk: Key, dh: DhOutput, steps: seq<Step>)
    requires Healed(s, a, rk, dh)
    ensures forall c :: c in SealedAlong(s, steps) ==> c.Sealed? && Renewed(c.key, rk, dh)
    ensures forall c :: c in AcceptedAlong(s, steps) ==> c.Sealed? && (Computes(a, c.key) || Renewed(c.key, rk, dh))
    decreases |steps|
  {
    if steps != [] {
      StepHealed(s, a, rk, dh, steps[0]);
      RunHealed(Saved(s, steps[0]), a, rk, dh, steps[1..]);
    }
  }

  /** All keys of the session and its private key. */
  function Taken(s: Session, privs: set<Priv>): Knowledge {
    Knowledge(KeysIn(s), privs + if s.dhPriv.Some? then {s.dhPriv.value} else {})
  }

  /** Everything the session will receive with before its next Diffie-Hellman step, and the first chain of
      that step, can be computed. */
  ghost predicate Open(s: Session, a: Knowledge) {
    && (s.rootKey.Some? ==> Computes(a, s.rootKey.value))
    && (s.dhPriv.Some? ==> s.dhPriv.value in a.privs)
    && ReceivesWith(s, Computed(a))
  }

  lemma TakenIsOpen(s: Session, privs: set<Priv>)
    ensures Open(s, Taken(s, privs))
  {
    forall slot | slot in s.skipped ensures s.skipped[slot] in s.skipped.Values {}
  }

  /** The step makes a Diffie-Hellman step: on a new key of the peer, or for the first message sent. */
  predicate Renews(s: Session, step: Step) {
    step.Call? && Succeeds(s, step.op) &&
    match step.op
    case DecryptOp(header, _, _) => header.Header? && s.dhRemote != Some(header.pub)
    case EncryptOp(_, _, _) => s.sendKey.None?
  }

  predicate Steady(s: Session, steps: seq<Step>)
    decreases |steps|
  {
    steps == [] || (!Renews(s, steps[0]) && Steady(Saved(s, steps[0]), steps[1..]))
  }

  lemma StepOpen(s: Session, a: Knowledge, step: Step)
    requires Open(s, a) && !Renews(s, step)
    ensures Open(Saved(s, step), a)
  {
    if Accepted(s, step) {
      KeyReceived(s, Computed(a), step.op.header, step.op.body);
      ReceiveKeepsPriv(s, step.op.header, step.op.body);
    }
  }

  lemma ReceiveKeepsPriv(s: Session, header: Header, c: Ciphertext)
    requires header.Header?
    ensures Receive(s, header, c).state.dhPriv == s.dhPriv
  {
    SkipKeepsSending(s, header.pub, header.msgNum);
  }

  /** Until the next Diffie-Hellman step a session stays open to whoever could compute its keys. */
  lemma {:induction false} RunOpen(s: Session, a: Knowledge, steps: seq<Step>)
    requires Open(s, a) && Steady(s, steps)
    ensures Open(RunSaved(s, steps), a)
    decreases |steps|
  {
    if steps != [] {
      StepOpen(s, a, steps[0]);
      RunOpen(Saved(s, steps[0]), a, steps[1..]);
    }
  }

  ghost predicate RootOver(s: Session, base: Key) {
    s.rootKey.Some? && BuiltOn(s.rootKey.value, base)
  }

  lemma StepRoot(s: Session, base: Key, step: Step)
    requires RootOver(s, base)
    ensures RootOver(Saved(s, step), base)
  {
    if Accepted(s, step) && s.dhRemote != Some(step.op.header.pub) {
      RatchetRoots(s, step.op.header, step.op.body, step.op.newPriv);
    } else if Accepted(s, step) {
      ReceiveKeepsSendKeys(s, step.op.header, step.op.body);
    }
  }

  lemma {:induction false} RunRoot(s: Session, base: Key, steps: seq<Step>)
    requires RootOver(s, base)
    ensures RootOver(RunSaved(s, steps), base)
    decreases |steps|
  {
    if steps != [] {
      StepRoot(s, base, steps[0]);
      RunRoot(Saved(s, steps[0]), base, steps[1..]);
    }
  }

  /** The root under which a step on a new key of the peer makes the sending chain. */
  function MiddleRoot(s: Session, pub: Pub): Key
    requires s.rootKey.Some? && s.dhPriv.Some?
  {
    RootKey(s.rootKey.value, Exchange(s.dhPriv.value, pub))
  }

  lemma RatchetRoots(s: Session, header: Header, c: Ciphertext, newPriv: Priv)
    requires Decrypt(s, header, c, newPriv).result.Ok? && s.dhRemote != Some(header.pub)
    ensures s.dhPriv.Some? && s.rootKey.Some?
    ensures var t, rk, dh := Decrypt(s, header, c, newPriv).state, MiddleRoot(s, header.pub), Exchange(newPriv, header.pub);
      t.rootKey == Some(RootKey(rk, dh)) && t.sendKey == Some(ChainKey(rk, dh))
  {
    OldChainReceives(s, k => true, header.prevLen);
    ReceiveKeepsSendKeys(FollowRemote(s, header, newPriv).state, header, c);
  }

  /** A Diffie-Hellman step of an open session leaves the keys to receive with open, and with them the very
      message that brought the peer's new key. */
  lemma RatchetStaysOpen(s: Session, a: Knowledge, header: Header, c: Ciphertext, newPriv: Priv)
    requires Open(s, a) && Decrypt(s, header, c, newPriv).result.Ok? && s.dhRemote != Some(header.pub)
    ensures c.Sealed? && Computes(a, c.key)
    ensures ReceivesWith(Decrypt(s, header, c, newPriv).state, Computed(a))
  {
    OldChainReceives(s, Computed(a), header.prevLen);
    var kept := SkipOldChain(s, header.prevLen).state;
    RatchetReceives(kept, a, header.pub, newPriv);
    KeyReceived(DhRatchet(kept, header.pub, newPriv).state, Computed(a), header, c);
  }

  lemma RatchetReceives(s: Session, a: Knowledge, remote: Pub, newPriv: Priv)
    requires Open(s, a) && DhRatchet(s, remote, newPriv).result.Ok?
    ensures ReceivesWith(DhRatchet(s, remote, newPriv).state, Computed(a))
  {
    assert Learnable(Exchange(s.dhPriv.value, remote), a.privs);
  }

  /** Keys taken from s are of no use for what a step of a later state u renews. */
  lemma TakenIsOld(s: Session, u: Session, pub: Pub, dh: DhOutput, x: Key)
    requires Forward(s, {}) && x in KeysIn(s) && s.rootKey.Some? && RootOver(u, s.rootKey.value) && u.dhPriv.Some?
    ensures !Renewed(x, MiddleRoot(u, pub), dh)
  {
    NothingRenewed(s, x, MiddleRoot(u, pub), dh);
  }

  lemma MiddleRootOpen(s: Session, a: Knowledge, pub: Pub)
    requires Open(s, a) && s.rootKey.Some? && s.dhPriv.Some?
    ensures Computes(a, MiddleRoot(s, pub))
  {
    assert Learnable(Exchange(s.dhPriv.value, pub), a.privs);
  }

  /** A session as a saved run on arbitrary input leaves it. */
  ghost predicate Running(s: Session) {
    exists pub, id, priv, asAlice, steps :: s == RunSaved(Start(pub, id, priv, asAlice), steps)
  }

  lemma RunningForward(s: Session)
    requires Running(s)
    ensures Forward(s, {}) && s.rootKey.Some?
  {
    var pub, id, priv, asAlice, steps :| s == RunSaved(Start(pub, id, priv, asAlice), steps);
    var start := Start(pub, id, priv, asAlice);
    StartForward(pub, SharedSecret(id), priv);
    RunForward(start, {}, steps);
    assert BuiltOn(start.rootKey.value, start.rootKey.value);
    RunRoot(start, start.rootKey.value, steps);
  }

  /** Whether the next step heals a session whose keys were taken: its new root and sending chain stay open
      exactly if the new private key or the peer's is known. */
  lemma HealsIff(s: Session, privs: set<Priv>, header: Header, c: Ciphertext, newPriv: Priv)
    requires Running(s) && Decrypt(s, header, c, newPriv).result.Ok? && s.dhRemote != Some(header.pub)
    ensures var t, a := Decrypt(s, header, c, newPriv).state, Taken(s, privs);
      && t.rootKey.Some? && t.sendKey.Some?
      && (Computes(a, t.rootKey.value) <==> newPriv in a.privs || header.pub.of in a.privs)
      && (Computes(a, t.sendKey.value) <==> newPriv in a.privs || header.pub.of in a.privs)
  {
    RunningForward(s);
    RatchetRoots(s, header, c, newPriv);
    TakenIsOpen(s, privs);
    var a, rk, dh := Taken(s, privs), MiddleRoot(s, header.pub), Exchange(newPriv, header.pub);
    forall x | x in a.keys ensures !Renewed(x, rk, dh) {
      TakenIsOld(s, s, header.pub, dh, x);
    }
    if !Learnable(dh, a.privs) {
      RenewedIsSafe(a.keys, a.privs, RootKey(rk, dh), rk, dh);
      RenewedIsSafe(a.keys, a.privs, ChainKey(rk, dh), rk, dh);
    } else {
      MiddleRootOpen(s, a, header.pub);
    }
  }

  /** A step makes a session sealed off: what it seals from then on is under renewed keys, what it accepts
      under renewed or open ones. */
  lemma AfterStep(u: Session, a: Knowledge, header: Header, c: Ciphertext, newPriv: Priv, steps: seq<Step>)
    requires Open(u, a) && Decrypt(u, header, c, newPriv).result.Ok? && u.dhRemote != Some(header.pub)
    ensures u.rootKey.Some? && u.dhPriv.Some?
    ensures var t, rk, dh := Decrypt(u, header, c, newPriv).state, MiddleRoot(u, header.pub), Exchange(newPriv, header.pub);
      && (forall m :: m in SealedAlong(t, steps) ==> m.Sealed? && Renewed(m.key, rk, dh))
      && (forall m :: m in AcceptedAlong(t, steps) ==> m.Sealed? && (Computes(a, m.key) || Renewed(m.key, rk, dh)))
  {
    RatchetRoots(u, header, c, newPriv);
    RatchetStaysOpen(u, a, header, c, newPriv);
    RunHealed(Decrypt(u, header, c, newPriv).state, a, MiddleRoot(u, header.pub), Exchange(newPriv, header.pub), steps);
  }

  /** Nothing a later step renews with unknown private keys can be computed from what was taken. */
  lemma RenewedLater(s: Session, privs: set<Priv>, u: Session, pub: Pub, newPriv: Priv, k: Key)
    requires Forward(s, {}) && s.rootKey.Some? && RootOver(u, s.rootKey.value) && u.dhPriv.Some?
    requires newPriv !in Taken(s, privs).privs && pub.of !in Taken(s, privs).privs
    requires Renewed(k, MiddleRoot(u, pub), Exchange(newPriv, pub))
    ensures !Computes(Taken(s, privs), k)
  {
    var a, rk, dh := Taken(s, privs), MiddleRoot(u, pub), Exchange(newPriv, pub);
    forall x | x in a.keys ensures !Renewed(x, rk, dh) {
      TakenIsOld(s, u, pub, dh, x);
    }
    RenewedIsSafe(a.keys, a.privs, k, rk, dh);
  }

  /** All keys and the private key of a session are taken. At any later time it follows a new key of the peer
      with a new private key of its own, neither of them known. Over every run from then on, no message it
      sends can be read with what was taken, and none that it accepts under a renewed key. If the session made
      no Diffie-Hellman step in between, all other messages it accepts can be read. */
  lemma FutureSecrecy(s: Session, privs: set<Priv>, between: seq<Step>, header: Header, c: Ciphertext, newPriv: Priv, steps: seq<Step>)
    requires Running(s)
    requires header.Header? && Renews(RunSaved(s, between), Call(DecryptOp(header, c, newPriv)))
    requires newPriv !in privs && header.pub.of !in privs
    requires s.dhPriv != Some(newPriv) && s.dhPriv != Some(header.pub.of)
    ensures var u, a := RunSaved(s, between), Taken(s, privs);
      var t := Decrypt(u, header, c, newPriv).state;
      && u.rootKey.Some? && u.dhPriv.Some?
      && (forall m :: m in SealedAlong(t, steps) ==> m.Sealed? && !Computes(a, m.key))
      && (forall m :: m in AcceptedAlong(t, steps) ==> m.Sealed?)
      && (forall m :: m in AcceptedAlong(t, steps) && Renewed(m.key, MiddleRoot(u, header.pub), Exchange(newPriv, header.pub))
            ==> !Computes(a, m.key))
      && (Steady(s, between) ==> forall m :: m in AcceptedAlong(t, steps) ==>
            (Computes(a, m.key) <==> !Renewed(m.key, MiddleRoot(u, header.pub), Exchange(newPriv, header.pub))))
  {
    var u, a := RunSaved(s, between), Taken(s, privs);
    RunningForward(s);
    assert BuiltOn(s.rootKey.value, s.rootKey.value);
    RunRoot(s, s.rootKey.value, between);
    TakenIsOpen(s, privs);
    TakenIsOpen(u, privs);
    AfterStep(u, Taken(u, privs), header, c, newPriv, steps);
    if Steady(s, between) {
      RunOpen(s, a, between);
      AfterStep(u, a, header, c, newPriv, steps);
    }
    forall k | Renewed(k, MiddleRoot(u, header.pub), Exchange(newPriv, header.pub)) ensures !Computes(a, k) {
      RenewedLater(s, privs, u, header.pub, newPriv, k);
    }
  }
}
