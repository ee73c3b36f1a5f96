/** Two parties talking over a network that may lose, delay, duplicate and reorder messages within a
    sending chain. Every state of every such run keeps the two ratchets in step, and every first
    delivery decrypts to the plaintext that was sent. */
module RatchetProtocol {
  import opened Basics
  import opened RatchetKeys
  import opened Ratchet
  import opened RatchetEviction

  datatype Party = Alice | Bob

  datatype Packet = Packet(header: Header, body: Ciphertext, plaintext: Bytes)

  /** One sending chain: the root key it started from, the key pair halves it agreed on, and all
      packets ever sent on it. Even epochs belong to Alice, odd ones to Bob. */
  datatype Epoch = Epoch(root: Key, peer: Priv, priv: Priv, sent: seq<Packet>) {
    function Dh(): DhOutput { Exchange(priv, Pub(peer)) }
    function Chain(): Key { ChainKey(root, Dh()) }
    function RootAfter(): Key { RootKey(root, Dh()) }
    function KeyOf(n: nat): Key { MessageKey(Steps(Chain(), n)) }
  }

  datatype MessageId = MessageId(epoch: nat, num: nat)

  /** Both sessions, the whole history of chains, and the messages already delivered. */
  datatype System = System(alice: Session, bob: Session, epochs: seq<Epoch>, got: set<MessageId>)

  function SenderOf(epoch: nat): Party {
    if epoch % 2 == 0 then Alice else Bob
  }

  function Other(p: Party): Party {
    if p == Alice then Bob else Alice
  }

  function SessionOf(sys: System, p: Party): Session {
    if p == Alice then sys.alice else sys.bob
  }

  function WithSession(sys: System, p: Party, s: Session): System {
    if p == Alice then sys.(alice := s) else sys.(bob := s)
  }

  // ---- the invariant ----

  function SlotOf(epochs: seq<Epoch>, f: nat, n: nat): Slot<Pub>
    requires f < |epochs|
  {
    Slot(Pub(epochs[f].priv), n)
  }

  /** How many keys of chain f a party has derived when it is receiving chain q at position r. */
  function Derived(epochs: seq<Epoch>, q: nat, r: nat, f: nat): nat
    requires f < |epochs|
  {
    if f < q then |epochs[f].sent| else if f == q then r else 0
  }

  /** A stored key is exactly a derived and not yet delivered one, under its own slot. */
  ghost predicate SlotExact(epochs: seq<Epoch>, got: set<MessageId>, skipped: map<Slot<Pub>, Key>, q: nat, r: nat,
                            f: nat, n: nat)
    requires f < |epochs|
  {
    var slot, id := SlotOf(epochs, f, n), MessageId(f, n);
    && (slot in skipped <==> n < Derived(epochs, q, r, f) && id !in got)
    && (slot in skipped ==> skipped[slot] == epochs[f].KeyOf(n))
    && (id in got ==> n < Derived(epochs, q, r, f))
  }

  ghost predicate StoreExact(epochs: seq<Epoch>, got: set<MessageId>, skipped: map<Slot<Pub>, Key>, q: nat, r: nat) {
    forall f: nat, n: nat :: f < |epochs| && f % 2 == q % 2 ==> SlotExact(epochs, got, skipped, q, r, f, n)
  }

  ghost predicate Known(epochs: seq<Epoch>, priv: Priv) {
    exists e :: 0 <= e < |epochs| && (epochs[e].priv == priv || epochs[e].peer == priv)
  }

  /** The key of a chain sent by the sender of chain q. */
  ghost predicate Theirs(epochs: seq<Epoch>, priv: Priv, q: nat) {
    exists f :: 0 <= f < |epochs| && f % 2 == q % 2 && epochs[f].priv == priv
  }

  ghost predicate StoreTheirs(epochs: seq<Epoch>, skipped: map<Slot<Pub>, Key>, q: nat) {
    forall slot :: slot in skipped ==> Theirs(epochs, slot.pub.of, q)
  }

  /** The session is receiving chain q and holds exactly the right keys for it and all older chains. */
  ghost predicate Receiving(epochs: seq<Epoch>, got: set<MessageId>, s: Session, q: nat) {
    && q < |epochs|
    && s.dhRemote == Some(Pub(epochs[q].priv))
    && s.recvNum <= |epochs[q].sent|
    && s.recvKey == Some(Steps(epochs[q].Chain(), s.recvNum))
    && StoreExact(epochs, got, s.skipped, q, s.recvNum)
    && StoreTheirs(epochs, s.skipped, q)
  }

  function PrevLen(epochs: seq<Epoch>, e: nat): nat
    requires e < |epochs|
  {
    if e < 2 then 0 else |epochs[e - 2].sent|
  }

  /** The session is sending chain e. */
  ghost predicate Sending(epochs: seq<Epoch>, s: Session, e: nat) {
    && e < |epochs|
    && s.dhPriv == Some(epochs[e].priv)
    && s.rootKey == Some(epochs[e].RootAfter())
    && s.sendKey == Some(Steps(epochs[e].Chain(), |epochs[e].sent|))
    && s.sendNum == |epochs[e].sent|
    && s.prevLen == PrevLen(epochs, e)
  }

  /** Alice before her first delivery: nothing to receive on yet. */
  ghost predicate Unanswered(epochs: seq<Epoch>, got: set<MessageId>, s: Session) {
    && |epochs| > 0
    && s.dhRemote == Some(Pub(epochs[0].peer))
    && s.recvKey == None && s.skipped == map[]
    && forall id :: id in got ==> id.epoch % 2 == 0
  }

  /** Bob before he first sends: he will create chain 1 on demand. */
  ghost predicate Silent(epochs: seq<Epoch>, s: Session) {
    && |epochs| == 1
    && s.dhPriv == Some(epochs[0].peer)
    && s.rootKey == Some(epochs[0].RootAfter())
    && s.sendKey == None && s.sendNum == 0 && s.prevLen == 0
  }

  ghost predicate PacketOk(epochs: seq<Epoch>, e: nat, n: nat)
    requires e < |epochs| && n < |epochs[e].sent|
  {
    var p := epochs[e].sent[n];
    && p.header == Header(n, PrevLen(epochs, e), Pub(epochs[e].priv), [])
    && p.body.Sealed? && p.body.key == epochs[e].KeyOf(n)
    && p.body.plaintext == p.plaintext && p.body.header == p.header
  }

  ghost predicate HistoryOk(epochs: seq<Epoch>) {
    && (forall e {:trigger Linked(epochs, e)} :: 0 <= e < |epochs| - 1 ==> Linked(epochs, e))
    && (forall e, n :: 0 <= e < |epochs| && 0 <= n < |epochs[e].sent| ==> PacketOk(epochs, e, n))
    && (forall e, f :: 0 <= e < f < |epochs| ==> epochs[e].priv != epochs[f].priv)
    && (forall e :: 0 <= e < |epochs| ==> epochs[e].priv != epochs[0].peer)
  }

  ghost predicate Linked(epochs: seq<Epoch>, e: nat)
    requires e + 1 < |epochs|
  {
    epochs[e + 1].root == epochs[e].RootAfter() && epochs[e + 1].peer == epochs[e].priv
  }

  /** Chain e's owner: it sends e and, except at the very start, receives e - 1. */
  ghost predicate InEpoch(sys: System, p: Party, e: nat) {
    && Sending(sys.epochs, SessionOf(sys, p), e)
    && (e == 0 ==> Unanswered(sys.epochs, sys.got, SessionOf(sys, p)))
    && (e > 0 ==> Receiving(sys.epochs, sys.got, SessionOf(sys, p), e - 1))
    && (e > 1 ==> Reached(sys.got, e - 1))
  }

  /** Some message of the chain has been delivered. */
  ghost predicate Reached(got: set<MessageId>, e: nat) {
    exists n: nat :: MessageId(e, n) in got
  }

  /** The owner of the newest chain is one chain ahead of the other party. */
  ghost predicate Synced(sys: System) {
    && |sys.epochs| > 0
    && HistoryOk(sys.epochs)
    && (forall id :: id in sys.got ==> id.epoch < |sys.epochs|)
    && var last := |sys.epochs| - 1;
    && InEpoch(sys, SenderOf(last), last)
    && (last == 0 ==> Silent(sys.epochs, sys.bob) && Receiving(sys.epochs, sys.got, sys.bob, 0))
    && (last > 0 ==> InEpoch(sys, SenderOf(last - 1), last - 1))
  }

  // ---- the initial state ----

  function Start(secret: Key, alicePriv: Priv, bobPriv: Priv): System {
    System(InitAlice(Pub(bobPriv), secret, alicePriv), InitBob(Pub(alicePriv), secret, bobPriv),
           [Epoch(secret, bobPriv, alicePriv, [])], {})
  }

  lemma StartSynced(secret: Key, alicePriv: Priv, bobPriv: Priv)
    requires alicePriv != bobPriv
    ensures Synced(Start(secret, alicePriv, bobPriv))
  {
  }

  // ---- skipping ahead on a chain ----

  /** `now` is `before` plus the message keys lo .. hi - 1 of the chain, under `pub`. */
  ghost predicate Extended(before: map<Slot<Pub>, Key>, now: map<Slot<Pub>, Key>, pub: Pub, chain: Key, lo: nat, hi: nat) {
    forall slot :: Covers(before, now, slot, pub, chain, lo, hi)
  }

  ghost predicate Covers(before: map<Slot<Pub>, Key>, now: map<Slot<Pub>, Key>, slot: Slot<Pub>,
                         pub: Pub, chain: Key, lo: nat, hi: nat) {
    var added := slot.pub == pub && lo <= slot.num < hi;
    && (slot in now <==> slot in before || added)
    && (added ==> now[slot] == MessageKey(Steps(chain, slot.num)))
    && (slot in before && !added ==> now[slot] == before[slot])
  }

  /** With room in the store, skipping adds exactly the skipped keys and moves the chain. */
  lemma {:induction false} SkipToExact(s: Session, pub: Pub, chain: Key, until: nat)
    requires s.recvKey == Some(Steps(chain, s.recvNum)) && s.recvNum <= until
    requires |s.skipped| + (until - s.recvNum) <= MAX_SKIPPED_KEYS
    ensures var r := SkipTo(s, pub, until);
      && r.result.Ok?
      && r.state == s.(recvKey := Some(Steps(chain, until)), recvNum := until,
                       skipped := r.state.skipped, order := r.state.order)
      && Extended(s.skipped, r.state.skipped, pub, chain, s.recvNum, until)
      && |r.state.skipped| <= |s.skipped| + (until - s.recvNum)
    decreases until - s.recvNum
  {
    if s.recvNum < until {
      var next := ExactRound(s, pub, chain, until);
      SkipToExact(next, pub, chain, until);
      ExtendedFromFirst(s.skipped, SkipTo(next, pub, until).state.skipped, pub, chain, s.recvNum, until);
    }
  }

  /** One round of the skip with room in the store. */
  lemma ExactRound(s: Session, pub: Pub, chain: Key, until: nat) returns (next: Session)
    requires s.recvKey == Some(Steps(chain, s.recvNum)) && s.recvNum < until
    requires |s.skipped| < MAX_SKIPPED_KEYS
    ensures SkipTo(s, pub, until) == SkipTo(next, pub, until)
    ensures next == s.(recvKey := Some(Steps(chain, s.recvNum + 1)), recvNum := s.recvNum + 1,
                       skipped := s.skipped[Slot(pub, s.recvNum) := MessageKey(Steps(chain, s.recvNum))], order := next.order)
    ensures |next.skipped| <= |s.skipped| + 1
  {
    var mk, slot := MessageKey(s.recvKey.value), Slot(pub, s.recvNum);
    next := s.(recvKey := Some(NextChain(s.recvKey.value)), recvNum := s.recvNum + 1,
               skipped := s.skipped[slot := mk], order := s.order + [slot]);
    AddedSize(s.skipped, slot, mk);
  }

  lemma AddedSize(m: map<Slot<Pub>, Key>, slot: Slot<Pub>, mk: Key)
    ensures |m[slot := mk]| <= |m| + 1
  {
    assert m[slot := mk].Keys == m.Keys + {slot};
  }

  lemma ExtendedFromFirst(before: map<Slot<Pub>, Key>, now: map<Slot<Pub>, Key>, pub: Pub, chain: Key, lo: nat, hi: nat)
    requires lo < hi
    requires Extended(before[Slot(pub, lo) := MessageKey(Steps(chain, lo))], now, pub, chain, lo + 1, hi)
    ensures Extended(before, now, pub, chain, lo, hi)
  {
    var first := before[Slot(pub, lo) := MessageKey(Steps(chain, lo))];
    forall t ensures Covers(before, now, t, pub, chain, lo, hi) {
      assert Covers(first, now, t, pub, chain, lo + 1, hi);
    }
  }

  // ---- receiving on the current chain ----

  /** Nothing but the receiving side differs. */
  ghost predicate SameSending(s: Session, t: Session) {
    s.dhPriv == t.dhPriv && s.rootKey == t.rootKey && s.sendKey == t.sendKey
    && s.sendNum == t.sendNum && s.prevLen == t.prevLen
  }

  lemma SlotsDiffer(epochs: seq<Epoch>, f: nat, n: nat, g: nat, k: nat)
    requires HistoryOk(epochs) && f < |epochs| && g < |epochs|
    ensures SlotOf(epochs, f, n) == SlotOf(epochs, g, k) <==> f == g && n == k
  {
    if f < g {
      assert epochs[f].priv != epochs[g].priv;
    } else if g < f {
      assert epochs[g].priv != epochs[f].priv;
    }
  }

  /** Consuming a stored key keeps the store exact. */
  lemma ConsumeExact(epochs: seq<Epoch>, got: set<MessageId>, s: Session, q: nat, n: nat)
    requires HistoryOk(epochs) && Receiving(epochs, got, s, q)
    requires n < s.recvNum && MessageId(q, n) !in got
    ensures SlotOf(epochs, q, n) in s.skipped && s.skipped[SlotOf(epochs, q, n)] == epochs[q].KeyOf(n)
    ensures StoreExact(epochs, got + {MessageId(q, n)}, s.skipped - {SlotOf(epochs, q, n)}, q, s.recvNum)
  {
    assert SlotExact(epochs, got, s.skipped, q, s.recvNum, q, n);
    var got', left := got + {MessageId(q, n)}, s.skipped - {SlotOf(epochs, q, n)};
    forall f: nat, k: nat | f < |epochs| && f % 2 == q % 2
      ensures SlotExact(epochs, got', left, q, s.recvNum, f, k)
    {
      assert SlotExact(epochs, got, s.skipped, q, s.recvNum, f, k);
      SlotsDiffer(epochs, f, k, q, n);
    }
  }

  /** Skipping ahead to message n of the current chain keeps the store exact at position n. */
  lemma SkipExact(epochs: seq<Epoch>, got: set<MessageId>, skipped: map<Slot<Pub>, Key>, now: map<Slot<Pub>, Key>,
                  q: nat, r: nat, n: nat)
    requires HistoryOk(epochs) && q < |epochs| && r <= n
    requires StoreExact(epochs, got, skipped, q, r)
    requires Extended(skipped, now, Pub(epochs[q].priv), epochs[q].Chain(), r, n)
    ensures StoreExact(epochs, got, now, q, n)
  {
    forall f: nat, k: nat | f < |epochs| && f % 2 == q % 2
      ensures SlotExact(epochs, got, now, q, n, f, k)
    {
      assert SlotExact(epochs, got, skipped, q, r, f, k);
      assert Covers(skipped, now, SlotOf(epochs, f, k), Pub(epochs[q].priv), epochs[q].Chain(), r, n);
      SlotsDiffer(epochs, f, k, q, k);
    }
  }

  /** Taking the key at position n directly, without storing it. */
  lemma AdvanceExact(epochs: seq<Epoch>, got: set<MessageId>, skipped: map<Slot<Pub>, Key>, q: nat, n: nat)
    requires HistoryOk(epochs) && q < |epochs| && StoreExact(epochs, got, skipped, q, n)
    ensures StoreExact(epochs, got + {MessageId(q, n)}, skipped, q, n + 1)
  {
    var got', r := got + {MessageId(q, n)}, n + 1;
    forall f: nat, k: nat | f < |epochs| && f % 2 == q % 2
      ensures SlotExact(epochs, got', skipped, q, r, f, k)
    {
      assert SlotExact(epochs, got, skipped, q, n, f, k);
    }
  }

  /** A late message uses its stored key. */
  lemma ReceiveStored(epochs: seq<Epoch>, got: set<MessageId>, s: Session, q: nat, n: nat)
    requires HistoryOk(epochs) && Receiving(epochs, got, s, q)
    requires n < |epochs[q].sent| && MessageId(q, n) !in got && n < s.recvNum
    ensures PacketOk(epochs, q, n)
    ensures var p := epochs[q].sent[n];
      var r := Receive(s, p.header, p.body);
      r.result == Ok(p.plaintext) && SameSending(s, r.state) && Receiving(epochs, got + {MessageId(q, n)}, r.state, q)
  {
    assert PacketOk(epochs, q, n);
    ConsumeExact(epochs, got, s, q, n);
  }

  /** Taking message n with the chain at position n. */
  lemma TakeExact(epochs: seq<Epoch>, got: set<MessageId>, t: Session, q: nat, n: nat)
    requires HistoryOk(epochs) && Receiving(epochs, got, t, q) && n == t.recvNum < |epochs[q].sent|
    ensures PacketOk(epochs, q, n)
    ensures var p := epochs[q].sent[n];
      var r := TakeNext(t, p.header, p.body);
      r.result == Ok(p.plaintext) && SameSending(t, r.state) && Receiving(epochs, got + {MessageId(q, n)}, r.state, q)
  {
    assert PacketOk(epochs, q, n);
    AdvanceExact(epochs, got, t.skipped, q, n);
  }

  /** Skipping ahead on the current chain. */
  lemma SkipCurrent(epochs: seq<Epoch>, got: set<MessageId>, s: Session, q: nat, n: nat)
    requires HistoryOk(epochs) && Receiving(epochs, got, s, q)
    requires s.recvNum <= n <= |epochs[q].sent| && |s.skipped| + (n - s.recvNum) <= MAX_SKIPPED_KEYS
    ensures var r := SkipTo(s, Pub(epochs[q].priv), n);
      && r.result.Ok? && SameSending(s, r.state) && Receiving(epochs, got, r.state, q) && r.state.recvNum == n
      && |r.state.skipped| <= |s.skipped| + (n - s.recvNum)
  {
    var pub, chain := Pub(epochs[q].priv), epochs[q].Chain();
    SkipToExact(s, pub, chain, n);
    var t := SkipTo(s, pub, n).state;
    SkipExact(epochs, got, s.skipped, t.skipped, q, s.recvNum, n);
    TheirsAfterSkip(epochs, s.skipped, t.skipped, q, chain, s.recvNum, n);
  }

  /** An early message stores the keys in between. */
  lemma ReceiveAhead(epochs: seq<Epoch>, got: set<MessageId>, s: Session, q: nat, n: nat)
    requires HistoryOk(epochs) && Receiving(epochs, got, s, q)
    requires n < |epochs[q].sent| && n >= s.recvNum
    requires |s.skipped| + (n - s.recvNum) <= MAX_SKIPPED_KEYS
    ensures PacketOk(epochs, q, n)
    ensures var p := epochs[q].sent[n];
      var r := Receive(s, p.header, p.body);
      r.result == Ok(p.plaintext) && SameSending(s, r.state) && Receiving(epochs, got + {MessageId(q, n)}, r.state, q)
  {
    assert PacketOk(epochs, q, n);
    assert SlotExact(epochs, got, s.skipped, q, s.recvNum, q, n);
    SkipCurrent(epochs, got, s, q, n);
    TakeExact(epochs, got, SkipTo(s, Pub(epochs[q].priv), n).state, q, n);
  }

  /** First delivery on the current chain, late or early, decrypts and keeps the receiver in step. */
  lemma ReceiveCurrent(epochs: seq<Epoch>, got: set<MessageId>, s: Session, q: nat, n: nat)
    requires HistoryOk(epochs) && Receiving(epochs, got, s, q)
    requires n < |epochs[q].sent| && MessageId(q, n) !in got
    requires |s.skipped| + SkipCount(s, n) <= MAX_SKIPPED_KEYS
    ensures PacketOk(epochs, q, n)
    ensures var p := epochs[q].sent[n];
      var r := Receive(s, p.header, p.body);
      r.result == Ok(p.plaintext) && SameSending(s, r.state) && Receiving(epochs, got + {MessageId(q, n)}, r.state, q)
  {
    if n < s.recvNum {
      ReceiveStored(epochs, got, s, q, n);
    } else {
      ReceiveAhead(epochs, got, s, q, n);
    }
  }

  lemma TheirsAfterSkip(epochs: seq<Epoch>, skipped: map<Slot<Pub>, Key>, now: map<Slot<Pub>, Key>, q: nat,
                       chain: Key, lo: nat, hi: nat)
    requires q < |epochs| && StoreTheirs(epochs, skipped, q)
    requires Extended(skipped, now, Pub(epochs[q].priv), chain, lo, hi)
    ensures StoreTheirs(epochs, now, q)
  {
    forall slot | slot in now ensures Theirs(epochs, slot.pub.of, q) {
      assert Covers(skipped, now, slot, Pub(epochs[q].priv), chain, lo, hi);
      assert epochs[q].priv == epochs[q].priv;
    }
  }

  // ---- what the other side's steps leave alone ----

  /** The same chains, possibly with more packets and more chains, the new ones on fresh keys. */
  ghost predicate Evolves(epochs: seq<Epoch>, later: seq<Epoch>) {
    && |epochs| <= |later|
    && (forall f :: 0 <= f < |epochs| ==>
          later[f] == epochs[f].(sent := later[f].sent) && |epochs[f].sent| <= |later[f].sent|)
    && (forall f :: |epochs| <= f < |later| ==> !Known(epochs, later[f].priv))
  }

  lemma ReceivingFrame(epochs: seq<Epoch>, got: set<MessageId>, s: Session, q: nat, later: seq<Epoch>, got': set<MessageId>)
    requires Receiving(epochs, got, s, q) && Evolves(epochs, later)
    requires forall f :: 0 <= f < q ==> f % 2 == q % 2 ==> |epochs[f].sent| == |later[f].sent|
    requires forall id :: id in got ==> id.epoch < |epochs|
    requires forall id: MessageId :: id.epoch % 2 == q % 2 ==> (id in got <==> id in got')
    ensures Receiving(later, got', s, q)
  {
    forall f: nat, n: nat | f < |later| && f % 2 == q % 2
      ensures SlotExact(later, got', s.skipped, q, s.recvNum, f, n)
    {
      if f < |epochs| {
        assert SlotExact(epochs, got, s.skipped, q, s.recvNum, f, n);
        assert later[f] == epochs[f].(sent := later[f].sent);
      } else {
        assert SlotOf(later, f, n) !in s.skipped;
      }
    }
    TheirsFrame(epochs, s.skipped, later, q);
  }

  lemma TheirsFrame(epochs: seq<Epoch>, skipped: map<Slot<Pub>, Key>, later: seq<Epoch>, q: nat)
    requires StoreTheirs(epochs, skipped, q) && Evolves(epochs, later)
    ensures StoreTheirs(later, skipped, q)
  {
    forall slot | slot in skipped ensures Theirs(later, slot.pub.of, q) {
      var f :| 0 <= f < |epochs| && f % 2 == q % 2 && epochs[f].priv == slot.pub.of;
      assert later[f].priv == epochs[f].priv;
    }
  }

  /** A party keeps its place when the other side's packets, chains and deliveries grow. */
  lemma InEpochFrame(sys: System, p: Party, e: nat, now: System)
    requires InEpoch(sys, p, e) && SessionOf(now, p) == SessionOf(sys, p) && Evolves(sys.epochs, now.epochs)
    requires forall f :: 0 <= f < |sys.epochs| ==> f == e || f + 1 < e ==> |sys.epochs[f].sent| == |now.epochs[f].sent|
    requires forall id :: id in sys.got ==> id.epoch < |sys.epochs|
    requires forall id: MessageId :: id.epoch % 2 != e % 2 ==> (id in sys.got <==> id in now.got)
    ensures InEpoch(now, p, e)
  {
    assert now.epochs[e] == sys.epochs[e].(sent := now.epochs[e].sent);
    if e > 0 {
      ReceivingFrame(sys.epochs, sys.got, SessionOf(sys, p), e - 1, now.epochs, now.got);
      if e > 1 {
        var n: nat :| MessageId(e - 1, n) in sys.got;
        assert MessageId(e - 1, n) in now.got;
      }
    } else {
      forall id | id in now.got ensures id.epoch % 2 == 0 {
      }
    }
  }

  // ---- following a new chain ----

  function NextEpoch(epochs: seq<Epoch>, newPriv: Priv): Epoch
    requires |epochs| > 0
  {
    var last := epochs[|epochs| - 1];
    Epoch(last.RootAfter(), last.priv, newPriv, [])
  }

  lemma GrowHistory(epochs: seq<Epoch>, newPriv: Priv)
    requires |epochs| > 0 && HistoryOk(epochs) && !Known(epochs, newPriv)
    ensures HistoryOk(epochs + [NextEpoch(epochs, newPriv)]) && Evolves(epochs, epochs + [NextEpoch(epochs, newPriv)])
  {
    var later := epochs + [NextEpoch(epochs, newPriv)];
    forall e, n | 0 <= e < |later| && 0 <= n < |later[e].sent| ensures PacketOk(later, e, n) {
      assert PacketOk(epochs, e, n);
    }
    forall e | 0 <= e < |later| - 1 ensures Linked(later, e) {
      assert e + 1 < |epochs| ==> Linked(epochs, e);
    }
  }

  /** Messages of the newest chain tell how long the receiver's current chain became; storing the
      rest of that chain leaves exactly its undelivered keys. */
  lemma KeepOldChain(epochs: seq<Epoch>, got: set<MessageId>, s: Session, q: nat)
    requires HistoryOk(epochs) && Receiving(epochs, got, s, q) && q + 2 < |epochs|
    requires |s.skipped| + (|epochs[q].sent| - s.recvNum) <= MAX_SKIPPED_KEYS
    ensures var r := SkipOldChain(s, |epochs[q].sent|);
      && r.result.Ok? && SameSending(s, r.state)
      && StoreExact(epochs, got, r.state.skipped, q + 2, 0) && StoreTheirs(epochs, r.state.skipped, q + 2)
      && |r.state.skipped| <= |s.skipped| + (|epochs[q].sent| - s.recvNum)
  {
    var until := |epochs[q].sent|;
    SkipCurrent(epochs, got, s, q, until);
    NextChainStart(epochs, got, SkipTo(s, Pub(epochs[q].priv), until).state.skipped, q);
  }

  /** Having derived all of chain q is being at the start of the sender's next chain. */
  lemma NextChainStart(epochs: seq<Epoch>, got: set<MessageId>, skipped: map<Slot<Pub>, Key>, q: nat)
    requires q + 2 < |epochs| && StoreExact(epochs, got, skipped, q, |epochs[q].sent|) && StoreTheirs(epochs, skipped, q)
    ensures StoreExact(epochs, got, skipped, q + 2, 0) && StoreTheirs(epochs, skipped, q + 2)
  {
    var next := q + 2;
    forall f: nat, n: nat | f < |epochs| && f % 2 == next % 2 ensures SlotExact(epochs, got, skipped, next, 0, f, n) {
      assert SlotExact(epochs, got, skipped, q, |epochs[q].sent|, f, n);
    }
  }

  lemma ExchangeCommutes(a: Priv, b: Priv)
    ensures Exchange(a, Pub(b)) == Exchange(b, Pub(a))
  {}

  /** The ratchet step lands the owner of chain e in chain e + 2, receiving chain e + 1. */
  lemma RatchetLands(epochs: seq<Epoch>, got: set<MessageId>, t: Session, e: nat, newPriv: Priv)
    requires HistoryOk(epochs) && |epochs| == e + 2 && Sending(epochs, t, e) && !Known(epochs, newPriv)
    requires forall id :: id in got ==> id.epoch < |epochs|
    requires StoreExact(epochs, got, t.skipped, e + 1, 0) && StoreTheirs(epochs, t.skipped, e + 1)
    ensures var r := DhRatchet(t, Pub(epochs[e + 1].priv), newPriv);
      var later := epochs + [NextEpoch(epochs, newPriv)];
      r.result.Ok? && r.state.skipped == t.skipped && r.state.recvNum == 0
      && Sending(later, r.state, e + 2) && Receiving(later, got, r.state, e + 1)
  {
    assert Linked(epochs, e);
    ExchangeCommutes(epochs[e].priv, epochs[e + 1].priv);
    GrowHistory(epochs, newPriv);
    var later, q := epochs + [NextEpoch(epochs, newPriv)], e + 1;
    forall f: nat, n: nat | f < |later| && f % 2 == q % 2 ensures SlotExact(later, got, t.skipped, q, 0, f, n) {
      assert SlotExact(epochs, got, t.skipped, q, 0, f, n);
    }
    TheirsFrame(epochs, t.skipped, later, q);
  }

  /** First delivery from the newest chain to the party still one chain behind it. */
  lemma ReceiveNewest(sys: System, p: Party, e: nat, n: nat, newPriv: Priv)
    requires HistoryOk(sys.epochs) && |sys.epochs| == e + 2 && InEpoch(sys, p, e) && !Known(sys.epochs, newPriv)
    requires forall id :: id in sys.got ==> id.epoch < |sys.epochs|
    requires n < |sys.epochs[e + 1].sent|
    requires Fits(SessionOf(sys, p), sys.epochs[e + 1].sent[n].header)
    ensures var packet := sys.epochs[e + 1].sent[n];
      var r := Decrypt(SessionOf(sys, p), packet.header, packet.body, newPriv);
      var later := sys.epochs + [NextEpoch(sys.epochs, newPriv)];
      && r.result == Ok(packet.plaintext)
      && SessionOf(sys, p).dhRemote != Some(packet.header.pub)
      && Sending(later, r.state, e + 2) && Receiving(later, sys.got + {MessageId(e + 1, n)}, r.state, e + 1)
  {
    var s, packet := SessionOf(sys, p), sys.epochs[e + 1].sent[n];
    assert PacketOk(sys.epochs, e + 1, n);
    RemoteIsOlder(sys, p, e);
    OldChainKept(sys, p, e);
    var kept := SkipOldChain(s, packet.header.prevLen).state;
    ReceiveAfterRatchet(sys.epochs, sys.got, kept, e, n, newPriv);
    DecryptOnNewKey(s, packet.header, packet.body, newPriv);
  }

  /** Decrypting under a changed key is keeping the old chain, ratcheting, and receiving. */
  lemma DecryptOnNewKey(s: Session, header: Header, c: Ciphertext, newPriv: Priv)
    requires header.Header? && s.dhRemote != Some(header.pub)
    requires SkipOldChain(s, header.prevLen).result.Ok?
    requires DhRatchet(SkipOldChain(s, header.prevLen).state, header.pub, newPriv).result.Ok?
    ensures Decrypt(s, header, c, newPriv)
         == Receive(DhRatchet(SkipOldChain(s, header.prevLen).state, header.pub, newPriv).state, header, c)
  {}

  /** Message n of the newest chain, received right after the ratchet step onto it. */
  lemma ReceiveAfterRatchet(epochs: seq<Epoch>, got: set<MessageId>, t: Session, e: nat, n: nat, newPriv: Priv)
    requires HistoryOk(epochs) && |epochs| == e + 2 && Sending(epochs, t, e) && !Known(epochs, newPriv)
    requires forall id :: id in got ==> id.epoch < |epochs|
    requires StoreExact(epochs, got, t.skipped, e + 1, 0) && StoreTheirs(epochs, t.skipped, e + 1)
    requires n < |epochs[e + 1].sent| && |t.skipped| + n <= MAX_SKIPPED_KEYS
    ensures PacketOk(epochs, e + 1, n)
    ensures var packet := epochs[e + 1].sent[n];
      var moved := DhRatchet(t, packet.header.pub, newPriv);
      var r := Receive(moved.state, packet.header, packet.body);
      var later := epochs + [NextEpoch(epochs, newPriv)];
      && moved.result.Ok? && r.result == Ok(packet.plaintext)
      && Sending(later, r.state, e + 2) && Receiving(later, got + {MessageId(e + 1, n)}, r.state, e + 1)
  {
    var later := epochs + [NextEpoch(epochs, newPriv)];
    assert PacketOk(epochs, e + 1, n);
    assert SlotExact(epochs, got, t.skipped, e + 1, 0, e + 1, n);
    RatchetLands(epochs, got, t, e, newPriv);
    GrowHistory(epochs, newPriv);
    ReceiveCurrent(later, got, DhRatchet(t, Pub(epochs[e + 1].priv), newPriv).state, e + 1, n);
  }

  lemma RemoteIsOlder(sys: System, p: Party, e: nat)
    requires HistoryOk(sys.epochs) && |sys.epochs| == e + 2 && InEpoch(sys, p, e)
    ensures SessionOf(sys, p).dhRemote != Some(Pub(sys.epochs[e + 1].priv))
  {
    if e > 0 {
      assert sys.epochs[e - 1].priv != sys.epochs[e + 1].priv;
    }
  }

  lemma OldChainKept(sys: System, p: Party, e: nat)
    requires HistoryOk(sys.epochs) && |sys.epochs| == e + 2 && InEpoch(sys, p, e)
    requires forall id :: id in sys.got ==> id.epoch < |sys.epochs|
    requires var s := SessionOf(sys, p);
      |s.skipped| + (if s.recvKey.Some? then SkipCount(s, PrevLen(sys.epochs, e + 1)) else 0) <= MAX_SKIPPED_KEYS
    ensures var s := SessionOf(sys, p);
      var r := SkipOldChain(s, PrevLen(sys.epochs, e + 1));
      && r.result.Ok? && SameSending(s, r.state)
      && StoreExact(sys.epochs, sys.got, r.state.skipped, e + 1, 0) && StoreTheirs(sys.epochs, r.state.skipped, e + 1)
      && |r.state.skipped| <= |s.skipped| + (if s.recvKey.Some? then SkipCount(s, PrevLen(sys.epochs, e + 1)) else 0)
  {
    var s, q := SessionOf(sys, p), e + 1;
    if e > 0 {
      KeepOldChain(sys.epochs, sys.got, s, e - 1);
    } else {
      forall f: nat, n: nat | f < |sys.epochs| && f % 2 == q % 2
        ensures SlotExact(sys.epochs, sys.got, s.skipped, q, 0, f, n)
      {
        assert MessageId(f, n).epoch % 2 == 1;
      }
    }
  }

  // ---- chains a session can no longer read ----

  lemma {:induction false} BaseOfSteps(ck: Key, n: nat)
    ensures Base(Steps(ck, n)) == Base(ck)
  {
    if n > 0 {
      BaseOfSteps(ck, n - 1);
    }
  }

  /** Skipping, whether it succeeds, evicts or fails, touches only the receiving chain and the store. */
  lemma {:induction false} SkipToShape(s: Session, pub: Pub, until: nat, slot: Slot<Pub>)
    requires s.recvKey.Some?
    ensures var t := SkipTo(s, pub, until).state;
      && t == s.(recvKey := t.recvKey, recvNum := t.recvNum, skipped := t.skipped, order := t.order)
      && t.recvKey.Some? && Base(t.recvKey.value) == Base(s.recvKey.value)
      && (slot.pub != pub && slot in t.skipped ==> slot in s.skipped)
    decreases until - s.recvNum
  {
    if s.recvNum < until && CanEvict(s) {
      var next := ShapeRound(s, pub, until, slot);
      SkipToShape(next, pub, until, slot);
    }
  }

  lemma ShapeRound(s: Session, pub: Pub, until: nat, slot: Slot<Pub>) returns (next: Session)
    requires s.recvKey.Some? && s.recvNum < until && CanEvict(s)
    ensures SkipTo(s, pub, until) == SkipTo(next, pub, until) && next.recvNum == s.recvNum + 1
    ensures next == s.(recvKey := next.recvKey, recvNum := next.recvNum, skipped := next.skipped, order := next.order)
    ensures next.recvKey.Some? && Base(next.recvKey.value) == Base(s.recvKey.value)
    ensures slot.pub != pub && slot in next.skipped ==> slot in s.skipped
  {
    SkipStep(s, pub, until);
    next := Stepped(s, pub);
  }

  lemma SkipOldChainShape(s: Session, until: nat, slot: Slot<Pub>)
    ensures var t := SkipOldChain(s, until).state;
      && t == s.(recvKey := t.recvKey, recvNum := t.recvNum, skipped := t.skipped, order := t.order)
      && (Some(slot.pub) != s.dhRemote && slot in t.skipped ==> slot in s.skipped)
  {
    if s.recvKey.Some? && s.dhRemote.Some? {
      SkipToShape(s, s.dhRemote.value, until, slot);
    }
  }

  /** A session whose root has grown past a chain's root, and which holds no stored key for a message
      of that chain, cannot open the message once it has to ratchet to get at it. */
  lemma OutgrownChainUnreadable(t: Session, epoch: Epoch, n: nat, packet: Packet, newPriv: Priv)
    requires packet.header.Header? && packet.header.pub == Pub(epoch.priv) && packet.header.msgNum == n
    requires packet.body.Sealed? && packet.body.key == epoch.KeyOf(n)
    requires t.dhRemote != Some(Pub(epoch.priv)) && Slot(Pub(epoch.priv), n) !in t.skipped
    requires t.rootKey.Some? ==> Depth(t.rootKey.value) > Depth(epoch.root)
    ensures Decrypt(t, packet.header, packet.body, newPriv).result.Err?
  {
    var slot := Slot(Pub(epoch.priv), n);
    SkipOldChainShape(t, packet.header.prevLen, slot);
    var followed := FollowRemote(t, packet.header, newPriv);
    if followed.result.Ok? {
      var u := followed.state;
      assert u.recvKey.Some? && Base(u.recvKey.value).rk == t.rootKey.value;
      SkipToShape(u, packet.header.pub, n, slot);
      BaseOfSteps(epoch.Chain(), n);
    }
  }

  lemma {:induction false} RootsGrow(epochs: seq<Epoch>, e: nat, f: nat)
    requires HistoryOk(epochs) && e <= f < |epochs|
    ensures Depth(epochs[f].root) == Depth(epochs[e].root) + (f - e)
  {
    if e < f {
      RootsGrow(epochs, e, f - 1);
      assert Linked(epochs, f - 1);
    }
  }

  lemma KeysDiffer(epochs: seq<Epoch>, f: nat, g: nat)
    requires HistoryOk(epochs) && f < |epochs| && g < |epochs| && f != g
    ensures epochs[f].priv != epochs[g].priv
  {
    var low, high := if f < g then f else g, if f < g then g else f;
    assert epochs[low].priv != epochs[high].priv;
  }

  lemma NotTheirs(epochs: seq<Epoch>, f: nat, q: nat)
    requires HistoryOk(epochs) && f < |epochs| && f % 2 != q % 2
    ensures !Theirs(epochs, epochs[f].priv, q)
  {
    forall g: nat | g < |epochs| && g % 2 == q % 2 ensures epochs[g].priv != epochs[f].priv {
      KeysDiffer(epochs, f, g);
    }
  }

  /** A party in chain e cannot be made to read its own messages of chain e or an older one of its own. */
  lemma OwnMessageUnreadable(sys: System, p: Party, e: nat, f: nat, n: nat, newPriv: Priv)
    requires HistoryOk(sys.epochs) && InEpoch(sys, p, e) && f <= e && f % 2 == e % 2 && n < |sys.epochs[f].sent|
    ensures var packet := sys.epochs[f].sent[n];
      Decrypt(SessionOf(sys, p), packet.header, packet.body, newPriv).result.Err?
  {
    var s, epoch := SessionOf(sys, p), sys.epochs[f];
    assert PacketOk(sys.epochs, f, n);
    RootsGrow(sys.epochs, f, e);
    if e > 0 {
      KeysDiffer(sys.epochs, f, e - 1);
      NotTheirs(sys.epochs, f, e - 1);
    }
    OutgrownChainUnreadable(s, epoch, n, epoch.sent[n], newPriv);
  }
}
