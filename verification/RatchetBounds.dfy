/** How large the store of skipped keys can become. */
module RatchetBounds {
  import opened Basics
  import opened RatchetKeys
  import opened Ratchet
  import opened RatchetEviction
  import opened EvictionQueue

  // ---- sessions loaded from storage before every operation ----

  /** Every queued slot is stored and queued once, so an eviction always frees an entry. */
  ghost predicate QueueExact(skipped: map<Slot<Pub>, Key>, order: seq<Slot<Pub>>) {
    && (forall x :: x in order ==> x in skipped)
    && (forall i, j :: 0 <= i < j < |order| ==> order[i] != order[j])
  }

  ghost predicate Capped(s: Session) {
    |s.skipped| <= MAX_SKIPPED_KEYS && QueueExact(s.skipped, s.order)
  }

  lemma AppendExact(skipped: map<Slot<Pub>, Key>, order: seq<Slot<Pub>>, slot: Slot<Pub>, mk: Key)
    requires QueueExact(skipped, order) && slot !in order
    ensures QueueExact(skipped[slot := mk], order + [slot]) && |skipped[slot := mk]| <= |skipped| + 1
  {
    assert skipped[slot := mk].Keys == skipped.Keys + {slot};
  }

  lemma EvictExact(skipped: map<Slot<Pub>, Key>, order: seq<Slot<Pub>>)
    requires QueueExact(skipped, order) && order != []
    ensures QueueExact(skipped - {order[0]}, order[1..]) && |skipped - {order[0]}| == |skipped| - 1
  {
    assert order[0] in order;
    assert (skipped - {order[0]}).Keys == skipped.Keys - {order[0]};
    forall x | x in order[1..] ensures x in skipped - {order[0]} {
      assert x in order;
    }
  }

  lemma StoreCapped(s: Session, slot: Slot<Pub>, mk: Key)
    requires Capped(s) && slot !in s.order
    ensures Capped(StoreSkipped(s, slot, mk).state)
    ensures forall x :: x in StoreSkipped(s, slot, mk).state.order ==> x in s.order || x == slot
  {
    if |s.skipped| < MAX_SKIPPED_KEYS {
      AppendExact(s.skipped, s.order, slot, mk);
    } else if s.order != [] {
      EvictExact(s.skipped, s.order);
      AppendExact(s.skipped - {s.order[0]}, s.order[1..], slot, mk);
    }
  }

  /** No queued slot will be stored again by skipping on under `pub`. */
  ghost predicate QueueBehind(s: Session, pub: Pub) {
    forall x :: x in s.order ==> x.pub != pub || x.num < s.recvNum
  }

  lemma {:induction false} SkipToCapped(s: Session, pub: Pub, until: nat)
    requires Capped(s) && QueueBehind(s, pub)
    ensures Capped(SkipTo(s, pub, until).state)
    ensures forall x :: x in SkipTo(s, pub, until).state.order ==> x in s.order || x.pub == pub
    decreases until - s.recvNum
  {
    if s.recvNum < until && s.recvKey.Some? && CanEvict(s) {
      var next := CappedRound(s, pub, until);
      SkipToCapped(next, pub, until);
    }
  }

  lemma CappedRound(s: Session, pub: Pub, until: nat) returns (next: Session)
    requires Capped(s) && QueueBehind(s, pub) && s.recvNum < until && s.recvKey.Some? && CanEvict(s)
    ensures Capped(next) && QueueBehind(next, pub) && next.recvNum == s.recvNum + 1
    ensures SkipTo(s, pub, until) == SkipTo(next, pub, until)
    ensures forall x :: x in next.order ==> x in s.order || x.pub == pub
  {
    var ck := s.recvKey.value;
    StoreCapped(s.(recvKey := Some(NextChain(ck))), Slot(pub, s.recvNum), MessageKey(ck));
    SkipStep(s, pub, until);
    next := Stepped(s, pub);
  }

  lemma FollowCapped(s: Session, header: Header, newPriv: Priv)
    requires header.Header? && |s.skipped| <= MAX_SKIPPED_KEYS && s.order == []
    ensures Capped(FollowRemote(s, header, newPriv).state)
    ensures FollowRemote(s, header, newPriv).result.Ok? ==>
      forall x :: x in FollowRemote(s, header, newPriv).state.order ==> x.pub != header.pub
  {
    if s.dhRemote.Some? && s.dhRemote != Some(header.pub) {
      SkipToCapped(s, s.dhRemote.value, header.prevLen);
    }
  }

  lemma ReceiveCapped(s: Session, header: Header, c: Ciphertext)
    requires header.Header? && Capped(s)
    requires forall x :: x in s.order ==> x.pub != header.pub
    ensures |Receive(s, header, c).state.skipped| <= MAX_SKIPPED_KEYS
  {
    var slot := Slot(header.pub, header.msgNum);
    if slot in s.skipped {
      assert (s.skipped - {slot}).Keys == s.skipped.Keys - {slot};
    } else {
      SkipToCapped(s, header.pub, header.msgNum);
    }
  }

  /** One decryption of a freshly loaded state keeps the cap, whatever it is given and even if it fails. */
  lemma DecryptCapped(s: Session, header: Header, c: Ciphertext, newPriv: Priv)
    requires |s.skipped| <= MAX_SKIPPED_KEYS && s.order == []
    ensures |Decrypt(s, header, c, newPriv).state.skipped| <= MAX_SKIPPED_KEYS
  {
    if header.Header? {
      FollowCapped(s, header, newPriv);
      if FollowRemote(s, header, newPriv).result.Ok? {
        ReceiveCapped(FollowRemote(s, header, newPriv).state, header, c);
      }
    }
  }

  /** Load (which forgets the queue), operate, save. */
  function LoadStepSave(s: Session, ops: seq<Op>): Session
    decreases |ops|
  {
    if ops == [] then s else LoadStepSave(After(s.(order := []), ops[0]), ops[1..])
  }

  /** Over every load-step-save run the store never exceeds the cap. */
  lemma {:induction false} StoreNeverOverCap(s: Session, ops: seq<Op>)
    requires |s.skipped| <= MAX_SKIPPED_KEYS
    ensures |LoadStepSave(s, ops).skipped| <= MAX_SKIPPED_KEYS
    decreases |ops|
  {
    if ops != [] {
      var loaded, op := s.(order := []), ops[0];
      if op.DecryptOp? {
        DecryptCapped(loaded, op.header, op.body, op.newPriv);
      }
      StoreNeverOverCap(After(loaded, op), ops[1..]);
    }
  }

  // ---- long-lived objects ----

  /** The store, less the entry the queue's head names when the cap is reached. */
  function AfterEviction(s: Session): map<Slot<Pub>, Key> {
    if |s.skipped| < MAX_SKIPPED_KEYS || s.order == [] then s.skipped else s.skipped - {s.order[0]}
  }

  /** 1 if storing under the slot overwrites an entry. */
  function Overwrites(s: Session, slot: Slot<Pub>): nat {
    if slot in AfterEviction(s) then 1 else 0
  }

  /** How many entries skipping ahead overwrites. */
  function SkipOverwrites(s: Session, pub: Pub, until: nat): nat
    decreases until - s.recvNum
  {
    if s.recvNum >= until || s.recvKey.None? then 0
    else
      var ck, slot := s.recvKey.value, Slot(pub, s.recvNum);
      var stored := StoreSkipped(s.(recvKey := Some(NextChain(ck))), slot, MessageKey(ck));
      if stored.result.Err? then 0
      else Overwrites(s, slot) + SkipOverwrites(stored.state.(recvNum := s.recvNum + 1), pub, until)
  }

  function FollowOverwrites(s: Session, header: Header): nat
    requires header.Header?
  {
    if s.dhRemote == Some(header.pub) || s.recvKey.None? || s.dhRemote.None?
       || header.prevLen - s.recvNum > MAX_SKIP_DISTANCE then 0
    else SkipOverwrites(s, s.dhRemote.value, header.prevLen)
  }

  function ReceiveLost(s: Session, header: Header): nat
    requires header.Header?
  {
    if Slot(header.pub, header.msgNum) in s.skipped then 1
    else if header.msgNum - s.recvNum > MAX_SKIP_DISTANCE then 0
    else SkipOverwrites(s, header.pub, header.msgNum)
  }

  /** Keys consumed from the store or overwritten in it by one operation. */
  function Lost(s: Session, op: Op): nat {
    if op.EncryptOp? || op.header.ShortHeader? then 0
    else
      var followed := FollowRemote(s, op.header, op.newPriv);
      FollowOverwrites(s, op.header) + (if followed.result.Err? then 0 else ReceiveLost(followed.state, op.header))
  }

  /** Stored slots are queued, and the queue exceeds the cap only by keys lost so far. */
  ghost predicate Queued(keys: set<Slot<Pub>>, order: seq<Slot<Pub>>, lost: nat) {
    && (forall x :: x in keys ==> x in order)
    && |order| <= |keys| + lost
    && |order| <= MAX_SKIPPED_KEYS + lost
  }

  ghost predicate Bounded(s: Session, lost: nat) {
    Queued(s.skipped.Keys, s.order, lost)
  }

  lemma AppendQueued(keys: set<Slot<Pub>>, order: seq<Slot<Pub>>, lost: nat, slot: Slot<Pub>)
    requires Queued(keys, order, lost) && |keys| < MAX_SKIPPED_KEYS
    ensures Queued(keys + {slot}, order + [slot], lost + if slot in keys then 1 else 0)
  {
    assert slot in keys ==> keys + {slot} == keys;
  }

  lemma EvictQueued(keys: set<Slot<Pub>>, order: seq<Slot<Pub>>, lost: nat, slot: Slot<Pub>)
    requires Queued(keys, order, lost) && order != []
    ensures var left := keys - {order[0]};
      Queued(left + {slot}, order[1..] + [slot], lost + if slot in left then 1 else 0)
  {
    var left := keys - {order[0]};
    assert |left| >= |keys| - 1;
    assert slot in left ==> left + {slot} == left;
    assert order == [order[0]] + order[1..];
  }

  lemma {:induction false} QueuedCount(keys: set<Slot<Pub>>, order: seq<Slot<Pub>>)
    requires forall x :: x in keys ==> x in order
    ensures |keys| <= |order|
    decreases |order|
  {
    if order == [] {
      assert keys == {};
    } else {
      QueuedCount(keys - {order[0]}, order[1..]);
      assert |keys - {order[0]}| >= |keys| - 1;
    }
  }

  /** The bound itself; and at the cap the queue is never empty. */
  lemma BoundedSize(s: Session, lost: nat)
    requires Bounded(s, lost)
    ensures |s.skipped| <= MAX_SKIPPED_KEYS + lost
    ensures |s.skipped| >= MAX_SKIPPED_KEYS ==> s.order != []
  {
    QueuedCount(s.skipped.Keys, s.order);
    assert |s.skipped.Keys| == |s.skipped|;
  }

  lemma StoreBounded(s: Session, lost: nat, slot: Slot<Pub>, mk: Key)
    requires Bounded(s, lost)
    ensures StoreSkipped(s, slot, mk).result.Ok?
    ensures Bounded(StoreSkipped(s, slot, mk).state, lost + Overwrites(s, slot))
  {
    BoundedSize(s, lost);
    var t, left := StoreSkipped(s, slot, mk).state, AfterEviction(s);
    assert t.skipped.Keys == left.Keys + {slot};
    if |s.skipped| >= MAX_SKIPPED_KEYS {
      assert left.Keys == s.skipped.Keys - {s.order[0]};
      EvictQueued(s.skipped.Keys, s.order, lost, slot);
    } else {
      AppendQueued(s.skipped.Keys, s.order, lost, slot);
    }
  }

  /** One round of the skip, as the next session and the entries lost by it. */
  lemma SkipRound(s: Session, lost: nat, pub: Pub, until: nat) returns (next: Session, more: nat)
    requires Bounded(s, lost) && s.recvNum < until && s.recvKey.Some?
    ensures Bounded(next, lost + more) && next.recvNum == s.recvNum + 1
    ensures SkipTo(s, pub, until) == SkipTo(next, pub, until)
    ensures SkipOverwrites(s, pub, until) == more + SkipOverwrites(next, pub, until)
  {
    var ck, slot := s.recvKey.value, Slot(pub, s.recvNum);
    var moved := s.(recvKey := Some(NextChain(ck)));
    StoreBounded(moved, lost, slot, MessageKey(ck));
    next, more := StoreSkipped(moved, slot, MessageKey(ck)).state.(recvNum := s.recvNum + 1), Overwrites(s, slot);
    assert Overwrites(moved, slot) == more;
  }

  lemma {:induction false} SkipToBounded(s: Session, lost: nat, pub: Pub, until: nat)
    requires Bounded(s, lost)
    ensures Bounded(SkipTo(s, pub, until).state, lost + SkipOverwrites(s, pub, until))
    ensures SkipTo(s, pub, until).result != Err(EvictionFromEmptyQueue)
    decreases until - s.recvNum
  {
    if s.recvNum < until && s.recvKey.Some? {
      var next, more := SkipRound(s, lost, pub, until);
      SkipToBounded(next, lost + more, pub, until);
    }
  }

  lemma FollowBounded(s: Session, lost: nat, header: Header, newPriv: Priv)
    requires header.Header? && Bounded(s, lost)
    ensures Bounded(FollowRemote(s, header, newPriv).state, lost + FollowOverwrites(s, header))
    ensures FollowRemote(s, header, newPriv).result != Err(EvictionFromEmptyQueue)
  {
    if s.dhRemote.Some? {
      SkipToBounded(s, lost, s.dhRemote.value, header.prevLen);
    }
  }

  lemma ConsumeBounded(s: Session, lost: nat, slot: Slot<Pub>)
    requires Bounded(s, lost) && slot in s.skipped
    ensures Bounded(s.(skipped := s.skipped - {slot}), lost + 1)
  {
    assert (s.skipped - {slot}).Keys == s.skipped.Keys - {slot};
  }

  lemma AdvanceBounded(s: Session, lost: nat, ck: Key)
    requires Bounded(s, lost)
    ensures Bounded(s.(recvKey := Some(ck), recvNum := s.recvNum + 1), lost)
  {}

  lemma ReceiveBounded(s: Session, lost: nat, header: Header, c: Ciphertext)
    requires header.Header? && Bounded(s, lost)
    ensures Bounded(Receive(s, header, c).state, lost + ReceiveLost(s, header))
    ensures Receive(s, header, c).result != Err(EvictionFromEmptyQueue)
  {
    var slot := Slot(header.pub, header.msgNum);
    if slot in s.skipped {
      ConsumeBounded(s, lost, slot);
    } else if header.msgNum - s.recvNum <= MAX_SKIP_DISTANCE {
      SkipToBounded(s, lost, header.pub, header.msgNum);
      var t := SkipTo(s, header.pub, header.msgNum).state;
      if t.recvKey.Some? {
        AdvanceBounded(t, lost + ReceiveLost(s, header), NextChain(t.recvKey.value));
      }
    }
  }

  /** One operation on a long-lived object, including one that raises. */
  lemma StepBounded(s: Session, lost: nat, op: Op)
    requires Bounded(s, lost)
    ensures Bounded(After(s, op), lost + Lost(s, op))
    ensures op.DecryptOp? ==> Decrypt(s, op.header, op.body, op.newPriv).result != Err(EvictionFromEmptyQueue)
  {
    if op.DecryptOp? && op.header.Header? {
      FollowBounded(s, lost, op.header, op.newPriv);
      var followed := FollowRemote(s, op.header, op.newPriv);
      if followed.result.Ok? {
        ReceiveBounded(followed.state, lost + FollowOverwrites(s, op.header), op.header, op.body);
      }
    }
  }

  function Continue(s: Session, ops: seq<Op>): Session
    decreases |ops|
  {
    if ops == [] then s else Continue(After(s, ops[0]), ops[1..])
  }

  function TotalLost(s: Session, ops: seq<Op>): nat
    decreases |ops|
  {
    if ops == [] then 0 else Lost(s, ops[0]) + TotalLost(After(s, ops[0]), ops[1..])
  }

  lemma {:induction false} RunBounded(s: Session, lost: nat, ops: seq<Op>)
    requires Bounded(s, lost)
    ensures Bounded(Continue(s, ops), lost + TotalLost(s, ops))
    decreases |ops|
  {
    if ops != [] {
      StepBounded(s, lost, ops[0]);
      RunBounded(After(s, ops[0]), lost + Lost(s, ops[0]), ops[1..]);
    }
  }

  /** A long-lived session holds at most the cap plus the keys consumed or overwritten so far, and
      never fails for want of something to evict. */
  lemma LongLivedBound(s: Session, ops: seq<Op>, op: Op)
    requires s.skipped == map[] && s.order == []
    ensures |Continue(s, ops).skipped| <= MAX_SKIPPED_KEYS + TotalLost(s, ops)
    ensures op.DecryptOp? ==>
      Decrypt(Continue(s, ops), op.header, op.body, op.newPriv).result != Err(EvictionFromEmptyQueue)
  {
    RunBounded(s, 0, ops);
    BoundedSize(Continue(s, ops), TotalLost(s, ops));
    StepBounded(Continue(s, ops), TotalLost(s, ops), op);
  }

  // ---- exactly when the cap is exceeded ----

  /** A store pushes past the cap exactly when the queue's head names a key that is no longer there. */
  lemma StoreExceedsCap(s: Session, slot: Slot<Pub>, mk: Key)
    requires |s.skipped| <= MAX_SKIPPED_KEYS
    ensures |StoreSkipped(s, slot, mk).state.skipped| > MAX_SKIPPED_KEYS
       <==> |s.skipped| == MAX_SKIPPED_KEYS && s.order != [] && s.order[0] !in s.skipped && slot !in s.skipped
  {
    var t := StoreSkipped(s, slot, mk).state;
    if |s.skipped| < MAX_SKIPPED_KEYS {
      assert t.skipped.Keys == s.skipped.Keys + {slot};
    } else if s.order != [] {
      var left := s.skipped.Keys - {s.order[0]};
      assert t.skipped.Keys == left + {slot};
      assert s.order[0] !in s.skipped ==> left == s.skipped.Keys;
    }
  }

  /** The session has received message `last` of its first chain and stored all keys before it. */
  ghost predicate Filled(s: Session, pub: Pub, last: nat) {
    && s.dhRemote == Some(pub) && s.recvKey.Some? && s.recvNum == last + 1
    && FreeAhead(s, pub) && |s.skipped| == last && s.order == Slots(pub, 0, last)
    && (last > 0 ==> Slot(pub, 0) in s.skipped)
  }

  /** A skip from an empty store keeps everything it stores. */
  lemma SkipFills(s: Session, pub: Pub, last: nat)
    requires s.recvKey.Some? && s.recvNum == 0 && s.skipped == map[] && s.order == []
    requires last <= MAX_SKIPPED_KEYS
    ensures var t := SkipTo(s, pub, last);
      && t.result.Ok? && t.state.recvKey.Some? && t.state.recvNum == last
      && |t.state.skipped| == last && t.state.order == Slots(pub, 0, last)
  {
    SkipIsPutAll(s, pub, last);
    SlotsApart(s, pub, last);
    PutAllRoom(MAX_SKIPPED_KEYS, ShelfOf(s), Slots(pub, 0, last));
    ShelfSize(SkipTo(s, pub, last).state);
  }

  lemma SkipFillsSlots(s: Session, pub: Pub, last: nat)
    requires s.recvKey.Some? && s.recvNum == 0 && s.skipped == map[] && s.order == []
    requires last <= MAX_SKIPPED_KEYS
    ensures var t := SkipTo(s, pub, last).state;
      (forall x: Slot<Pub> :: x in t.skipped || x in t.order ==> x.num < last) && (last > 0 ==> Slot(pub, 0) in t.skipped)
  {
    var q, slots, t := ShelfOf(s), Slots(pub, 0, last), SkipTo(s, pub, last).state;
    SkipIsPutAll(s, pub, last);
    SlotsMembers(pub, 0, last);
    forall x: Slot<Pub> | x.num >= last ensures x !in ShelfOf(t).keys && x !in ShelfOf(t).order {
      PutAllAddsOwn(MAX_SKIPPED_KEYS, q, slots, x);
    }
    if last > 0 {
      SlotsApart(s, pub, last);
      FirstEnds(MAX_SKIPPED_KEYS, q, slots);
      assert Slot(pub, 0) in ShelfOf(t).keys;
    }
  }

  /** Receiving the message with number `last` first. */
  lemma FillStore(s: Session, pub: Pub, last: nat, newPriv: Priv) returns (op: Op)
    requires s.dhRemote == Some(pub) && s.recvKey.Some? && s.recvNum == 0 && s.skipped == map[] && s.order == []
    requires last <= MAX_SKIPPED_KEYS && last <= MAX_SKIP_DISTANCE
    ensures Works(s, op) && op.newPriv == newPriv && Filled(After(s, op), pub, last)
  {
    var header := Header(last, 0, pub, []);
    SkipFills(s, pub, last);
    SkipFillsSlots(s, pub, last);
    SkipKeepsSending(s, pub, last);
    op := DecryptOp(header, Readable(s, header), newPriv);
    assert Decrypt(s, header, op.body, newPriv) == TakeNext(SkipTo(s, pub, last).state, header, op.body);
  }

  /** The queue's head names a key already used. */
  ghost predicate Stale(s: Session, pub: Pub, size: nat) {
    && s.dhRemote == Some(pub) && s.recvKey.Some? && FreeAhead(s, pub) && |s.skipped| == size
    && s.order != [] && s.order[0] !in s.skipped && s.order[0] == Slot(pub, 0) && s.recvNum > 0
  }

  /** Using the oldest stored key leaves its slot at the head of the queue. */
  lemma UseOldest(s: Session, pub: Pub, last: nat, newPriv: Priv) returns (op: Op)
    requires Filled(s, pub, last) && last > 0
    ensures Works(s, op) && Stale(After(s, op), pub, last - 1)
  {
    var header, slot := Header(0, 0, pub, []), Slot(pub, 0);
    op := DecryptOp(header, Sealed(s.skipped[slot], 0, [], header), newPriv);
    assert (s.skipped - {slot}).Keys == s.skipped.Keys - {slot};
  }

  /** Two more skipped keys then go past the cap. */
  lemma SkipTwoMore(s: Session, pub: Pub, newPriv: Priv) returns (op: Op)
    requires Stale(s, pub, MAX_SKIPPED_KEYS - 1)
    ensures Works(s, op) && |After(s, op).skipped| == MAX_SKIPPED_KEYS + 1
  {
    var header := Header(s.recvNum + 2, 0, pub, []);
    op := DecryptOp(header, Readable(s, header), newPriv);
    TwoMoreKeys(s, pub);
    ReadableReceived(s, header);
  }

  lemma TwoMoreKeys(s: Session, pub: Pub)
    requires Stale(s, pub, MAX_SKIPPED_KEYS - 1)
    ensures var r := SkipTo(s, pub, s.recvNum + 2);
      r.result.Ok? && r.state.recvKey.Some? && |r.state.skipped| == MAX_SKIPPED_KEYS + 1
  {
    var a, b, q := Slot(pub, s.recvNum), Slot(pub, s.recvNum + 1), ShelfOf(s);
    SkipIsPutAll(s, pub, s.recvNum + 2);
    ShelfSize(s);
    ShelfSize(SkipTo(s, pub, s.recvNum + 2).state);
    TwoPuts(MAX_SKIPPED_KEYS, q, a, b);
    assert Slots(pub, s.recvNum, s.recvNum + 2) == [a, b];
  }

  /** At one below the cap with a stale head, two new slots make one above it. */
  lemma TwoPuts<T>(cap: nat, q: Shelf<T>, a: T, b: T)
    requires |q.keys| + 1 == cap && q.order != [] && q.order[0] !in q.keys && q.order[0] != a
    requires a !in q.keys && b !in q.keys && a != b
    ensures |PutAll(cap, q, [a, b]).keys| == cap + 1
  {
    var next := Put(cap, q, a);
    assert next == Shelf(q.keys + {a}, q.order + [a]);
    assert next.order[0] == q.order[0] && q.order[0] !in next.keys;
    var last := Put(cap, next, b);
    assert last.keys == next.keys - {next.order[0]} + {b} == next.keys + {b};
    assert [a, b][1..] == [b] && [b][1..] == [];
    assert PutAll(cap, next, [b]) == PutAll(cap, last, []);
    assert PutAll(cap, q, [a, b]) == PutAll(cap, next, [b]);
  }

  lemma OverflowRun(s: Session, pub: Pub, newPriv: Priv) returns (a: Op, b: Op, c: Op)
    requires s.dhRemote == Some(pub) && s.recvKey.Some? && s.recvNum == 0 && s.skipped == map[] && s.order == []
    ensures Works(s, a) && Works(After(s, a), b) && Works(After(After(s, a), b), c)
    ensures |After(After(After(s, a), b), c).skipped| == MAX_SKIPPED_KEYS + 1
  {
    a := FillStore(s, pub, MAX_SKIPPED_KEYS, newPriv);
    b := UseOldest(After(s, a), pub, MAX_SKIPPED_KEYS, newPriv);
    c := SkipTwoMore(After(After(s, a), b), pub, newPriv);
  }

  /** A long-lived session really gets past the cap: receive message 1000 first, then message 0, then skip
      two more. All three are accepted. */
  lemma LongLivedExceeds(pub: Pub, secret: Key, priv: Priv, newPriv: Priv) returns (a: Op, b: Op, c: Op)
    ensures var s := InitBob(pub, secret, priv);
      && Works(s, a) && Works(After(s, a), b) && Works(After(After(s, a), b), c)
      && |Continue(s, [a, b, c]).skipped| == MAX_SKIPPED_KEYS + 1
  {
    var s := InitBob(pub, secret, priv);
    a, b, c := OverflowRun(s, pub, newPriv);
    ThreeSteps(s, a, b, c);
  }

  lemma ThreeSteps(s: Session, a: Op, b: Op, c: Op)
    ensures Continue(s, [a, b, c]) == After(After(After(s, a), b), c)
  {
    assert [a, b, c][1..] == [b, c] && [b, c][1..] == [c] && [c][1..] == [];
    assert Continue(After(After(s, a), b), [c]) == Continue(After(After(After(s, a), b), c), []);
    assert Continue(After(s, a), [b, c]) == Continue(After(After(s, a), b), [c]);
  }

  predicate Works(s: Session, op: Op) {
    op.DecryptOp? && Decrypt(s, op.header, op.body, op.newPriv).result.Ok?
  }

  // ---- why load-step-save runs stay within it ----

  /** Skipping raises for want of something to evict exactly when its first store finds the store full
      and the queue empty. */
  lemma {:induction false} SkipRaises(s: Session, pub: Pub, until: nat)
    ensures SkipTo(s, pub, until).result == Err(EvictionFromEmptyQueue)
       <==> s.recvNum < until && s.recvKey.Some? && |s.skipped| >= MAX_SKIPPED_KEYS && s.order == []
    ensures SkipTo(s, pub, until).result.Ok? && s.recvNum < until ==> SkipTo(s, pub, until).state.order != []
    decreases until - s.recvNum
  {
    if s.recvNum < until && s.recvKey.Some? && CanEvict(s) {
      SkipStep(s, pub, until);
      SkipRaises(Stepped(s, pub), pub, until);
    }
  }

  /** Decrypting this header gets as far as storing a key. */
  predicate StoresKey(s: Session, header: Header) {
    header.Header? &&
    var slot := Slot(header.pub, header.msgNum);
    if s.dhRemote == Some(header.pub) then
      s.recvKey.Some? && slot !in s.skipped && 0 < SkipCount(s, header.msgNum) <= MAX_SKIP_DISTANCE
    else if OldKeys(s, header) > 0 then OldKeys(s, header) <= MAX_SKIP_DISTANCE
    else Able(s) && slot !in s.skipped && 0 < header.msgNum <= MAX_SKIP_DISTANCE
  }

  /** A freshly loaded session raises, instead of evicting, exactly when its store is full and a key has to
      be stored: that is how it stays within the cap. */
  lemma LoadedRaises(s: Session, header: Header, c: Ciphertext, newPriv: Priv)
    requires s.order == [] && |s.skipped| <= MAX_SKIPPED_KEYS
    ensures Decrypt(s, header, c, newPriv).result == Err(EvictionFromEmptyQueue)
       <==> |s.skipped| == MAX_SKIPPED_KEYS && StoresKey(s, header)
  {
    if header.Header? {
      if s.dhRemote == Some(header.pub) {
        SkipRaises(s, header.pub, header.msgNum);
        ReceiveRaises(s, header, c);
      } else if OldKeys(s, header) > 0 {
        LoadedRaisesKeeping(s, header, c, newPriv);
      } else {
        var u := DhRatchet(s, header.pub, newPriv).state;
        FollowDirectly(s, header, newPriv);
        RatchetKeepsStore(s, header.pub, newPriv);
        SkipRaises(u, header.pub, header.msgNum);
        ReceiveRaises(u, header, c);
      }
    }
  }

  lemma LoadedRaisesKeeping(s: Session, header: Header, c: Ciphertext, newPriv: Priv)
    requires s.order == [] && |s.skipped| <= MAX_SKIPPED_KEYS
    requires header.Header? && s.dhRemote != Some(header.pub) && OldKeys(s, header) > 0
    ensures Decrypt(s, header, c, newPriv).result == Err(EvictionFromEmptyQueue)
       <==> |s.skipped| == MAX_SKIPPED_KEYS && OldKeys(s, header) <= MAX_SKIP_DISTANCE
  {
    var pub := s.dhRemote.value;
    SkipRaises(s, pub, header.prevLen);
    var kept := SkipTo(s, pub, header.prevLen).state;
    RatchetKeepsStore(kept, header.pub, newPriv);
    var u := DhRatchet(kept, header.pub, newPriv).state;
    SkipRaises(u, header.pub, header.msgNum);
    ReceiveRaises(u, header, c);
  }
}
