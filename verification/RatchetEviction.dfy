/** A store with a cap and an eviction queue, for slots of any type: what survives a series of stores. */
module EvictionQueue {

  /** The occupied slots, and the queue in which they were stored. */
  datatype Shelf<!T> = Shelf(keys: set<T>, order: seq<T>)

  predicate CanPut<T>(cap: nat, q: Shelf<T>) {
    |q.keys| < cap || q.order != []
  }

  /** At the cap, drop whatever the head of the queue names; then store and queue the slot. */
  function Put<T>(cap: nat, q: Shelf<T>, x: T): Shelf<T>
    requires CanPut(cap, q)
  {
    if |q.keys| < cap then Shelf(q.keys + {x}, q.order + [x])
    else Shelf(q.keys - {q.order[0]} + {x}, q.order[1..] + [x])
  }

  function PutAll<T>(cap: nat, q: Shelf<T>, xs: seq<T>): Shelf<T>
    requires CanPut(cap, q)
    decreases |xs|
  {
    if xs == [] then q else PutAll(cap, Put(cap, q, xs[0]), xs[1..])
  }

  /** The slots are different from each other and from all stored or queued ones. */
  ghost predicate Apart<T>(q: Shelf<T>, xs: seq<T>) {
    && (forall x :: x in xs ==> x !in q.keys && x !in q.order)
    && (forall i, j :: 0 <= i < j < |xs| ==> xs[i] != xs[j])
  }

  /** How many of r stores under free slots evict, starting from n stored keys. */
  function Evictions(cap: nat, n: nat, r: nat): (e: nat)
    ensures e <= r
  {
    if n >= cap then r else if n + r > cap then n + r - cap else 0
  }

  lemma ApartStep<T>(cap: nat, q: Shelf<T>, xs: seq<T>)
    requires CanPut(cap, q) && Apart(q, xs) && xs != []
    ensures Apart(Put(cap, q, xs[0]), xs[1..])
  {
    assert xs == [xs[0]] + xs[1..];
  }

  lemma SizeStep<T>(cap: nat, q: Shelf<T>, x: T)
    requires CanPut(cap, q) && x !in q.keys
    ensures var n := |Put(cap, q, x).keys|;
      if |q.keys| < cap then n == |q.keys| + 1 else n >= cap
  {
    if |q.keys| >= cap {
      assert |q.keys - {q.order[0]}| >= |q.keys| - 1;
    }
  }

  lemma {:induction false} PutAllAppend<T>(cap: nat, q: Shelf<T>, xs: seq<T>, ys: seq<T>)
    requires CanPut(cap, q)
    ensures CanPut(cap, PutAll(cap, q, xs)) && PutAll(cap, q, xs + ys) == PutAll(cap, PutAll(cap, q, xs), ys)
    decreases |xs|
  {
    if xs == [] {
      assert xs + ys == ys;
    } else {
      assert (xs + ys)[1..] == xs[1..] + ys;
      PutAllAppend(cap, Put(cap, q, xs[0]), xs[1..], ys);
    }
  }

  /** With room for all, everything is stored and queued and nothing evicted. */
  lemma {:induction false} PutAllRoom<T>(cap: nat, q: Shelf<T>, xs: seq<T>)
    requires CanPut(cap, q) && Apart(q, xs) && |q.keys| + |xs| <= cap
    ensures PutAll(cap, q, xs).order == q.order + xs
    ensures |PutAll(cap, q, xs).keys| == |q.keys| + |xs|
    decreases |xs|
  {
    if xs != [] {
      var next := Put(cap, q, xs[0]);
      ApartStep(cap, q, xs);
      SizeStep(cap, q, xs[0]);
      PutAllRoom(cap, next, xs[1..]);
      assert q.order + xs == q.order + [xs[0]] + xs[1..];
    }
  }

  /** Nothing gets in that is not stored. */
  lemma {:induction false} PutAllAddsOwn<T>(cap: nat, q: Shelf<T>, xs: seq<T>, x: T)
    requires CanPut(cap, q) && x !in xs
    ensures var r := PutAll(cap, q, xs); (x in r.keys ==> x in q.keys) && (x in r.order ==> x in q.order)
    decreases |xs|
  {
    if xs != [] {
      assert xs == [xs[0]] + xs[1..];
      PutAllAddsOwn(cap, Put(cap, q, xs[0]), xs[1..], x);
    }
  }

  /** x is stored and first occurs at place j of the queue. */
  ghost predicate QueuedAt<T>(q: Shelf<T>, x: T, j: int) {
    0 <= j < |q.order| && q.order[j] == x && x !in q.order[..j] && x in q.keys
  }

  /** Where a key at place d ends up after e evictions. */
  ghost predicate Ends<T>(q: Shelf<T>, x: T, d: nat, e: nat) {
    (e <= d ==> QueuedAt(q, x, d - e)) && (e > d ==> x !in q.keys)
  }

  /** One store moves a queued key up if it evicts, and removes the one at the head. */
  lemma QueuedStep<T>(cap: nat, q: Shelf<T>, y: T, x: T, j: nat)
    requires CanPut(cap, q) && QueuedAt(q, x, j) && x != y
    ensures Ends(Put(cap, q, y), x, j, if |q.keys| < cap then 0 else 1)
  {
    var order := Put(cap, q, y).order;
    if |q.keys| < cap {
      assert order[..j] == q.order[..j];
    } else if j > 0 {
      assert order[..j - 1] == q.order[1..j];
      assert q.order[..j] == [q.order[0]] + q.order[1..j];
    }
  }

  lemma EvictionsStep<T>(cap: nat, q: Shelf<T>, xs: seq<T>)
    requires CanPut(cap, q) && Apart(q, xs) && xs != []
    ensures Evictions(cap, |q.keys|, |xs|)
         == Evictions(cap, |Put(cap, q, xs[0]).keys|, |xs| - 1) + if |q.keys| < cap then 0 else 1
  {
    SizeStep(cap, q, xs[0]);
  }

  /** A queued key survives exactly when fewer evictions happen than its place, and moves up by them. */
  lemma {:induction false} QueuedEnds<T>(cap: nat, q: Shelf<T>, xs: seq<T>, x: T, j: nat)
    requires CanPut(cap, q) && Apart(q, xs) && QueuedAt(q, x, j)
    ensures Ends(PutAll(cap, q, xs), x, j, Evictions(cap, |q.keys|, |xs|))
    decreases |xs|
  {
    if xs != [] {
      var next, rest := Put(cap, q, xs[0]), xs[1..];
      assert xs == [xs[0]] + rest;
      ApartStep(cap, q, xs);
      EvictionsStep(cap, q, xs);
      QueuedStep(cap, q, xs[0], x, j);
      if |q.keys| < cap {
        QueuedEnds(cap, next, rest, x, j);
      } else if j > 0 {
        QueuedEnds(cap, next, rest, x, j - 1);
      } else {
        PutAllAddsOwn(cap, next, rest, x);
      }
    }
  }

  /** The slot just stored is last in the queue. */
  lemma Joins<T>(cap: nat, q: Shelf<T>, x: T)
    requires CanPut(cap, q) && x !in q.order
    ensures var r := Put(cap, q, x);
      QueuedAt(r, x, |r.order| - 1) && |r.order| == |q.order| + if |q.keys| < cap then 1 else 0
  {
    var r := Put(cap, q, x);
    assert r.order[..|r.order| - 1] == if |q.keys| < cap then q.order else q.order[1..];
  }

  lemma EndsShift<T>(q: Shelf<T>, x: T, d: nat, e: nat, d': nat, e': nat)
    requires Ends(q, x, d, e) && d - e == d' - e'
    ensures Ends(q, x, d', e')
  {}

  /** The first key stored has its place right behind the queue it joins. */
  lemma FirstEnds<T>(cap: nat, q: Shelf<T>, xs: seq<T>)
    requires CanPut(cap, q) && Apart(q, xs) && xs != []
    ensures Ends(PutAll(cap, q, xs), xs[0], |q.order|, Evictions(cap, |q.keys|, |xs|))
  {
    var next, rest, x := Put(cap, q, xs[0]), xs[1..], xs[0];
    ApartStep(cap, q, xs);
    EvictionsStep(cap, q, xs);
    Joins(cap, q, x);
    QueuedEnds(cap, next, rest, x, |next.order| - 1);
    EndsShift(PutAll(cap, next, rest), x, |next.order| - 1, Evictions(cap, |next.keys|, |rest|),
              |q.order|, Evictions(cap, |q.keys|, |xs|));
  }

  /** And the others behind it. */
  lemma {:induction false} StoredEnds<T>(cap: nat, q: Shelf<T>, xs: seq<T>, i: nat)
    requires CanPut(cap, q) && Apart(q, xs) && i < |xs|
    ensures Ends(PutAll(cap, q, xs), xs[i], |q.order| + i, Evictions(cap, |q.keys|, |xs|))
    decreases |xs|
  {
    if i == 0 {
      FirstEnds(cap, q, xs);
    } else {
      var next, rest := Put(cap, q, xs[0]), xs[1..];
      ApartStep(cap, q, xs);
      EvictionsStep(cap, q, xs);
      StoredEnds(cap, next, rest, i - 1);
      EndsShift(PutAll(cap, next, rest), xs[i], |next.order| + (i - 1), Evictions(cap, |next.keys|, |rest|),
                |q.order| + i, Evictions(cap, |q.keys|, |xs|));
    }
  }

  /** Past the cap, the key in the place of the last eviction is kept behind a queue and lost without one. */
  lemma QueueDecides<T>(cap: nat, q: Shelf<T>, xs: seq<T>) returns (x: T)
    requires |q.keys| < cap && q.order != [] && Apart(q, xs) && |q.keys| + |xs| > cap
    ensures x in PutAll(cap, q, xs).keys && x !in PutAll(cap, Shelf(q.keys, []), xs).keys
  {
    var i := |q.keys| + |xs| - cap - 1;
    StoredEnds(cap, q, xs, i);
    StoredEnds(cap, Shelf(q.keys, []), xs, i);
    x := xs[i];
  }
}

/** What the eviction queue changes. Storing and loading a session forgets its queue; here it is decided
    exactly when that makes a difference. */
module RatchetEviction {
  import opened Basics
  import opened RatchetKeys
  import opened Ratchet
  import opened EvictionQueue

  /** The same session up to the eviction queue. */
  predicate Same(a: Session, b: Session) {
    a.(order := []) == b.(order := [])
  }

  /** The same outcome up to the eviction queue; what a failed operation leaves behind does not matter. */
  predicate Agree<T(==)>(a: Effect<T>, b: Effect<T>) {
    a.result == b.result && (a.result.Ok? ==> Same(a.state, b.state))
  }

  function Forgot(s: Session): Session {
    s.(order := [])
  }

  // ---- skipping as a series of stores ----

  function ShelfOf(s: Session): Shelf<Slot<Pub>> {
    Shelf(s.skipped.Keys, s.order)
  }

  function Slots(pub: Pub, lo: nat, hi: nat): (slots: seq<Slot<Pub>>)
    ensures |slots| == if lo < hi then hi - lo else 0
    decreases hi - lo
  {
    if lo >= hi then [] else [Slot(pub, lo)] + Slots(pub, lo + 1, hi)
  }

  lemma {:induction false} SlotsAt(pub: Pub, lo: nat, hi: nat, i: nat)
    requires lo + i < hi
    ensures Slots(pub, lo, hi)[i] == Slot(pub, lo + i)
    decreases hi - lo
  {
    if i > 0 {
      SlotsAt(pub, lo + 1, hi, i - 1);
    }
  }

  lemma SlotsMembers(pub: Pub, lo: nat, hi: nat)
    ensures forall x :: x in Slots(pub, lo, hi) <==> x.pub == pub && lo <= x.num < hi
    ensures forall i, j :: 0 <= i < j < |Slots(pub, lo, hi)| ==> Slots(pub, lo, hi)[i] != Slots(pub, lo, hi)[j]
  {
    var slots := Slots(pub, lo, hi);
    forall i: nat | i < |slots| ensures slots[i] == Slot(pub, lo + i) {
      SlotsAt(pub, lo, hi, i);
    }
    forall x: Slot<Pub> | x.pub == pub && lo <= x.num < hi ensures x in slots {
      assert slots[x.num - lo] == x;
    }
  }

  /** An eviction finds something in the queue. */
  predicate CanEvict(s: Session) {
    |s.skipped| < MAX_SKIPPED_KEYS || s.order != []
  }

  lemma ShelfSize(s: Session)
    ensures |ShelfOf(s).keys| == |s.skipped| && (CanPut(MAX_SKIPPED_KEYS, ShelfOf(s)) <==> CanEvict(s))
  {
    assert |s.skipped.Keys| == |s.skipped|;
  }

  /** The session after storing one key of the receiving chain. */
  function Stepped(s: Session, pub: Pub): Session
    requires s.recvKey.Some?
  {
    var ck := s.recvKey.value;
    StoreSkipped(s.(recvKey := Some(NextChain(ck))), Slot(pub, s.recvNum), MessageKey(ck)).state.(recvNum := s.recvNum + 1)
  }

  lemma SkipStep(s: Session, pub: Pub, until: nat)
    requires s.recvKey.Some? && CanEvict(s) && s.recvNum < until
    ensures SkipTo(s, pub, until) == SkipTo(Stepped(s, pub), pub, until)
  {}

  /** A step adds the current message key under its slot and leaves other stored keys as they are or drops them. */
  lemma StepStores(s: Session, pub: Pub)
    requires s.recvKey.Some? && CanEvict(s)
    ensures var t, ck := Stepped(s, pub), s.recvKey.value;
      && t == s.(recvKey := Some(NextChain(ck)), recvNum := s.recvNum + 1, skipped := t.skipped, order := t.order)
      && forall x :: x in t.skipped ==>
           (x == Slot(pub, s.recvNum) && t.skipped[x] == MessageKey(ck)) || (x in s.skipped && t.skipped[x] == s.skipped[x])
  {}

  lemma StepIsPut(s: Session, pub: Pub)
    requires s.recvKey.Some? && CanEvict(s)
    ensures var t := Stepped(s, pub);
      && t.recvKey.Some? && t.recvNum == s.recvNum + 1 && CanEvict(t) && CanPut(MAX_SKIPPED_KEYS, ShelfOf(s))
      && ShelfOf(t) == Put(MAX_SKIPPED_KEYS, ShelfOf(s), Slot(pub, s.recvNum))
  {
    ShelfSize(s);
    var t, slot := Stepped(s, pub), Slot(pub, s.recvNum);
    assert t.order != [];
    if |s.skipped| < MAX_SKIPPED_KEYS {
      assert t.skipped.Keys == s.skipped.Keys + {slot};
    } else {
      assert t.skipped.Keys == s.skipped.Keys - {s.order[0]} + {slot};
    }
  }

  /** Skipping ahead stores the slots in between, in order. */
  lemma {:induction false} SkipIsPutAll(s: Session, pub: Pub, until: nat)
    requires s.recvKey.Some? && CanEvict(s) && s.recvNum <= until
    ensures CanPut(MAX_SKIPPED_KEYS, ShelfOf(s))
    ensures var r := SkipTo(s, pub, until);
      && r.result.Ok? && r.state.recvKey.Some? && r.state.recvNum == until && CanEvict(r.state)
      && ShelfOf(r.state) == PutAll(MAX_SKIPPED_KEYS, ShelfOf(s), Slots(pub, s.recvNum, until))
    decreases until - s.recvNum
  {
    ShelfSize(s);
    if s.recvNum < until {
      SkipStep(s, pub, until);
      StepIsPut(s, pub);
      SkipIsPutAll(Stepped(s, pub), pub, until);
      assert Slots(pub, s.recvNum, until)[1..] == Slots(pub, s.recvNum + 1, until);
    }
  }

  /** No slot at or after the receiving position under `pub` is stored or queued. */
  ghost predicate FreeAhead(s: Session, pub: Pub) {
    forall x: Slot<Pub> :: (x in s.skipped || x in s.order) && x.pub == pub ==> x.num < s.recvNum
  }

  ghost predicate NothingUnder(s: Session, pub: Pub) {
    forall x: Slot<Pub> :: x in s.skipped || x in s.order ==> x.pub != pub
  }

  lemma SlotsApart(s: Session, pub: Pub, until: nat)
    requires FreeAhead(s, pub)
    ensures Apart(ShelfOf(s), Slots(pub, s.recvNum, until))
  {
    SlotsMembers(pub, s.recvNum, until);
  }

  lemma BothApart(s: Session, pub: Pub, until: nat, next: Pub, to: nat)
    requires FreeAhead(s, pub) && NothingUnder(s, next) && next != pub
    ensures Apart(ShelfOf(s), Slots(pub, s.recvNum, until) + Slots(next, 0, to))
  {
    SlotsMembers(pub, s.recvNum, until);
    SlotsMembers(next, 0, to);
  }

  // ---- when forgetting the queue makes no difference ----

  /** With room for the skipped keys, skipping does not look at the queue. */
  lemma {:induction false} SkipAgrees(s: Session, t: Session, pub: Pub, until: nat)
    requires Same(s, t)
    requires SkipCount(s, until) == 0 || |s.skipped| + SkipCount(s, until) <= MAX_SKIPPED_KEYS
    ensures var a, b := SkipTo(s, pub, until), SkipTo(t, pub, until);
      a.result == b.result && Same(a.state, b.state) && |a.state.skipped| <= |s.skipped| + SkipCount(s, until)
    decreases until - s.recvNum
  {
    if s.recvNum < until && s.recvKey.Some? {
      var slot := Slot(pub, s.recvNum);
      assert Same(Stepped(s, pub), Stepped(t, pub));
      assert Stepped(s, pub).skipped.Keys == s.skipped.Keys + {slot};
      assert |s.skipped.Keys + {slot}| <= |s.skipped.Keys| + 1;
      SkipAgrees(Stepped(s, pub), Stepped(t, pub), pub, until);
    }
  }

  /** Decrypting stores nothing, or has room for all it stores. */
  predicate Room(s: Session, header: Header) {
    header.ShortHeader? || Needed(s, header) == 0 || Fits(s, header)
  }

  lemma FollowAgrees(s: Session, t: Session, header: Header, newPriv: Priv)
    requires Same(s, t) && header.Header? && Room(s, header)
    ensures var a, b := FollowRemote(s, header, newPriv), FollowRemote(t, header, newPriv);
      && a.result == b.result && Same(a.state, b.state)
      && (a.result.Ok? ==> Needed(a.state, header) == 0 || |a.state.skipped| + SkipCount(a.state, header.msgNum) <= MAX_SKIPPED_KEYS)
  {
    if s.dhRemote != Some(header.pub) && s.dhRemote.Some? && s.recvKey.Some? {
      SkipAgrees(s, t, s.dhRemote.value, header.prevLen);
    }
  }

  lemma ReceiveAgrees(s: Session, t: Session, header: Header, c: Ciphertext)
    requires Same(s, t) && header.Header?
    requires SkipCount(s, header.msgNum) == 0 || |s.skipped| + SkipCount(s, header.msgNum) <= MAX_SKIPPED_KEYS
    ensures Receive(s, header, c).result == Receive(t, header, c).result
    ensures Same(Receive(s, header, c).state, Receive(t, header, c).state)
  {
    SkipAgrees(s, t, header.pub, header.msgNum);
  }

  /** With room for its skipped keys a decryption does not look at the queue, in any state, even when it fails. */
  lemma DecryptAgrees(s: Session, t: Session, header: Header, c: Ciphertext, newPriv: Priv)
    requires Same(s, t) && Room(s, header)
    ensures Decrypt(s, header, c, newPriv).result == Decrypt(t, header, c, newPriv).result
    ensures Same(Decrypt(s, header, c, newPriv).state, Decrypt(t, header, c, newPriv).state)
  {
    if header.Header? {
      FollowAgrees(s, t, header, newPriv);
      var a, b := FollowRemote(s, header, newPriv), FollowRemote(t, header, newPriv);
      if a.result.Ok? {
        ReceiveAgrees(a.state, b.state, header, c);
      }
    }
  }

  lemma EncryptAgrees(s: Session, t: Session, plaintext: Bytes, nonce: nat, newPriv: Priv)
    requires Same(s, t)
    ensures Encrypt(s, plaintext, nonce, newPriv).result == Encrypt(t, plaintext, nonce, newPriv).result
    ensures Same(Encrypt(s, plaintext, nonce, newPriv).state, Encrypt(t, plaintext, nonce, newPriv).state)
  {}

  // ---- when it does ----

  lemma FullStoreRaises(t: Session, pub: Pub, until: nat)
    requires t.recvKey.Some? && t.recvNum < until && |t.skipped| >= MAX_SKIPPED_KEYS && t.order == []
    ensures SkipTo(t, pub, until).result == Err(EvictionFromEmptyQueue)
  {}

  /** Skipping past the cap from a store that is not full: some key is kept with the queue and lost without. */
  lemma SkipDiffers(s: Session, pub: Pub, until: nat) returns (x: Slot<Pub>)
    requires s.recvKey.Some? && FreeAhead(s, pub) && s.order != [] && |s.skipped| < MAX_SKIPPED_KEYS
    requires s.recvNum < until && |s.skipped| + (until - s.recvNum) > MAX_SKIPPED_KEYS
    ensures x in SkipTo(s, pub, until).state.skipped && x !in SkipTo(Forgot(s), pub, until).state.skipped
  {
    SkipIsPutAll(s, pub, until);
    SkipIsPutAll(Forgot(s), pub, until);
    SlotsApart(s, pub, until);
    ShelfSize(s);
    x := QueueDecides(MAX_SKIPPED_KEYS, ShelfOf(s), Slots(pub, s.recvNum, until));
    assert x in ShelfOf(SkipTo(s, pub, until).state).keys;
    assert x !in ShelfOf(SkipTo(Forgot(s), pub, until).state).keys;
  }

  /** u is at the start of a new chain, with the store and queue left by keeping the rest of the old one. */
  ghost predicate Between(s: Session, pub: Pub, until: nat, u: Session) {
    && u.recvKey.Some? && u.recvNum == 0 && CanEvict(u)
    && CanPut(MAX_SKIPPED_KEYS, ShelfOf(s))
    && ShelfOf(u) == PutAll(MAX_SKIPPED_KEYS, ShelfOf(s), Slots(pub, s.recvNum, until))
  }

  /** After storing under `pub` still nothing is stored or queued under the next key. */
  lemma BetweenFree(s: Session, pub: Pub, until: nat, next: Pub, u: Session)
    requires Between(s, pub, until, u) && NothingUnder(s, next) && next != pub
    ensures NothingUnder(u, next)
  {
    SlotsMembers(pub, s.recvNum, until);
    forall x: Slot<Pub> | x.pub == next ensures x !in ShelfOf(u).keys && x !in ShelfOf(u).order {
      PutAllAddsOwn(MAX_SKIPPED_KEYS, ShelfOf(s), Slots(pub, s.recvNum, until), x);
    }
  }

  /** Both skips together are one series of stores. */
  lemma BothSkips(s: Session, pub: Pub, until: nat, next: Pub, u: Session, to: nat)
    requires Between(s, pub, until, u)
    ensures SkipTo(u, next, to).result.Ok?
    ensures ShelfOf(SkipTo(u, next, to).state)
         == PutAll(MAX_SKIPPED_KEYS, ShelfOf(s), Slots(pub, s.recvNum, until) + Slots(next, 0, to))
  {
    SkipIsPutAll(u, next, to);
    PutAllAppend(MAX_SKIPPED_KEYS, ShelfOf(s), Slots(pub, s.recvNum, until), Slots(next, 0, to));
  }

  /** Skipping past the cap on the old and the new chain together, from a store that is not full. */
  lemma BothSkipsDiffer(s: Session, pub: Pub, until: nat, next: Pub, u: Session, w: Session, to: nat) returns (x: Slot<Pub>)
    requires FreeAhead(s, pub) && NothingUnder(s, next) && next != pub && s.order != [] && |s.skipped| < MAX_SKIPPED_KEYS
    requires Between(s, pub, until, u) && Between(Forgot(s), pub, until, w)
    requires s.recvNum <= until && |s.skipped| + (until - s.recvNum) + to > MAX_SKIPPED_KEYS
    ensures x in SkipTo(u, next, to).state.skipped && x !in SkipTo(w, next, to).state.skipped
  {
    BothSkips(s, pub, until, next, u, to);
    BothSkips(Forgot(s), pub, until, next, w, to);
    BothApart(s, pub, until, next, to);
    ShelfSize(s);
    x := QueueDecides(MAX_SKIPPED_KEYS, ShelfOf(s), Slots(pub, s.recvNum, until) + Slots(next, 0, to));
    assert x in ShelfOf(SkipTo(u, next, to).state).keys;
    assert x !in ShelfOf(SkipTo(w, next, to).state).keys;
  }

  // ---- the exact condition for a decryption ----

  /** What decrypting this header does is the same with and without the queue: it stores nothing, or has
      room for all it stores, or fails for a reason that does not depend on the queue. */
  predicate QueueIrrelevant(s: Session, header: Header) {
    header.ShortHeader? ||
    if s.dhRemote == Some(header.pub) then
      var k := SkipCount(s, header.msgNum);
      s.recvKey.None? || k > MAX_SKIP_DISTANCE || k == 0 || |s.skipped| + k <= MAX_SKIPPED_KEYS
    else
      var k := OldKeys(s, header);
      || k > MAX_SKIP_DISTANCE
      || if s.dhPriv.None? || s.rootKey.None? || header.msgNum > MAX_SKIP_DISTANCE
         then k == 0 || |s.skipped| < MAX_SKIPPED_KEYS
         else k + header.msgNum == 0 || |s.skipped| + k + header.msgNum <= MAX_SKIPPED_KEYS
  }

  /** No slot the decryption would store under is stored or queued already. */
  ghost predicate Clean(s: Session, header: Header) {
    && header.Header?
    && (s.dhRemote.Some? ==> FreeAhead(s, s.dhRemote.value))
    && (s.dhRemote != Some(header.pub) ==> NothingUnder(s, header.pub))
  }

  /** The ciphertext the session would open once it has skipped to the message. */
  function Readable(u: Session, header: Header): Ciphertext
    requires header.Header?
  {
    var t := SkipTo(u, header.pub, header.msgNum).state;
    Sealed(MessageKey(if t.recvKey.Some? then t.recvKey.value else SharedSecret(0)), 0, [], header)
  }

  /** Receiving that ciphertext succeeds when skipping does, and leaves the store the skip left. */
  lemma ReadableReceived(u: Session, header: Header)
    requires header.Header? && Slot(header.pub, header.msgNum) !in u.skipped && SkipCount(u, header.msgNum) <= MAX_SKIP_DISTANCE
    requires var r := SkipTo(u, header.pub, header.msgNum); r.result.Ok? && r.state.recvKey.Some?
    ensures var r := Receive(u, header, Readable(u, header));
      r.result.Ok? && r.state.skipped == SkipTo(u, header.pub, header.msgNum).state.skipped
  {}

  /** A key that one skip leaves in the store and the other does not tells the two apart. */
  lemma ReceiveDiffers(u: Session, w: Session, header: Header, x: Slot<Pub>)
    requires header.Header? && SkipCount(u, header.msgNum) <= MAX_SKIP_DISTANCE
    requires Slot(header.pub, header.msgNum) !in u.skipped && Slot(header.pub, header.msgNum) !in w.skipped
    requires var r := SkipTo(u, header.pub, header.msgNum); r.result.Ok? && r.state.recvKey.Some? && x in r.state.skipped
    requires x !in SkipTo(w, header.pub, header.msgNum).state.skipped
    ensures !Agree(Receive(u, header, Readable(u, header)), Receive(w, header, Readable(u, header)))
  {
    ReadableReceived(u, header);
    StoreLeft(w, header, Readable(u, header), x);
  }

  /** A key a skip did not leave in the store is not there after receiving either. */
  lemma StoreLeft(w: Session, header: Header, c: Ciphertext, x: Slot<Pub>)
    requires header.Header? && Slot(header.pub, header.msgNum) !in w.skipped
    requires x !in SkipTo(w, header.pub, header.msgNum).state.skipped
    ensures Receive(w, header, c).result.Ok? ==> x !in Receive(w, header, c).state.skipped
  {
    var t := SkipTo(w, header.pub, header.msgNum).state;
    if Receive(w, header, c).result.Ok? {
      assert Receive(w, header, c) == TakeNext(t, header, c);
      TakeKeepsStore(t, header, c);
    }
  }

  lemma TakeKeepsStore(t: Session, header: Header, c: Ciphertext)
    ensures TakeNext(t, header, c).state.skipped == t.skipped
  {}

  /** Receiving past the cap on one chain. */
  lemma ChainDiffers(u: Session, header: Header)
    requires header.Header? && u.recvKey.Some? && FreeAhead(u, header.pub) && u.order != []
    requires 0 < SkipCount(u, header.msgNum) <= MAX_SKIP_DISTANCE
    requires |u.skipped| + SkipCount(u, header.msgNum) > MAX_SKIPPED_KEYS
    ensures !Agree(Receive(u, header, Readable(u, header)), Receive(Forgot(u), header, Readable(u, header)))
  {
    SkipIsPutAll(u, header.pub, header.msgNum);
    if |u.skipped| >= MAX_SKIPPED_KEYS {
      FullStoreRaises(Forgot(u), header.pub, header.msgNum);
      ReadableReceived(u, header);
    } else {
      var x := SkipDiffers(u, header.pub, header.msgNum);
      ReceiveDiffers(u, Forgot(u), header, x);
    }
  }

  predicate Able(s: Session) {
    s.dhPriv.Some? && s.rootKey.Some?
  }

  lemma {:induction false} SkipKeepsSending(s: Session, pub: Pub, until: nat)
    ensures var t := SkipTo(s, pub, until).state;
      t == s.(recvKey := t.recvKey, recvNum := t.recvNum, skipped := t.skipped, order := t.order)
    decreases until - s.recvNum
  {
    if s.recvNum < until && s.recvKey.Some? && CanEvict(s) {
      var next := SendingRound(s, pub, until);
      SkipKeepsSending(next, pub, until);
    }
  }

  lemma SendingRound(s: Session, pub: Pub, until: nat) returns (next: Session)
    requires s.recvKey.Some? && s.recvNum < until && CanEvict(s)
    ensures SkipTo(s, pub, until) == SkipTo(next, pub, until) && next.recvNum == s.recvNum + 1
    ensures next == s.(recvKey := next.recvKey, recvNum := next.recvNum, skipped := next.skipped, order := next.order)
  {
    SkipStep(s, pub, until);
    StepStores(s, pub);
    next := Stepped(s, pub);
  }

  /** Following a new key with nothing to keep. */
  lemma FollowDirectly(s: Session, header: Header, newPriv: Priv)
    requires header.Header? && s.dhRemote != Some(header.pub) && OldKeys(s, header) == 0
    ensures FollowRemote(s, header, newPriv) == DhRatchet(s, header.pub, newPriv)
    ensures Able(s) ==> var u := DhRatchet(s, header.pub, newPriv).state;
      u.recvKey.Some? && u.recvNum == 0 && u.skipped == s.skipped && u.order == s.order
      && DhRatchet(Forgot(s), header.pub, newPriv).state == Forgot(u)
  {}

  /** Following a new key with keys of the old chain to keep. */
  lemma FollowKeeps(s: Session, header: Header, newPriv: Priv)
    requires header.Header? && s.dhRemote.Some? && s.dhRemote != Some(header.pub)
    requires 0 < OldKeys(s, header) <= MAX_SKIP_DISTANCE && CanEvict(s)
    ensures var r := FollowRemote(s, header, newPriv);
      if Able(s) then r.result.Ok? && Between(s, s.dhRemote.value, header.prevLen, r.state)
      else r.result == Err(NotInitialized)
  {
    var pub := s.dhRemote.value;
    SkipIsPutAll(s, pub, header.prevLen);
    SkipKeepsSending(s, pub, header.prevLen);
    RatchetKeepsStore(SkipTo(s, pub, header.prevLen).state, header.pub, newPriv);
  }

  lemma RatchetKeepsStore(s: Session, remote: Pub, newPriv: Priv)
    ensures var r := DhRatchet(s, remote, newPriv);
      && r.state.skipped == s.skipped && r.state.order == s.order
      && if Able(s) then r.result.Ok? && r.state.recvKey.Some? && r.state.recvNum == 0 else r.result == Err(NotInitialized)
  {}

  /** A full store with an empty queue raises while keeping the old chain. */
  lemma FullStoreFollow(s: Session, header: Header, newPriv: Priv)
    requires header.Header? && s.dhRemote.Some? && s.dhRemote != Some(header.pub) && s.order == []
    requires 0 < OldKeys(s, header) <= MAX_SKIP_DISTANCE && |s.skipped| >= MAX_SKIPPED_KEYS
    ensures FollowRemote(s, header, newPriv).result == Err(EvictionFromEmptyQueue)
  {
    FullStoreRaises(s, s.dhRemote.value, header.prevLen);
  }

  /** Receiving raises for want of something to evict exactly when it gets as far as a skip that does. */
  lemma ReceiveRaises(u: Session, header: Header, c: Ciphertext)
    requires header.Header?
    ensures Receive(u, header, c).result == Err(EvictionFromEmptyQueue) <==>
      && Slot(header.pub, header.msgNum) !in u.skipped && SkipCount(u, header.msgNum) <= MAX_SKIP_DISTANCE
      && SkipTo(u, header.pub, header.msgNum).result == Err(EvictionFromEmptyQueue)
  {}

  /** No error of receiving is about the queue once it has something in it. */
  lemma ReceiveNotRaising(u: Session, header: Header, c: Ciphertext)
    requires header.Header? && u.recvKey.Some? && CanEvict(u)
    ensures Receive(u, header, c).result != Err(EvictionFromEmptyQueue)
  {
    ReceiveRaises(u, header, c);
    if u.recvNum <= header.msgNum {
      SkipIsPutAll(u, header.pub, header.msgNum);
    }
  }

  /** A new key, with keys of the old chain to keep and a full store. */
  lemma FullStoreDiffers(s: Session, header: Header, newPriv: Priv, c: Ciphertext)
    requires header.Header? && s.order != [] && s.dhRemote != Some(header.pub)
    requires 0 < OldKeys(s, header) <= MAX_SKIP_DISTANCE && |s.skipped| >= MAX_SKIPPED_KEYS
    ensures Decrypt(Forgot(s), header, c, newPriv).result == Err(EvictionFromEmptyQueue)
    ensures Decrypt(s, header, c, newPriv).result != Err(EvictionFromEmptyQueue)
  {
    FullStoreFollow(Forgot(s), header, newPriv);
    FollowKeeps(s, header, newPriv);
    var u := FollowRemote(s, header, newPriv);
    if u.result.Ok? {
      ReceiveNotRaising(u.state, header, c);
    }
  }

  /** Without room on the current chain. */
  lemma CurrentChainDiffers(s: Session, header: Header, newPriv: Priv)
    requires Clean(s, header) && s.order != [] && s.dhRemote == Some(header.pub) && !QueueIrrelevant(s, header)
    ensures !Agree(Decrypt(s, header, Readable(s, header), newPriv), Decrypt(Forgot(s), header, Readable(s, header), newPriv))
  {
    ChainDiffers(s, header);
  }

  /** A new key, with nothing of the old chain to keep. */
  lemma NewChainDiffers(s: Session, header: Header, newPriv: Priv)
    requires Clean(s, header) && s.order != [] && s.dhRemote != Some(header.pub) && !QueueIrrelevant(s, header)
    requires OldKeys(s, header) == 0
    ensures exists c :: !Agree(Decrypt(s, header, c, newPriv), Decrypt(Forgot(s), header, c, newPriv))
  {
    var u := DhRatchet(s, header.pub, newPriv).state;
    FollowDirectly(s, header, newPriv);
    FollowDirectly(Forgot(s), header, newPriv);
    ChainDiffers(u, header);
    var c := Readable(u, header);
    assert Decrypt(s, header, c, newPriv) == Receive(u, header, c);
    assert Decrypt(Forgot(s), header, c, newPriv) == Receive(Forgot(u), header, c);
  }

  /** A new key, with keys of the old chain to keep and too little room for them and the new chain's. */
  lemma BothChainsDiffer(s: Session, header: Header, newPriv: Priv)
    requires Clean(s, header) && s.order != [] && s.dhRemote != Some(header.pub) && !QueueIrrelevant(s, header)
    requires OldKeys(s, header) > 0 && |s.skipped| < MAX_SKIPPED_KEYS
    ensures exists c :: !Agree(Decrypt(s, header, c, newPriv), Decrypt(Forgot(s), header, c, newPriv))
  {
    var pub, t := s.dhRemote.value, Forgot(s);
    FollowKeeps(s, header, newPriv);
    FollowKeeps(t, header, newPriv);
    var u, w := FollowRemote(s, header, newPriv).state, FollowRemote(t, header, newPriv).state;
    BetweenFree(s, pub, header.prevLen, header.pub, u);
    BetweenFree(t, pub, header.prevLen, header.pub, w);
    SkipIsPutAll(u, header.pub, header.msgNum);
    var x := BothSkipsDiffer(s, pub, header.prevLen, header.pub, u, w, header.msgNum);
    ReceiveDiffers(u, w, header, x);
    var c := Readable(u, header);
    assert Decrypt(s, header, c, newPriv) == Receive(u, header, c);
    assert Decrypt(t, header, c, newPriv) == Receive(w, header, c);
  }

  /** On the current chain nothing else makes a difference. */
  lemma CurrentChainAgrees(s: Session, header: Header, c: Ciphertext, newPriv: Priv)
    requires Clean(s, header) && s.dhRemote == Some(header.pub) && QueueIrrelevant(s, header)
    ensures Agree(Decrypt(s, header, c, newPriv), Decrypt(Forgot(s), header, c, newPriv))
  {
    if Room(s, header) {
      DecryptAgrees(s, Forgot(s), header, c, newPriv);
    }
  }

  /** A new key whose message is out of reach, or which the session cannot follow, fails alike. */
  lemma OutOfReachAgrees(s: Session, header: Header, c: Ciphertext, newPriv: Priv)
    requires Clean(s, header) && s.dhRemote != Some(header.pub) && s.order != []
    requires OldKeys(s, header) <= MAX_SKIP_DISTANCE && (OldKeys(s, header) == 0 || |s.skipped| < MAX_SKIPPED_KEYS)
    requires !Able(s) || header.msgNum > MAX_SKIP_DISTANCE
    ensures Agree(Decrypt(s, header, c, newPriv), Decrypt(Forgot(s), header, c, newPriv))
  {
    OutOfReachFails(s, header, c, newPriv);
    OutOfReachFails(Forgot(s), header, c, newPriv);
  }

  lemma OutOfReachFails(s: Session, header: Header, c: Ciphertext, newPriv: Priv)
    requires Clean(s, header) && s.dhRemote != Some(header.pub)
    requires OldKeys(s, header) <= MAX_SKIP_DISTANCE && (OldKeys(s, header) == 0 || |s.skipped| < MAX_SKIPPED_KEYS)
    requires !Able(s) || header.msgNum > MAX_SKIP_DISTANCE
    ensures Decrypt(s, header, c, newPriv).result == Err(if Able(s) then SkipTooFar else NotInitialized)
  {
    if OldKeys(s, header) == 0 {
      FollowDirectly(s, header, newPriv);
    } else {
      FollowKeeps(s, header, newPriv);
      if Able(s) {
        var u := FollowRemote(s, header, newPriv).state;
        BetweenFree(s, s.dhRemote.value, header.prevLen, header.pub, u);
      }
    }
  }

  lemma NewChainAgrees(s: Session, header: Header, c: Ciphertext, newPriv: Priv)
    requires Clean(s, header) && s.dhRemote != Some(header.pub) && s.order != [] && QueueIrrelevant(s, header)
    ensures Agree(Decrypt(s, header, c, newPriv), Decrypt(Forgot(s), header, c, newPriv))
  {
    if Room(s, header) {
      DecryptAgrees(s, Forgot(s), header, c, newPriv);
    } else if OldKeys(s, header) <= MAX_SKIP_DISTANCE {
      OutOfReachAgrees(s, header, c, newPriv);
    }
  }

  /** Exactly when a session and its reloaded copy answer a header alike, whatever the ciphertext: they do
      if and only if nothing needs to be evicted, failures before the first eviction aside. */
  lemma QueueMatters(s: Session, header: Header, newPriv: Priv)
    requires Clean(s, header) && s.order != []
    ensures (forall c :: Agree(Decrypt(s, header, c, newPriv), Decrypt(Forgot(s), header, c, newPriv)))
       <==> QueueIrrelevant(s, header)
  {
    if QueueIrrelevant(s, header) {
      forall c ensures Agree(Decrypt(s, header, c, newPriv), Decrypt(Forgot(s), header, c, newPriv)) {
        if s.dhRemote == Some(header.pub) {
          CurrentChainAgrees(s, header, c, newPriv);
        } else {
          NewChainAgrees(s, header, c, newPriv);
        }
      }
    } else if s.dhRemote == Some(header.pub) {
      CurrentChainDiffers(s, header, newPriv);
    } else if OldKeys(s, header) == 0 {
      NewChainDiffers(s, header, newPriv);
    } else if |s.skipped| >= MAX_SKIPPED_KEYS {
      FullStoreDiffers(s, header, newPriv, Forged(0));
    } else {
      BothChainsDiffer(s, header, newPriv);
    }
  }
}
