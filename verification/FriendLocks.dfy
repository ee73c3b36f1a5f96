/** The canonical order of friend names: by lower-cased name, then by the name itself. Nothing is
    assumed about lower-casing except that it is a function. */
module NameOrder {
  type Name = string

  type Lower = string -> string

  predicate TextLess(a: string, b: string) {
    if b == "" then false
    else if a == "" then true
    else a[0] < b[0] || (a[0] == b[0] && TextLess(a[1..], b[1..]))
  }

  predicate Less(lower: Lower, a: Name, b: Name) {
    TextLess(lower(a), lower(b)) || (lower(a) == lower(b) && TextLess(a, b))
  }

  /** The texts agree up to place k, where one ends or has the smaller character. */
  predicate DiffersAt(a: string, b: string, k: nat) {
    k <= |a| && k < |b| && a[..k] == b[..k] && (k == |a| || a[k] < b[k])
  }

  lemma {:induction false} TextLessIff(a: string, b: string)
    ensures TextLess(a, b) <==> exists k: nat :: DiffersAt(a, b, k)
  {
    if a == "" && b != "" {
      assert DiffersAt(a, b, 0);
    } else if a != "" && b != "" && a[0] == b[0] {
      TextLessIff(a[1..], b[1..]);
      if k: nat :| DiffersAt(a[1..], b[1..], k) {
        assert a[..k + 1] == [a[0]] + a[1..][..k] && b[..k + 1] == [b[0]] + b[1..][..k];
        assert DiffersAt(a, b, k + 1);
      }
      if k: nat :| DiffersAt(a, b, k) {
        assert a[1..][..k - 1] == a[..k][1..] && b[1..][..k - 1] == b[..k][1..];
        assert DiffersAt(a[1..], b[1..], k - 1);
      }
    } else if a != "" && b != "" {
      DifferAtOnce(a, b);
    }
  }

  lemma DifferAtOnce(a: string, b: string)
    requires a != "" && b != "" && a[0] != b[0]
    ensures (exists k: nat :: DiffersAt(a, b, k)) <==> a[0] < b[0]
  {
    if a[0] < b[0] {
      assert DiffersAt(a, b, 0);
    }
    if k: nat :| DiffersAt(a, b, k) && k > 0 {
      AgreeFirst(a, b, k);
    }
  }

  lemma AgreeFirst(a: string, b: string, k: nat)
    requires DiffersAt(a, b, k) && k > 0
    ensures a[0] == b[0]
  {
    assert a[..k][0] == b[..k][0];
  }

  /** Names are compared by their lower-cased forms, and only names with the same one as they are. */
  lemma LessIff(lower: Lower, a: Name, b: Name)
    ensures Less(lower, a, b) <==>
      if lower(a) == lower(b) then exists k: nat :: DiffersAt(a, b, k) else exists k: nat :: DiffersAt(lower(a), lower(b), k)
  {
    TextLessIff(a, b);
    TextLessIff(lower(a), lower(b));
    TextLessTotal(lower(a), lower(b));
  }

  lemma {:induction false} TextLessTransitive(a: string, b: string, c: string)
    requires TextLess(a, b) && TextLess(b, c)
    ensures TextLess(a, c)
  {
    if a != "" && a[0] == b[0] && b[0] == c[0] {
      TextLessTransitive(a[1..], b[1..], c[1..]);
    }
  }

  lemma {:induction false} TextLessTotal(a: string, b: string)
    ensures TextLess(a, b) || a == b || TextLess(b, a)
    ensures !(TextLess(a, b) && TextLess(b, a)) && !TextLess(a, a)
  {
    if a != "" {
      TextLessTotal(a[1..], a[1..]);
      if b != "" {
        TextLessTotal(a[1..], b[1..]);
        if a[0] == b[0] && a[1..] == b[1..] {
          assert a == [a[0]] + a[1..] && b == [b[0]] + b[1..];
        }
      }
    }
  }

  lemma Transitive(lower: Lower, a: Name, b: Name, c: Name)
    requires Less(lower, a, b) && Less(lower, b, c)
    ensures Less(lower, a, c)
  {
    if TextLess(lower(a), lower(b)) && TextLess(lower(b), lower(c)) {
      TextLessTransitive(lower(a), lower(b), lower(c));
    } else if lower(a) == lower(b) && lower(b) == lower(c) {
      TextLessTransitive(a, b, c);
    }
  }

  lemma Total(lower: Lower, a: Name, b: Name)
    ensures Less(lower, a, b) || a == b || Less(lower, b, a)
    ensures !(Less(lower, a, b) && Less(lower, b, a)) && !Less(lower, a, a)
  {
    TextLessTotal(lower(a), lower(b));
    TextLessTotal(lower(a), lower(a));
    TextLessTotal(a, b);
    TextLessTotal(a, a);
  }

  /** Strictly increasing, so also free of repetitions. */
  ghost predicate Ascending(lower: Lower, names: seq<Name>) {
    forall i, j :: 0 <= i < j < |names| ==> Less(lower, names[i], names[j])
  }

  function Insert(lower: Lower, name: Name, sorted: seq<Name>): seq<Name> {
    if sorted == [] then [name]
    else if sorted[0] == name then sorted
    else if Less(lower, name, sorted[0]) then [name] + sorted
    else [sorted[0]] + Insert(lower, name, sorted[1..])
  }

  /** The names without duplicates in canonical order. */
  function Canonical(lower: Lower, names: seq<Name>): seq<Name> {
    if names == [] then [] else Insert(lower, names[0], Canonical(lower, names[1..]))
  }

  lemma {:induction false} InsertCorrect(lower: Lower, name: Name, sorted: seq<Name>)
    requires Ascending(lower, sorted)
    ensures Ascending(lower, Insert(lower, name, sorted))
    ensures forall x :: x in Insert(lower, name, sorted) <==> x == name || x in sorted
  {
    if sorted != [] && sorted[0] != name {
      var rest := sorted[1..];
      assert sorted == [sorted[0]] + rest;
      Total(lower, name, sorted[0]);
      if Less(lower, name, sorted[0]) {
        forall j | 0 <= j < |sorted| ensures Less(lower, name, sorted[j]) {
          if j > 0 {
            Transitive(lower, name, sorted[0], sorted[j]);
          }
        }
      } else {
        InsertCorrect(lower, name, rest);
        var inserted := Insert(lower, name, rest);
        forall j | 0 <= j < |inserted| ensures Less(lower, sorted[0], inserted[j]) {
          assert inserted[j] in inserted;
        }
      }
    }
  }

  /** Deduplicated, strictly ascending, and with exactly the given names. */
  lemma {:induction false} CanonicalCorrect(lower: Lower, names: seq<Name>)
    ensures Ascending(lower, Canonical(lower, names))
    ensures forall x :: x in Canonical(lower, names) <==> x in names
  {
    if names != [] {
      CanonicalCorrect(lower, names[1..]);
      InsertCorrect(lower, names[0], Canonical(lower, names[1..]));
      assert names == [names[0]] + names[1..];
    }
  }
}

/** Any number of threads taking friend locks through `acquire_friend_locks_ordered`, or one lock while
    holding none, and re-entering locks they hold  (services/ratchet_service.py). */
module FriendLocks {
  import opened Basics
  import opened NameOrder

  type Thread = nat

  /** A lock object; a friend gets a new one after cleanup has removed the old one. */
  datatype Lock = Lock(name: Name, serial: nat)

  datatype Phase =
    | Idle
    | Acquiring(held: seq<Lock>, todo: seq<Name>, fetched: Option<Lock>)
    | Holding(held: seq<Lock>, nested: seq<Lock>)
    | Reentering(held: seq<Lock>, nested: seq<Lock>, wanted: Lock)

  /** `table` is the name-to-lock dictionary; `owner` says which thread has a lock. */
  datatype System = System(table: map<Name, Lock>, next: nat, owner: map<Lock, Thread>, threads: map<Thread, Phase>)

  function Held(p: Phase): seq<Lock> {
    if p.Idle? then [] else p.held
  }

  function PhaseOf(sys: System, t: Thread): Phase {
    if t in sys.threads then sys.threads[t] else Idle
  }

  datatype Event =
    | Begin(t: Thread, names: seq<Name>)
    | Fetch(t: Thread)
    | Acquire(t: Thread)
    | Finish(t: Thread)
    | Timeout(t: Thread)
    | Reenter(t: Thread, name: Name)
    | Retake(t: Thread)
    | GiveUp(t: Thread)
    | Leave(t: Thread)
    | Release(t: Thread)
    | Cleanup(t: Thread, name: Name)

  predicate Enabled(sys: System, ev: Event) {
    match ev
    case Begin(t, _) => PhaseOf(sys, t).Idle?
    case Fetch(t) => var p := PhaseOf(sys, t); p.Acquiring? && p.todo != [] && p.fetched.None?
    case Acquire(t) => var p := PhaseOf(sys, t); p.Acquiring? && p.todo != [] && p.fetched.Some? && p.fetched.value !in sys.owner
    case Finish(t) => var p := PhaseOf(sys, t); p.Acquiring? && p.todo == []
    case Timeout(t) => var p := PhaseOf(sys, t); p.Acquiring? && p.todo != [] && p.fetched.Some?
    case Reenter(t, name) => var p := PhaseOf(sys, t); p.Holding? && exists lock <- p.held :: lock.name == name
    case Retake(t) => var p := PhaseOf(sys, t); p.Reentering? && p.wanted !in sys.owner
    case GiveUp(t) => PhaseOf(sys, t).Reentering?
    case Leave(t) => var p := PhaseOf(sys, t); p.Holding? && p.nested != []
    case Release(t) => var p := PhaseOf(sys, t); p.Holding? && p.nested == []
    case Cleanup(t, name) => name in sys.table && (sys.table[name] in sys.owner ==> sys.owner[sys.table[name]] == t)
  }

  function SetPhase(sys: System, t: Thread, p: Phase): System {
    sys.(threads := sys.threads[t := p])
  }

  function Without(owner: map<Lock, Thread>, t: Thread): map<Lock, Thread> {
    map lock | lock in owner && owner[lock] != t :: owner[lock]
  }

  /** The friend's lock in the dictionary, created if there is none. */
  function Fetched(sys: System, name: Name): Lock {
    if name in sys.table then sys.table[name] else Lock(name, sys.next)
  }

  function WithFetched(sys: System, name: Name): System {
    if name in sys.table then sys
    else sys.(table := sys.table[name := Lock(name, sys.next)], next := sys.next + 1)
  }

  /** Re-entry goes through the dictionary again: it succeeds at once if the thread has the lock found there,
      and waits for it otherwise. A lock retaken that way is kept until the outermost release. */
  function Next(lower: Lower, sys: System, ev: Event): System
    requires Enabled(sys, ev)
  {
    match ev
    case Begin(t, names) => SetPhase(sys, t, Acquiring([], Canonical(lower, names), None))
    case Fetch(t) =>
      var p := PhaseOf(sys, t);
      SetPhase(WithFetched(sys, p.todo[0]), t, p.(fetched := Some(Fetched(sys, p.todo[0]))))
    case Acquire(t) =>
      var p := PhaseOf(sys, t);
      var lock := p.fetched.value;
      SetPhase(sys.(owner := sys.owner[lock := t]), t, Acquiring(p.held + [lock], p.todo[1..], None))
    case Finish(t) => SetPhase(sys, t, Holding(PhaseOf(sys, t).held, []))
    case Timeout(t) => SetPhase(sys.(owner := Without(sys.owner, t)), t, Idle)
    case Reenter(t, name) =>
      var p, lock := PhaseOf(sys, t), Fetched(sys, name);
      SetPhase(WithFetched(sys, name), t,
               if lock in p.held then Holding(p.held, p.nested + [lock]) else Reentering(p.held, p.nested, lock))
    case Retake(t) =>
      var p := PhaseOf(sys, t);
      SetPhase(sys.(owner := sys.owner[p.wanted := t]), t, Holding(p.held + [p.wanted], p.nested))
    case GiveUp(t) =>
      var p := PhaseOf(sys, t); SetPhase(sys, t, Holding(p.held, p.nested))
    case Leave(t) =>
      var p := PhaseOf(sys, t); SetPhase(sys, t, Holding(p.held, p.nested[..|p.nested| - 1]))
    case Release(t) => SetPhase(sys.(owner := Without(sys.owner, t)), t, Idle)
    case Cleanup(_, name) => sys.(table := sys.table - {name})
  }

  // ---- ordering invariant, under every step including racing cleanups ----

  /** A thread takes its locks in ascending order of name and next wants a larger one. */
  ghost predicate Orderly(lower: Lower, p: Phase) {
    p.Acquiring? ==>
      && Ascending(lower, p.todo)
      && (forall i, j :: 0 <= i < |p.held| && 0 <= j < |p.todo| ==> Less(lower, p.held[i].name, p.todo[j]))
      && (p.fetched.Some? ==> p.todo != [] && p.fetched.value.name == p.todo[0])
  }

  ghost predicate Ordered(lower: Lower, sys: System) {
    && (forall t :: t in sys.threads ==> Orderly(lower, sys.threads[t]))
    && (forall lock :: lock in sys.owner ==> lock in Held(PhaseOf(sys, sys.owner[lock])))
    && (forall t, lock :: t in sys.threads && lock in Held(sys.threads[t]) ==> lock in sys.owner && sys.owner[lock] == t)
    && (forall name :: name in sys.table ==> sys.table[name].name == name)
  }

  lemma AcquireOrderly(lower: Lower, p: Phase)
    requires p.Acquiring? && p.todo != [] && p.fetched.Some? && Orderly(lower, p)
    ensures Orderly(lower, Acquiring(p.held + [p.fetched.value], p.todo[1..], None))
  {
    var q := Acquiring(p.held + [p.fetched.value], p.todo[1..], None);
    forall i, j | 0 <= i < |q.held| && 0 <= j < |q.todo| ensures Less(lower, q.held[i].name, q.todo[j]) {
      if i < |p.held| {
        assert Less(lower, p.held[i].name, p.todo[j + 1]);
      } else {
        assert Less(lower, p.todo[0], p.todo[j + 1]);
      }
    }
  }

  /** A step that changes no ownership. */
  lemma PhaseOrdered(lower: Lower, sys: System, t: Thread, p: Phase)
    requires Ordered(lower, sys) && Orderly(lower, p) && Held(p) == Held(PhaseOf(sys, t))
    ensures Ordered(lower, SetPhase(sys, t, p))
  {
    var now := SetPhase(sys, t, p);
    forall u, lock | u in now.threads && lock in Held(now.threads[u]) ensures lock in now.owner && now.owner[lock] == u {
      assert lock in Held(PhaseOf(sys, u));
    }
  }

  lemma TakeOrdered(lower: Lower, sys: System, t: Thread, p: Phase, lock: Lock)
    requires Ordered(lower, sys) && Orderly(lower, p) && lock !in sys.owner
    requires Held(p) == Held(PhaseOf(sys, t)) + [lock]
    ensures Ordered(lower, SetPhase(sys.(owner := sys.owner[lock := t]), t, p))
  {
    var now := SetPhase(sys.(owner := sys.owner[lock := t]), t, p);
    forall u, x | u in now.threads && x in Held(now.threads[u]) ensures x in now.owner && now.owner[x] == u {
      if x != lock {
        assert x in Held(PhaseOf(sys, u));
      }
    }
  }

  lemma DropOrdered(lower: Lower, sys: System, t: Thread)
    requires Ordered(lower, sys)
    ensures Ordered(lower, SetPhase(sys.(owner := Without(sys.owner, t)), t, Idle))
  {
    var now := SetPhase(sys.(owner := Without(sys.owner, t)), t, Idle);
    forall u, x | u in now.threads && x in Held(now.threads[u]) ensures x in now.owner && now.owner[x] == u {
      assert x in Held(sys.threads[u]);
    }
  }

  lemma FetchOrdered(lower: Lower, sys: System, t: Thread)
    requires Ordered(lower, sys) && Enabled(sys, Fetch(t))
    ensures Ordered(lower, Next(lower, sys, Fetch(t)))
  {
    var p := PhaseOf(sys, t);
    PhaseOrdered(lower, WithFetched(sys, p.todo[0]), t, p.(fetched := Some(Fetched(sys, p.todo[0]))));
  }

  lemma ReenterOrdered(lower: Lower, sys: System, t: Thread, name: Name)
    requires Ordered(lower, sys) && Enabled(sys, Reenter(t, name))
    ensures Ordered(lower, Next(lower, sys, Reenter(t, name)))
  {
    var p, lock := PhaseOf(sys, t), Fetched(sys, name);
    PhaseOrdered(lower, WithFetched(sys, name), t,
                 if lock in p.held then Holding(p.held, p.nested + [lock]) else Reentering(p.held, p.nested, lock));
  }

  lemma AcquireOrdered(lower: Lower, sys: System, t: Thread)
    requires Ordered(lower, sys) && Enabled(sys, Acquire(t))
    ensures Ordered(lower, Next(lower, sys, Acquire(t)))
  {
    var p := PhaseOf(sys, t);
    AcquireOrderly(lower, p);
    TakeOrdered(lower, sys, t, Acquiring(p.held + [p.fetched.value], p.todo[1..], None), p.fetched.value);
  }

  lemma StepOrdered(lower: Lower, sys: System, ev: Event)
    requires Ordered(lower, sys) && Enabled(sys, ev)
    ensures Ordered(lower, Next(lower, sys, ev))
  {
    match ev
    case Begin(t, names) =>
      CanonicalCorrect(lower, names);
      PhaseOrdered(lower, sys, t, Acquiring([], Canonical(lower, names), None));
    case Fetch(t) => FetchOrdered(lower, sys, t);
    case Acquire(t) => AcquireOrdered(lower, sys, t);
    case Finish(t) => PhaseOrdered(lower, sys, t, Holding(PhaseOf(sys, t).held, []));
    case Timeout(t) => DropOrdered(lower, sys, t);
    case Reenter(t, name) => ReenterOrdered(lower, sys, t, name);
    case Retake(t) =>
      var p := PhaseOf(sys, t);
      TakeOrdered(lower, sys, t, Holding(p.held + [p.wanted], p.nested), p.wanted);
    case GiveUp(t) =>
      var p := PhaseOf(sys, t);
      PhaseOrdered(lower, sys, t, Holding(p.held, p.nested));
    case Leave(t) =>
      var p := PhaseOf(sys, t);
      PhaseOrdered(lower, sys, t, Holding(p.held, p.nested[..|p.nested| - 1]));
    case Release(t) => DropOrdered(lower, sys, t);
    case Cleanup(_, name) =>
  }

  const EMPTY: System := System(map[], 0, map[], map[])

  ghost predicate ValidRun(lower: Lower, sys: System, events: seq<Event>)
    decreases |events|
  {
    events == [] || (Enabled(sys, events[0]) && ValidRun(lower, Next(lower, sys, events[0]), events[1..]))
  }

  ghost function RunTo(lower: Lower, sys: System, events: seq<Event>): System
    requires ValidRun(lower, sys, events)
    decreases |events|
  {
    if events == [] then sys else RunTo(lower, Next(lower, sys, events[0]), events[1..])
  }

  lemma {:induction false} RunOrdered(lower: Lower, sys: System, events: seq<Event>)
    requires Ordered(lower, sys) && ValidRun(lower, sys, events)
    ensures Ordered(lower, RunTo(lower, sys, events))
    decreases |events|
  {
    if events != [] {
      StepOrdered(lower, sys, events[0]);
      RunOrdered(lower, Next(lower, sys, events[0]), events[1..]);
    }
  }

  // ---- what an acquisition ends with ----

  /** The thread whose phase an event changes. */
  predicate MovesThread(ev: Event, t: Thread) {
    ev.t == t && !ev.Cleanup?
  }

  function NamesOf(locks: seq<Lock>): (names: seq<Name>)
    ensures |names| == |locks|
  {
    seq(|locks|, i requires 0 <= i < |locks| => locks[i].name)
  }

  /** The thread is acquiring, and has entered and still wants exactly the given names, in that order. */
  ghost predicate Acquires(sys: System, t: Thread, names: seq<Name>) {
    var p := PhaseOf(sys, t);
    p.Acquiring? && NamesOf(p.held) + p.todo == names
  }

  lemma OtherPhaseKept(lower: Lower, sys: System, t: Thread, ev: Event)
    requires Enabled(sys, ev) && !MovesThread(ev, t)
    ensures PhaseOf(Next(lower, sys, ev), t) == PhaseOf(sys, t)
  {}

  lemma FetchPhase(lower: Lower, sys: System, t: Thread)
    requires Enabled(sys, Fetch(t))
    ensures var p, q := PhaseOf(sys, t), PhaseOf(Next(lower, sys, Fetch(t)), t);
      q.Acquiring? && q.held == p.held && q.todo == p.todo
  {}

  lemma AcquirePhase(lower: Lower, sys: System, t: Thread)
    requires Enabled(sys, Acquire(t))
    ensures var p, q := PhaseOf(sys, t), PhaseOf(Next(lower, sys, Acquire(t)), t);
      q.Acquiring? && q.held == p.held + [p.fetched.value] && [p.todo[0]] + q.todo == p.todo
  {}

  lemma AcquiresStep(lower: Lower, sys: System, t: Thread, names: seq<Name>, ev: Event)
    requires Ordered(lower, sys) && Enabled(sys, ev) && Acquires(sys, t, names)
    requires MovesThread(ev, t) ==> ev.Fetch? || ev.Acquire?
    ensures Acquires(Next(lower, sys, ev), t, names)
  {
    var p := PhaseOf(sys, t);
    if !MovesThread(ev, t) {
      OtherPhaseKept(lower, sys, t, ev);
    } else if ev.Fetch? {
      FetchPhase(lower, sys, t);
    } else {
      AcquirePhase(lower, sys, t);
      assert Orderly(lower, sys.threads[t]);
      NamesStep(p.held, p.fetched.value, p.todo[0], PhaseOf(Next(lower, sys, ev), t).todo);
    }
  }

  lemma NamesStep(held: seq<Lock>, lock: Lock, name: Name, rest: seq<Name>)
    requires lock.name == name
    ensures NamesOf(held + [lock]) + rest == NamesOf(held) + ([name] + rest)
  {
    assert NamesOf(held + [lock]) == NamesOf(held) + [name];
  }

  lemma {:induction false} AcquiresRun(lower: Lower, sys: System, t: Thread, names: seq<Name>, events: seq<Event>)
    requires Ordered(lower, sys) && ValidRun(lower, sys, events) && Acquires(sys, t, names)
    requires forall ev <- events :: MovesThread(ev, t) ==> ev.Fetch? || ev.Acquire?
    ensures Acquires(RunTo(lower, sys, events), t, names) && Ordered(lower, RunTo(lower, sys, events))
    decreases |events|
  {
    if events != [] {
      assert events[0] in events;
      AcquiresStep(lower, sys, t, names, events[0]);
      StepOrdered(lower, sys, events[0]);
      AcquiresRun(lower, Next(lower, sys, events[0]), t, names, events[1..]);
    }
  }

  /** A thread that begins with some friends and gets through has a lock of every one of them when it is done, in
      canonical order, and the locks are its own, whatever the other threads did meanwhile. */
  lemma FinishedHolds(lower: Lower, sys: System, t: Thread, friends: seq<Name>, events: seq<Event>)
    requires Ordered(lower, sys) && Enabled(sys, Begin(t, friends))
    requires ValidRun(lower, Next(lower, sys, Begin(t, friends)), events)
    requires forall ev <- events :: MovesThread(ev, t) ==> ev.Fetch? || ev.Acquire?
    requires Enabled(RunTo(lower, Next(lower, sys, Begin(t, friends)), events), Finish(t))
    ensures var end := Next(lower, RunTo(lower, Next(lower, sys, Begin(t, friends)), events), Finish(t));
      && PhaseOf(end, t).Holding? && NamesOf(PhaseOf(end, t).held) == Canonical(lower, friends)
      && (forall f :: f in friends ==> exists lock :: lock in end.owner && end.owner[lock] == t && lock.name == f)
  {
    var begun, names := Next(lower, sys, Begin(t, friends)), Canonical(lower, friends);
    assert NamesOf([]) + names == names;
    StepOrdered(lower, sys, Begin(t, friends));
    AcquiresRun(lower, begun, t, names, events);
    HoldsAtFinish(lower, RunTo(lower, begun, events), t, names);
    CanonicalCorrect(lower, friends);
  }

  lemma HoldsAtFinish(lower: Lower, sys: System, t: Thread, names: seq<Name>)
    requires Ordered(lower, sys) && Acquires(sys, t, names) && Enabled(sys, Finish(t))
    ensures var end := Next(lower, sys, Finish(t));
      && PhaseOf(end, t).Holding? && NamesOf(PhaseOf(end, t).held) == names
      && (forall f :: f in names ==> exists lock :: lock in end.owner && end.owner[lock] == t && lock.name == f)
  {
    var held := PhaseOf(sys, t).held;
    assert NamesOf(held) + [] == NamesOf(held);
    forall f | f in names ensures exists lock :: lock in sys.owner && sys.owner[lock] == t && lock.name == f {
      var i :| 0 <= i < |held| && NamesOf(held)[i] == f;
      assert held[i] in Held(sys.threads[t]);
    }
  }

  // ---- re-entry of one's own locks ----

  /** A re-entry finds the thread's own lock in the dictionary. */
  predicate Direct(sys: System, ev: Event) {
    ev.Reenter? ==> Fetched(sys, ev.name) in Held(PhaseOf(sys, ev.t))
  }

  /** Every re-entry of the run does. */
  ghost predicate DirectRun(lower: Lower, sys: System, events: seq<Event>)
    decreases |events|
  {
    events == [] ||
    (Enabled(sys, events[0]) && Direct(sys, events[0]) && DirectRun(lower, Next(lower, sys, events[0]), events[1..]))
  }

  /** No thread waits for a lock of a friend it has entered already. */
  ghost predicate Settled(sys: System) {
    forall t :: t in sys.threads ==> !sys.threads[t].Reentering?
  }

  /** A re-entry has to wait exactly if it does not find the thread's own lock. */
  lemma ReentryWaitsIff(lower: Lower, sys: System, t: Thread, name: Name)
    requires Settled(sys) && Enabled(sys, Reenter(t, name))
    ensures Settled(Next(lower, sys, Reenter(t, name))) <==> Direct(sys, Reenter(t, name))
  {
    var now := Next(lower, sys, Reenter(t, name));
    assert now.threads[t].Reentering? <==> !Direct(sys, Reenter(t, name));
  }

  lemma SettledStep(lower: Lower, sys: System, ev: Event)
    requires Settled(sys) && Enabled(sys, ev) && Direct(sys, ev)
    ensures Settled(Next(lower, sys, ev))
  {}

  lemma {:induction false} DirectRunSettled(lower: Lower, sys: System, events: seq<Event>)
    requires Settled(sys) && DirectRun(lower, sys, events)
    ensures ValidRun(lower, sys, events) && Settled(RunTo(lower, sys, events))
    decreases |events|
  {
    if events != [] {
      SettledStep(lower, sys, events[0]);
      DirectRunSettled(lower, Next(lower, sys, events[0]), events[1..]);
    }
  }

  // ---- no deadlock ----

  /** The lock a thread is trying to enter. */
  function Wants(p: Phase): Option<Lock> {
    if p.Acquiring? && p.todo != [] then p.fetched else if p.Reentering? then Some(p.wanted) else None
  }

  /** Thread t is blocked on a lock that u has. */
  predicate Waits(sys: System, t: Thread, u: Thread) {
    var wanted := Wants(PhaseOf(sys, t));
    wanted.Some? && wanted.value in sys.owner && sys.owner[wanted.value] == u
  }

  ghost predicate WaitPath(sys: System, path: seq<Thread>) {
    forall i :: 0 <= i < |path| - 1 ==> Waits(sys, path[i], path[i + 1])
  }

  function Wanted(sys: System, t: Thread): Name
    requires PhaseOf(sys, t).Acquiring? && PhaseOf(sys, t).todo != []
  {
    PhaseOf(sys, t).todo[0]
  }

  /** Whoever blocks a thread and is itself blocked wants a larger name. */
  lemma WaitsAscends(lower: Lower, sys: System, t: Thread, u: Thread)
    requires Ordered(lower, sys) && Settled(sys) && Waits(sys, t, u)
    ensures PhaseOf(sys, t).Acquiring? && PhaseOf(sys, t).todo != []
    ensures PhaseOf(sys, u).Acquiring? && PhaseOf(sys, u).todo != [] ==> Less(lower, Wanted(sys, t), Wanted(sys, u))
  {
    var lock, q := PhaseOf(sys, t).fetched.value, PhaseOf(sys, u);
    assert lock in Held(q);
    if q.Acquiring? && q.todo != [] {
      var i :| 0 <= i < |q.held| && q.held[i] == lock;
      assert Less(lower, q.held[i].name, q.todo[0]);
    }
  }

  lemma {:induction false} PathAscends(lower: Lower, sys: System, path: seq<Thread>)
    requires Ordered(lower, sys) && Settled(sys) && WaitPath(sys, path) && |path| >= 2
    requires var p := PhaseOf(sys, path[|path| - 1]); p.Acquiring? && p.todo != []
    ensures PhaseOf(sys, path[0]).Acquiring? && PhaseOf(sys, path[0]).todo != []
    ensures Less(lower, Wanted(sys, path[0]), Wanted(sys, path[|path| - 1]))
    decreases |path|
  {
    assert Waits(sys, path[0], path[1]);
    WaitsAscends(lower, sys, path[0], path[1]);
    if |path| > 2 {
      PathAscends(lower, sys, path[1..]);
      Transitive(lower, Wanted(sys, path[0]), Wanted(sys, path[1]), Wanted(sys, path[|path| - 1]));
    }
  }

  /** While re-entries find the threads' own locks, no reachable state contains a cycle of waiting threads, of
      any length, whatever locks are cleaned up. */
  lemma NoWaitCycle(lower: Lower, events: seq<Event>, path: seq<Thread>)
    requires DirectRun(lower, EMPTY, events) && |path| >= 2 && path[0] == path[|path| - 1]
    ensures ValidRun(lower, EMPTY, events) && !WaitPath(RunTo(lower, EMPTY, events), path)
  {
    DirectRunSettled(lower, EMPTY, events);
    var sys := RunTo(lower, EMPTY, events);
    RunOrdered(lower, EMPTY, events);
    if WaitPath(sys, path) {
      assert Waits(sys, path[0], path[1]);
      PathAscends(lower, sys, path);
      Total(lower, Wanted(sys, path[0]), Wanted(sys, path[0]));
    }
  }

  /** The thread can take a step of its own other than giving up. */
  predicate CanAdvance(sys: System, t: Thread) {
    Enabled(sys, Fetch(t)) || Enabled(sys, Acquire(t)) || Enabled(sys, Finish(t))
    || Enabled(sys, Leave(t)) || Enabled(sys, Release(t)) || Enabled(sys, Retake(t))
  }

  /** A nonempty finite set of names has a largest one. */
  lemma {:induction false} LargestName(lower: Lower, names: set<Name>) returns (m: Name)
    requires names != {}
    ensures m in names && forall n :: n in names ==> !Less(lower, m, n)
    decreases names
  {
    var first :| first in names;
    var rest := names - {first};
    assert names == rest + {first};
    Total(lower, first, first);
    m := first;
    if rest != {} {
      var best := LargestName(lower, rest);
      Total(lower, first, best);
      if Less(lower, first, best) {
        m := best;
      } else {
        forall n | n in rest ensures !Less(lower, first, n) {
          if Less(lower, first, n) && Less(lower, best, first) {
            Transitive(lower, best, first, n);
          }
        }
      }
    }
  }

  /** The lock the thread wants next is taken. */
  predicate Blocked(sys: System, t: Thread) {
    var wanted := Wants(PhaseOf(sys, t));
    wanted.Some? && wanted.value in sys.owner
  }

  lemma IdleAdvancingOrBlocked(sys: System, t: Thread)
    ensures PhaseOf(sys, t).Idle? || CanAdvance(sys, t) || Blocked(sys, t)
  {}

  /** One of the blocked threads wants a largest name. */
  lemma LargestBlocked(lower: Lower, sys: System, busy: Thread) returns (top: Thread)
    requires Ordered(lower, sys) && Settled(sys) && Blocked(sys, busy)
    ensures Blocked(sys, top)
    ensures forall u :: Blocked(sys, u) ==> !Less(lower, Wanted(sys, top), Wanted(sys, u))
  {
    var blocked := set u | u in sys.threads && Blocked(sys, u);
    var wanted := set b | b in blocked :: Wanted(sys, b);
    assert Wanted(sys, busy) in wanted;
    var largest := LargestName(lower, wanted);
    top :| top in blocked && Wanted(sys, top) == largest;
    forall u | Blocked(sys, u) ensures Wanted(sys, u) in wanted {
      assert u in blocked;
    }
  }

  /** If any thread is blocked, whoever blocks the one wanting the largest name can go on. */
  lemma BlockerAdvances(lower: Lower, sys: System, busy: Thread) returns (t: Thread)
    requires Ordered(lower, sys) && Settled(sys) && Blocked(sys, busy)
    ensures CanAdvance(sys, t)
  {
    var top := LargestBlocked(lower, sys, busy);
    t := sys.owner[Wants(PhaseOf(sys, top)).value];
    WaitsAscends(lower, sys, top, t);
    IdleAdvancingOrBlocked(sys, t);
  }

  /** In every state such runs reach, if any thread is busy, some thread can go on without giving up. */
  lemma SomeThreadAdvances(lower: Lower, events: seq<Event>, busy: Thread) returns (t: Thread)
    requires DirectRun(lower, EMPTY, events)
    ensures ValidRun(lower, EMPTY, events)
    ensures !PhaseOf(RunTo(lower, EMPTY, events), busy).Idle? ==> CanAdvance(RunTo(lower, EMPTY, events), t)
  {
    DirectRunSettled(lower, EMPTY, events);
    var sys := RunTo(lower, EMPTY, events);
    RunOrdered(lower, EMPTY, events);
    IdleAdvancingOrBlocked(sys, busy);
    if CanAdvance(sys, busy) || PhaseOf(sys, busy).Idle? {
      t := busy;
    } else {
      t := BlockerAdvances(lower, sys, busy);
    }
  }

  /** Whoever gives up an acquisition, or releases what it has, is left with no lock at all, and nobody else's
      locks change. */
  lemma ReleasesAll(lower: Lower, sys: System, t: Thread, ev: Event, u: Thread)
    requires Ordered(lower, sys) && ev in {Timeout(t), Release(t)} && Enabled(sys, ev) && u != t
    ensures var now := Next(lower, sys, ev);
      && PhaseOf(now, t).Idle? && (forall lock :: lock in now.owner ==> now.owner[lock] != t)
      && (forall lock :: lock in now.owner && now.owner[lock] == u <==> lock in sys.owner && sys.owner[lock] == u)
      && PhaseOf(now, u) == PhaseOf(sys, u)
  {}

  // ---- mutual exclusion ----

  predicate IsFetched(p: Phase, lock: Lock) {
    (p.Acquiring? && p.fetched == Some(lock)) || (p.Reentering? && p.wanted == lock)
  }

  /** Every lock in use, or fetched in order to be used, is the one in the dictionary. */
  ghost predicate Tabled(sys: System) {
    forall t, lock :: t in sys.threads && (lock in Held(sys.threads[t]) || IsFetched(sys.threads[t], lock)) ==>
      lock.name in sys.table && sys.table[lock.name] == lock
  }

  /** No thread is between fetching the friend's lock and acquiring it. */
  ghost predicate NoFetchPending(sys: System, name: Name) {
    forall t, lock :: t in sys.threads && IsFetched(sys.threads[t], lock) ==> lock.name != name
  }

  /** Nobody has the friend's lock in the dictionary, and nobody is about to take it. */
  ghost predicate Unused(sys: System, name: Name) {
    NoFetchPending(sys, name) && (name in sys.table ==> sys.table[name] !in sys.owner)
  }

  /** Putting a thread in another phase with no lock that is not in the dictionary. */
  lemma PhaseTabled(sys: System, t: Thread, p: Phase)
    requires Tabled(sys)
    requires forall lock :: lock in Held(p) || IsFetched(p, lock) ==>
      (t in sys.threads && (lock in Held(sys.threads[t]) || IsFetched(sys.threads[t], lock)))
      || (lock.name in sys.table && sys.table[lock.name] == lock)
    ensures Tabled(SetPhase(sys, t, p))
  {}

  /** Only the dictionary and the phases matter, and locks may be added to the dictionary. */
  lemma FetchTabled(sys: System, name: Name)
    requires Tabled(sys)
    ensures Tabled(WithFetched(sys, name))
  {}

  lemma StepTabled(lower: Lower, sys: System, ev: Event)
    requires Ordered(lower, sys) && Tabled(sys) && Enabled(sys, ev)
    requires ev.Cleanup? ==> Unused(sys, ev.name)
    ensures Tabled(Next(lower, sys, ev))
  {
    match ev
    case Begin(t, names) => PhaseTabled(sys, t, Acquiring([], Canonical(lower, names), None));
    case Fetch(t) =>
      FetchTabled(sys, PhaseOf(sys, t).todo[0]);
      PhaseTabled(WithFetched(sys, PhaseOf(sys, t).todo[0]), t, PhaseOf(Next(lower, sys, ev), t));
    case Reenter(t, name) =>
      FetchTabled(sys, name);
      PhaseTabled(WithFetched(sys, name), t, PhaseOf(Next(lower, sys, ev), t));
    case Cleanup(_, name) => CleanupTabled(sys, name);
    case _ => OwnTabled(lower, sys, ev);
  }

  lemma CleanupTabled(sys: System, name: Name)
    requires Tabled(sys) && Unused(sys, name)
    requires forall t, lock :: t in sys.threads && lock in Held(sys.threads[t]) ==> lock in sys.owner
    ensures Tabled(sys.(table := sys.table - {name}))
  {}

  lemma OwnTabled(lower: Lower, sys: System, ev: Event)
    requires Tabled(sys) && Enabled(sys, ev) && !ev.Cleanup? && !ev.Fetch? && !ev.Reenter? && !ev.Begin?
    ensures Tabled(Next(lower, sys, ev))
  {
    var now, p := Next(lower, sys, ev), PhaseOf(sys, ev.t);
    assert forall lock :: lock in Held(PhaseOf(now, ev.t)) ==> lock in Held(p) || IsFetched(p, lock);
  }

  /** Cleanup, which probes with a reentrant lock and so passes for a lock of the cleaning thread itself,
      keeps the dictionary in step with the locks in use exactly when nobody has or has fetched it. */
  lemma CleanupExact(lower: Lower, sys: System, t: Thread, name: Name)
    requires Ordered(lower, sys) && Tabled(sys) && Enabled(sys, Cleanup(t, name))
    ensures Tabled(Next(lower, sys, Cleanup(t, name))) <==> Unused(sys, name)
  {
    if Unused(sys, name) {
      StepTabled(lower, sys, Cleanup(t, name));
    }
  }

  ghost predicate SafeRun(lower: Lower, sys: System, events: seq<Event>)
    decreases |events|
  {
    events == [] ||
    (Enabled(sys, events[0]) && (events[0].Cleanup? ==> Unused(sys, events[0].name))
     && SafeRun(lower, Next(lower, sys, events[0]), events[1..]))
  }

  /** While the dictionary has every lock in use, a re-entry finds the thread's own. */
  lemma TabledDirect(sys: System, ev: Event)
    requires Tabled(sys) && Enabled(sys, ev)
    ensures Direct(sys, ev)
  {
    if ev.Reenter? {
      var p := PhaseOf(sys, ev.t);
      var lock :| lock in p.held && lock.name == ev.name;
      assert sys.table[ev.name] == lock;
    }
  }

  /** Runs whose cleanups remove only unused locks keep dictionary and locks in step, so their re-entries are
      direct and they cannot deadlock. */
  lemma {:induction false} SafeRunTabled(lower: Lower, sys: System, events: seq<Event>)
    requires Ordered(lower, sys) && Tabled(sys) && Settled(sys) && SafeRun(lower, sys, events)
    ensures ValidRun(lower, sys, events) && Ordered(lower, RunTo(lower, sys, events)) && Tabled(RunTo(lower, sys, events))
    ensures DirectRun(lower, sys, events) && Settled(RunTo(lower, sys, events))
    decreases |events|
  {
    if events != [] {
      var next := SafeStep(lower, sys, events[0]);
      SafeRunTabled(lower, next, events[1..]);
    }
  }

  lemma SafeStep(lower: Lower, sys: System, ev: Event) returns (next: System)
    requires Ordered(lower, sys) && Tabled(sys) && Settled(sys) && Enabled(sys, ev)
    requires ev.Cleanup? ==> Unused(sys, ev.name)
    ensures next == Next(lower, sys, ev) && Direct(sys, ev) && Ordered(lower, next) && Tabled(next) && Settled(next)
  {
    next := Next(lower, sys, ev);
    TabledDirect(sys, ev);
    StepOrdered(lower, sys, ev);
    StepTabled(lower, sys, ev);
    SettledStep(lower, sys, ev);
  }

  /** On every run whose cleanups remove only unused locks, at most one thread holds a lock for a friend. */
  lemma MutualExclusion(lower: Lower, events: seq<Event>, t: Thread, u: Thread, a: Lock, b: Lock)
    requires SafeRun(lower, EMPTY, events)
    ensures ValidRun(lower, EMPTY, events)
    ensures var sys := RunTo(lower, EMPTY, events);
      a in Held(PhaseOf(sys, t)) && b in Held(PhaseOf(sys, u)) && a.name == b.name ==> t == u && a == b
  {
    SafeRunTabled(lower, EMPTY, events);
    var sys := RunTo(lower, EMPTY, events);
    if a in Held(PhaseOf(sys, t)) && b in Held(PhaseOf(sys, u)) && a.name == b.name {
      assert sys.table[a.name] == a && sys.table[b.name] == b;
      assert sys.owner[a] == t && sys.owner[b] == u;
    }
  }

  // ---- exactly when a cleanup breaks it ----

  /** Two threads hold locks for the same friend. */
  ghost predicate Broken(sys: System) {
    exists t, u, a, b :: HoldBoth(sys, t, u, a, b)
  }

  ghost predicate HoldBoth(sys: System, t: Thread, u: Thread, a: Lock, b: Lock) {
    t != u && a in Held(PhaseOf(sys, t)) && b in Held(PhaseOf(sys, u)) && a.name == b.name
  }

  /** Lock serials are handed out in order. */
  ghost predicate Numbered(sys: System) {
    forall lock :: lock in sys.owner ==> lock.serial < sys.next
  }

  ghost predicate FetchedNumbered(sys: System) {
    && (forall name :: name in sys.table ==> sys.table[name].serial < sys.next)
    && (forall t, lock :: t in sys.threads && IsFetched(sys.threads[t], lock) ==> lock.serial < sys.next)
  }

  lemma StepNumbered(lower: Lower, sys: System, ev: Event)
    requires Numbered(sys) && FetchedNumbered(sys) && Enabled(sys, ev)
    ensures Numbered(Next(lower, sys, ev)) && FetchedNumbered(Next(lower, sys, ev))
  {
    var now := Next(lower, sys, ev);
    forall t, lock | t in now.threads && IsFetched(now.threads[t], lock) ensures lock.serial < now.next {
      if t in sys.threads && IsFetched(sys.threads[t], lock) {
        assert lock.serial < sys.next;
      }
    }
  }

  /** There is always a thread that has not been seen yet. */
  lemma {:induction false} UnseenThread(seen: set<Thread>) returns (u: Thread)
    ensures forall t :: t in seen ==> t < u
    decreases |seen|
  {
    if seen == {} {
      u := 0;
    } else {
      var t :| t in seen;
      var v := UnseenThread(seen - {t});
      u := if t < v then v else t + 1;
      forall x | x in seen ensures x < u {
        assert x == t || x in seen - {t};
      }
    }
  }

  /** A thread not seen before takes a lock for a name that is not in the dictionary. */
  function Taking(u: Thread, name: Name): seq<Event> {
    [Begin(u, [name]), Fetch(u), Acquire(u)]
  }

  function AfterTaking(sys: System, u: Thread, name: Name): System {
    var lock := Lock(name, sys.next);
    System(sys.table[name := lock], sys.next + 1, sys.owner[lock := u], sys.threads[u := Acquiring([lock], [], None)])
  }

  lemma TakesNewLock(lower: Lower, sys: System, u: Thread, name: Name)
    requires u !in sys.threads && name !in sys.table && Numbered(sys)
    ensures SafeRun(lower, sys, Taking(u, name)) && ValidRun(lower, sys, Taking(u, name))
    ensures RunTo(lower, sys, Taking(u, name)) == AfterTaking(sys, u, name)
  {
    assert Canonical(lower, [name]) == [name];
    var s1 := Next(lower, sys, Begin(u, [name]));
    var s2 := Next(lower, s1, Fetch(u));
    var s3 := Next(lower, s2, Acquire(u));
    assert [] + [Lock(name, sys.next)] == [Lock(name, sys.next)] && [name][1..] == [];
    assert s3.threads == sys.threads[u := Acquiring([Lock(name, sys.next)], [], None)];
    assert s3 == AfterTaking(sys, u, name);
    SafeOne(lower, s2, Acquire(u), []);
    SafeOne(lower, s1, Fetch(u), [Acquire(u)]);
    SafeOne(lower, sys, Begin(u, [name]), [Fetch(u), Acquire(u)]);
  }

  lemma SafeOne(lower: Lower, sys: System, ev: Event, rest: seq<Event>)
    requires Enabled(sys, ev) && !ev.Cleanup? && SafeRun(lower, Next(lower, sys, ev), rest) && ValidRun(lower, Next(lower, sys, ev), rest)
    ensures SafeRun(lower, sys, [ev] + rest) && ValidRun(lower, sys, [ev] + rest)
    ensures RunTo(lower, sys, [ev] + rest) == RunTo(lower, Next(lower, sys, ev), rest)
  {
    assert ([ev] + rest)[1..] == rest;
  }

  /** A safe continuation after which two threads hold the same friend. */
  ghost predicate Breaks(lower: Lower, sys: System, events: seq<Event>) {
    SafeRun(lower, sys, events) && ValidRun(lower, sys, events) && Broken(RunTo(lower, sys, events))
  }

  /** The removed lock is somebody's: another thread takes a new one beside it. */
  lemma HeldLockBreaks(lower: Lower, sys: System, name: Name, t: Thread, lock: Lock) returns (events: seq<Event>)
    requires Numbered(sys) && name !in sys.table && t in sys.threads && lock in Held(sys.threads[t]) && lock.name == name
    ensures Breaks(lower, sys, events)
  {
    var u := UnseenThread(sys.threads.Keys);
    events := Taking(u, name);
    TakesNewLock(lower, sys, u, name);
    assert HoldBoth(AfterTaking(sys, u, name), t, u, lock, Lock(name, sys.next));
  }

  /** The removed lock is free but fetched: another thread takes a new one, and then the fetched one is taken. */
  lemma FetchedLockBreaks(lower: Lower, sys: System, name: Name, t: Thread, lock: Lock) returns (events: seq<Event>)
    requires Numbered(sys) && name !in sys.table && t in sys.threads && IsFetched(sys.threads[t], lock) && lock.name == name
    requires lock !in sys.owner && lock.serial < sys.next && sys.threads[t].Acquiring? && sys.threads[t].todo != []
    ensures Breaks(lower, sys, events)
  {
    var u := UnseenThread(sys.threads.Keys);
    TakesNewLock(lower, sys, u, name);
    var now := AfterTaking(sys, u, name);
    var ev := Acquire(t);
    SafeOne(lower, now, ev, []);
    SafeTwo(lower, sys, Taking(u, name), [ev]);
    assert [ev] + [] == [ev];
    events := Taking(u, name) + [ev];
    assert HoldBoth(Next(lower, now, ev), t, u, lock, Lock(name, sys.next));
  }

  lemma SafeTwo(lower: Lower, sys: System, first: seq<Event>, second: seq<Event>)
    requires SafeRun(lower, sys, first) && ValidRun(lower, sys, first)
    requires SafeRun(lower, RunTo(lower, sys, first), second) && ValidRun(lower, RunTo(lower, sys, first), second)
    ensures SafeRun(lower, sys, first + second) && ValidRun(lower, sys, first + second)
    ensures RunTo(lower, sys, first + second) == RunTo(lower, RunTo(lower, sys, first), second)
  {
    RunTwo(lower, sys, first, second);
    SafeAppend(lower, sys, first, second);
  }

  lemma {:induction false} SafeAppend(lower: Lower, sys: System, first: seq<Event>, second: seq<Event>)
    requires SafeRun(lower, sys, first) && ValidRun(lower, sys, first)
    requires SafeRun(lower, RunTo(lower, sys, first), second)
    ensures SafeRun(lower, sys, first + second)
    decreases |first|
  {
    if first == [] {
      assert first + second == second;
    } else {
      assert (first + second)[1..] == first[1..] + second;
      SafeAppend(lower, Next(lower, sys, first[0]), first[1..], second);
    }
  }

  lemma TabledNotBroken(lower: Lower, sys: System)
    requires Ordered(lower, sys) && Tabled(sys)
    ensures !Broken(sys)
  {
    forall t, u, a, b | a in Held(PhaseOf(sys, t)) && b in Held(PhaseOf(sys, u)) && a.name == b.name ensures t == u {
      assert sys.table[a.name] == a && sys.table[b.name] == b;
      assert sys.owner[a] == t && sys.owner[b] == u;
    }
  }

  /** In every state a safe run reaches: after a cleanup some safe continuation lets two threads hold the same
      friend if and only if somebody had the removed lock or had fetched it. */
  lemma CleanupBreaksIff(lower: Lower, events: seq<Event>, t: Thread, name: Name)
    requires SafeRun(lower, EMPTY, events)
    ensures ValidRun(lower, EMPTY, events)
    ensures var sys := RunTo(lower, EMPTY, events);
      Enabled(sys, Cleanup(t, name)) ==>
        ((exists more :: Breaks(lower, Next(lower, sys, Cleanup(t, name)), more)) <==> !Unused(sys, name))
  {
    SafeRunTabled(lower, EMPTY, events);
    var sys := RunTo(lower, EMPTY, events);
    if Enabled(sys, Cleanup(t, name)) {
      RunNumbered(lower, EMPTY, events);
      CleanupDecides(lower, sys, t, name);
    }
  }

  lemma {:induction false} RunNumbered(lower: Lower, sys: System, events: seq<Event>)
    requires Numbered(sys) && FetchedNumbered(sys) && ValidRun(lower, sys, events)
    ensures Numbered(RunTo(lower, sys, events)) && FetchedNumbered(RunTo(lower, sys, events))
    decreases |events|
  {
    if events != [] {
      StepNumbered(lower, sys, events[0]);
      RunNumbered(lower, Next(lower, sys, events[0]), events[1..]);
    }
  }

  lemma CleanupDecides(lower: Lower, sys: System, t: Thread, name: Name)
    requires Ordered(lower, sys) && Tabled(sys) && Settled(sys) && Numbered(sys) && FetchedNumbered(sys) && Enabled(sys, Cleanup(t, name))
    ensures (exists more :: Breaks(lower, Next(lower, sys, Cleanup(t, name)), more)) <==> !Unused(sys, name)
  {
    var now := Next(lower, sys, Cleanup(t, name));
    StepOrdered(lower, sys, Cleanup(t, name));
    if Unused(sys, name) {
      StepTabled(lower, sys, Cleanup(t, name));
      forall more ensures !Breaks(lower, now, more) {
        if SafeRun(lower, now, more) {
          SafeRunTabled(lower, now, more);
          TabledNotBroken(lower, RunTo(lower, now, more));
        }
      }
    } else {
      UsedLockBreaks(lower, sys, t, name);
    }
  }

  lemma UsedLockBreaks(lower: Lower, sys: System, t: Thread, name: Name)
    requires Ordered(lower, sys) && Tabled(sys) && Settled(sys) && Numbered(sys) && FetchedNumbered(sys) && Enabled(sys, Cleanup(t, name))
    requires !Unused(sys, name)
    ensures exists more :: Breaks(lower, Next(lower, sys, Cleanup(t, name)), more)
  {
    var now := Next(lower, sys, Cleanup(t, name));
    if sys.table[name] in sys.owner {
      var more := HeldLockBreaks(lower, now, name, t, sys.table[name]);
    } else {
      var v, lock :| v in sys.threads && IsFetched(sys.threads[v], lock) && lock.name == name;
      assert Orderly(lower, sys.threads[v]);
      assert lock == sys.table[name];
      var more := FetchedLockBreaks(lower, now, name, v, lock);
    }
  }

  /** A cleanup between another thread's fetch and its acquire lets two threads hold the same friend. */
  lemma RacingCleanup(lower: Lower, name: Name, t: Thread, u: Thread)
    requires t != u
    ensures var events := [Begin(t, [name]), Fetch(t), Cleanup(u, name), Begin(u, [name]), Fetch(u), Acquire(u), Acquire(t)];
      && ValidRun(lower, EMPTY, events)
      && var sys := RunTo(lower, EMPTY, events);
      Held(PhaseOf(sys, t)) == [Lock(name, 0)] && Held(PhaseOf(sys, u)) == [Lock(name, 1)]
  {
    var first := [Begin(t, [name]), Fetch(t), Cleanup(u, name)];
    var second := [Begin(u, [name]), Fetch(u), Acquire(u), Acquire(t)];
    FetchedThenCleaned(lower, name, t, u);
    BothAcquire(lower, name, t, u);
    RunTwo(lower, EMPTY, first, second);
    assert first + second == [Begin(t, [name]), Fetch(t), Cleanup(u, name), Begin(u, [name]), Fetch(u), Acquire(u), Acquire(t)];
  }

  /** Thread t has fetched lock 0 for the friend, and the dictionary has forgotten it. */
  function Orphaned(name: Name, t: Thread): System {
    System(map[], 1, map[], map[t := Acquiring([], [name], Some(Lock(name, 0)))])
  }

  lemma FetchedThenCleaned(lower: Lower, name: Name, t: Thread, u: Thread)
    ensures var events := [Begin(t, [name]), Fetch(t), Cleanup(u, name)];
      ValidRun(lower, EMPTY, events) && RunTo(lower, EMPTY, events) == Orphaned(name, t)
  {
    assert Canonical(lower, [name]) == [name];
    var s1 := Next(lower, EMPTY, Begin(t, [name]));
    var s2 := Next(lower, s1, Fetch(t));
    RunOne(lower, s2, Cleanup(u, name), []);
    RunOne(lower, s1, Fetch(t), [Cleanup(u, name)]);
    RunOne(lower, EMPTY, Begin(t, [name]), [Fetch(t), Cleanup(u, name)]);
    assert Next(lower, s2, Cleanup(u, name)) == Orphaned(name, t);
  }

  lemma BothAcquire(lower: Lower, name: Name, t: Thread, u: Thread)
    requires t != u
    ensures var events := [Begin(u, [name]), Fetch(u), Acquire(u), Acquire(t)];
      && ValidRun(lower, Orphaned(name, t), events)
      && var sys := RunTo(lower, Orphaned(name, t), events);
      Held(PhaseOf(sys, t)) == [Lock(name, 0)] && Held(PhaseOf(sys, u)) == [Lock(name, 1)]
  {
    assert Canonical(lower, [name]) == [name];
    var s4 := Next(lower, Orphaned(name, t), Begin(u, [name]));
    var s5 := Next(lower, s4, Fetch(u));
    var s6 := Next(lower, s5, Acquire(u));
    assert s6.owner == map[Lock(name, 1) := u];
    RunOne(lower, s6, Acquire(t), []);
    RunOne(lower, s5, Acquire(u), [Acquire(t)]);
    RunOne(lower, s4, Fetch(u), [Acquire(u), Acquire(t)]);
    RunOne(lower, Orphaned(name, t), Begin(u, [name]), [Fetch(u), Acquire(u), Acquire(t)]);
  }

  lemma {:induction false} RunTwo(lower: Lower, sys: System, first: seq<Event>, second: seq<Event>)
    requires ValidRun(lower, sys, first) && ValidRun(lower, RunTo(lower, sys, first), second)
    ensures ValidRun(lower, sys, first + second)
    ensures RunTo(lower, sys, first + second) == RunTo(lower, RunTo(lower, sys, first), second)
    decreases |first|
  {
    if first == [] {
      assert first + second == second;
    } else {
      assert (first + second)[1..] == first[1..] + second;
      RunTwo(lower, Next(lower, sys, first[0]), first[1..], second);
    }
  }

  lemma RunOne(lower: Lower, sys: System, ev: Event, rest: seq<Event>)
    requires Enabled(sys, ev) && ValidRun(lower, Next(lower, sys, ev), rest)
    ensures ValidRun(lower, sys, [ev] + rest) && RunTo(lower, sys, [ev] + rest) == RunTo(lower, Next(lower, sys, ev), rest)
  {
    assert ([ev] + rest)[1..] == rest;
  }

  lemma RunThree(lower: Lower, s0: System, a: Event, s1: System, b: Event, s2: System, c: Event)
    requires Enabled(s0, a) && s1 == Next(lower, s0, a) && Enabled(s1, b) && s2 == Next(lower, s1, b) && Enabled(s2, c)
    ensures ValidRun(lower, s0, [a, b, c]) && RunTo(lower, s0, [a, b, c]) == Next(lower, s2, c)
  {
    RunOne(lower, s2, c, []);
    RunOne(lower, s1, b, [c]);
    RunOne(lower, s0, a, [b, c]);
    assert [a] + [b, c] == [a, b, c] && [b] + [c] == [b, c] && [c] + [] == [c];
  }

  // ---- a deadlock through a cleanup of one's own lock ----

  /** t has the locks x and y, has cleaned up x, and u has taken the new lock of x and fetched that of y. */
  function Entangled(x: Name, y: Name, t: Thread, u: Thread): System {
    System(map[y := Lock(y, 1), x := Lock(x, 2)], 3,
           map[Lock(x, 0) := t, Lock(y, 1) := t, Lock(x, 2) := u],
           map[t := Holding([Lock(x, 0), Lock(y, 1)], []), u := Acquiring([Lock(x, 2)], [y], Some(Lock(y, 1)))])
  }

  /** t has both locks. */
  function BothHeld(x: Name, y: Name, t: Thread): System {
    System(map[x := Lock(x, 0), y := Lock(y, 1)], 2, map[Lock(x, 0) := t, Lock(y, 1) := t],
           map[t := Holding([Lock(x, 0), Lock(y, 1)], [])])
  }

  lemma CanonicalPair(lower: Lower, x: Name, y: Name)
    requires Less(lower, x, y)
    ensures Canonical(lower, [x, y]) == [x, y]
  {
    Total(lower, x, y);
    assert [x, y][1..] == [y] && [y][1..] == [];
    assert Canonical(lower, [y]) == [y];
    assert Canonical(lower, [x, y]) == Insert(lower, x, [y]);
  }

  /** A fetch of the next lock on the list. */
  lemma FetchStep(lower: Lower, sys: System, t: Thread, name: Name, rest: seq<Name>, held: seq<Lock>)
    requires PhaseOf(sys, t) == Acquiring(held, [name] + rest, None)
    ensures Enabled(sys, Fetch(t))
    ensures Next(lower, sys, Fetch(t))
         == SetPhase(WithFetched(sys, name), t, Acquiring(held, [name] + rest, Some(Fetched(sys, name))))
  {}

  /** Entering the fetched lock when it is free. */
  lemma AcquireStep(lower: Lower, sys: System, t: Thread, name: Name, rest: seq<Name>, held: seq<Lock>, lock: Lock)
    requires PhaseOf(sys, t) == Acquiring(held, [name] + rest, Some(lock)) && lock !in sys.owner
    ensures Enabled(sys, Acquire(t))
    ensures Next(lower, sys, Acquire(t)) == SetPhase(sys.(owner := sys.owner[lock := t]), t, Acquiring(held + [lock], rest, None))
  {
    assert ([name] + rest)[1..] == rest;
  }

  /** t has the lock of x and is about to fetch that of y. */
  function OneHeld(x: Name, y: Name, t: Thread): System {
    System(map[x := Lock(x, 0)], 1, map[Lock(x, 0) := t], map[t := Acquiring([Lock(x, 0)], [y], None)])
  }

  lemma TakesFirst(lower: Lower, x: Name, y: Name, t: Thread)
    requires Less(lower, x, y)
    ensures var events := [Begin(t, [x, y]), Fetch(t), Acquire(t)];
      ValidRun(lower, EMPTY, events) && RunTo(lower, EMPTY, events) == OneHeld(x, y, t)
  {
    CanonicalPair(lower, x, y);
    assert [x] + [y] == [x, y] && [] + [Lock(x, 0)] == [Lock(x, 0)];
    var s1 := Next(lower, EMPTY, Begin(t, [x, y]));
    FetchStep(lower, s1, t, x, [y], []);
    var s2 := Next(lower, s1, Fetch(t));
    AcquireStep(lower, s2, t, x, [y], [], Lock(x, 0));
    RunThree(lower, EMPTY, Begin(t, [x, y]), s1, Fetch(t), s2, Acquire(t));
  }

  lemma TakesSecond(lower: Lower, x: Name, y: Name, t: Thread)
    requires x != y
    ensures var events := [Fetch(t), Acquire(t), Finish(t)];
      ValidRun(lower, OneHeld(x, y, t), events) && RunTo(lower, OneHeld(x, y, t), events) == BothHeld(x, y, t)
  {
    var start := OneHeld(x, y, t);
    assert [y] + [] == [y] && [Lock(x, 0)] + [Lock(y, 1)] == [Lock(x, 0), Lock(y, 1)];
    FetchStep(lower, start, t, y, [], [Lock(x, 0)]);
    var s1 := Next(lower, start, Fetch(t));
    AcquireStep(lower, s1, t, y, [], [Lock(x, 0)], Lock(y, 1));
    var s2 := Next(lower, s1, Acquire(t));
    RunThree(lower, start, Fetch(t), s1, Acquire(t), s2, Finish(t));
  }

  /** t has cleaned up x, and u is about to fetch the lock of x. */
  function Removed(x: Name, y: Name, t: Thread, u: Thread): System {
    System(map[y := Lock(y, 1)], 2, map[Lock(x, 0) := t, Lock(y, 1) := t],
           map[t := Holding([Lock(x, 0), Lock(y, 1)], []), u := Acquiring([], [x, y], None)])
  }

  lemma CleansUp(lower: Lower, x: Name, y: Name, t: Thread, u: Thread)
    requires Less(lower, x, y) && t != u
    ensures var events := [Cleanup(t, x), Begin(u, [x, y])];
      ValidRun(lower, BothHeld(x, y, t), events) && RunTo(lower, BothHeld(x, y, t), events) == Removed(x, y, t, u)
  {
    Total(lower, x, y);
    CanonicalPair(lower, x, y);
    var start := BothHeld(x, y, t);
    var s1 := Next(lower, start, Cleanup(t, x));
    assert s1.table == map[y := Lock(y, 1)];
    RunOne(lower, s1, Begin(u, [x, y]), []);
    RunOne(lower, start, Cleanup(t, x), [Begin(u, [x, y])]);
  }

  lemma TakesRemoved(lower: Lower, x: Name, y: Name, t: Thread, u: Thread)
    requires x != y && t != u
    ensures var events := [Fetch(u), Acquire(u), Fetch(u)];
      ValidRun(lower, Removed(x, y, t, u), events) && RunTo(lower, Removed(x, y, t, u), events) == Entangled(x, y, t, u)
  {
    var start := Removed(x, y, t, u);
    assert [x] + [y] == [x, y] && [y] + [] == [y] && [] + [Lock(x, 2)] == [Lock(x, 2)];
    FetchStep(lower, start, u, x, [y], []);
    var s1 := Next(lower, start, Fetch(u));
    AcquireStep(lower, s1, u, x, [y], [], Lock(x, 2));
    var s2 := Next(lower, s1, Acquire(u));
    FetchStep(lower, s2, u, y, [], [Lock(x, 2)]);
    RunThree(lower, start, Fetch(u), s1, Acquire(u), s2, Fetch(u));
  }

  /** A thread that cleans up a lock it has and then enters the friend again can deadlock with another one,
      though both take their locks in order. */
  lemma OwnCleanupDeadlock(lower: Lower, x: Name, y: Name, t: Thread, u: Thread) returns (events: seq<Event>)
    requires Less(lower, x, y) && t != u
    ensures ValidRun(lower, EMPTY, events) && WaitPath(RunTo(lower, EMPTY, events), [t, u, t])
  {
    Total(lower, x, y);
    TakesFirst(lower, x, y, t);
    TakesSecond(lower, x, y, t);
    CleansUp(lower, x, y, t, u);
    TakesRemoved(lower, x, y, t, u);
    ReentryBlocks(lower, x, y, t, u);
    events := [Begin(t, [x, y]), Fetch(t), Acquire(t)];
    events := AndThen(lower, events, [Fetch(t), Acquire(t), Finish(t)]);
    events := AndThen(lower, events, [Cleanup(t, x), Begin(u, [x, y])]);
    events := AndThen(lower, events, [Fetch(u), Acquire(u), Fetch(u)]);
    events := AndThen(lower, events, [Reenter(t, x)]);
  }

  lemma AndThen(lower: Lower, first: seq<Event>, second: seq<Event>) returns (both: seq<Event>)
    requires ValidRun(lower, EMPTY, first) && ValidRun(lower, RunTo(lower, EMPTY, first), second)
    ensures ValidRun(lower, EMPTY, both) && RunTo(lower, EMPTY, both) == RunTo(lower, RunTo(lower, EMPTY, first), second)
  {
    both := first + second;
    RunTwo(lower, EMPTY, first, second);
  }

  lemma ReentryBlocks(lower: Lower, x: Name, y: Name, t: Thread, u: Thread)
    requires Less(lower, x, y) && t != u
    ensures ValidRun(lower, Entangled(x, y, t, u), [Reenter(t, x)])
    ensures WaitPath(RunTo(lower, Entangled(x, y, t, u), [Reenter(t, x)]), [t, u, t])
  {
    Total(lower, x, y);
    var sys := Entangled(x, y, t, u);
    assert Lock(x, 0) in sys.threads[t].held;
    RunOne(lower, sys, Reenter(t, x), []);
    assert [Reenter(t, x)] + [] == [Reenter(t, x)];
    var end := Next(lower, sys, Reenter(t, x));
    assert Waits(end, t, u) && Waits(end, u, t);
  }

  // ---- the multi-lock acquisition as code ----

  /** A reentrant lock's owner and how often it has entered. */
  datatype Hold = Hold(thread: Thread, count: nat)

  type Holds = map<Lock, Hold>

  predicate CanEnter(holds: Holds, lock: Lock, me: Thread) {
    lock in holds ==> holds[lock].thread == me
  }

  function Enter(holds: Holds, lock: Lock, me: Thread): Holds {
    holds[lock := Hold(me, (if lock in holds then holds[lock].count else 0) + 1)]
  }

  function Exit(holds: Holds, lock: Lock): Holds {
    if lock !in holds then holds
    else if holds[lock].count <= 1 then holds - {lock}
    else holds[lock := Hold(holds[lock].thread, holds[lock].count - 1)]
  }

  function EnterAll(holds: Holds, locks: seq<Lock>, me: Thread): Holds {
    if locks == [] then holds
    else Enter(EnterAll(holds, locks[..|locks| - 1], me), locks[|locks| - 1], me)
  }

  ghost predicate Counted(holds: Holds) {
    forall lock :: lock in holds ==> holds[lock].count >= 1
  }

  lemma ExitUndoesEnter(holds: Holds, lock: Lock, me: Thread)
    requires Counted(holds) && CanEnter(holds, lock, me)
    ensures Counted(Enter(holds, lock, me)) && Exit(Enter(holds, lock, me), lock) == holds
  {}

  /** Entering locks that were free or one's own leaves everybody else's holds as they were. */
  lemma {:induction false} EnterAllFrame(holds: Holds, locks: seq<Lock>, me: Thread)
    requires Counted(holds) && forall i :: 0 <= i < |locks| ==> CanEnter(holds, locks[i], me)
    ensures Counted(EnterAll(holds, locks, me))
    ensures forall lock :: CanEnter(EnterAll(holds, locks, me), lock, me) <==> CanEnter(holds, lock, me)
    ensures forall lock :: lock in EnterAll(holds, locks, me) <==> lock in holds || lock in locks
    ensures forall lock :: lock in holds && holds[lock].thread != me ==> EnterAll(holds, locks, me)[lock] == holds[lock]
  {
    if locks != [] {
      var front, last := locks[..|locks| - 1], locks[|locks| - 1];
      EnterAllFrame(holds, front, me);
      assert locks == front + [last];
    }
  }

  lemma EnterAllStep(holds: Holds, locks: seq<Lock>, i: nat, me: Thread)
    requires i < |locks|
    ensures EnterAll(holds, locks[..i + 1], me) == Enter(EnterAll(holds, locks[..i], me), locks[i], me)
  {
    assert locks[..i + 1][..i] == locks[..i];
  }

  /** The friend's lock is in the hands of another thread. */
  predicate TakenByOther(table: map<Name, Lock>, holds: Holds, name: Name, me: Thread) {
    name in table && !CanEnter(holds, table[name], me)
  }

  /** Dictionary and holds after entering, from `table0` and `holds0`, the locks of `names`. */
  ghost predicate Entered(table0: map<Name, Lock>, holds0: Holds, table: map<Name, Lock>, holds: Holds,
                          acquired: seq<Lock>, names: seq<Name>, me: Thread) {
    && |acquired| == |names| && holds == EnterAll(holds0, acquired, me)
    && (forall k :: 0 <= k < |names| ==> acquired[k].name == names[k] && CanEnter(holds0, acquired[k], me))
    && (forall n :: n in names ==> !TakenByOther(table0, holds0, n, me))
    && (forall n :: n in table && n !in names ==> n in table0)
    && (forall n :: n in table0 ==> n in table && table[n] == table0[n])
  }

  /** What the next lock says about the dictionary and holds at the start of the call. */
  lemma NextLock(table0: map<Name, Lock>, holds0: Holds, table: map<Name, Lock>, holds: Holds,
                 acquired: seq<Lock>, names: seq<Name>, me: Thread, name: Name, lock: Lock)
    requires Counted(holds0) && Entered(table0, holds0, table, holds, acquired, names, me) && name !in names
    requires if name in table then lock == table[name] else lock !in holds
    ensures Counted(holds)
    ensures CanEnter(holds, lock, me) <==> !TakenByOther(table0, holds0, name, me)
    ensures CanEnter(holds, lock, me) <==> CanEnter(holds0, lock, me)
  {
    EnterAllFrame(holds0, acquired, me);
  }

  lemma EnteredStep(table0: map<Name, Lock>, holds0: Holds, table: map<Name, Lock>, holds: Holds,
                    acquired: seq<Lock>, names: seq<Name>, me: Thread, name: Name, lock: Lock)
    requires Entered(table0, holds0, table, holds, acquired, names, me) && name !in names && lock.name == name
    requires name in table ==> lock == table[name]
    requires CanEnter(holds0, lock, me) && !TakenByOther(table0, holds0, name, me)
    ensures Entered(table0, holds0, table[name := lock], Enter(holds, lock, me), acquired + [lock], names + [name], me)
  {
    var more := acquired + [lock];
    assert more[..|more| - 1] == acquired;
  }

  lemma {:induction false} EnterAllCounts(holds: Holds, locks: seq<Lock>, me: Thread, lock: Lock)
    requires forall i, j :: 0 <= i < j < |locks| ==> locks[i] != locks[j]
    ensures lock in locks ==> lock in EnterAll(holds, locks, me) && EnterAll(holds, locks, me)[lock]
                                 == Hold(me, 1 + if lock in holds then holds[lock].count else 0)
    ensures lock !in locks ==> (lock in EnterAll(holds, locks, me) <==> lock in holds)
    ensures lock !in locks && lock in holds ==> EnterAll(holds, locks, me)[lock] == holds[lock]
  {
    if locks != [] {
      var front, last := locks[..|locks| - 1], locks[|locks| - 1];
      assert locks == front + [last];
      EnterAllCounts(holds, front, me, lock);
    }
  }

  /** After entering the canonical list every lock on it has been entered once more, by this thread. */
  lemma EnteredOnce(lower: Lower, names: seq<Name>, table0: map<Name, Lock>, holds0: Holds, table: map<Name, Lock>,
                    holds: Holds, acquired: seq<Lock>, me: Thread)
    requires Entered(table0, holds0, table, holds, acquired, Canonical(lower, names), me)
    ensures forall n :: n in names ==> exists lock :: lock in acquired && lock.name == n
    ensures forall lock :: lock in acquired ==>
      lock in holds && holds[lock] == Hold(me, 1 + if lock in holds0 then holds0[lock].count else 0)
  {
    var unique := Canonical(lower, names);
    CanonicalCorrect(lower, names);
    forall i, j | 0 <= i < j < |acquired| ensures acquired[i] != acquired[j] {
      Total(lower, unique[i], unique[j]);
    }
    forall lock | lock in acquired
      ensures lock in holds && holds[lock] == Hold(me, 1 + if lock in holds0 then holds0[lock].count else 0)
    {
      EnterAllCounts(holds0, acquired, me, lock);
    }
    forall n | n in names ensures exists lock :: lock in acquired && lock.name == n {
      var k :| 0 <= k < |unique| && unique[k] == n;
      assert acquired[k] in acquired;
    }
  }

  /** The lock dictionary and who has which lock, with no other thread moving during a call. */
  class LockTable {
    var table: map<Name, Lock>
    var next: nat
    var holds: Holds

    ghost predicate Valid()
      reads this
    {
      && Counted(holds)
      && (forall n :: n in table ==> table[n].name == n && table[n].serial < next)
      && (forall lock :: lock in holds ==> lock.serial < next)
    }

    constructor ()
      ensures Valid() && table == map[] && holds == map[]
    {
      table, next, holds := map[], 0, map[];
    }

    /** The friend's lock, created on first use; a new one is nobody's yet. */
    method GetFriendLock(name: Name) returns (lock: Lock)
      requires Valid()
      modifies this`table, this`next
      ensures Valid() && lock.name == name && lock.serial < next && table == old(table)[name := lock]
      ensures if name in old(table) then lock == old(table)[name] else lock !in holds
    {
      if name !in table {
        table := table[name := Lock(name, next)];
        next := next + 1;
      }
      lock := table[name];
    }

    /** One round of the loop below: fetch the lock and try to enter it. */
    method TryEnter(me: Thread, name: Name, ghost table0: map<Name, Lock>, ghost holds0: Holds,
                    ghost acquired: seq<Lock>, ghost names: seq<Name>) returns (r: Option<Lock>)
      requires Valid() && Counted(holds0) && name !in names
      requires Entered(table0, holds0, table, holds, acquired, names, me)
      modifies this
      ensures Valid()
      ensures r.None? ==> holds == old(holds) && TakenByOther(table0, holds0, name, me)
      ensures r.Some? ==> Entered(table0, holds0, table, holds, acquired + [r.value], names + [name], me)
    {
      var lock := GetFriendLock(name);
      NextLock(table0, holds0, old(table), holds, acquired, names, me, name, lock);
      if !CanEnter(holds, lock, me) {
        return None;
      }
      EnteredStep(table0, holds0, old(table), holds, acquired, names, me, name, lock);
      holds := Enter(holds, lock, me);
      r := Some(lock);
    }

    /** Enters the locks of the canonical list one by one; if one is another thread's, exits those
        already entered, last first, and fails. It fails exactly when some named friend's lock is
        another thread's, and then nothing is held that was not held before. */
    method AcquireFriendLocksOrdered(lower: Lower, me: Thread, names: seq<Name>) returns (r: Option<seq<Lock>>)
      requires Valid()
      modifies this
      ensures Valid()
      ensures r.None? ==> holds == old(holds) && exists n :: n in names && TakenByOther(old(table), old(holds), n, me)
      ensures r.Some? ==> Entered(old(table), old(holds), table, holds, r.value, Canonical(lower, names), me)
      ensures r.Some? ==> forall n :: n in names ==> !TakenByOther(old(table), old(holds), n, me)
      ensures r.Some? ==> forall n :: n in names ==> exists lock :: lock in r.value && lock.name == n
      ensures r.Some? ==> forall lock :: lock in r.value ==>
        && lock in holds && holds[lock].thread == me
        && holds[lock].count == 1 + if lock in old(holds) then old(holds)[lock].count else 0
    {
      var unique := Canonical(lower, names);
      CanonicalCorrect(lower, names);
      var acquired: seq<Lock> := [];
      for i := 0 to |unique|
        invariant Valid() && Entered(old(table), old(holds), table, holds, acquired, unique[..i], me)
      {
        NotBefore(lower, unique, i);
        var entered := TryEnter(me, unique[i], old(table), old(holds), acquired, unique[..i]);
        if entered.None? {
          assert unique[i] in names;
          GiveUp(me, acquired, old(holds));
          return None;
        }
        PrefixNext(unique, i);
        acquired := acquired + [entered.value];
      }
      assert unique[..|unique|] == unique;
      r := Some(acquired);
      EnteredOnce(lower, names, old(table), old(holds), table, holds, acquired, me);
    }

    /** Back to what was held when the locks were entered. */
    method GiveUp(me: Thread, acquired: seq<Lock>, ghost before: Holds)
      requires Valid() && Counted(before) && holds == EnterAll(before, acquired, me)
      requires forall k :: 0 <= k < |acquired| ==> CanEnter(before, acquired[k], me)
      modifies this`holds
      ensures Valid() && holds == before
    {
      EnterAllFrame(before, acquired, me);
      holds := ReleaseAll(holds, acquired, before, me);
    }

    /** Exits the locks in reverse order; `before` is what was held when they were entered. */
    static method ReleaseAll(holds: Holds, acquired: seq<Lock>, ghost before: Holds, ghost me: Thread) returns (released: Holds)
      requires Counted(before) && holds == EnterAll(before, acquired, me)
      requires forall k :: 0 <= k < |acquired| ==> CanEnter(before, acquired[k], me)
      ensures released == before
    {
      released := holds;
      assert acquired[..|acquired|] == acquired;
      for i := |acquired| downto 0
        invariant released == EnterAll(before, acquired[..i], me)
      {
        EnterAllStep(before, acquired, i, me);
        EnterAllFrame(before, acquired[..i], me);
        ExitUndoesEnter(EnterAll(before, acquired[..i], me), acquired[i], me);
        released := Exit(released, acquired[i]);
      }
    }
  }

  lemma PrefixNext(names: seq<Name>, i: nat)
    requires i < |names|
    ensures names[..i + 1] == names[..i] + [names[i]]
  {}

  /** In a strictly ascending list no name occurs before its place. */
  lemma NotBefore(lower: Lower, names: seq<Name>, i: nat)
    requires Ascending(lower, names) && i < |names|
    ensures names[i] !in names[..i]
  {
    if names[i] in names[..i] {
      var k :| 0 <= k < i && names[k] == names[i];
      Total(lower, names[k], names[i]);
    }
  }
}
