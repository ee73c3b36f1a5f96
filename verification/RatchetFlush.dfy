/** The write-back buffer step by step: a flush takes the buffer, writes its entries one at a time and puts
    the failed ones back, while other threads go on sending and receiving in between. */
module RatchetFlush {
  import opened Basics
  import opened RatchetKeys
  import opened Ratchet
  import opened RatchetEviction
  import opened RatchetPersistence

  /** A flush under way: entries still to be written, and entries whose write failed. */
  datatype Flight = Flight(left: map<string, Session>, failed: map<string, Session>)

  datatype Machine = Machine(store: Store, flight: Option<Flight>)

  datatype Event =
    | Take
    | Write(friend: string, ok: bool)
    | PutBack
    | Send(friend: string, plaintext: Bytes, nonce: nat, newPriv: Priv)
    | Receive(friend: string, header: Header, body: Ciphertext, newPriv: Priv)

  predicate Enabled(m: Machine, e: Event) {
    match e
    case Take => m.flight.None?
    case Write(friend, _) => m.flight.Some? && friend in m.flight.value.left
    case PutBack => m.flight.Some? && m.flight.value.left == map[]
    case _ => true
  }

  function Next(m: Machine, e: Event): Machine
    requires Enabled(m, e)
  {
    match e
    case Take => Machine(m.store.(dirty := map[]), Some(Flight(m.store.dirty, map[])))
    case Write(friend, ok) =>
      var fl := m.flight.value;
      if ok then Machine(m.store.(friends := SaveRow(m.store.friends, friend, fl.left[friend])), Some(fl.(left := fl.left - {friend})))
      else Machine(m.store, Some(Flight(fl.left - {friend}, fl.failed[friend := fl.left[friend]])))
    case PutBack => Machine(m.store.(dirty := m.store.dirty + m.flight.value.failed), None)
    case Send(friend, p, n, k) => m.(store := Serve(m.store, friend, EncryptCall(p, n, k)).store)
    case Receive(friend, h, c, k) => m.(store := Serve(m.store, friend, DecryptCall(h, c, k)).store)
  }

  predicate ValidRun(m: Machine, events: seq<Event>)
    decreases |events|
  {
    events == [] || (Enabled(m, events[0]) && ValidRun(Next(m, events[0]), events[1..]))
  }

  function Run(m: Machine, events: seq<Event>): Machine
    requires ValidRun(m, events)
    decreases |events|
  {
    if events == [] then m else Run(Next(m, events[0]), events[1..])
  }

  // ---- a whole flush ----

  /** Writes of one flush, and operations in between. */
  predicate Between(e: Event) {
    !e.Take? && !e.PutBack?
  }

  function FailedWrites(events: seq<Event>): set<string> {
    if events == [] then {}
    else (if events[0].Write? && !events[0].ok then {events[0].friend} else {}) + FailedWrites(events[1..])
  }

  /** The entries handled so far are in the table, or kept as failed, by one fixed set of failing friends. */
  ghost predicate Progress(m: Machine, rows: map<string, Option<Session>>, taken: map<string, Session>, failing: set<string>) {
    && m.flight.Some?
    && var left := m.flight.value.left;
    && left.Keys <= taken.Keys && (forall f :: f in left ==> left[f] == taken[f])
    && m.store.friends == SavedRows(Store(rows, Handled(taken, left.Keys)), failing)
    && m.flight.value.failed == Unsaved(Handled(taken, left.Keys), failing)
  }

  lemma WriteProgress(m: Machine, rows: map<string, Option<Session>>, taken: map<string, Session>, failing: set<string>, friend: string, ok: bool)
    requires Progress(m, rows, taken, failing) && Enabled(m, Write(friend, ok)) && (ok <==> friend !in failing)
    ensures Progress(Next(m, Write(friend, ok)), rows, taken, failing)
  {
    var left := m.flight.value.left;
    assert (left - {friend}).Keys == left.Keys - {friend};
    if ok {
      SaveStep(rows, taken, left.Keys, failing, friend);
    } else {
      KeepStep(rows, taken, left.Keys, failing, friend);
    }
  }

  /** Each friend's entry is written once, so one set says which writes fail. */
  predicate Decided(events: seq<Event>, failing: set<string>) {
    forall e <- events :: e.Write? ==> (e.ok <==> e.friend !in failing)
  }

  lemma {:induction false} WritesProgress(m: Machine, events: seq<Event>, rows: map<string, Option<Session>>, taken: map<string, Session>, failing: set<string>)
    requires Progress(m, rows, taken, failing) && ValidRun(m, events) && Decided(events, failing) && forall e <- events :: Between(e)
    ensures Progress(Run(m, events), rows, taken, failing)
    decreases |events|
  {
    if events != [] {
      var e := events[0];
      assert e in events && Between(e);
      if e.Write? {
        WriteProgress(m, rows, taken, failing, e.friend, e.ok);
      }
      WritesProgress(Next(m, e), events[1..], rows, taken, failing);
    }
  }

  /** A friend written is not written again in the same flush. */
  lemma {:induction false} WrittenOnce(m: Machine, events: seq<Event>, friend: string)
    requires ValidRun(m, events) && m.flight.Some? && friend !in m.flight.value.left && forall e <- events :: Between(e)
    ensures forall e <- events :: e.Write? ==> e.friend != friend
    decreases |events|
  {
    if events != [] {
      assert events[0] in events && Between(events[0]);
      WrittenOnce(Next(m, events[0]), events[1..], friend);
      assert events == [events[0]] + events[1..];
    }
  }

  lemma {:induction false} WritesDecided(m: Machine, events: seq<Event>)
    requires ValidRun(m, events) && m.flight.Some? && forall e <- events :: Between(e)
    ensures Decided(events, FailedWrites(events))
    ensures forall e <- events :: e.Write? && !e.ok ==> e.friend in FailedWrites(events)
    ensures forall f :: f in FailedWrites(events) ==> exists e :: e in events && e.Write? && e.friend == f
    decreases |events|
  {
    if events != [] {
      var e, rest := events[0], events[1..];
      assert events == [e] + rest && e in events && Between(e);
      WritesDecided(Next(m, e), rest);
      if e.Write? {
        WrittenOnce(Next(m, e), rest, e.friend);
      }
    }
  }

  /** Whatever happens between taking the buffer and putting the failed entries back, the table ends with the
      entries whose write succeeded, and the buffer with what was buffered meanwhile under the failed ones. */
  lemma FlushIsFlushedDuring(store: Store, events: seq<Event>)
    requires ValidRun(Machine(store, None), [Take] + events + [PutBack]) && forall e <- events :: Between(e)
    ensures ValidRun(Machine(store, None), [Take] + events)
    ensures var before := Run(Machine(store, None), [Take] + events);
      Run(Machine(store, None), [Take] + events + [PutBack])
      == Machine(FlushedDuring(store, FailedWrites(events), before.store.dirty), None)
  {
    var start, taken := Machine(store, None), store.dirty;
    var m := Next(start, Take);
    SplitRun(start, [Take] + events, [PutBack]);
    SplitRun(start, [Take], events);
    assert [Take][1..] == [];
    assert Run(start, [Take]) == m;
    NoneHandled(store.friends, taken, FailedWrites(events));
    WritesDecided(m, events);
    WritesProgress(m, events, store.friends, taken, FailedWrites(events));
    PutBackEnds(Run(m, events), store.friends, taken, FailedWrites(events));
    assert [PutBack][1..] == [];
  }

  lemma PutBackEnds(m: Machine, rows: map<string, Option<Session>>, taken: map<string, Session>, failing: set<string>)
    requires Progress(m, rows, taken, failing) && Enabled(m, PutBack)
    ensures Next(m, PutBack) == Machine(FlushedDuring(Store(rows, taken), failing, m.store.dirty), None)
  {
    AllHandled(rows, taken, failing);
    assert m.flight.value.left.Keys == {} && Handled(taken, {}) == taken;
  }

  lemma {:induction false} SplitRun(m: Machine, first: seq<Event>, second: seq<Event>)
    requires ValidRun(m, first + second)
    ensures ValidRun(m, first) && ValidRun(Run(m, first), second)
    ensures Run(m, first + second) == Run(Run(m, first), second)
    decreases |first|
  {
    if first == [] {
      assert first + second == second;
    } else {
      assert (first + second)[1..] == first[1..] + second;
      SplitRun(Next(m, first[0]), first[1..], second);
    }
  }

  // ---- one buffered state through any number of flush steps ----

  predicate Touches(e: Event, friend: string) {
    (e.Send? || e.Receive?) && e.friend == friend
  }

  predicate Untouched(events: seq<Event>, friend: string) {
    forall e <- events :: !Touches(e, friend)
  }

  /** The friend's entry has been written to its row. */
  predicate Written(events: seq<Event>, friend: string) {
    Write(friend, true) in events
  }

  predicate Copies(m: map<string, Session>, friend: string, s: Session) {
    friend in m ==> m[friend] == s
  }

  /** Every copy of the friend's state in buffer and flush is s; the row holds s if it was written, and otherwise
      what it held before, and then some copy is left to be written. */
  predicate Tracked(m: Machine, friend: string, row: Option<Session>, s: Session, written: bool) {
    && friend in m.store.friends && m.store.friends[friend] == (if written then Some(s) else row)
    && Copies(m.store.dirty, friend, s)
    && (m.flight.Some? ==> Copies(m.flight.value.left, friend, s) && Copies(m.flight.value.failed, friend, s))
    && (!written ==> friend in m.store.dirty
                     || (m.flight.Some? && (friend in m.flight.value.left || friend in m.flight.value.failed)))
  }

  lemma StepTracked(m: Machine, e: Event, friend: string, row: Option<Session>, s: Session, written: bool)
    requires Tracked(m, friend, row, s, written) && Enabled(m, e) && !Touches(e, friend)
    ensures Tracked(Next(m, e), friend, row, s, written || e == Write(friend, true))
  {}

  /** No buffered state is lost: through any flush steps, and operations on other friends, it is in its row or
      still buffered, and the row changes only when it is written. */
  lemma {:induction false} RunTracked(m: Machine, events: seq<Event>, friend: string, row: Option<Session>, s: Session, written: bool)
    requires Tracked(m, friend, row, s, written) && ValidRun(m, events) && Untouched(events, friend)
    ensures Tracked(Run(m, events), friend, row, s, written || Written(events, friend))
    decreases |events|
  {
    if events != [] {
      var e, rest := events[0], events[1..];
      assert events == [e] + rest && e in events;
      StepTracked(m, e, friend, row, s, written);
      RunTracked(Next(m, e), rest, friend, row, s, written || e == Write(friend, true));
    }
  }

  /** A send answered on machine m. */
  function SendReply(m: Machine, friend: string, p: Bytes, n: nat, k: Priv): Reply<(Header, Ciphertext)> {
    Serve(m.store, friend, EncryptCall(p, n, k)).reply
  }

  predicate NotInFlight(m: Machine, friend: string) {
    m.flight.Some? ==> friend !in m.flight.value.left && friend !in m.flight.value.failed
  }

  lemma NonceUsed(s: Session, p: Bytes, n: nat, k: Priv)
    requires Encrypt(s, p, n, k).result.Ok?
    ensures var c := Encrypt(s, p, n, k).result.value.1; c.Sealed? && c.nonce == n
  {}

  /** Two sends to a friend, with any flush steps and any operations on other friends in between: they are sealed
      under the same key if and only if the first one's state was not yet written when the second one loaded,
      and the session had a sending chain or both drew the same key pair. */
  lemma SendReuseIff(m: Machine, friend: string, p1: Bytes, n1: nat, k1: Priv, events: seq<Event>, p2: Bytes, n2: nat, k2: Priv)
    requires Load(m.store, friend).Some? && SendReply(m, friend, p1, n1, k1).Reply? && NotInFlight(m, friend)
    requires ValidRun(Next(m, Send(friend, p1, n1, k1)), events) && Untouched(events, friend)
    ensures var a, b := SendReply(m, friend, p1, n1, k1), SendReply(Run(Next(m, Send(friend, p1, n1, k1)), events), friend, p2, n2, k2);
      && (!Written(events, friend) ==> b.Reply?)
      && (b.Reply? ==>
            (b.value.1.key == a.value.1.key
             <==> !Written(events, friend) && (Load(m.store, friend).value.sendKey.Some? || k1 == k2))
            && (SameKeystream(a.value.1, b.value.1) <==> b.value.1.key == a.value.1.key && n1 == n2))
  {
    var first, s := Next(m, Send(friend, p1, n1, k1)), Load(m.store, friend).value;
    var row, after := m.store.friends[friend], Encrypt(s, p1, n1, k1).state;
    RunTracked(first, events, friend, row, after, false);
    SameStateKey(s, p1, n1, k1, p2, n2, k2);
    var end := Run(first, events);
    if Written(events, friend) {
      assert Load(end.store, friend) == Some(Forgot(after));
      if SendReply(end, friend, p2, n2, k2).Reply? {
        NextStateKey(s, p1, n1, k1, p2, n2, k2);
        NonceUsed(Forgot(after), p2, n2, k2);
      }
    } else {
      assert Load(end.store, friend) == Some(s);
    }
  }
}
