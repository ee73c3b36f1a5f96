/** Password backoff as a timed machine, services/auth_manager.py with the stored lockout row that
    security/lockout.py shares. Every attempt sleeps first; the question is how long guessing takes. */
module Lockout {
  import opened Basics

  datatype Account = Account(failures: nat, lockedUntil: real)

  const CLEAN := Account(0, 0.0)

  /** The object's fields, the stored row and the clock. */
  datatype Machine = Machine(account: Account, stored: Option<Account>, duress: bool, now: real)

  const BACKOFF_TABLE: seq<nat> := [0, 0, 0, 0, 0, 5, 10, 30, 60, 120, 300, 600, 1800, 3600]
  const HARD_LOCKOUT_THRESHOLD: nat := 15
  const HARD_LOCKOUT_DURATION: real := 3600.0

  function Backoff(failures: nat): real {
    BACKOFF_TABLE[if failures < 13 then failures else 13] as real
  }

  /** Remaining hard lockout, or the table's entry in full, however long ago the last failure was. */
  function Delay(a: Account, now: real): (d: real)
    ensures d >= 0.0
  {
    if a.lockedUntil > now then a.lockedUntil - now else Backoff(a.failures)
  }

  datatype Verdict = Master | Duress | Wrong

  function Judge(masterOk: bool, duressOk: bool): Verdict {
    if masterOk then Master else if duressOk then Duress else Wrong
  }

  function Failed(a: Account, now: real): Account {
    var failures := a.failures + 1;
    Account(failures, if failures >= HARD_LOCKOUT_THRESHOLD then now + HARD_LOCKOUT_DURATION else a.lockedUntil)
  }

  function Save(m: Machine, saved: bool): Machine {
    if saved then m.(stored := Some(m.account)) else m
  }

  function Row(stored: Option<Account>, readable: bool): Account {
    if readable && stored.Some? then stored.value else CLEAN
  }

  /** One attempt: sleep, spend some time deriving keys, then record the verdict. */
  function Attempt(m: Machine, verdict: Verdict, spent: real, saved: bool): Machine {
    var now := m.now + Delay(m.account, m.now) + spent;
    if verdict == Wrong then Save(m.(account := Failed(m.account, now), now := now), saved)
    else Save(m.(account := CLEAN, duress := verdict == Duress, now := now), saved)
  }

  datatype Event =
    | Try(verdict: Verdict, spent: real, saved: bool)
    | Idle(spent: real)
    | Restart(spent: real, readable: bool)

  function Next(m: Machine, e: Event): Machine {
    match e
    case Try(verdict, spent, saved) => Attempt(m, verdict, spent, saved)
    case Idle(spent) => m.(now := m.now + spent)
    case Restart(spent, readable) =>
      m.(account := Row(m.stored, readable), duress := false, now := m.now + spent)
  }

  function Run(m: Machine, events: seq<Event>): Machine
    decreases |events|
  {
    if events == [] then m else Run(Next(m, events[0]), events[1..])
  }

  function WrongTries(events: seq<Event>): nat {
    if events == [] then 0
    else (if events[0].Try? && events[0].verdict == Wrong then 1 else 0) + WrongTries(events[1..])
  }

  predicate Successful(e: Event) {
    e.Try? && e.verdict != Wrong
  }

  /** The time of the next verdict, if the next attempt starts now. */
  function Earliest(m: Machine): real {
    m.now + Delay(m.account, m.now)
  }

  /** The first k entries of the table, its last entry repeated. */
  function Total(k: nat): real {
    if k == 0 then 0.0 else Total(k - 1) + Backoff(k - 1)
  }

  lemma BackoffMonotone(f: nat, g: nat)
    requires f <= g
    ensures Backoff(f) <= Backoff(g) <= HARD_LOCKOUT_DURATION
  {
  }

  lemma {:induction false} TotalClosed(k: nat)
    requires k >= 13
    ensures Total(k) == 2925.0 + 3600.0 * (k - 13) as real
  {
    if k == 13 {
      assert Total(5) == 0.0;
      assert Total(9) == 105.0;
    } else {
      TotalClosed(k - 1);
    }
  }

  /** The entries of the table. */
  lemma BackoffTable(f: nat)
    ensures f < 5 ==> Backoff(f) == 0.0
    ensures Backoff(5) == 5.0 && Backoff(6) == 10.0 && Backoff(7) == 30.0 && Backoff(8) == 60.0 && Backoff(9) == 120.0
    ensures Backoff(10) == 300.0 && Backoff(11) == 600.0 && Backoff(12) == 1800.0
    ensures f >= 13 ==> Backoff(f) == 3600.0
  {}

  /** The verdict of a wrong try comes after the delay and the work; the next one, tried after some idling, at the
      end of a hard lockout if the try was the fifteenth or a later one and the lockout still runs, and otherwise
      the table's delay after it is tried. Restored hard lockouts count until they end. */
  lemma NextVerdict(m: Machine, spent: real, saved: bool, idle: real)
    requires spent >= 0.0 && idle >= 0.0
    ensures var t := Attempt(m, Wrong, spent, saved);
      var tried := t.now + idle;
      && t.now == Earliest(m) + spent && t.account.failures == m.account.failures + 1 && t.duress == m.duress
      && Earliest(Next(t, Idle(idle)))
         == if t.account.failures >= 15
            then (if idle < 3600.0 then t.now + 3600.0 else tried + 3600.0)
            else tried + Backoff(t.account.failures)
  {}

  /** The right password, or the duress password, also waits for the delay, and then clears failures and lockout: the
      next attempt is not delayed. */
  lemma SuccessClears(m: Machine, verdict: Verdict, spent: real, saved: bool, idle: real)
    requires verdict != Wrong && spent >= 0.0 && idle >= 0.0 && m.now >= 0.0
    ensures var t := Attempt(m, verdict, spent, saved);
      && t.now == Earliest(m) + spent && t.account.failures == 0 && t.duress == (verdict == Duress)
      && Earliest(Next(t, Idle(idle))) == t.now + idle
      && (if saved then t.stored.Some? && t.stored.value.failures == 0 && t.stored.value.lockedUntil == 0.0
          else t.stored == m.stored)
  {}

  /** Waiting longer before an attempt never brings its verdict forward. */
  lemma EarliestMonotone(m: Machine, spent: real)
    requires spent >= 0.0
    ensures Earliest(m.(now := m.now + spent)) >= Earliest(m)
  {
  }

  /** j failures since time t0, and the next verdict at least Total(j + 1) after it. */
  predicate Paced(m: Machine, t0: real, j: nat) {
    m.account.failures >= j && m.now >= t0 + Total(j) && Earliest(m) >= t0 + Total(j + 1)
  }

  // ---- restarts ----

  /** The row brings back at least as many failures as memory holds, and no hard lockout that ends earlier
      than the delay in memory. */
  predicate AsStrict(m: Machine, row: Account, now: real) {
    && row.failures >= m.account.failures
    && (row.lockedUntil > now ==> row.lockedUntil >= Earliest(m) || row.lockedUntil >= m.now + Backoff(m.account.failures))
  }

  /** A restart keeps every pace the machine has if and only if the row it finds is as strict as memory. */
  lemma RestartKeepsPaceIff(m: Machine, spent: real, readable: bool)
    requires spent >= 0.0
    ensures (forall t0, j :: Paced(m, t0, j) ==> Paced(Next(m, Restart(spent, readable)), t0, j))
       <==> AsStrict(m, Row(m.stored, readable), m.now + spent)
  {
    var next, row, f := Next(m, Restart(spent, readable)), Row(m.stored, readable), m.account.failures;
    if AsStrict(m, row, m.now + spent) {
      forall t0, j | Paced(m, t0, j) ensures Paced(next, t0, j) {
        RestartPaced(m, spent, readable, t0, j);
      }
    } else {
      var t0 := if Earliest(m) <= m.now + Backoff(f) then Earliest(m) - Total(f + 1) else m.now - Total(f);
      assert Total(f + 1) == Total(f) + Backoff(f);
      assert Paced(m, t0, f);
      if row.failures >= f {
        assert Earliest(next) == row.lockedUntil;
      }
      assert !Paced(next, t0, f);
    }
  }

  lemma RestartPaced(m: Machine, spent: real, readable: bool, t0: real, j: nat)
    requires spent >= 0.0 && AsStrict(m, Row(m.stored, readable), m.now + spent) && Paced(m, t0, j)
    ensures Paced(Next(m, Restart(spent, readable)), t0, j)
  {
    var row := Row(m.stored, readable);
    BackoffMonotone(j, m.account.failures);
    BackoffMonotone(j, row.failures);
    assert Total(j + 1) == Total(j) + Backoff(j);
  }

  /** What a step needs to keep the pace: time does not go back, and a restart finds a row as strict as memory.
      Whether a try writes the row does not matter until a restart reads it. */
  predicate Keeps(m: Machine, e: Event) {
    e.spent >= 0.0 && (e.Restart? ==> AsStrict(m, Row(m.stored, e.readable), m.now + e.spent))
  }

  predicate KeepingRun(m: Machine, events: seq<Event>)
    decreases |events|
  {
    events == [] || (Keeps(m, events[0]) && KeepingRun(Next(m, events[0]), events[1..]))
  }

  lemma StepPaced(m: Machine, e: Event, t0: real, j: nat)
    requires Paced(m, t0, j) && Keeps(m, e) && !Successful(e)
    ensures Paced(Next(m, e), t0, if e.Try? then j + 1 else j)
  {
    var next := Next(m, e);
    match e
    case Try(_, spent, _) =>
      BackoffMonotone(j + 1, next.account.failures);
      assert next.now == Earliest(m) + spent;
    case Idle(spent) => EarliestMonotone(m, spent);
    case Restart(spent, readable) => RestartPaced(m, spent, readable, t0, j);
  }

  lemma {:induction false} RunPaced(m: Machine, events: seq<Event>, t0: real, j: nat)
    requires Paced(m, t0, j) && KeepingRun(m, events) && forall e <- events :: !Successful(e)
    ensures Paced(Run(m, events), t0, j + WrongTries(events))
    decreases |events|
  {
    if events != [] {
      assert events[0] in events;
      StepPaced(m, events[0], t0, j);
      RunPaced(Next(m, events[0]), events[1..], t0, if events[0].Try? then j + 1 else j);
    }
  }

  /** From any state, k consecutive failed guesses with idling and restarts between them take at least the
      first k backoff entries, the last repeated, if every restart finds a row as strict as memory. */
  lemma GuessingTakes(m: Machine, guesses: seq<Event>)
    requires KeepingRun(m, guesses) && forall e <- guesses :: !Successful(e)
    ensures var k := WrongTries(guesses);
            Run(m, guesses).now - m.now >= Total(k)
            && (k >= 13 ==> Run(m, guesses).now - m.now >= 2925.0 + 3600.0 * (k - 13) as real)
  {
    assert Total(0) == 0.0 && Total(1) == 0.0;
    RunPaced(m, guesses, m.now, 0);
    if WrongTries(guesses) >= 13 {
      TotalClosed(WrongTries(guesses));
    }
  }

  // ---- working storage ----

  /** A restart would bring back exactly the account in memory. */
  predicate Synced(m: Machine) {
    Row(m.stored, true) == m.account
  }

  /** Time does not go back, writes and reads of the row succeed. */
  predicate Regular(e: Event) {
    e.spent >= 0.0 && (e.Try? ==> e.saved) && (e.Restart? ==> e.readable)
  }

  /** With storage that works every restart finds such a row, successes included. */
  lemma {:induction false} WorkingStorageKeeps(m: Machine, events: seq<Event>)
    requires Synced(m) && forall e <- events :: Regular(e)
    ensures KeepingRun(m, events) && Synced(Run(m, events))
    decreases |events|
  {
    if events != [] {
      assert events[0] in events;
      WorkingStorageKeeps(Next(m, events[0]), events[1..]);
    }
  }

  /** And so does a process that is never restarted, whether or not any write succeeds. */
  lemma {:induction false} NoRestartKeeps(m: Machine, events: seq<Event>)
    requires forall e <- events :: e.spent >= 0.0 && !e.Restart?
    ensures KeepingRun(m, events)
    decreases |events|
  {
    if events != [] {
      assert events[0] in events;
      NoRestartKeeps(Next(m, events[0]), events[1..]);
    }
  }

  /** k wrong tries back to back, every one saved. */
  function Burst(k: nat): seq<Event> {
    if k == 0 then [] else Burst(k - 1) + [Try(Wrong, 0.0, true)]
  }

  lemma {:induction false} RunAppend(m: Machine, events: seq<Event>, e: Event)
    ensures Run(m, events + [e]) == Next(Run(m, events), e)
    ensures WrongTries(events + [e]) == WrongTries(events) + WrongTries([e])
    decreases |events|
  {
    if events == [] {
      assert [] + [e] == [e];
      assert [e][1..] == [];
    } else {
      assert (events + [e])[1..] == events[1..] + [e];
      RunAppend(Next(m, events[0]), events[1..], e);
    }
  }

  /** The bound is exact: from a clean account, k immediate guesses take that long and no longer. */
  lemma {:induction false} BurstTakesExactly(now: real, k: nat)
    requires now >= 0.0
    ensures var m := Run(Machine(CLEAN, None, false, now), Burst(k));
            m.now == now + Total(k) && m.account.failures == k
            && Earliest(m) == now + Total(k + 1) && WrongTries(Burst(k)) == k
  {
    var start := Machine(CLEAN, None, false, now);
    if k > 0 {
      BurstTakesExactly(now, k - 1);
      RunAppend(start, Burst(k - 1), Try(Wrong, 0.0, true));
      var before, after := Run(start, Burst(k - 1)), Run(start, Burst(k));
      assert after == Next(before, Try(Wrong, 0.0, true));
      BackoffMonotone(0, k);
    }
  }

  /** Why the row must be kept: when writes fail, or the row cannot be read back, restarting between
      guesses makes any number of them free. */
  function Forgetful(k: nat, saved: bool): seq<Event> {
    if k == 0 then [] else Forgetful(k - 1, saved) + [Try(Wrong, 0.0, saved)] + [Restart(0.0, !saved)]
  }

  lemma {:induction false} ForgottenGuessesAreFree(m: Machine, k: nat, saved: bool)
    requires m.account == CLEAN && m.stored == None && m.now >= 0.0
    ensures var after := Run(m, Forgetful(k, saved));
            after.now == m.now && after.account == CLEAN && (!saved ==> after.stored == None)
    ensures WrongTries(Forgetful(k, saved)) == k
  {
    if k > 0 {
      var events, try := Forgetful(k - 1, saved), Try(Wrong, 0.0, saved);
      ForgottenGuessesAreFree(m, k - 1, saved);
      RunAppend(m, events, try);
      RunAppend(m, events + [try], Restart(0.0, !saved));
    }
  }

  /** The object; its fields are those the key store holds, and the stored row is the settings table's. */
  class AuthManager {
    var failedAttempts: nat
    var lockedUntil: real
    var duressMode: bool
    var stored: Option<Account>
    var clock: real

    function State(): Machine
      reads this
    {
      Machine(Account(failedAttempts, lockedUntil), stored, duressMode, clock)
    }

    constructor (stored: Option<Account>, clock: real)
      ensures State() == Machine(CLEAN, stored, false, clock)
    {
      failedAttempts, lockedUntil, duressMode := 0, 0.0, false;
      this.stored, this.clock := stored, clock;
    }

    method LoadLockoutState(readable: bool)
      modifies this
      ensures State() == old(State()).(account := Row(old(stored), readable))
      ensures readable && old(stored).Some? ==>
        failedAttempts == old(stored).value.failures && lockedUntil == old(stored).value.lockedUntil
      ensures !readable || old(stored).None? ==> failedAttempts == 0 && lockedUntil == 0.0
    {
      if readable && stored.Some? {
        failedAttempts, lockedUntil := stored.value.failures, stored.value.lockedUntil;
      } else {
        failedAttempts, lockedUntil := 0, 0.0;
      }
    }

    method SaveLockoutState(saved: bool)
      modifies this
      ensures State() == Save(old(State()), saved)
    {
      if saved {
        stored := Some(Account(failedAttempts, lockedUntil));
      }
    }

    method VerifyPassword(masterOk: bool, duressOk: bool, spent: real, saved: bool)
      returns (valid: bool, duress: bool)
      modifies this
      ensures State() == Attempt(old(State()), Judge(masterOk, duressOk), spent, saved)
      ensures valid == (masterOk || duressOk) && duress == (!masterOk && duressOk)
      ensures valid ==> failedAttempts == 0 && lockedUntil == 0.0 && duressMode == duress
      ensures !valid ==>
        && failedAttempts == old(failedAttempts) + 1 && duressMode == old(duressMode)
        && lockedUntil == if failedAttempts >= 15 then clock + 3600.0 else old(lockedUntil)
      ensures stored == if saved then Some(Account(failedAttempts, lockedUntil)) else old(stored)
    {
      clock := clock + Delay(Account(failedAttempts, lockedUntil), clock);
      clock := clock + spent;
      if masterOk {
        failedAttempts, lockedUntil, duressMode := 0, 0.0, false;
        SaveLockoutState(saved);
        return true, false;
      }
      if duressOk {
        failedAttempts, lockedUntil, duressMode := 0, 0.0, true;
        SaveLockoutState(saved);
        return true, true;
      }
      failedAttempts := failedAttempts + 1;
      if failedAttempts >= HARD_LOCKOUT_THRESHOLD {
        lockedUntil := clock + HARD_LOCKOUT_DURATION;
      }
      SaveLockoutState(saved);
      return false, false;
    }
  }
}
