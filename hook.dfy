/**
  The countdown controller: it owns the reducer's state record and a
  separately remembered initial duration, sends actions only from the
  phases that permit them, and is driven one second at a time by `Tick`.
 */
module Hook {
  import opened Optional
  import opened JsNumber
  import opened Types
  import opened Time
  import opened Reducer

  /** What the controller shows: the remaining total and its split. */
  datatype Clock = Clock(totalSeconds: int, days: int, hours: int, minutes: int, seconds: int)

  /**
    One second of the driving loop: the timer, armed only while running,
    sends Tick; then, if the count has run out while still running,
    Complete is sent.
   */
  function TickStep(s: State): (r: State)
    ensures s.state != Running ==> r == s
    ensures s.state == Running && s.seconds > 1 ==> r == State(s.seconds - 1, Running)
    ensures s.state == Running && s.seconds <= 1 ==> r == State(0, Completed)
  {
    var ticked := if s.state == Running then Reduce(s, Action.Tick) else s;
    if ticked.seconds <= 0 && ticked.state == Running then Reduce(ticked, Action.Complete) else ticked
  }

  /** The state after `k` seconds of the driving loop. */
  function AfterTicks(s: State, k: nat): State
    decreases k
  {
    if k == 0 then s else AfterTicks(TickStep(s), k - 1)
  }

  /** Before the count runs out, each second takes exactly one off it. */
  lemma {:induction false} CountsDown(n: int, k: nat)
    requires k < n
    ensures AfterTicks(State(n, Running), k) == State(n - k, Running)
  {
    if k > 0 {
      CountsDown(n - 1, k - 1);
    }
  }

  /** Outside Running the driving loop changes nothing. */
  lemma {:induction false} IdleTicksChangeNothing(s: State, k: nat)
    requires s.state != Running
    ensures AfterTicks(s, k) == s
  {
    if k > 0 {
      IdleTicksChangeNothing(s, k - 1);
    }
  }

  /**
    Started from `n` seconds, the countdown has completed at zero after
    `n` seconds and stays there however long the loop goes on.
   */
  lemma {:induction false} RunsToCompletion(n: int, k: nat)
    requires 1 <= n <= k
    ensures AfterTicks(State(n, Running), k) == State(0, Completed)
  {
    CountsDown(n, n - 1);
    AfterTicksSplit(State(n, Running), n - 1, k - (n - 1));
    IdleTicksChangeNothing(State(0, Completed), k - n);
  }

  /** Running `i` seconds and then `j` more is running `i + j` seconds. */
  lemma {:induction false} AfterTicksSplit(s: State, i: nat, j: nat)
    ensures AfterTicks(s, i + j) == AfterTicks(AfterTicks(s, i), j)
    decreases i
  {
    if i > 0 {
      AfterTicksSplit(TickStep(s), i - 1, j);
    }
  }

  /** The controller: the reducer's record plus the remembered initial duration. */
  class Countdown {
    const store: Store
    var remembered: int

    /**
      The remembered duration is always a validated one; the count is never
      negative nor above the maximum, and it is zero exactly when completed.
     */
    ghost predicate Valid()
      reads this, store
    {
      && MIN_SECONDS <= remembered <= MAX_SECONDS
      && 0 <= store.seconds <= MAX_SECONDS
      && (store.state == Completed <==> store.seconds == 0)
    }

    constructor (initialSeconds: Number)
      ensures Valid() && fresh(store)
      ensures store.seconds == ValidateInitialSeconds(initialSeconds) && store.state == Idle
      ensures remembered == ValidateInitialSeconds(initialSeconds)
    {
      var validated := ValidateInitialSeconds(initialSeconds);
      remembered := validated;
      store := new Store(State(validated, Idle));
    }

    /** Validates a new duration and remembers it, without touching the count. */
    method SetInitialSeconds(newInitialSeconds: Number)
      requires Valid()
      modifies this
      ensures Valid()
      ensures remembered == ValidateInitialSeconds(newInitialSeconds)
    {
      remembered := ValidateInitialSeconds(newInitialSeconds);
    }

    /** Starts an idle countdown; from any other phase nothing happens. */
    method Start()
      requires Valid()
      modifies store
      ensures Valid()
      ensures old(store.state) == Idle ==> store.state == Running && store.seconds == old(store.seconds)
      ensures old(store.state) != Idle ==> store.Snapshot() == old(store.Snapshot())
    {
      if store.state == Idle {
        store.Dispatch(Action.Start);
      }
    }

    /** Pauses a running countdown; from any other phase nothing happens. */
    method Pause()
      requires Valid()
      modifies store
      ensures Valid()
      ensures old(store.state) == Running ==> store.state == Paused && store.seconds == old(store.seconds)
      ensures old(store.state) != Running ==> store.Snapshot() == old(store.Snapshot())
    {
      if store.state == Running {
        store.Dispatch(Action.Pause);
      }
    }

    /** Resumes a paused countdown; from any other phase nothing happens. */
    method Resume()
      requires Valid()
      modifies store
      ensures Valid()
      ensures old(store.state) == Paused ==> store.state == Running && store.seconds == old(store.seconds)
      ensures old(store.state) != Paused ==> store.Snapshot() == old(store.Snapshot())
    {
      if store.state == Paused {
        store.Dispatch(Action.Start);
      }
    }

    /**
      Re-arms the countdown as idle with the given duration, or with the
      remembered one when the argument is falsy. A truthy argument is
      remembered even while running, when the count itself is left alone.
     */
    method Reset(newInitialSeconds: Option<Number>)
      requires Valid()
      modifies this, store
      ensures Valid()
      ensures remembered == if Truthy(newInitialSeconds)
                            then ValidateInitialSeconds(newInitialSeconds.value) else old(remembered)
      ensures old(store.state) == Running ==> store.Snapshot() == old(store.Snapshot())
      ensures old(store.state) != Running ==> store.state == Idle && store.seconds == remembered
    {
      var updatedInitialSeconds :=
        if Truthy(newInitialSeconds) then ValidateInitialSeconds(newInitialSeconds.value) else remembered;
      if Truthy(newInitialSeconds) {
        ValidateIdempotent(newInitialSeconds.value);
        SetInitialSeconds(Finite(updatedInitialSeconds as real));
      }
      if store.state != Running {
        store.Dispatch(Action.Reset(updatedInitialSeconds));
      }
    }

    /**
      Re-arms the countdown as running with the given duration, or with the
      remembered one when the argument is falsy. A truthy argument is
      remembered even while idle, when the count itself is left alone.
     */
    method Restart(newInitialSeconds: Option<Number>)
      requires Valid()
      modifies this, store
      ensures Valid()
      ensures remembered == if Truthy(newInitialSeconds)
                            then ValidateInitialSeconds(newInitialSeconds.value) else old(remembered)
      ensures old(store.state) == Idle ==> store.Snapshot() == old(store.Snapshot())
      ensures old(store.state) != Idle ==> store.state == Running && store.seconds == remembered
    {
      var requested := if Truthy(newInitialSeconds) then newInitialSeconds.value else Finite(remembered as real);
      ValidateTruncatesInRange(Finite(remembered as real));
      var updatedInitialSeconds := ValidateInitialSeconds(requested);
      if Truthy(newInitialSeconds) {
        ValidateIdempotent(newInitialSeconds.value);
        SetInitialSeconds(Finite(updatedInitialSeconds as real));
      }
      if store.state != Idle {
        store.Dispatch(Action.Restart(updatedInitialSeconds));
      }
    }

    /**
      One second of the driving loop. While running it takes exactly one off
      the count, and completes the countdown when that reaches zero. The
      timer's Tick and the completion check run as one step here, so the
      render in between, at zero seconds and still running, is not modelled.
     */
    method Tick()
      requires Valid()
      modifies store
      ensures Valid()
      ensures store.Snapshot() == TickStep(old(store.Snapshot()))
      ensures old(store.state) == Running ==> store.seconds == old(store.seconds) - 1
      ensures old(store.state) == Running ==> (store.state == Completed <==> old(store.seconds) == 1)
    {
      if store.state == Running {
        store.Dispatch(Action.Tick);
      }
      if store.seconds <= 0 && store.state == Running {
        store.Dispatch(Action.Complete);
      }
    }

    /** The values shown to the caller, derived from the remaining total. */
    function Display(): (c: Clock)
      reads this, store
      requires Valid()
      ensures c.totalSeconds == store.seconds
      ensures 0 <= c.days <= MAX_DAYS && 0 <= c.hours < 24 && 0 <= c.minutes < 60 && 0 <= c.seconds < 60
      ensures c.days * SECONDS_IN_A_DAY + c.hours * SECONDS_IN_AN_HOUR
            + c.minutes * SECONDS_IN_A_MINUTE + c.seconds == c.totalSeconds
    {
      DecomposeRoundTrip(store.seconds);
      Clock(store.seconds, GetDays(store.seconds), GetHours(store.seconds),
            GetMinutes(store.seconds), GetSeconds(store.seconds))
    }
  }
}
