/**
  Call sequences a caller of the countdown goes through, with the values it
  observes, derived from the controller's contracts alone.
 */
module Scenarios {
  import opened Optional
  import opened JsNumber
  import opened Types
  import opened Time
  import opened Reducer
  import opened Hook

  /** Start, pause, resume, pause and an argument-less reset on a 60-second countdown. */
  method BasicUsage() returns (started: State, paused: State, resumed: State, reset: State)
    ensures started == State(60, Running) && paused == State(60, Paused)
    ensures resumed == State(60, Running) && reset == State(60, Idle)
  {
    var c := new Countdown(Finite(60.0));
    c.Start();
    started := c.store.Snapshot();
    c.Pause();
    paused := c.store.Snapshot();
    c.Resume();
    resumed := c.store.Snapshot();
    c.Pause();
    c.Reset(None);
    reset := c.store.Snapshot();
  }

  /** A reset while running is not sent: phase and count stay as they were. */
  method ResetWhileRunningIsIgnored() returns (s: State)
    ensures s == State(60, Running)
  {
    var c := new Countdown(Finite(60.0));
    c.Start();
    c.Reset(None);
    s := c.store.Snapshot();
  }

  /**
    A restart while idle is not sent, yet its duration is remembered: the
    next argument-less reset arms the countdown with it.
   */
  method RestartWhileIdleStillRemembers() returns (s: State, remembered: int, reset: State)
    ensures s == State(60, Idle) && remembered == 30
    ensures reset == State(30, Idle)
  {
    var c := new Countdown(Finite(60.0));
    c.Restart(Some(Finite(30.0)));
    s := c.store.Snapshot();
    remembered := c.remembered;
    c.Reset(None);
    reset := c.store.Snapshot();
  }

  /** Five seconds run a 5-second countdown to completion; a reset re-arms it. */
  method CompleteAndReset() returns (completed: State, reset: State)
    ensures completed == State(0, Completed)
    ensures reset == State(5, Idle)
  {
    var c := new Countdown(Finite(5.0));
    c.Start();
    c.Tick();
    c.Tick();
    c.Tick();
    c.Tick();
    c.Tick();
    completed := c.store.Snapshot();
    c.Reset(None);
    reset := c.store.Snapshot();
  }

  /** `reset(0)` is read as "no argument": it re-arms with the remembered duration, not with 1. */
  method ResetWithZeroFallsBack() returns (s: State, remembered: int)
    ensures s == State(10, Idle) && remembered == 10
  {
    var c := new Countdown(Finite(10.0));
    c.Start();
    c.Pause();
    c.Reset(Some(Finite(0.0)));
    s := c.store.Snapshot();
    remembered := c.remembered;
  }

  /** A request above the maximum is clamped and shows as 99 days exactly. */
  method OverlongRequestShowsMaximum() returns (c: Clock)
    ensures c == Clock(8553600, 99, 0, 0, 0)
  {
    ValidateAboveMaximum(Finite(10000000.0));
    MaximumDecomposes();
    var countdown := new Countdown(Finite(10000000.0));
    c := countdown.Display();
  }
}
