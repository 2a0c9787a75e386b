/** That the retry counter of the VPN Azure client can wrap around, and how long that takes. */
module AzureRetry {
  import opened Text
  import opened AzureProtocol
  import opened AzureSafety
  import opened AzureTheorems
  import opened AzureDisable

  /** Switched on, but without an address to connect to, at the top of its loop. */
  predicate Idle(s: State) {
    && s.main.pc.LoopTop? && s.shared.enabled && !s.shared.halt && s.shared.status == s.shared.statusCopy == EmptyStatus
    && s.main.lastRevision == s.shared.ipRevision
    && s.main.timer.last <= s.clock && s.main.timer.interval <= MAX_RETRY_INTERVAL && s.main.timer.retries < UINT_LIMIT
  }

  /** The main thread alone. */
  function MainSteps(n: nat): seq<Event> {
    if n == 0 then [] else [MainStep(true, 0)] + MainSteps(n - 1)
  }

  lemma RunMain(s: State, n: nat)
    ensures Run(s, MainSteps(n)) == if n == 0 then s else Run(StepMain(s, true, 0), MainSteps(n - 1))
  {
    hide StepMain;
    if n > 0 {
      assert MainSteps(n)[1..] == MainSteps(n - 1);
    }
  }

  /** From the test of the flag to the timer. */
  lemma ToTheTimer(s: State)
    requires s.main.pc.ReadEnabled? && s.shared.enabled && s.shared.status == s.shared.statusCopy == EmptyStatus
    ensures var u := Run(s, MainSteps(3));
            && u == s.(main := u.main) && u.main.pc.PollTimer? && u.main.now == s.main.now && u.main.st == EmptyStatus
            && u.main.lastRevision == s.shared.ipRevision
            && u.main.timer == if s.main.lastRevision == s.shared.ipRevision then s.main.timer else ResetRetries(s.main.timer)
  {
    hide Run, MainSteps;
    var s1 := StepMain(s, true, 0);
    assert s1.main.pc.TakeSnapshot? && s1 == s.(main := s1.main);
    var s2 := StepMain(s1, true, 0);
    assert s2.shared == s.shared;
    assert s2.main.pc.ReadRevision? && s2 == s.(main := s2.main) && s2.main.timer == s.main.timer;
    var s3 := StepMain(s2, true, 0);
    hide StepMain;
    RunMain(s, 3);
    RunMain(s1, 2);
    RunMain(s2, 1);
    RunMain(s3, 0);
  }

  /** The timer fires if it is due; then the loop begins again. */
  lemma FromTheTimer(s: State)
    requires s.main.pc.PollTimer? && TimerDue(s.main.timer, s.main.now) && s.main.st == EmptyStatus && !s.shared.halt
    ensures var u := Run(s, MainSteps(3));
            && u == s.(main := u.main) && u.main.pc.LoopTop? && u.main.timer == FireTimer(s.main.timer, s.main.now, 0)
            && u.main.lastRevision == s.main.lastRevision
  {
    hide Run, MainSteps, FireTimer;
    var s1 := StepMain(s, true, 0);
    assert s1.main.pc.Decide? && s1 == s.(main := s1.main);
    var s2 := StepMain(s1, true, 0);
    assert s2.main.pc.LoopEnd? && s2 == s.(main := s2.main);
    var s3 := StepMain(s2, true, 0);
    hide StepMain;
    RunMain(s, 3);
    RunMain(s1, 2);
    RunMain(s2, 1);
    RunMain(s3, 0);
  }

  /** One pass through the loop, without an address, when the timer is due. */
  lemma Pass(s: State)
    requires s.main.pc.ReadEnabled? && s.shared.enabled && !s.shared.halt && s.shared.status == s.shared.statusCopy == EmptyStatus
    requires TimerDue(s.main.timer, s.main.now)
    ensures var u := Run(s, MainSteps(3) + MainSteps(3));
            && u == s.(main := u.main) && u.main.pc.LoopTop? && u.main.lastRevision == s.shared.ipRevision
            && u.main.timer == FireTimer(if s.main.lastRevision == s.shared.ipRevision then s.main.timer else ResetRetries(s.main.timer), s.main.now, 0)
  {
    hide Run, MainSteps, FireTimer;
    RunAppends(s, MainSteps(3), MainSteps(3));
    ToTheTimer(s);
    FromTheTimer(Run(s, MainSteps(3)));
  }

  /** An hour later the loop runs once more and the timer fires. */
  lemma OneRound(s: State) returns (events: seq<Event>)
    requires Idle(s) && s.clock + 2 * MAX_RETRY_INTERVAL < UINT64_LIMIT
    ensures var u := Run(s, events);
            && Idle(u) && u.clock == s.clock + MAX_RETRY_INTERVAL && u.main.timer == FireTimer(s.main.timer, u.clock, 0)
  {
    var wake := [Elapse(MAX_RETRY_INTERVAL), MainStep(true, 0)];
    events := wake + (MainSteps(3) + MainSteps(3));
    RunAppends(s, wake, MainSteps(3) + MainSteps(3));
    Wakes(s);
    hide Run, MainSteps, FireTimer;
    Pass(Run(s, wake));
    IntervalIsCapped(s.main.timer, Run(s, wake).clock);
  }

  lemma Wakes(s: State)
    requires Idle(s) && s.clock + 2 * MAX_RETRY_INTERVAL < UINT64_LIMIT
    ensures var u := Run(s, [Elapse(MAX_RETRY_INTERVAL), MainStep(true, 0)]);
            && u.clock == s.clock + MAX_RETRY_INTERVAL && u.shared == s.shared
            && u.main == s.main.(pc := ReadEnabled, now := u.clock) && TimerDue(u.main.timer, u.main.now)
  {
    RunTwo(s, Elapse(MAX_RETRY_INTERVAL), MainStep(true, 0));
    hide Run;
  }

  lemma IntervalIsCapped(t: Timer, now: nat)
    ensures var u := FireTimer(t, now, 0); u.interval <= MAX_RETRY_INTERVAL && u.retries == (t.retries + 1) % UINT_LIMIT && u.last == now
  {
  }

  lemma {:induction false} Rounds(s: State, n: nat) returns (events: seq<Event>)
    requires Idle(s) && s.main.timer.retries + n < UINT_LIMIT && s.clock + (n + 1) * MAX_RETRY_INTERVAL < UINT64_LIMIT
    ensures var u := Run(s, events);
            && Idle(u) && u.clock == s.clock + n * MAX_RETRY_INTERVAL && u.main.timer.retries == s.main.timer.retries + n
    decreases n
  {
    if n == 0 {
      events := [];
    } else {
      var first := OneRound(s);
      IntervalIsCapped(s.main.timer, s.clock + MAX_RETRY_INTERVAL);
      hide Idle, FireTimer, Run;
      var rest := Rounds(Run(s, first), n - 1);
      events := first + rest;
      RunAppends(s, first, rest);
    }
  }

  lemma FirstRound(clock: nat) returns (events: seq<Event>)
    requires ValidStart(clock)
    ensures var u := Run(Init(clock), events); Idle(u) && u.clock == clock && u.main.timer.retries == 1
  {
    hide Run, MainSteps, Idle, Step;
    var on := SwitchOn(clock);
    events := on + (MainSteps(3) + MainSteps(3));
    RunAppends(Init(clock), on, MainSteps(3) + MainSteps(3));
    FirstPass(Run(Init(clock), on));
  }

  lemma FirstPass(s: State)
    requires s.main.pc.ReadEnabled? && s.shared.enabled && !s.shared.halt && s.shared.status == s.shared.statusCopy == EmptyStatus
    requires s.main.timer == FreshTimer && s.main.lastRevision != s.shared.ipRevision && s.main.now == s.clock
    ensures var u := Run(s, MainSteps(3) + MainSteps(3)); Idle(u) && u.clock == s.clock && u.main.timer.retries == 1
  {
    hide Run, MainSteps, FireTimer;
    Pass(s);
    IntervalIsCapped(ResetRetries(s.main.timer), s.main.now);
  }

  /** There is a run in which the interval is 0: the client is switched on, never gets an address, and its
      timer fires 2^32 times. */
  lemma IntervalCanBeZero(clock: nat) returns (events: seq<Event>)
    requires ValidStart(clock) && clock + (UINT_LIMIT + 1) * MAX_RETRY_INTERVAL < UINT64_LIMIT
    ensures var t := Run(Init(clock), events).main.timer; t.interval == 0 && t.retries == 0 && t.last > 0
  {
    var first := FirstRound(clock);
    var s := Run(Init(clock), first);
    var middle := Rounds(s, UINT_LIMIT - 2);
    var s1 := Run(s, middle);
    var last := OneRound(s1);
    events := first + (middle + last);
    RunAppends(s, middle, last);
    RunAppends(Init(clock), first, middle + last);
    IntervalInRangeUnlessWrapped(s1.main.timer, Run(s1, last).clock, 0);
  }

  /** But when the counter is about to wrap for the first time, more than 244,000 years have passed. */
  lemma WrapTakesAges(clock: nat, events: seq<Event>)
    requires ValidStart(clock) && |Run(Init(clock), events).main.timer.firings| == UINT_LIMIT - 1
    ensures Run(Init(clock), events).main.timer.retries == UINT_LIMIT - 1
    ensures Run(Init(clock), events).clock >= 244_000 * 365 * 86_400_000
  {
    var u := Run(Init(clock), events);
    EveryRunSafe(clock, events);
    BackoffBeyondCap(u.main.timer, u.clock, UINT_LIMIT - 1);
  }
}
