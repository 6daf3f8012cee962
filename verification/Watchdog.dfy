/** The timer watchdog (TimerWatchdog.cpp): one thread stamps the start and the end of each
    execution, another polls the stamps once a second and warns about an execution that
    takes too long. Every atomic load and store and every reading of the clock is a step
    of its own, and the steps of the two threads interleave in any order. */
module Watchdog {

  /** Where the stamping thread is: outside an execution, inside `setStartTime` (clock to
      be read, clock read, start stored, start loaded for the loop test), inside the
      execution, or inside `setEndTime`. */
  datatype Caller =
    | Idle
    | StartBegin | StartTimed(t: int) | StartStored | StartLoaded(s: int)
    | Running
    | EndBegin | EndTimed(t: int) | EndStored | EndLoaded(e: int)

  /** Where the polling thread is, with its local copies. `alive` is history: whether the
      execution that began at `start` was still going on when the end stamp was loaded. */
  datatype Poller =
    | Asleep
    | GotStart(start: int)
    | GotEnd(start: int, end: int, alive: bool)
    | GotNow(start: int, end: int, now: int, alive: bool)
    | Warning(start: int, span: int, alive: bool)
    | Thrown

  /** One call of the callback. */
  datatype Report = Report(start: int, span: int, alive: bool)

  datatype State = State(
    clock: int, start: int, end: int, lastCheck: int, warnTimespan: int,
    caller: Caller, poller: Poller, reports: seq<Report>)

  /** The clock advances, or one of the threads takes its next step. */
  datatype Step = Tick(elapsed: nat) | CallerStep | PollerStep

  function Init(now: int, warnTimespan: int): State {
    State(now, now, now, now, warnTimespan, Idle, Asleep, [])
  }

  /** The execution stamped last has begun and its `setEndTime` has not returned. */
  predicate Executing(st: State) { !(st.caller.Idle? || st.caller.StartBegin? || st.caller.StartTimed?) }

  /** The do-while loops of `setStartTime` and `setEndTime`. */
  function CallerNext(st: State): State {
    match st.caller
    case Idle => st.(caller := StartBegin)
    case StartBegin => st.(caller := StartTimed(st.clock))
    case StartTimed(t) => st.(start := t, caller := StartStored)
    case StartStored => st.(caller := StartLoaded(st.start))
    case StartLoaded(s) => st.(caller := if s <= st.end then StartBegin else Running)
    case Running => st.(caller := EndBegin)
    case EndBegin => st.(caller := EndTimed(st.clock))
    case EndTimed(t) => st.(end := t, caller := EndStored)
    case EndStored => st.(caller := EndLoaded(st.end))
    case EndLoaded(e) => st.(caller := if e <= st.start then EndBegin else Idle)
  }

  /** The loop body of `threadFunction`. */
  function PollerNext(st: State): State {
    match st.poller
    case Asleep => st.(poller := GotStart(st.start))
    case GotStart(start) => st.(poller := GotEnd(start, st.end, Executing(st) && st.start == start))
    case GotEnd(start, end, alive) => st.(poller := GotNow(start, end, st.clock, alive))
    case GotNow(start, end, now, alive) =>
      if end - start < 0 && start > st.lastCheck then
        var span := now - start;
        if span < 0 then st.(poller := Thrown)
        else if span > st.warnTimespan then st.(lastCheck := start, poller := Warning(start, span, alive))
        else st.(poller := Asleep)
      else st.(lastCheck := start, poller := Asleep)
    case Warning(start, span, alive) =>
      st.(reports := st.reports + [Report(start, span, alive)], poller := Asleep)
    case Thrown => st
  }

  function Next(st: State, step: Step): State {
    match step
    case Tick(elapsed) => st.(clock := st.clock + elapsed)
    case CallerStep => CallerNext(st)
    case PollerStep => PollerNext(st)
  }

  function Run(st: State, steps: seq<Step>): State
    decreases |steps|
  {
    if steps == [] then st else Run(Next(st, steps[0]), steps[1..])
  }

  // ------------------------------------------------------------------ invariant

  predicate Reported(reports: seq<Report>, start: int) { exists r <- reports :: r.start == start }

  predicate Ascending(reports: seq<Report>) {
    forall i, j :: 0 <= i < j < |reports| ==> reports[i].start < reports[j].start
  }

  /** How the stamps compare at each point of the stamping thread. */
  predicate CallerOk(st: State) {
    match st.caller
    case Idle => st.start <= st.end
    case StartBegin => st.start <= st.end
    case StartTimed(t) => st.start <= st.end <= t <= st.clock
    case StartStored => st.end <= st.start
    case StartLoaded(s) => s == st.start && st.end <= st.start
    case Running => st.end < st.start
    case EndBegin => st.end <= st.start
    case EndTimed(t) => st.end <= st.start <= t <= st.clock
    case EndStored => st.start <= st.end
    case EndLoaded(e) => e == st.end && st.start <= st.end
  }

  /** The stamp checked last was reported, or its execution is over. */
  predicate Settled(st: State, end: int) { Reported(st.reports, st.lastCheck) || st.lastCheck <= end }

  predicate PollerOk(st: State) {
    match st.poller
    case Asleep => Settled(st, st.end)
    case GotStart(s) =>
      && st.lastCheck <= s <= st.start && Settled(st, st.end)
      && (st.end < s ==> st.start == s && Executing(st))
    case GotEnd(s, e, alive) =>
      st.lastCheck <= s <= st.start && e <= st.end && Settled(st, e) && (e < s ==> alive)
    case GotNow(s, e, n, alive) =>
      st.lastCheck <= s <= st.start && e <= st.end && Settled(st, e) && (e < s ==> alive) && s <= n
    case Warning(s, span, alive) =>
      && s == st.lastCheck && alive && span > st.warnTimespan
      && (forall r <- st.reports :: r.start < s)
    case Thrown => false
  }

  predicate Inv(st: State) {
    && st.start <= st.clock && st.end <= st.clock && st.lastCheck <= st.start
    && CallerOk(st) && PollerOk(st)
    && Ascending(st.reports)
    && (forall r <- st.reports :: r.start <= st.lastCheck && r.alive && r.span > st.warnTimespan)
  }

  /** The stamps never go back, and stay in the order the stamping thread needs. */
  lemma CallerStamps(st: State)
    requires st.start <= st.clock && st.end <= st.clock && CallerOk(st)
    ensures var st' := CallerNext(st);
            CallerOk(st') && st.start <= st'.start <= st'.clock && st.end <= st'.end <= st'.clock
  {
  }

  /** What the polling thread has read stays true while the other one moves. */
  lemma CallerKeepsPoller(st: State)
    requires CallerOk(st) && PollerOk(st) && st.lastCheck <= st.start
    ensures PollerOk(CallerNext(st))
  {
    match st.caller
    case StartTimed(t) =>
    case EndTimed(t) =>
    case _ =>
  }

  lemma CallerPreserves(st: State)
    requires Inv(st)
    ensures Inv(CallerNext(st))
  {
    CallerStamps(st);
    CallerKeepsPoller(st);
    assert CallerNext(st).reports == st.reports && CallerNext(st).lastCheck == st.lastCheck;
  }

  lemma PollerPreserves(st: State)
    requires Inv(st)
    ensures Inv(PollerNext(st))
  {
    match st.poller
    case GotNow(start, end, now, alive) => DecisionPreserves(st);
    case Warning(start, span, alive) => CallbackPreserves(st);
    case _ =>
  }

  lemma DecisionPreserves(st: State)
    requires Inv(st) && st.poller.GotNow?
    ensures Inv(PollerNext(st))
  {
  }

  lemma CallbackPreserves(st: State)
    requires Inv(st) && st.poller.Warning?
    ensures Inv(PollerNext(st))
  {
    var r := Report(st.poller.start, st.poller.span, st.poller.alive);
    assert r in st.reports + [r];
  }

  lemma {:induction false} RunPreserves(st: State, steps: seq<Step>)
    requires Inv(st)
    ensures Inv(Run(st, steps))
    decreases |steps|
  {
    if steps != [] {
      match steps[0] {
        case Tick(_) =>
        case CallerStep => CallerPreserves(st);
        case PollerStep => PollerPreserves(st);
      }
      RunPreserves(Next(st, steps[0]), steps[1..]);
    }
  }

  // --------------------------------------------- theorems about every interleaving

  /** In every interleaving: the negative-span exception is never thrown, each start stamp
      is reported at most once, in ascending order, and each report is of an execution
      that had not ended when the end stamp was read and was older than the limit. */
  lemma ReportsSound(now: int, warnTimespan: int, steps: seq<Step>, i: nat, j: nat)
    ensures var st := Run(Init(now, warnTimespan), steps);
            && !st.poller.Thrown?
            && (i < j < |st.reports| ==> st.reports[i].start < st.reports[j].start)
            && (i < |st.reports| ==> st.reports[i].alive && st.reports[i].span > warnTimespan)
  {
    RunPreserves(Init(now, warnTimespan), steps);
    LimitStays(Init(now, warnTimespan), steps);
    var st := Run(Init(now, warnTimespan), steps);
    if i < |st.reports| {
      assert st.reports[i] in st.reports;
    }
  }

  lemma {:induction false} LimitStays(st: State, steps: seq<Step>)
    ensures Run(st, steps).warnTimespan == st.warnTimespan
    decreases |steps|
  {
    if steps != [] {
      LimitStays(Next(st, steps[0]), steps[1..]);
    }
  }

  /** No step of the polling thread: the clock and the stamping thread may do anything. */
  predicate Quiet(steps: seq<Step>) { forall s <- steps :: !s.PollerStep? }

  lemma {:induction false} QuietKeeps(st: State, steps: seq<Step>)
    requires Quiet(steps)
    ensures var st' := Run(st, steps);
            && st'.poller == st.poller && st'.reports == st.reports
            && st'.lastCheck == st.lastCheck && st'.warnTimespan == st.warnTimespan
    decreases |steps|
  {
    if steps != [] {
      assert steps[0] in steps;
      QuietKeeps(Next(st, steps[0]), steps[1..]);
    }
  }

  /** Whatever happens before the next step of the polling thread, that step is taken from
      the same local copies. */
  lemma NextPoll(st: State, b: seq<Step>)
    requires Quiet(b)
    ensures var st' := Run(st, b);
            && Run(st, b + [PollerStep]) == PollerNext(st')
            && st'.poller == st.poller && st'.reports == st.reports
            && st'.lastCheck == st.lastCheck && st'.warnTimespan == st.warnTimespan
  {
    QuietKeeps(st, b);
    RunAppend(st, b, [PollerStep]);
    assert [PollerStep][1..] == [];
  }

  /** A poll that has seen an execution running longer than the limit reports it, unless it
      was reported already; and a poll reports nothing else. Between the reading of the
      clock, the decision and the callback, the clock and the stamping thread take any
      steps `b1` and `b2`. */
  lemma OverdueReported(now: int, warnTimespan: int, steps: seq<Step>, b1: seq<Step>, b2: seq<Step>)
    requires Quiet(b1) && Quiet(b2)
    ensures var st := Run(Init(now, warnTimespan), steps);
            st.poller.GotNow? ==>
              var p := st.poller;
              var overdue := p.end < p.start && p.now - p.start > warnTimespan;
              && (overdue && !Reported(st.reports, p.start) ==>
                    Run(Init(now, warnTimespan), steps + (b1 + [PollerStep]) + (b2 + [PollerStep])).reports
                      == st.reports + [Report(p.start, p.now - p.start, true)])
              && (!overdue || Reported(st.reports, p.start) ==>
                    var st' := Run(Init(now, warnTimespan), steps + (b1 + [PollerStep]));
                    st'.poller == Asleep && st'.reports == st.reports)
  {
    var st0 := Init(now, warnTimespan);
    var st := Run(st0, steps);
    RunPreserves(st0, steps);
    LimitStays(st0, steps);
    if st.poller.GotNow? {
      RunAppend(st0, steps, b1 + [PollerStep]);
      NextPoll(st, b1);
      var st1 := PollerNext(Run(st, b1));
      RunAppend(st0, steps + (b1 + [PollerStep]), b2 + [PollerStep]);
      NextPoll(st1, b2);
    }
  }

  /** One whole poll, in any interleaving: the start stamp is loaded after `steps`, the end
      stamp after `b1` more, the clock is read after `b2` more, the decision is made after
      `b3` more and the callback is called after `b4` more. The poll reports exactly the
      execution it finds begun and not ended, too old and not yet reported. */
  lemma PollReports(now: int, warnTimespan: int, steps: seq<Step>,
      b1: seq<Step>, b2: seq<Step>, b3: seq<Step>, b4: seq<Step>)
    requires Quiet(b1) && Quiet(b2) && Quiet(b3) && Quiet(b4)
    ensures var st := Run(Init(now, warnTimespan), steps);
            st.poller.Asleep? ==>
              var afterStart := steps + ([PollerStep] + b1);
              var end := Run(Init(now, warnTimespan), afterStart).end;
              var afterEnd := afterStart + ([PollerStep] + b2);
              var span := Run(Init(now, warnTimespan), afterEnd).clock - st.start;
              var decided := afterEnd + [PollerStep] + (b3 + [PollerStep]);
              var overdue := end < st.start && span > warnTimespan;
              && (overdue && !Reported(st.reports, st.start) ==>
                    Run(Init(now, warnTimespan), decided + (b4 + [PollerStep])).reports
                      == st.reports + [Report(st.start, span, true)])
              && (!overdue || Reported(st.reports, st.start) ==>
                    var st' := Run(Init(now, warnTimespan), decided);
                    st'.poller == Asleep && st'.reports == st.reports)
  {
    var read := steps + ([PollerStep] + b1) + ([PollerStep] + b2) + [PollerStep];
    if Run(Init(now, warnTimespan), steps).poller.Asleep? {
      PollReads(Init(now, warnTimespan), steps, b1, b2);
      OverdueReported(now, warnTimespan, read, b3, b4);
    }
  }

  /** The local copies of a poll that has read the clock */
  lemma PollReads(st0: State, steps: seq<Step>, b1: seq<Step>, b2: seq<Step>)
    requires Quiet(b1) && Quiet(b2) && Run(st0, steps).poller.Asleep?
    ensures var st := Run(st0, steps);
            var afterStart := steps + ([PollerStep] + b1);
            var afterEnd := afterStart + ([PollerStep] + b2);
            var read := Run(st0, afterEnd + [PollerStep]);
            && read.poller.GotNow? && read.poller.start == st.start && read.poller.end == Run(st0, afterStart).end
            && read.poller.now == Run(st0, afterEnd).clock && read.reports == st.reports
  {
    var afterStart := steps + ([PollerStep] + b1);
    var afterEnd := afterStart + ([PollerStep] + b2);
    RunAppend(st0, steps, [PollerStep] + b1);
    PollThen(Run(st0, steps), b1);
    RunAppend(st0, afterStart, [PollerStep] + b2);
    PollThen(Run(st0, afterStart), b2);
    RunAppend(st0, afterEnd, [PollerStep]);
    PollThen(Run(st0, afterEnd), []);
  }

  /** A step of the polling thread and what the others do after it. */
  lemma PollThen(st: State, b: seq<Step>)
    requires Quiet(b)
    ensures var st' := Run(st, [PollerStep] + b);
            && st'.poller == PollerNext(st).poller && st'.reports == PollerNext(st).reports
            && (b == [] ==> Run(st, [PollerStep]) == PollerNext(st))
  {
    assert ([PollerStep] + b)[1..] == b;
    QuietKeeps(PollerNext(st), b);
    assert [PollerStep] + [] == [PollerStep];
  }

  /** The exception needs the clock to go back: set back between the reading of the end
      stamp and that of the time, it is thrown exactly when the time read is before the
      start. */
  lemma BackwardClockThrows(st: State, clock: int)
    requires Inv(st) && st.poller.GotEnd? && st.poller.end < st.poller.start && st.poller.start > st.lastCheck
    ensures PollerNext(PollerNext(st.(clock := clock))).poller.Thrown? <==> clock < st.poller.start
  {
  }

  lemma {:induction false} RunAppend(st: State, a: seq<Step>, b: seq<Step>)
    ensures Run(st, a + b) == Run(Run(st, a), b)
    decreases |a|
  {
    if a == [] {
      assert a + b == b;
    } else {
      assert (a + b)[1..] == a[1..] + b;
      RunAppend(Next(st, a[0]), a[1..], b);
    }
  }
}
