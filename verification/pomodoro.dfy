/**
 * The Pomodoro timer as a state machine over values: what `start`, `pause`,
 * `resetPom`, the one-second interval callback and `pomodoroCycle` do to
 * the timer, and what the tasks look like after a number of seconds.
 * `PomodoroTimer` carries out the same steps on its fields.
 */
module Pomodoro {
  import opened Wrappers
  import opened Tasks

  /** `pomState`. A break runs in the `Running` state: only `onBreak` tells it apart from work. */
  datatype RunState = Stopped | Running | Paused

  /**
   * The timer variables: `pomState`, `onBreak`, `pomRemaining` in seconds,
   * and whether an interval callback is scheduled (`pomInterval`).
   */
  datatype Timer = Timer(state: RunState, onBreak: bool, remaining: int, ticking: bool)

  const DefaultWorkMinutes := 25
  const DefaultBreakMinutes := 5

  /**
   * `(parseInt(field) || default) * 60`: `minutes` is the parsed field,
   * `None` when it is not a number. Zero also falls back to the default;
   * a negative value is kept.
   */
  function Seconds(minutes: Option<int>, default: int): (r: int)
    ensures minutes == None || minutes == Some(0) ==> r == 60 * default
    ensures minutes.Some? && minutes.value != 0 ==> r == 60 * minutes.value
  {
    60 * if minutes.None? || minutes.value == 0 then default else minutes.value
  }

  /** The timer's invariant: an interval is scheduled exactly while running, and a stopped timer is never on a break. */
  predicate Valid(t: Timer) {
    (t.ticking <==> t.state == Running) && (t.state == Stopped ==> !t.onBreak)
  }

  /** The timer at page load: stopped, 25 minutes, no interval. */
  function Initial(): (t: Timer)
    ensures Valid(t) && t.state == Stopped && !t.onBreak && t.remaining == 60 * DefaultWorkMinutes
  {
    Timer(Stopped, false, 60 * DefaultWorkMinutes, false)
  }

  /**
   * The start button. `linked` says whether a task is selected; `proceed`
   * is the answer to "Start without linking to a task?", asked only when
   * stopped with no task. From stopped the work phase starts afresh; from
   * paused the phase and the remaining time carry on.
   */
  function AfterStart(t: Timer, work: Option<int>, linked: bool, proceed: bool): (r: Timer)
    ensures Valid(t) ==> Valid(r)
    ensures t.state == Running ==> r == t
    ensures t.state == Stopped && !linked && !proceed ==> r == t
    ensures t.state == Stopped && (linked || proceed) ==>
      r == Timer(Running, false, Seconds(work, DefaultWorkMinutes), true)
    ensures t.state == Paused ==>
      r.state == Running && r.ticking && r.remaining == t.remaining && r.onBreak == t.onBreak
  {
    if t.state == Running then t
    else if t.state == Stopped && !linked && !proceed then t
    else if t.state == Stopped then Timer(Running, false, Seconds(work, DefaultWorkMinutes), true)
    else t.(state := Running, ticking := true)
  }

  /** The pause button: only a running timer pauses; ticks stop and the remaining time is kept. */
  function AfterPause(t: Timer): (r: Timer)
    ensures Valid(t) ==> Valid(r)
    ensures r.remaining == t.remaining && r.onBreak == t.onBreak
    ensures t.state == Running ==> r.state == Paused && !r.ticking
    ensures t.state != Running ==> r == t
  {
    if t.state == Running then t.(state := Paused, ticking := false) else t
  }

  /** `resetPom`: from any state, stopped, not on a break, the configured work length, no interval. */
  function AfterReset(work: Option<int>): (r: Timer)
    ensures Valid(r)
    ensures r.state == Stopped && !r.onBreak && !r.ticking
    ensures r.remaining == Seconds(work, DefaultWorkMinutes)
  {
    Timer(Stopped, false, Seconds(work, DefaultWorkMinutes), false)
  }

  /**
   * `pomodoroCycle` on the timer: the end of a work phase starts the break,
   * still running and with a fresh interval; the end of a break resets.
   */
  function AfterCycle(t: Timer, work: Option<int>, brk: Option<int>): (r: Timer)
    ensures Valid(t) && t.state == Running ==> Valid(r)
    ensures !t.onBreak ==>
      r.onBreak && r.remaining == Seconds(brk, DefaultBreakMinutes) && r.ticking && r.state == t.state
    ensures t.onBreak ==> r == AfterReset(work)
  {
    if !t.onBreak then t.(onBreak := true, remaining := Seconds(brk, DefaultBreakMinutes), ticking := true)
    else AfterReset(work)
  }

  /** The interval callback: one second less, and the phase ends once the count is zero or below. */
  function AfterTick(t: Timer, work: Option<int>, brk: Option<int>): (r: Timer)
    requires t.ticking
    ensures Valid(t) ==> Valid(r)
    ensures t.remaining > 1 ==> r == t.(remaining := t.remaining - 1)
    ensures t.remaining <= 1 ==> r == AfterCycle(t.(remaining := t.remaining - 1), work, brk)
  {
    var t' := t.(remaining := t.remaining - 1);
    if t'.remaining <= 0 then AfterCycle(t', work, brk) else t'
  }

  /** Whether this tick ends a work phase, which is when the linked task is marked done. */
  predicate EndsWork(t: Timer) {
    t.ticking && !t.onBreak && t.remaining <= 1
  }

  /** The tasks after one tick: the linked task is marked done when the tick ends a work phase. */
  function TasksAfterTick(t: Timer, ts: seq<Task>, selected: Option<string>): (r: seq<Task>)
    ensures !EndsWork(t) || !IsLinked(selected) ==> r == ts
    ensures EndsWork(t) && IsLinked(selected) ==> r == MarkedDone(ts, selected.value)
  {
    if EndsWork(t) && IsLinked(selected) then MarkedDone(ts, selected.value) else ts
  }

  /** The timer together with the task list it can complete. */
  datatype Session = Session(timer: Timer, tasks: seq<Task>)

  /**
   * The session after `n` seconds of wall-clock time: one tick per second
   * while an interval is scheduled, nothing once none is.
   */
  function Elapse(n: nat, s: Session, selected: Option<string>, work: Option<int>, brk: Option<int>): (r: Session)
    ensures !s.timer.ticking ==> r == s
    ensures Valid(s.timer) ==> Valid(r.timer)
    ensures |r.tasks| == |s.tasks|
    decreases n
  {
    if n == 0 || !s.timer.ticking then s
    else Elapse(n - 1, Session(AfterTick(s.timer, work, brk), TasksAfterTick(s.timer, s.tasks, selected)), selected, work, brk)
  }

  /** Elapsed time composes. */
  lemma {:induction false} ElapseAdds(a: nat, b: nat, s: Session, selected: Option<string>, work: Option<int>, brk: Option<int>)
    ensures Elapse(a + b, s, selected, work, brk) == Elapse(b, Elapse(a, s, selected, work, brk), selected, work, brk)
    decreases a
  {
    if a != 0 && s.timer.ticking {
      var s' := Session(AfterTick(s.timer, work, brk), TasksAfterTick(s.timer, s.tasks, selected));
      ElapseAdds(a - 1, b, s', selected, work, brk);
    }
  }

  /** While more than `k` seconds remain, `k` seconds only count down: same phase, same tasks. */
  lemma {:induction false} CountDown(k: nat, s: Session, selected: Option<string>, work: Option<int>, brk: Option<int>)
    requires s.timer.ticking && s.timer.remaining > k
    ensures Elapse(k, s, selected, work, brk) == Session(s.timer.(remaining := s.timer.remaining - k), s.tasks)
    decreases k
  {
    if k != 0 {
      var s' := Session(s.timer.(remaining := s.timer.remaining - 1), s.tasks);
      assert Elapse(k, s, selected, work, brk) == Elapse(k - 1, s', selected, work, brk);
      CountDown(k - 1, s', selected, work, brk);
    }
  }

  /**
   * A running work phase with `n` seconds left: for every earlier second
   * nothing but the count changes, and the linked task is untouched; at
   * second `n` the break begins, still running, and the linked task (if it
   * exists) is done.
   */
  lemma WorkPhaseEnds(s: Session, selected: Option<string>, work: Option<int>, brk: Option<int>, k: nat)
    requires Valid(s.timer) && s.timer.state == Running && !s.timer.onBreak && s.timer.remaining >= 1
    ensures k < s.timer.remaining ==>
      Elapse(k, s, selected, work, brk) == Session(s.timer.(remaining := s.timer.remaining - k), s.tasks)
    ensures var n := s.timer.remaining;
      Elapse(n, s, selected, work, brk) ==
        Session(Timer(Running, true, Seconds(brk, DefaultBreakMinutes), true),
                if IsLinked(selected) then MarkedDone(s.tasks, selected.value) else s.tasks)
  {
    var n := s.timer.remaining;
    if k < n {
      CountDown(k, s, selected, work, brk);
    }
    CountDown(n - 1, s, selected, work, brk);
    ElapseAdds(n - 1, 1, s, selected, work, brk);
  }

  /** A running break with `m` seconds left ends after `m` seconds: stopped, work length restored, no interval, tasks untouched. */
  lemma BreakPhaseEnds(s: Session, selected: Option<string>, work: Option<int>, brk: Option<int>)
    requires Valid(s.timer) && s.timer.state == Running && s.timer.onBreak && s.timer.remaining >= 1
    ensures Elapse(s.timer.remaining, s, selected, work, brk) == Session(AfterReset(work), s.tasks)
  {
    var m := s.timer.remaining;
    CountDown(m - 1, s, selected, work, brk);
    ElapseAdds(m - 1, 1, s, selected, work, brk);
  }

  /**
   * One whole cycle from a stopped timer with positive lengths, started with
   * a linked task or with the user's consent to run without one: after the
   * work seconds plus the break seconds the timer is reset, and the only
   * change to the tasks is the linked task marked done.
   */
  lemma FullCycle(t: Timer, ts: seq<Task>, selected: Option<string>, proceed: bool, work: Option<int>, brk: Option<int>)
    requires Valid(t) && t.state == Stopped && (IsLinked(selected) || proceed)
    requires Seconds(work, DefaultWorkMinutes) > 0 && Seconds(brk, DefaultBreakMinutes) > 0
    ensures var w, b := Seconds(work, DefaultWorkMinutes), Seconds(brk, DefaultBreakMinutes);
      var started := AfterStart(t, work, IsLinked(selected), proceed);
      Elapse(w + b, Session(started, ts), selected, work, brk) ==
        Session(AfterReset(work), if IsLinked(selected) then MarkedDone(ts, selected.value) else ts)
  {
    var w, b := Seconds(work, DefaultWorkMinutes), Seconds(brk, DefaultBreakMinutes);
    var s := Session(AfterStart(t, work, IsLinked(selected), proceed), ts);
    WorkPhaseEnds(s, selected, work, brk, 0);
    ElapseAdds(w, b, s, selected, work, brk);
    BreakPhaseEnds(Elapse(w, s, selected, work, brk), selected, work, brk);
  }

  /** While not running, time passing changes nothing. */
  lemma NoTicksUnlessRunning(n: nat, s: Session, selected: Option<string>, work: Option<int>, brk: Option<int>)
    requires Valid(s.timer) && s.timer.state != Running
    ensures Elapse(n, s, selected, work, brk) == s
  {
  }

  /**
   * Pausing and starting again gives back the running timer unchanged, so a
   * break paused and restarted resumes as a break with its remaining time.
   */
  lemma PauseThenStart(t: Timer, work: Option<int>, linked: bool, proceed: bool)
    requires Valid(t) && t.state == Running
    ensures AfterStart(AfterPause(t), work, linked, proceed) == t
  {
  }

  /** A negative work length passes the `<= 0` test on the very first tick, so the break starts at once. */
  lemma NegativeWorkEndsAtFirstTick(t: Timer, ts: seq<Task>, selected: Option<string>, work: Option<int>, brk: Option<int>)
    requires Valid(t) && t.state == Stopped && work.Some? && work.value < 0
    ensures var s := Elapse(1, Session(AfterStart(t, work, true, false), ts), selected, work, brk);
      s.timer.onBreak && s.timer.state == Running && s.timer.remaining == Seconds(brk, DefaultBreakMinutes)
  {
  }
}
