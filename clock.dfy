/** Periodic trigger sources declared on a class (`ClockStatic`) and
    materialised once per owner object (`ClockInstance`). The asyncio event
    loop is replaced by explicit scheduler steps over virtual time: each
    `timer_callback` coroutine that `start` schedules is a loop in the state,
    and `Step(i)` lets loop `i` run until its next suspension point. */
module Clock {
  import opened Wrappers
  import opened Registry
  import opened PubSubTypes

  /** Where one `timer_callback` coroutine stands: about to test
      `self.running`, or suspended in `asyncio.sleep(self.period)`. */
  datatype LoopPhase = AtCheck | Sleeping

  /** The lifecycle part of a clock instance. */
  datatype ClockState = ClockState(running: bool, loops: seq<LoopPhase>)

  /** What can happen to a clock: `start()`, `stop()`, or the scheduler
      resuming loop `i` (a step naming no loop does nothing). */
  datatype Event = StartEvent | StopEvent | StepEvent(i: nat)

  /** `start()`: sets the flag and schedules one more `timer_callback`. */
  function Started(s: ClockState): (r: ClockState)
    ensures r.running
    ensures |r.loops| == |s.loops| + 1 && r.loops[..|s.loops|] == s.loops && r.loops[|s.loops|] == AtCheck
    ensures SleepingCount(r.loops) == SleepingCount(s.loops)
  {
    ClockState(true, s.loops + [AtCheck])
  }

  /** `stop()`: clears the flag and nothing else. */
  function Stopped(s: ClockState): (r: ClockState)
    ensures !r.running && r.loops == s.loops
  {
    s.(running := false)
  }

  /** Resuming loop `i`. A loop at its check goes to sleep when the clock
      runs and finishes otherwise; a sleeping loop wakes, fires once (the
      flag is not consulted) and returns to its check. The boolean tells
      whether the step fired. */
  function Stepped(s: ClockState, i: nat): (r: (ClockState, bool))
    requires i < |s.loops|
    ensures r.1 <==> s.loops[i] == Sleeping
    ensures r.0.running == s.running
    ensures s.loops[i] == Sleeping ==>
      |r.0.loops| == |s.loops| && r.0.loops[i] == AtCheck && SleepingCount(r.0.loops) + 1 == SleepingCount(s.loops)
    ensures s.loops[i] == AtCheck && s.running ==>
      |r.0.loops| == |s.loops| && r.0.loops[i] == Sleeping && SleepingCount(r.0.loops) == SleepingCount(s.loops) + 1
    ensures s.loops[i] == AtCheck && !s.running ==>
      |r.0.loops| + 1 == |s.loops| && SleepingCount(r.0.loops) == SleepingCount(s.loops)
  {
    match s.loops[i]
    case AtCheck =>
      if s.running then (s.(loops := s.loops[i := Sleeping]), false)
      else
        SleepingCountAfterCheck(s.loops, i);
        (s.(loops := s.loops[..i] + s.loops[i + 1..]), false)
    case Sleeping => (s.(loops := s.loops[i := AtCheck]), true)
  }

  function Apply(s: ClockState, e: Event): (ClockState, bool) {
    match e
    case StartEvent => (Started(s), false)
    case StopEvent => (Stopped(s), false)
    case StepEvent(i) => if i < |s.loops| then Stepped(s, i) else (s, false)
  }

  /** The state after a run of events and the number of ticks it fired. */
  function Run(s: ClockState, events: seq<Event>): (r: (ClockState, nat))
    ensures r.1 <= |events|
    ensures StartEvent !in events && StopEvent !in events ==> r.0.running == s.running
    decreases |events|
  {
    if events == [] then (s, 0)
    else
      var (s', fired) := Apply(s, events[0]);
      var (last, n) := Run(s', events[1..]);
      (last, n + if fired then 1 else 0)
  }

  /** How many loops are in the middle of a sleep. */
  function SleepingCount(loops: seq<LoopPhase>): nat {
    multiset(loops)[Sleeping]
  }

  lemma SleepingCountAfterCheck(loops: seq<LoopPhase>, i: nat)
    requires i < |loops| && loops[i] == AtCheck
    ensures SleepingCount(loops[..i] + loops[i + 1..]) == SleepingCount(loops)
  {
    assert loops == loops[..i] + [loops[i]] + loops[i + 1..];
  }

  /** Once a clock is stopped, and as long as nobody starts it again, it
      fires at most once per loop that was already asleep: `stop` is
      cooperative and does not cut an iteration that has begun. */
  lemma {:induction false} StoppedClockFiresAtMostSleepingLoops(s: ClockState, events: seq<Event>)
    requires !s.running
    requires StartEvent !in events
    ensures Run(s, events).1 <= SleepingCount(s.loops)
    decreases |events|
  {
    if events != [] {
      var s' := Apply(s, events[0]).0;
      if events[0].StepEvent? && events[0].i < |s.loops| {
        var i := events[0].i;
        if s.loops[i] == AtCheck {
          SleepingCountAfterCheck(s.loops, i);
        } else {
          assert SleepingCount(s'.loops) + 1 == SleepingCount(s.loops);
        }
      }
      assert StartEvent !in events[1..];
      StoppedClockFiresAtMostSleepingLoops(s', events[1..]);
    }
  }

  /** A clock whose loops have all finished, started and then stopped before
      the scheduler resumes its new loop, never fires. */
  lemma StartThenStopFiresNothing(s: ClockState, events: seq<Event>)
    requires Sleeping !in s.loops
    requires StartEvent !in events
    ensures Run(Stopped(Started(s)), events).1 == 0
  {
    assert Sleeping !in Stopped(Started(s)).loops;
    StoppedClockFiresAtMostSleepingLoops(Stopped(Started(s)), events);
  }

  /** One scheduler cycle of a single loop: wake at the check, sleep, fire. */
  function Cycles(n: nat): seq<Event> {
    if n == 0 then [] else [StepEvent(0), StepEvent(0)] + Cycles(n - 1)
  }

  /** A running clock with one loop fires once per cycle and stays in the
      same state: the loop goes on for as long as the flag is set. */
  lemma {:induction false} RunningClockTicksEveryCycle(n: nat)
    ensures Run(ClockState(true, [AtCheck]), Cycles(n)) == (ClockState(true, [AtCheck]), n)
  {
    if n > 0 {
      var s, s1 := ClockState(true, [AtCheck]), ClockState(true, [Sleeping]);
      var evs := Cycles(n);
      assert evs[0] == StepEvent(0) && evs[1..][0] == StepEvent(0);
      assert evs[1..][1..] == Cycles(n - 1);
      assert [AtCheck][0 := Sleeping] == [Sleeping] && [Sleeping][0 := AtCheck] == [AtCheck];
      assert Apply(s, evs[0]) == (s1, false);
      assert Apply(s1, evs[1..][0]) == (s, true);
      RunningClockTicksEveryCycle(n - 1);
      assert Run(s1, evs[1..]) == (s, n);
    }
  }

  /** `1 / x`, which raises `ZeroDivisionError` for zero. Real division is
      exact here: floating-point rounding is not modelled. */
  function Reciprocal(x: real): (r: Result<real, PyException>)
    ensures r.Success? <==> x != 0.0
    ensures r.Success? ==> r.value * x == 1.0
    ensures r.Failure? ==> r.error.kind == "ZeroDivisionError"
  {
    if x == 0.0 then Failure(PyException("ZeroDivisionError", "division by zero"))
    else Success(1.0 / x)
  }

  /** Setting the frequency and reading it back gives the same value. */
  lemma FrequencyRoundTrip(f: real)
    requires f != 0.0
    ensures Reciprocal(f).Success? && Reciprocal(Reciprocal(f).value) == Success(f)
  {
    var p := 1.0 / f;
    assert p * f == 1.0;
    assert p != 0.0;
    assert (1.0 / p) * p == f * p;
  }

  /** The per-object clock: a trigger source with a period, a running flag
      and the timer loops scheduled on the event loop. */
  class ClockInstance {
    const parentObject: object
    const attributeName: string
    const staticDescriptor: ClockStatic
    var period: real
    var running: bool
    var loops: seq<LoopPhase>
    var activities: seq<object>

    function State(): ClockState
      reads this
    {
      ClockState(running, loops)
    }

    /** `fired` is one tick: every subscribed activity, in iteration order,
        invoked with this clock as the only sender, no parameters and the
        owner object as instance. */
    ghost predicate IsTick(fired: seq<Firing>)
      reads this
    {
      && |fired| == |activities|
      && forall k :: 0 <= k < |fired| ==>
           fired[k] == Firing(activities[k], Invocation([Ref(this)], map[], Owned(parentObject), [], map[]))
    }

    constructor (parentObject: object, attributeName: string, staticDescriptor: ClockStatic)
      ensures this.parentObject == parentObject && this.attributeName == attributeName
      ensures this.staticDescriptor == staticDescriptor
      ensures period == 1.0 && !running && loops == [] && activities == []
    {
      this.parentObject := parentObject;
      this.attributeName := attributeName;
      this.staticDescriptor := staticDescriptor;
      period := 1.0;
      running := false;
      loops := [];
      activities := [];
    }

    function Frequency(): (r: Result<real, PyException>)
      reads this
      ensures r.Success? <==> period != 0.0
      ensures r.Success? ==> r.value * period == 1.0
      ensures r.Failure? ==> r.error.kind == "ZeroDivisionError"
    {
      Reciprocal(period)
    }

    method SetFrequency(value: real) returns (r: Result<(), PyException>)
      modifies this`period
      ensures value == 0.0 ==> r == Failure(PyException("ZeroDivisionError", "division by zero"))
      ensures value == 0.0 ==> period == old(period)
      ensures value != 0.0 ==> r.Success? && period * value == 1.0 && Frequency() == Success(value)
    {
      var p := Reciprocal(value);
      if p.Failure? {
        return Failure(p.error);
      }
      period := p.value;
      FrequencyRoundTrip(value);
      r := Success(());
    }

    method AddActivity(a: object)
      modifies this`activities
      ensures activities == Added(old(activities), a)
    {
      activities := Added(activities, a);
    }

    method RemoveActivity(a: object)
      modifies this`activities
      ensures activities == Removed(old(activities), a)
    {
      activities := Removed(activities, a);
    }

    method Start()
      modifies this`running, this`loops
      ensures State() == Started(old(State()))
    {
      running := true;
      loops := loops + [AtCheck];
    }

    method Stop()
      modifies this`running
      ensures State() == Stopped(old(State()))
    {
      running := false;
    }

    /** The scheduler resumes the `i`-th timer loop. */
    method Step(i: nat) returns (fired: seq<Firing>)
      requires i < |loops|
      modifies this`loops
      ensures State() == Stepped(old(State()), i).0
      ensures Stepped(old(State()), i).1 ==> IsTick(fired)
      ensures !Stepped(old(State()), i).1 ==> fired == []
    {
      match loops[i]
      case AtCheck =>
        if running {
          loops := loops[i := Sleeping];
        } else {
          loops := loops[..i] + loops[i + 1..];
        }
        fired := [];
      case Sleeping =>
        loops := loops[i := AtCheck];
        fired := Trigger();
    }

    /** Fires every subscribed activity once. */
    method Trigger() returns (fired: seq<Firing>)
      ensures IsTick(fired)
    {
      fired := [];
      for k := 0 to |activities|
        invariant |fired| == k
        invariant forall j :: 0 <= j < k ==>
          fired[j] == Firing(activities[j], Invocation([Ref(this)], map[], Owned(parentObject), [], map[]))
      {
        fired := fired + [Firing(activities[k], Invocation([Ref(this)], map[], Owned(parentObject), [], map[]))];
      }
    }
  }

  /** The class-level clock descriptor: its own subscriber container for
      activities declared against the class, and the table of materialised
      instances keyed by owner object identity. */
  class ClockStatic {
    const attributeName: string
    var activities: seq<object>
    var instances: map<object, ClockInstance>

    /** The class-level container never holds an activity twice. */
    ghost predicate Valid()
      reads this
    {
      NoDup(activities)
    }

    constructor (attributeName: string)
      ensures Valid() && this.attributeName == attributeName
      ensures activities == [] && instances == map[]
    {
      this.attributeName := attributeName;
      activities := [];
      instances := map[];
    }

    /** `add_obj`: materialise the clock of `obj`, seeded with a copy of
        the class-level activities. */
    method AddObj(obj: object) returns (t: ClockInstance)
      requires Valid()
      modifies this`instances
      ensures Valid() && fresh(t)
      ensures instances == old(instances)[obj := t]
      ensures t.parentObject == obj && t.attributeName == attributeName && t.staticDescriptor == this
      ensures t.activities == activities
      ensures t.period == 1.0 && !t.running && t.loops == []
    {
      t := new ClockInstance(obj, attributeName, this);
      instances := instances[obj := t];
      for k := 0 to |activities|
        invariant instances == old(instances)[obj := t]
        invariant t.activities == activities[..k]
        invariant t.period == 1.0 && !t.running && t.loops == []
      {
        assert activities[k] !in activities[..k];
        t.AddActivity(activities[k]);
        assert activities[..k + 1] == activities[..k] + [activities[k]];
      }
      assert activities[..|activities|] == activities;
    }

    /** `add_activity` at class level, broadcast to every instance. */
    method AddActivity(a: object)
      requires Valid()
      modifies this`activities, instances.Values
      ensures Valid() && instances == old(instances)
      ensures activities == Added(old(activities), a)
      ensures forall t :: t in instances.Values ==>
        && t.activities == Added(old(t.activities), a)
        && t.period == old(t.period) && t.running == old(t.running) && t.loops == old(t.loops)
    {
      AddedMembers(activities, a);
      activities := Added(activities, a);
      var todo := instances.Values;
      while todo != {}
        invariant todo <= instances.Values
        invariant activities == Added(old(activities), a)
        invariant forall t :: t in instances.Values ==>
          && t.activities == (if t in todo then old(t.activities) else Added(old(t.activities), a))
          && t.period == old(t.period) && t.running == old(t.running) && t.loops == old(t.loops)
        decreases todo
      {
        var t :| t in todo;
        t.AddActivity(a);
        todo := todo - {t};
      }
    }

    /** `remove_activity` at class level, broadcast to every instance. */
    method RemoveActivity(a: object)
      requires Valid()
      modifies this`activities, instances.Values
      ensures Valid() && instances == old(instances)
      ensures activities == Removed(old(activities), a)
      ensures forall t :: t in instances.Values ==>
        && t.activities == Removed(old(t.activities), a)
        && t.period == old(t.period) && t.running == old(t.running) && t.loops == old(t.loops)
    {
      RemovedMembers(activities, a);
      activities := Removed(activities, a);
      var todo := instances.Values;
      while todo != {}
        invariant todo <= instances.Values
        invariant activities == Removed(old(activities), a)
        invariant forall t :: t in instances.Values - todo ==> t.activities == Removed(old(t.activities), a)
        invariant forall t :: t in todo ==> t.activities == old(t.activities)
        invariant forall t :: t in instances.Values ==>
          t.period == old(t.period) && t.running == old(t.running) && t.loops == old(t.loops)
        decreases todo
      {
        var t :| t in todo;
        t.RemoveActivity(a);
        todo := todo - {t};
      }
    }
  }
}
