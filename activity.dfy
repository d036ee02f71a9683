/** The activity wrapper: an asynchronous handler bound to one trigger
    source, guarded by a lock whose mode decides what happens to a firing
    that arrives while the handler is busy. The asyncio lock is an explicit
    state (its holder and its FIFO of waiting invocations) and the handler's
    run between entering and leaving the critical section is left to the
    environment, which reports how it ended. */
module Activity {
  import opened Wrappers
  import opened Registry
  import opened PubSubTypes
  import Clock

  /** `ActivityMode`: what a firing does while the lock is held. */
  datatype ActivityMode = Drop | Schedule

  /** A trigger source. `add_activity` and `remove_activity` are dispatched
      on its class, as Python does: a class-level clock broadcasts them to
      its instances, the others only update their own container. */
  datatype TriggerRef =
    | Base(trigger: Trigger)
    | StaticClock(clock: Clock.ClockStatic)
    | InstanceClock(instance: Clock.ClockInstance)

  /** The first argument of `activity(...)`: a trigger source, `None`, or a
      value of any other class. */
  datatype TriggerArg = IsTrigger(ref: TriggerRef) | NoTrigger | NotATrigger(value: Value)

  /** The decorated callable: whether it is a coroutine function, and the
      parameter names its signature declares, in order. */
  datatype Target = Target(isCoroutineFunction: bool, parameterNames: seq<string>)

  /** The arguments the target is called with. */
  datatype TargetCall = TargetCall(positional: seq<Value>, keywords: map<string, Value>)

  /** How the critical section ended. */
  datatype HandlerOutcome = Completed | Raised(exception: PyException)

  /** What `trigger` does with that ending: return normally, re-raise to its
      caller, or hand the exception to the owner's root node. */
  datatype Disposition = Returned | Reraised(exception: PyException) | HandledByRoot(owner: object, exception: PyException)

  /** What a firing does on arrival. */
  datatype Admission = Dropped | Queued | Entered

  // ---------------------------------------------------------------------
  // Trigger dispatch

  function Head(r: TriggerRef): object {
    match r
    case Base(t) => t
    case StaticClock(c) => c
    case InstanceClock(c) => c
  }

  /** The activities subscribed to `r`. */
  function Members(r: TriggerRef): seq<object>
    reads Head(r)
  {
    match r
    case Base(t) => t.activities
    case StaticClock(c) => c.activities
    case InstanceClock(c) => c.activities
  }

  /** What subscribing to or unsubscribing from `r` may change. */
  function Footprint(r: TriggerRef): set<object>
    reads Head(r)
  {
    match r
    case StaticClock(c) => {c as object} + set i | i in c.instances.Values :: i as object
    case _ => {Head(r)}
  }

  function OptFootprint(r: Option<TriggerRef>): set<object>
    reads if r.Some? then {Head(r.value)} else {}
  {
    if r.Some? then Footprint(r.value) else {}
  }

  ghost predicate TriggerValid(r: TriggerRef)
    reads Head(r)
  {
    r.StaticClock? ==> r.clock.Valid()
  }

  /** `r.add_activity(a)`. */
  method AddTo(r: TriggerRef, a: object)
    requires TriggerValid(r)
    modifies Footprint(r)
    ensures TriggerValid(r)
    ensures Members(r) == Added(old(Members(r)), a)
    ensures r.StaticClock? ==> r.clock.instances == old(r.clock.instances)
    ensures r.StaticClock? ==> forall i :: i in r.clock.instances.Values ==> i.activities == Added(old(i.activities), a)
    ensures forall i: Clock.ClockInstance :: old(allocated(i)) ==>
      i.period == old(i.period) && i.running == old(i.running) && i.loops == old(i.loops)
  {
    match r
    case Base(t) => t.AddActivity(a);
    case StaticClock(c) => c.AddActivity(a);
    case InstanceClock(c) => c.AddActivity(a);
  }

  /** `r.remove_activity(a)`. */
  method RemoveFrom(r: TriggerRef, a: object)
    requires TriggerValid(r)
    modifies Footprint(r)
    ensures TriggerValid(r)
    ensures Members(r) == Removed(old(Members(r)), a)
    ensures r.StaticClock? ==> r.clock.instances == old(r.clock.instances)
    ensures r.StaticClock? ==> forall i :: i in r.clock.instances.Values ==> i.activities == Removed(old(i.activities), a)
    ensures forall i: Clock.ClockInstance :: old(allocated(i)) ==>
      i.period == old(i.period) && i.running == old(i.running) && i.loops == old(i.loops)
  {
    match r
    case Base(t) => t.RemoveActivity(a);
    case StaticClock(c) => c.RemoveActivity(a);
    case InstanceClock(c) => c.RemoveActivity(a);
  }

  // ---------------------------------------------------------------------
  // The lock

  /** An asyncio lock: the invocation holding it, if any, and the
      invocations waiting for it, first come first served. On release the
      lock passes straight to the first waiter. */
  datatype LockState<T> = LockState(holder: Option<T>, waiters: seq<T>)

  /** Nobody waits for a free lock. */
  predicate LockValid<T>(l: LockState<T>) {
    l.waiters != [] ==> l.holder.Some?
  }

  /** A firing `x` arrives: with the lock held it is dropped or queued by
      the mode, otherwise it takes the lock. */
  function Admit<T>(l: LockState<T>, mode: ActivityMode, x: T): (r: (LockState<T>, Admission))
    ensures r.1 == Dropped <==> l.holder.Some? && mode.Drop?
    ensures r.1 == Queued <==> l.holder.Some? && mode.Schedule?
    ensures r.1 == Entered <==> l.holder.None?
    ensures r.1 == Dropped ==> r.0 == l
    ensures r.1 == Queued ==> r.0.holder == l.holder && r.0.waiters == l.waiters + [x]
    ensures r.1 == Entered ==> r.0.holder == Some(x) && r.0.waiters == l.waiters
    ensures LockValid(l) ==> LockValid(r.0)
  {
    if l.holder.Some? then
      if mode == Drop then (l, Dropped) else (l.(waiters := l.waiters + [x]), Queued)
    else (LockState(Some(x), l.waiters), Entered)
  }

  /** The holder leaves the critical section, on any exit path. */
  function Release<T>(l: LockState<T>): (r: LockState<T>)
    requires l.holder.Some?
    ensures LockValid(r)
    ensures r.holder.None? <==> l.waiters == []
    ensures l.waiters == [] ==> r.waiters == []
    ensures l.waiters != [] ==> r.holder == Some(l.waiters[0]) && [l.waiters[0]] + r.waiters == l.waiters
  {
    if l.waiters == [] then LockState(None, []) else LockState(Some(l.waiters[0]), l.waiters[1..])
  }

  datatype LockEvent<T> = Arrive(x: T) | Leave

  function Arrivals<T>(events: seq<LockEvent<T>>): seq<T> {
    if events == [] then []
    else (if events[0].Arrive? then [events[0].x] else []) + Arrivals(events[1..])
  }

  /** One event: the new lock, the invocation that entered the critical
      section (if any) and the one dropped (if any). A `Leave` with nobody
      holding the lock changes nothing. */
  function StepLock<T>(l: LockState<T>, mode: ActivityMode, e: LockEvent<T>): (LockState<T>, seq<T>, seq<T>) {
    match e
    case Arrive(x) =>
      var (l', a) := Admit(l, mode, x);
      (l', if a == Entered then [x] else [], if a == Dropped then [x] else [])
    case Leave =>
      if l.holder.None? then (l, [], [])
      else (Release(l), if l.waiters == [] then [] else [l.waiters[0]], [])
  }

  /** A run of events: the final lock, the invocations that entered the
      critical section in order, and those dropped. */
  function RunLock<T>(l: LockState<T>, mode: ActivityMode, events: seq<LockEvent<T>>): (LockState<T>, seq<T>, seq<T>)
    decreases |events|
  {
    if events == [] then (l, [], [])
    else
      var (l1, entered1, dropped1) := StepLock(l, mode, events[0]);
      var (last, entered2, dropped2) := RunLock(l1, mode, events[1..]);
      (last, entered1 + entered2, dropped1 + dropped2)
  }

  /** One event in `schedule` mode: the queue before it plus what arrived
      is what entered plus the queue after it. */
  lemma StepKeepsQueue<T>(l: LockState<T>, e: LockEvent<T>)
    requires LockValid(l)
    ensures var step := StepLock(l, Schedule, e);
      && LockValid(step.0) && step.2 == []
      && l.waiters + (if e.Arrive? then [e.x] else []) == step.1 + step.0.waiters
  {
    if e.Leave? && l.holder.Some? && l.waiters != [] {
      assert l.waiters == [l.waiters[0]] + l.waiters[1..];
    }
  }

  /** In `schedule` mode no firing is lost and the handler runs once per
      firing, in arrival order: what entered plus what still waits is what
      waited at the start plus every arrival. */
  lemma {:induction false} ScheduleServesInArrivalOrder<T>(l: LockState<T>, events: seq<LockEvent<T>>)
    requires LockValid(l)
    ensures var run := RunLock(l, Schedule, events);
      && LockValid(run.0) && run.2 == []
      && l.waiters + Arrivals(events) == run.1 + run.0.waiters
    decreases |events|
  {
    if events != [] {
      var rest := events[1..];
      var step := StepLock(l, Schedule, events[0]);
      var tail := RunLock(step.0, Schedule, rest);
      var here := if events[0].Arrive? then [events[0].x] else [];
      assert RunLock(l, Schedule, events) == (tail.0, step.1 + tail.1, step.2 + tail.2);
      assert Arrivals(events) == here + Arrivals(rest);
      StepKeepsQueue(l, events[0]);
      ScheduleServesInArrivalOrder(step.0, rest);
      QueueAlgebra(l.waiters, here, step.1, step.0.waiters, Arrivals(rest), tail.1, tail.0.waiters);
    }
  }

  lemma QueueAlgebra<T>(w0: seq<T>, here: seq<T>, e1: seq<T>, w1: seq<T>, later: seq<T>, e2: seq<T>, w2: seq<T>)
    requires w0 + here == e1 + w1 && w1 + later == e2 + w2
    ensures w0 + (here + later) == (e1 + e2) + w2
  {
    calc {
      w0 + (here + later);
      (w0 + here) + later;
      e1 + (w1 + later);
      (e1 + e2) + w2;
    }
  }

  /** In `drop` mode nothing ever waits: every arrival either enters at
      once or is dropped because the lock is held. */
  lemma {:induction false} DropNeverQueues<T>(l: LockState<T>, events: seq<LockEvent<T>>)
    requires l.waiters == []
    ensures var (last, entered, dropped) := RunLock(l, Drop, events);
      && last.waiters == []
      && multiset(entered) + multiset(dropped) == multiset(Arrivals(events))
    decreases |events|
  {
    if events != [] {
      var rest := events[1..];
      var (l1, entered1, dropped1) := StepLock(l, Drop, events[0]);
      var here := if events[0].Arrive? then [events[0].x] else [];
      assert Arrivals(events) == here + Arrivals(rest);
      assert l1.waiters == [] && multiset(entered1) + multiset(dropped1) == multiset(here);
      DropNeverQueues(l1, rest);
    }
  }

  // ---------------------------------------------------------------------
  // Parameters, call and error routing

  /** `params` is the template with every name that the sender supplies
      overwritten by the sender's value: the same keys, and no others. */
  ghost predicate BindsParams(params: map<string, Value>, template: map<string, Value>, sender: map<string, Value>) {
    && params.Keys == template.Keys
    && forall k :: k in params ==> params[k] == (if k in sender then sender[k] else template[k])
  }

  /** The parameter template: every declared name except `self`, each
      set to `None`. */
  method EmptyParamDict(names: seq<string>) returns (template: map<string, Value>)
    ensures forall n :: n in template <==> n in names && n != "self"
    ensures forall n :: n in template ==> template[n] == PyNone
  {
    template := map[];
    for i := 0 to |names|
      invariant forall n :: n in template <==> n in names[..i] && n != "self"
      invariant forall n :: n in template ==> template[n] == PyNone
    {
      if names[i] != "self" {
        template := template[names[i] := PyNone];
      }
      assert names[..i + 1] == names[..i] + [names[i]];
    }
    assert names[..|names|] == names;
  }

  /** Copy the template and fill in what the sender supplies; names the
      template lacks are ignored. */
  method FillParams(template: map<string, Value>, sender: map<string, Value>) returns (params: map<string, Value>)
    ensures BindsParams(params, template, sender)
  {
    params := template;
    var todo := template.Keys;
    while todo != {}
      invariant todo <= template.Keys
      invariant params.Keys == template.Keys
      invariant forall k :: k in params && k !in todo ==> params[k] == (if k in sender then sender[k] else template[k])
      invariant forall k :: k in todo ==> params[k] == template[k]
      decreases todo
    {
      var k :| k in todo;
      if k in sender {
        params := params[k := sender[k]];
      }
      todo := todo - {k};
    }
  }

  /** The owner, as the receiver of the target, when there is one. */
  function Receiver(instance: Instance): seq<Value> {
    if instance.Owned? then [Ref(instance.owner)] else []
  }

  /** `target(instance, *args, *fixed_args, **kwargs, **fixed_kwargs, **params)`
      (without `instance` when it is `None`). Python refuses a keyword that
      two of the three mappings both supply. */
  function BuildCall(instance: Instance, args: seq<Value>, fixedArgs: seq<Value>,
                     kwargs: map<string, Value>, fixedKwargs: map<string, Value>,
                     params: map<string, Value>): (r: Result<TargetCall, PyException>)
    ensures r.Success? <==> kwargs.Keys !! fixedKwargs.Keys && kwargs.Keys !! params.Keys && fixedKwargs.Keys !! params.Keys
    ensures r.Failure? ==> r.error.kind == "TypeError"
    ensures r.Success? ==> |r.value.positional| == |Receiver(instance)| + |args| + |fixedArgs|
    ensures r.Success? && instance.Owned? ==> r.value.positional[0] == Ref(instance.owner)
    ensures r.Success? ==> r.value.positional[|Receiver(instance)|..] == args + fixedArgs
    ensures r.Success? ==> r.value.keywords.Keys == kwargs.Keys + fixedKwargs.Keys + params.Keys
    ensures r.Success? ==> forall k :: k in r.value.keywords ==>
      r.value.keywords[k] == (if k in params then params[k] else if k in fixedKwargs then fixedKwargs[k] else kwargs[k])
  {
    if kwargs.Keys !! fixedKwargs.Keys && kwargs.Keys !! params.Keys && fixedKwargs.Keys !! params.Keys then
      Success(TargetCall(Receiver(instance) + args + fixedArgs, kwargs + fixedKwargs + params))
    else
      Failure(PyException("TypeError", "got multiple values for keyword argument"))
  }

  /** `__call__` calls the target directly, with no lock, no template and
      no receiver, passing its arguments through unchanged: that is what a
      bare firing does for a target that declares no parameters and has no
      fixed arguments. */
  lemma DirectCallIsBareTrigger(args: seq<Value>, kwargs: map<string, Value>)
    ensures BuildCall(Standalone, args, [], kwargs, map[], map[]) == Success(TargetCall(args, kwargs))
  {
    assert args + [] == args;
    assert kwargs + map[] + map[] == kwargs;
  }

  /** The ending of the critical section: a call Python refuses raises
      before the target runs; otherwise the target's own ending. */
  function Effective(call: Result<TargetCall, PyException>, outcome: HandlerOutcome): HandlerOutcome {
    if call.Failure? then Raised(call.error) else outcome
  }

  /** The `except Exception` clause of `trigger`: an `Exception` goes to
      the owner's root node, or is re-raised when there is no owner; any
      other `BaseException` is not caught and leaves `trigger` as it is. */
  function Route(instance: Instance, outcome: HandlerOutcome): (d: Disposition)
    ensures d == Returned <==> outcome == Completed
    ensures d.Reraised? <==> outcome.Raised? && (instance.Standalone? || !outcome.exception.isException)
    ensures d.HandledByRoot? <==> outcome.Raised? && instance.Owned? && outcome.exception.isException
    ensures d.Reraised? ==> d.exception == outcome.exception
    ensures d.HandledByRoot? ==> d.owner == instance.owner && d.exception == outcome.exception
  {
    match outcome
    case Completed => Returned
    case Raised(e) =>
      if instance.Standalone? || !e.isException then Reraised(e) else HandledByRoot(instance.owner, e)
  }

  /** The invocation inside the critical section, with the parameters and
      call built for it on entry. */
  datatype Running = Running(invocation: Invocation, params: map<string, Value>, call: Result<TargetCall, PyException>)

  /** `activity(trigger, *args, mode=mode, **kwargs)(target)`; the mode
      defaults to `schedule`. */
  method Declare(trigger: TriggerArg, target: Target, args: seq<Value>, kwargs: map<string, Value>, mode: ActivityMode := Schedule)
    returns (r: Result<ActivityDecorator, PyException>)
    requires trigger.IsTrigger? ==> TriggerValid(trigger.ref)
    modifies if trigger.IsTrigger? && target.isCoroutineFunction then Footprint(trigger.ref) else {}
    ensures trigger.NotATrigger? ==> r == Failure(PyException("TypeError", "trigger must inherit from TriggerBase"))
    ensures !trigger.NotATrigger? && !target.isCoroutineFunction ==>
      r == Failure(PyException("TypeError", "I find your lack of async disturbing."))
    ensures r.Success? <==> !trigger.NotATrigger? && target.isCoroutineFunction
    ensures r.Failure? && trigger.IsTrigger? ==> Members(trigger.ref) == old(Members(trigger.ref))
    ensures r.Failure? && trigger.IsTrigger? && trigger.ref.StaticClock? ==>
      && trigger.ref.clock.instances == old(trigger.ref.clock.instances)
      && forall i :: i in trigger.ref.clock.instances.Values ==> i.activities == old(i.activities)
    ensures r.Success? ==> fresh(r.value) && r.value.Valid()
    ensures r.Success? ==> r.value.target == target && r.value.mode == mode
    ensures r.Success? ==> r.value.fixedArgs == args && r.value.fixedKwargs == kwargs
    ensures r.Success? ==> r.value.lock == LockState(None, []) && r.value.current == None
    ensures r.Success? && trigger.NoTrigger? ==> r.value.triggerObj == None
    ensures r.Success? && trigger.IsTrigger? ==>
      && r.value.triggerObj == Some(trigger.ref) && TriggerValid(trigger.ref)
      && Members(trigger.ref) == Added(old(Members(trigger.ref)), r.value)
    ensures r.Success? && trigger.IsTrigger? && trigger.ref.StaticClock? ==>
      && trigger.ref.clock.instances == old(trigger.ref.clock.instances)
      && forall i :: i in trigger.ref.clock.instances.Values ==> i.activities == Added(old(i.activities), r.value)
    ensures forall i: Clock.ClockInstance :: old(allocated(i)) ==>
      i.period == old(i.period) && i.running == old(i.running) && i.loops == old(i.loops)
    ensures r.Success? ==> forall n :: n in r.value.emptyParamDict <==> n in target.parameterNames && n != "self"
    ensures r.Success? ==> forall n :: n in r.value.emptyParamDict ==> r.value.emptyParamDict[n] == PyNone
  {
    if trigger.NotATrigger? {
      return Failure(PyException("TypeError", "trigger must inherit from TriggerBase"));
    }
    if !target.isCoroutineFunction {
      return Failure(PyException("TypeError", "I find your lack of async disturbing."));
    }
    var a := new ActivityDecorator(if trigger.IsTrigger? then Some(trigger.ref) else None, target, args, kwargs, mode);
    r := Success(a);
  }

  /** The wrapper that `activity(...)` returns, applied to its target. */
  class ActivityDecorator {
    const target: Target
    const mode: ActivityMode
    const emptyParamDict: map<string, Value>
    const fixedArgs: seq<Value>
    const fixedKwargs: map<string, Value>
    var triggerObj: Option<TriggerRef>
    var lock: LockState<Invocation>
    var current: Option<Running>

    ghost predicate Valid()
      reads this
    {
      && LockValid(lock)
      && (mode == Drop ==> lock.waiters == [])
      && (lock.holder.Some? <==> current.Some?)
      && (current.Some? ==> current.value.invocation == lock.holder.value)
    }

    /** `r` is what entering the critical section builds for `inv`. */
    ghost predicate IsRunFor(r: Running, inv: Invocation)
      reads this
    {
      && r.invocation == inv
      && BindsParams(r.params, emptyParamDict, inv.senderParameters)
      && r.call == BuildCall(inv.instance, inv.args, fixedArgs, inv.kwargs, fixedKwargs, r.params)
    }

    constructor (trigger: Option<TriggerRef>, target: Target, args: seq<Value>, kwargs: map<string, Value>, mode: ActivityMode)
      requires trigger.Some? ==> TriggerValid(trigger.value)
      modifies OptFootprint(trigger)
      ensures Valid() && this.target == target && this.mode == mode
      ensures fixedArgs == args && fixedKwargs == kwargs
      ensures forall n :: n in emptyParamDict <==> n in target.parameterNames && n != "self"
      ensures forall n :: n in emptyParamDict ==> emptyParamDict[n] == PyNone
      ensures lock == LockState(None, []) && current == None
      ensures triggerObj == trigger
      ensures trigger.Some? ==> TriggerValid(trigger.value) && Members(trigger.value) == Added(old(Members(trigger.value)), this)
      ensures trigger.Some? && trigger.value.StaticClock? ==>
        && trigger.value.clock.instances == old(trigger.value.clock.instances)
        && forall i :: i in trigger.value.clock.instances.Values ==> i.activities == Added(old(i.activities), this)
      ensures forall i: Clock.ClockInstance :: old(allocated(i)) ==>
      i.period == old(i.period) && i.running == old(i.running) && i.loops == old(i.loops)
    {
      this.target := target;
      this.mode := mode;
      fixedArgs := args;
      fixedKwargs := kwargs;
      var template := EmptyParamDict(target.parameterNames);
      emptyParamDict := template;
      triggerObj := None;
      lock := LockState(None, []);
      current := None;
      new;
      label ready:
      if trigger.Some? {
        AddTo(trigger.value, this);
        triggerObj := trigger;
      }
      forall i: Clock.ClockInstance | old(allocated(i))
        ensures i.period == old(i.period) && i.running == old(i.running) && i.loops == old(i.loops)
      {
        assert old@ready(i.period) == old(i.period) && old@ready(i.running) == old(i.running);
      }
    }

    /** The `trigger_obj` setter: `None` changes nothing; a trigger source
        unsubscribes this activity from the old one, if any, and subscribes
        it to the new one. */
    method SetTriggerObj(t: Option<TriggerRef>)
      requires t.Some? ==> TriggerValid(t.value)
      requires triggerObj.Some? ==> TriggerValid(triggerObj.value)
      modifies this`triggerObj, if t.Some? then OptFootprint(triggerObj) + OptFootprint(t) else {}
      ensures t.None? ==> triggerObj == old(triggerObj)
      ensures t.None? && triggerObj.Some? ==> Members(triggerObj.value) == old(Members(triggerObj.value))
      ensures t.Some? ==> triggerObj == t && TriggerValid(t.value) && this in Members(t.value)
      ensures t.Some? && old(triggerObj).None? ==> Members(t.value) == Added(old(Members(t.value)), this)
      ensures t.Some? && old(triggerObj).Some? && Head(t.value) !in old(OptFootprint(triggerObj)) ==>
        Members(t.value) == Added(old(Members(t.value)), this)
      ensures t.Some? && old(triggerObj).Some? && Head(old(triggerObj).value) !in old(Footprint(t.value)) ==>
        Members(old(triggerObj).value) == Removed(old(Members(triggerObj.value)), this)
      ensures t.Some? && old(triggerObj) == t ==>
        Members(t.value) == Added(Removed(old(Members(t.value)), this), this)
      ensures t.Some? && t.value.StaticClock? ==>
        && t.value.clock.instances == old(t.value.clock.instances)
        && forall i :: i in t.value.clock.instances.Values ==> this in i.activities
      ensures t.Some? && t.value.StaticClock? && old(OptFootprint(triggerObj)) !! old(Footprint(t.value)) ==>
        forall i :: i in t.value.clock.instances.Values ==> i.activities == Added(old(i.activities), this)
      ensures t.Some? && old(triggerObj) == t && t.value.StaticClock? ==>
        forall i :: i in t.value.clock.instances.Values ==> i.activities == Added(Removed(old(i.activities), this), this)
      ensures t.Some? && old(triggerObj).Some? && old(triggerObj).value.StaticClock? ==>
        old(triggerObj).value.clock.instances == old(triggerObj.value.clock.instances)
      ensures t.Some? && old(triggerObj).Some? && old(triggerObj).value.StaticClock? &&
              old(OptFootprint(triggerObj)) !! old(Footprint(t.value)) ==>
        forall i :: i in old(triggerObj).value.clock.instances.Values ==> i.activities == Removed(old(i.activities), this)
      ensures forall i: Clock.ClockInstance :: old(allocated(i)) ==>
      i.period == old(i.period) && i.running == old(i.running) && i.loops == old(i.loops)
    {
      if t.Some? {
        if triggerObj.Some? {
          RemoveFrom(triggerObj.value, this);
        }
        triggerObj := t;
        label subscribing:
        AddTo(t.value, this);
        forall i: Clock.ClockInstance | old(allocated(i))
          ensures i.period == old(i.period) && i.running == old(i.running) && i.loops == old(i.loops)
        {
          assert old@subscribing(i.period) == old(i.period) && old@subscribing(i.running) == old(i.running);
        }
        AddedMembers(Members(t.value), this);
        if t.value.StaticClock? {
          forall i | i in t.value.clock.instances.Values
            ensures this in i.activities
          {
            AddedMembers(old@subscribing(i.activities), this);
          }
        }
      }
    }

    /** Builds the parameters and the call of an invocation that enters
        the critical section. */
    method Enter(inv: Invocation) returns (r: Running)
      ensures IsRunFor(r, inv)
    {
      var params := FillParams(emptyParamDict, inv.senderParameters);
      r := Running(inv, params, BuildCall(inv.instance, inv.args, fixedArgs, inv.kwargs, fixedKwargs, params));
    }

    /** `trigger(senders, sender_parameters, instance, *args, **kwargs)`
        up to the point where the target is awaited. */
    method Trigger(inv: Invocation) returns (a: Admission)
      requires Valid()
      modifies this`lock, this`current
      ensures Valid()
      ensures (lock, a) == Admit(old(lock), mode, inv)
      ensures a == Entered ==> current.Some? && IsRunFor(current.value, inv)
      ensures a != Entered ==> current == old(current)
    {
      if lock.holder.Some? && mode == Drop {
        return Dropped;
      }
      if lock.holder.Some? {
        lock := lock.(waiters := lock.waiters + [inv]);
        return Queued;
      }
      var r := Enter(inv);
      lock := LockState(Some(inv), lock.waiters);
      current := Some(r);
      a := Entered;
    }

    /** The critical section ends with `outcome`: the exception, if any, is
        routed, the lock is released, and the first waiter enters. */
    method Finish(outcome: HandlerOutcome) returns (d: Disposition)
      requires Valid() && current.Some?
      modifies this`lock, this`current
      ensures Valid()
      ensures d == Route(old(current).value.invocation.instance, Effective(old(current).value.call, outcome))
      ensures lock == Release(old(lock))
      ensures current.Some? ==> IsRunFor(current.value, lock.holder.value)
    {
      var running := current.value;
      d := Route(running.invocation.instance, Effective(running.call, outcome));
      lock := Release(lock);
      if lock.holder.Some? {
        var r := Enter(lock.holder.value);
        current := Some(r);
      } else {
        current := None;
      }
    }
  }
}
