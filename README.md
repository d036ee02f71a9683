# urban_journey core, modelled in Dafny

This project models the core of urban_journey, a Python framework. In it, nodes declared in UJML (an XML dialect) exchange data through triggers and activities. The model covers five parts:

- **Activities** (`Activity`, `activity.dfy`). The `activity(...)` decorator factory and its `ActivityDecorator` work as follows:
  - It checks its arguments.
  - It subscribes to a trigger, and moves to a new one when `trigger_obj` is set.
  - It builds the parameter template.
  - The `trigger` coroutine admits or drops a firing under the asyncio lock. It fills the per-firing parameters and calls the target, with the instance first when there is one. A handler exception is routed to the caller or to the root's exception handler.
- **Clocks** (`Clock`, `clock.dfy`). `ClockStatic` is the class-level clock descriptor, which keeps one `ClockInstance` per owner object and mirrors its subscriptions into them. `ClockInstance` covers the period and frequency, start and stop, the `timer_callback` loop and `trigger`.
  - The loop's sleeps are virtual steps: a clock's scheduled loops form a sequence of `AtCheck`/`Sleeping` phases that the scheduler steps one at a time.
  - The pure `ClockState`/`Run` model carries the lemmas about firing counts.
  - The class methods are tied to that model.
- **Trigger subscriptions** (`Registry`, `registry.dfy`). A trigger's `_activities` container is modelled as a duplicate-free sequence. Adding an activity appends it if absent. Removing it deletes it.
- **Scalar attributes** (`StdTypes`, `std_types.dfy`). This covers `String`, `Int`, `Bool` and `FilePath`, reading and writing an attribute of the node's XML element.
- **Data inputs** (`DataAttribute`, `data_attribute.dfy`, and `DataNode`, `data_node.dfy`).
  - The `Data` descriptor finds the child node that holds an input, caches it per instance and validates its type and shape.
  - The `data` node chooses between its children's data and its own text.
  - `process_if_array` rewrites that text into a list or `numpy` array literal. The two regular expressions it uses are written out as left-to-right scanners: `Seps` for `is_list_regex` and `Rows`/`To2D` for `to_2d_list_regex`.

Shared types are in `pubsub_types.dfy` (Python values, invocations, exceptions) and `wrappers.dfy` (`Option`, `Result`).

A clock's `running` flag is tested only at the top of each `timer_callback` iteration (`urban_journey/new_clock.py:92`). So stopping a clock does not stop a loop that is already asleep: it wakes and fires once more before it ends. `StartThenStopFiresNothing` states that a clock started and stopped before any loop went to sleep never fires, and `StoppedClockFiresAtMostSleepingLoops` bounds the ticks of a stopped clock by its sleeping loops.

## Model

| member | source | states |
|---|---|---|
| Activity.Declare | urban_journey/pubsub/activity.py:30-57 | The mode defaults to schedule. A trigger that is neither a `TriggerBase` nor `None` raises TypeError "trigger must inherit from TriggerBase". A target that is not a coroutine function raises TypeError "I find your lack of async disturbing.". On either error the trigger's subscriptions are unchanged and, for a static clock, so are its instance map and every registered instance's subscriptions. Otherwise it returns a fresh decorator: its lock is free; the target, mode, fixed args and kwargs are stored; its template maps exactly the parameter names other than "self" to None; it is subscribed to the trigger, and a static clock's registered instances gain it too while the instance map stays the same. No clock instance's period, running flag or scheduled loops change. On either error nothing at all is modified. |
| Activity.ActivityDecorator.constructor | urban_journey/pubsub/activity.py:36-57 | The new decorator's template maps exactly the declared parameter names other than "self" to None, and its lock is free. The trigger, if any, gains the decorator, appended when absent. When the trigger is a static clock, every registered instance gains it as well, and the instance map is unchanged. No clock instance's period, running flag or scheduled loops change. |
| Activity.EmptyParamDict | urban_journey/pubsub/activity.py:50-54 | The template's keys are exactly the parameter names other than "self", each mapped to None. |
| Activity.FillParams | urban_journey/pubsub/activity.py:88-91 | The params have exactly the template's keys. A key the sender supplies takes the sender's value, and every other key keeps the template's value. Extra sender keys are ignored. |
| Activity.ActivityDecorator.SetTriggerObj | urban_journey/pubsub/activity.py:67-73 | Setting None changes nothing. Setting a trigger makes it the current one, with this activity among its subscribers. The activity is appended when it was new to that trigger, and is removed from a previous trigger that does not share state with the new one. Setting the current trigger again moves the activity to the end of its subscribers. When the new trigger is a static clock, its instance map is unchanged and every registered instance holds the activity, appended when the old trigger shares no state with it. When the old trigger is a static clock, its instance map is unchanged and, when it shares no state with the new one, every registered instance loses the activity. Setting None modifies nothing but the trigger field, which it leaves as it was. No clock instance's period, running flag or scheduled loops change. |
| Activity.AddTo | urban_journey/pubsub/activity.py:73 | Subscribing through any kind of trigger adds the activity to its set. A static clock's registered instances gain it too. No clock instance's period, running flag or scheduled loops change. |
| Activity.RemoveFrom | urban_journey/pubsub/activity.py:71 | Unsubscribing through any kind of trigger removes the activity from its set. A static clock's registered instances lose it too. No clock instance's period, running flag or scheduled loops change. |
| Activity.ActivityDecorator.Trigger | urban_journey/pubsub/activity.py:81-85 | When the lock is held, a drop-mode firing returns without running and a schedule-mode firing joins the waiters. When the lock is free, the firing takes it and runs with the params and call built from its invocation. |
| Activity.ActivityDecorator.Enter | urban_journey/pubsub/activity.py:88-97 | The running call holds the params filled from the sender parameters and the call built from the invocation. |
| Activity.ActivityDecorator.Finish | urban_journey/pubsub/activity.py:85-105 | Every exit releases the lock, and the first waiter then holds it and runs. The outcome is routed as `Activity.Route` states. |
| Activity.BuildCall | urban_journey/pubsub/activity.py:94-97 | The instance is the first positional argument exactly when it is not None, followed by the firing's args and then the fixed args. The keywords are the union of the firing's kwargs, the fixed kwargs and the params. Any duplicate keyword is a TypeError. |
| Activity.Admit | urban_journey/pubsub/activity.py:82-85 | A firing that finds the lock held is dropped exactly in drop mode and queued last exactly in schedule mode. A dropped firing leaves the lock as it was. A firing that finds the lock free takes it with the waiters unchanged. A valid lock stays valid. |
| Activity.Release | urban_journey/pubsub/activity.py:85-97 | Leaving the `with` block frees the lock exactly when nobody waits. Otherwise the first waiter takes it and the others keep their order. The lock stays valid. |
| Activity.Route | urban_journey/pubsub/activity.py:99-105 | Only an `Exception` is caught. It is re-raised exactly when the instance is None, and otherwise goes to that instance's root handler and is not re-raised. Any other `BaseException` leaves `trigger` whatever the instance. Completion returns normally. |
| Activity.DirectCallIsBareTrigger | urban_journey/pubsub/activity.py:107-108 | Calling the decorator directly calls the target with exactly the given positional and keyword arguments: the same call a firing with no instance, no fixed arguments and no parameters would make. |
| Activity.ScheduleServesInArrivalOrder | urban_journey/pubsub/activity.py:82-85 | In schedule mode no firing is dropped. The firings that have run, followed by those still waiting, are the arrivals in order. |
| Activity.DropNeverQueues | urban_journey/pubsub/activity.py:82-85 | In drop mode nothing ever waits for the lock. Every arrival either runs or is dropped. |
| Activity.StepKeepsQueue | urban_journey/pubsub/activity.py:82-85 | For a single schedule-mode arrival or release, nothing is dropped. The waiters before it plus the arrival equal the firings that start running plus the waiters after it. |
| Clock.ClockStatic.AddObj | urban_journey/new_clock.py:22-28 | A new instance is stored under the owner, with period 1 and not running. It is subscribed to every activity of the static clock, in order. |
| Clock.ClockStatic.constructor | urban_journey/new_clock.py:18-20 | A new static clock has no activities and no instances. |
| Clock.ClockStatic.AddActivity | urban_journey/new_clock.py:30-33 | The activity is added to the static clock and to every registered instance. The instance map is unchanged. |
| Clock.ClockStatic.RemoveActivity | urban_journey/new_clock.py:35-38 | The activity is removed from the static clock and from every registered instance. The instance map is unchanged. |
| Clock.ClockInstance.constructor | urban_journey/new_clock.py:52-58 | A new instance has period 1, is not running, has no scheduled loop and has no activities. |
| Clock.ClockInstance.Frequency | urban_journey/new_clock.py:60-66 | The frequency is the reciprocal of the period. A zero period, and only a zero period, is a ZeroDivisionError. |
| Clock.ClockInstance.SetFrequency | urban_journey/new_clock.py:68-70 | A nonzero frequency sets the period to its reciprocal and reads back unchanged. Zero raises ZeroDivisionError and leaves the period unchanged. |
| Clock.ClockInstance.AddActivity | urban_journey/new_clock.py:28 | The instance's subscriptions gain the activity, appended when absent. |
| Clock.ClockInstance.RemoveActivity | urban_journey/new_clock.py:38 | The instance's subscriptions lose the activity. |
| Clock.Reciprocal | urban_journey/new_clock.py:66-70 | `1 / x` succeeds exactly when x is nonzero, with a result whose product with x is 1. |
| Clock.FrequencyRoundTrip | urban_journey/new_clock.py:60-70 | Taking the reciprocal twice gives back the frequency. |
| Clock.ClockInstance.Start | urban_journey/new_clock.py:72-79 | Start sets `running` and schedules one more loop at its first check. Nothing else changes. |
| Clock.ClockInstance.Stop | urban_journey/new_clock.py:81-85 | Stop clears `running` and changes nothing else. |
| Clock.Started | urban_journey/new_clock.py:72-79 | A start sets `running` and appends one loop at its first check, keeping the existing loops and their number of sleeping loops. |
| Clock.Stopped | urban_journey/new_clock.py:81-85 | A stop clears `running` and keeps every loop as it was. |
| Clock.Stepped | urban_journey/new_clock.py:87-94 | A step fires exactly when the loop was asleep; the flag is untouched. A sleeping loop returns to its check, one fewer loop sleeping. A loop at its check falls asleep while the clock runs, one more loop sleeping, and ends otherwise, leaving one loop fewer with the same number sleeping. |
| Clock.Run | urban_journey/new_clock.py:72-94 | A run of events fires at most once per event, and a run with no start or stop leaves the flag as it was. |
| Clock.ClockInstance.Step | urban_journey/new_clock.py:87-94 | A loop at its check goes to sleep while the clock runs and ends otherwise. A sleeping loop wakes and fires one tick whatever `running` now is. |
| Clock.ClockInstance.Trigger | urban_journey/new_clock.py:96-102 | A tick fires every activity in order, with senders `[self]`, empty parameters and the owner as instance. |
| Clock.StoppedClockFiresAtMostSleepingLoops | urban_journey/new_clock.py:92-94 | Once stopped, and unless it is started again, a clock fires at most once per loop that was asleep. |
| Clock.StartThenStopFiresNothing | urban_journey/new_clock.py:79-94 | A clock started and stopped before any of its loops went to sleep never fires. |
| Clock.RunningClockTicksEveryCycle | urban_journey/new_clock.py:92-94 | A running clock with one loop fires once in every check-and-sleep cycle and keeps running. |
| Clock.SleepingCountAfterCheck | urban_journey/new_clock.py:92 | A loop that ends at its check leaves the number of sleeping loops unchanged. |
| Registry.AddedMembers | urban_journey/new_clock.py:30-33 | Adding an activity makes it a member, keeps every member and adds nothing else. It appends only when absent, and the container stays duplicate-free. |
| Registry.RemovedMembers | urban_journey/new_clock.py:35-38 | Removing an activity makes it a non-member and keeps every other member. It leaves the container unchanged when the activity was absent, and the container stays duplicate-free. |
| Registry.RemoveUndoesAdd | urban_journey/pubsub/activity.py:69-73 | Removing a newly added activity restores the subscriptions. |
| Registry.ReAddMovesToEnd | urban_journey/pubsub/activity.py:69-73 | Removing an activity and adding it again puts it last, after the others in their previous order. |
| Registry.Trigger.AddActivity | urban_journey/pubsub/activity.py:73 | The subscriber set of a plain trigger gains the activity. |
| Registry.Trigger.RemoveActivity | urban_journey/pubsub/activity.py:71 | The subscriber set of a plain trigger loses the activity. |
| StdTypes.StringGet | urban_journey/ujml/attributes/std_types.py:12-17 | It returns the stored string unchanged. A missing attribute defers to the optional value. |
| StdTypes.StringSet | urban_journey/ujml/attributes/std_types.py:19-20 | Only the named attribute changes, and reading it back gives the string. |
| StdTypes.IntGet | urban_journey/ujml/attributes/std_types.py:27-35 | An all-digit string gives its decimal value. Any other string, including an empty, signed or fractional one, is InvalidAttributeValueError. A missing attribute defers to the optional value. |
| StdTypes.IntSet | urban_journey/ujml/attributes/std_types.py:37-38 | Only the named attribute changes, to `"%d"` of x. Reading it back gives x when x >= 0 and an error when x < 0. |
| StdTypes.IntRoundTrip | urban_journey/ujml/attributes/std_types.py:32-38 | Printing an integer and parsing it back gives the integer when it is non-negative, and is refused when it is negative. |
| StdTypes.DecimalValueOfNatToString | urban_journey/ujml/attributes/std_types.py:33-38 | The decimal digits of n read back as n. |
| StdTypes.NatToStringOfDecimalValue | urban_journey/ujml/attributes/std_types.py:32-38 | A digit string without leading zeros is printed back exactly as it was read. |
| StdTypes.LeadingZerosAreLost | urban_journey/ujml/attributes/std_types.py:32-38 | Every digit string longer than one character that starts with "0" is read as a value, which prints back as a different string. |
| StdTypes.ParseInt | urban_journey/ujml/attributes/std_types.py:32-35 | A value is read exactly when the string is non-empty and all digits. |
| StdTypes.FormatInt | urban_journey/ujml/attributes/std_types.py:38 | `"%d"` of a non-negative integer is a digit string without a leading zero. Of a negative one it is "-" followed by such a string. |
| StdTypes.BoolGet | urban_journey/ujml/attributes/std_types.py:45-54 | "true" and "false" in any letter case give the matching boolean. Anything else is InvalidAttributeValueError. A missing attribute defers to the optional value. |
| StdTypes.BoolSet | urban_journey/ujml/attributes/std_types.py:56-57 | Only the named attribute changes, to `str(x)`, and reading it back gives x. |
| StdTypes.BoolRoundTrip | urban_journey/ujml/attributes/std_types.py:50-57 | "True" and "False" read back as the booleans they print. |
| StdTypes.FormatBool | urban_journey/ujml/attributes/std_types.py:57 | `str(x)` is capitalised and its lower-case form is "true" or "false" as x is. |
| StdTypes.ParseBool | urban_journey/ujml/attributes/std_types.py:50-54 | A string gives True exactly when its lower-case form is "true", False exactly when it is "false", and nothing otherwise; an accepted string has four or five characters. |
| StdTypes.FilePathGet | urban_journey/ujml/attributes/std_types.py:94-102 | The stored path is used when present, otherwise the optional value. It is None exactly when both are absent. |
| StdTypes.FilePathSet | urban_journey/ujml/attributes/std_types.py:104-105 | Only the named attribute changes, and reading it back gives the path. |
| DataAttribute.Data.constructor | urban_journey/ujml/attributes/data.py:19-24 | The type, the optional value and the shape default to None, Required and None, and are stored as given. A new descriptor has no name and an empty child cache. |
| DataAttribute.Data.Get | urban_journey/ujml/attributes/data.py:26-58 | Class access returns the descriptor and changes nothing. Instance access finds the name when unknown, failing on an empty one. It scans for the child only when none is cached, and then caches the last child with that tag. It returns the cached child's validated data. With no child it raises MissingRequiredInput when required and returns the optional value otherwise. |
| DataAttribute.Data.GetName | urban_journey/ujml/attributes/data.py:60-70 | The name becomes the key of the last item of the owner's dictionary whose value is this descriptor. It fails when there is no such key or the key is empty. |
| DataAttribute.Data.Validate | urban_journey/ujml/attributes/data.py:72-95 | It agrees with `Validated`. A wrong type is UJMLTypeError. With the right type and a declared shape, a datum that is not an ndarray is UJMLTypeError, a rank mismatch is InvalidShapeError, and a declared dimension that differs is InvalidShapeError. Accepted data is returned unchanged. |
| DataAttribute.Validated | urban_journey/ujml/attributes/data.py:80-95 | Data is accepted exactly when it has the declared type and, when a shape is declared, is an ndarray whose shape matches. Accepted data is returned unchanged. A wrong type is UJMLTypeError whatever the shape. With the right type, a non-ndarray under a declared shape is UJMLTypeError and a mismatching shape is InvalidShapeError. |
| DataAttribute.WildcardsMatchAnyDimension | urban_journey/ujml/attributes/data.py:91-94 | When every dimension is a wildcard, only the rank is checked. |
| DataAttribute.LastIndexOf | urban_journey/ujml/attributes/data.py:44-46 | It returns the last position holding the value, or None when no position does. |
| DataAttribute.Cached | urban_journey/ujml/attributes/data.py:43-46 | A cached node keeps its child. Otherwise a child with the tag is cached when one exists, and nothing is cached when none does. |
| DataAttribute.ScanCachesLastMatch | urban_journey/ujml/attributes/data.py:44-46 | The child a scan caches carries the tag, and no later child carries it. |
| DataAttribute.CacheIsNotRescanned | urban_journey/ujml/attributes/data.py:43 | Once a child is cached, later accesses keep it. |
| DataNode.TrimStart | urban_journey/ujml/base_nodes/data/data.py:43 | It drops exactly the leading whitespace. |
| DataNode.TrimEnd | urban_journey/ujml/base_nodes/data/data.py:43 | It drops exactly the trailing whitespace. |
| DataNode.Strip | urban_journey/ujml/base_nodes/data/data.py:43 | The result is no longer than the text, neither starts nor ends with whitespace, and is empty exactly when the text is all whitespace. |
| DataNode.StripIsIdempotent | urban_journey/ujml/base_nodes/data/data.py:43 | Stripping twice is the same as stripping once. |
| DataNode.Seps | urban_journey/ujml/base_nodes/data/data.py:8 | The scan reports only `,` and `;`. |
| DataNode.SepsComeFromText | urban_journey/ujml/base_nodes/data/data.py:8 | Every separator the scan reports occurs in the text. |
| DataNode.SpanHidesSeparators | urban_journey/ujml/base_nodes/data/data.py:8 | Separators inside a `[..]`, `(..)` or `{..}` span, which ends at the first closer, are not reported. |
| DataNode.SeparatorIsReported | urban_journey/ujml/base_nodes/data/data.py:8 | A `,` or `;` outside any span is reported. |
| DataNode.UnclosedOpenerHidesNothing | urban_journey/ujml/base_nodes/data/data.py:8 | An opener with no later closer of its kind hides nothing. |
| DataNode.ListOfListsHasTopLevelComma | urban_journey/ujml/base_nodes/data/data.py:8 | `[[x],[y]]` has a top-level `,`, because the first span ends at the first `]`. |
| DataNode.Classify | urban_journey/ujml/base_nodes/data/data.py:44-50 | The kind is 2-D exactly when a top-level `;` exists. Otherwise it is 1-D exactly when a top-level `,` exists. Otherwise it is scalar. |
| DataNode.Rows | urban_journey/ujml/base_nodes/data/data.py:9 | It yields at least one row, and no row contains `;`. |
| DataNode.JoinRows | urban_journey/ujml/base_nodes/data/data.py:9 | Joining the rows with `;` gives back the text. |
| DataNode.RowsOfOneRow | urban_journey/ujml/base_nodes/data/data.py:9 | Text without `;` is a single row. |
| DataNode.RowsOfFirstRow | urban_journey/ujml/base_nodes/data/data.py:9 | The first row ends at the first `;`. |
| DataNode.DropSpaces | urban_journey/ujml/base_nodes/data/data.py:9 | It drops exactly the leading spaces. |
| DataNode.TwoRows | urban_journey/ujml/base_nodes/data/data.py:54-55 | `a;b` becomes `[a],[b'],`, where b' is b without its leading spaces. |
| DataNode.LeadingSemicolon | urban_journey/ujml/base_nodes/data/data.py:54-55 | `;a` becomes `[],[;a],`. |
| DataNode.To2D | urban_journey/ujml/base_nodes/data/data.py:54-55 | The substituted text starts with `[` and ends with `],`. |
| DataNode.Wrap | urban_journey/ujml/base_nodes/data/data.py:57-60 | With `ndarray` the text is enclosed in `np.array([` and `])`, otherwise in `[` and `]`, and is otherwise unchanged. |
| DataNode.ProcessIfArray | urban_journey/ujml/base_nodes/data/data.py:41-62 | Scalar text is returned stripped and unchanged. 1-D text is wrapped in `[..]` or `np.array([..])`. 2-D text has its rows substituted and is then wrapped the same way. |
| DataNode.ScalarIsOnlyStripped | urban_journey/ujml/base_nodes/data/data.py:43-52 | Text with no `,` or `;` at all comes back only stripped. |
| DataNode.NodeData | urban_journey/ujml/base_nodes/data/data.py:15-39 | A node with children returns the data of the first child that has it, or propagates the first error other than AttributeError. It raises InvalidInputError when every child lacks data. A childless node evaluates its rewritten text, or raises InvalidInputError when it has none. |

## Left out

- Asyncio scheduling: `run_coroutine_threadsafe`, `asyncio.sleep` and the event loop are replaced by virtual steps, in which the environment picks which loop advances. Wall-clock periods are not modelled.
- Clock.ClockInstance.Step: a waking loop fires its whole tick at once. In the source, `trigger` awaits each activity's lock and handler before firing the next one, and the loop awaits the whole tick before its next check. So a drop-mode activity driven by a single clock loop never finds its lock held. The model does not capture that interleaving; `Activity.Admit` and `Activity.DropNeverQueues` describe the lock on its own.
- Clock.ClockInstance.Trigger: it returns the list of firings issued in order. It does not model each awaited activity's own lock outcome, which `Activity.ActivityDecorator.Trigger` models separately.
- `ClockStatic.trigger` calls each registered instance's `trigger` with an argument that method does not take, so it raises TypeError once any instance is registered; with none registered it returns normally. It is not modelled.
- The `print_exception` diagnostics, and the `assert False` after a failing activity in `ClockInstance.trigger`, are not modelled.
- Clock.ClockInstance.SetFrequency: exact reals replace floating point, so rounding in `1 / value` is not modelled.
- `Float.get`/`Float.set` and `List.get` are not modelled: the first parses floats and the second evaluates Python. The same goes for `FilePath`'s `abs_path` resolution and the interpreter evaluation of a `data` node's text. These are foreign calls, and `DataNode.NodeData` returns the text that would be evaluated.
- DataNode.To2D: the empty-match behaviour of `re.sub` is that of Python 3.7 and later, where `;a` gives `[],[;a],` (`DataNode.LeadingSemicolon`). Python 3.5 and 3.6 skip an empty match next to a previous match and give `[],;a` instead. Its own contract states only the framing of the result; `DataNode.TwoRows` and `DataNode.LeadingSemicolon` state the content.
- The model as a whole follows Python 3.7 and 3.8. The lock is taken with `with (await self.lock)` (`urban_journey/pubsub/activity.py:85`), an idiom Python 3.9 removed; there every firing would raise TypeError at that line and be routed as a handler exception. The regular-expression behaviour is that of Python 3.7 and later (see the `DataNode.To2D` line above).
- `inspect.signature` is replaced by an explicit list of parameter names.
- Activity.BuildCall: the only binding error modelled is a duplicate keyword. Mismatches between the call and the target's signature are not.
- `TriggerBase`, `DescriptorStatic`/`DescriptorInstance`, `get_optional`, `raise_exception` and `cached` are not part of this model.
  - `urban_journey/pubsub/trigger.py` is not part of this model either. Its `_activities` container is modelled as an ordered set with append-if-absent, which is what the clock's iteration order relies on.
  - `raise_exception` is taken to always raise.
  - `get_optional` is represented by `Missing` (String, Int, Bool) or by an `optional` parameter (FilePath).
  - The `cached` memoisation of `data.data` is not modelled.
- Weak references and garbage collection of owners are not modelled. Static clock instances are keyed by owner identity, as `id(obj)` is.
- Activity.Route: `instance.root.handle_exception` is taken to return normally; an exception it raised itself would leave `trigger`, and that is not modelled.
- Activity.ActivityDecorator.Finish: the lock passes straight to the first waiter on release. The short window in which asyncio shows the lock as free during hand-off is not modelled. It matters only to a drop-mode firing, and a drop-mode lock never has waiters.
- Activity.ActivityDecorator.SetTriggerObj: when the old and new triggers share state, the resulting subscriptions are stated only for the case where both are the same trigger. An example is a static clock and one of its own instances.
- StdTypes.IntGet: `str.isdigit` and `int` are modelled on ASCII digits only, not on other Unicode digits.
- StdTypes.BoolGet: `str.lower` is modelled on ASCII letters only.
- The `ndarray` attribute of a `data` node is taken as a boolean parameter of `DataNode.ProcessIfArray` and `DataNode.NodeData`. Reading it goes through `Bool.get` with optional value `True`, which `StdTypes.BoolGet` models.
- DataAttribute.Data.Get: `isinstance` is modelled as membership of the type's name in the datum's set of class names. The data of a child node is given as that node's `data` value, and an error in it is propagated.
- `uj_project` (project and plugin management over the filesystem, git and pip) is not part of this model.
