/** The subscriber container that every trigger source inherits from
    `TriggerBase` (its `_activities` attribute with `add_activity` and
    `remove_activity`). Its definition is not part of this model; it is
    modelled as a duplicate-free sequence in subscription order: adding an
    activity that is already present changes nothing, adding a new one
    appends it, removing deletes it. */
module Registry {

  /** No activity is subscribed twice. */
  predicate NoDup<T(==)>(s: seq<T>) {
    forall i, j :: 0 <= i < j < |s| ==> s[i] != s[j]
  }

  /** The container after `add_activity(a)`. */
  function Added<T(==)>(s: seq<T>, a: T): seq<T> {
    if a in s then s else s + [a]
  }

  /** The container after `remove_activity(a)`. */
  function Removed<T(==)>(s: seq<T>, a: T): seq<T> {
    if s == [] then []
    else if s[0] == a then Removed(s[1..], a)
    else [s[0]] + Removed(s[1..], a)
  }

  /** Adding subscribes `a` and keeps every other subscriber; a new activity
      goes to the end of the iteration order, a present one stays put. */
  lemma AddedMembers<T>(s: seq<T>, a: T)
    ensures a in Added(s, a) && forall x :: x in s ==> x in Added(s, a)
    ensures forall x :: x in Added(s, a) ==> x in s || x == a
    ensures a in s ==> Added(s, a) == s
    ensures a !in s ==> Added(s, a) == s + [a]
    ensures NoDup(s) ==> NoDup(Added(s, a))
  {
  }

  /** Removing unsubscribes `a` and keeps every other subscriber, in their
      relative order, without creating duplicates. */
  lemma {:induction false} RemovedMembers<T>(s: seq<T>, a: T)
    ensures a !in Removed(s, a) && forall x :: x in Removed(s, a) ==> x in s
    ensures forall x :: x in s && x != a ==> x in Removed(s, a)
    ensures |Removed(s, a)| <= |s|
    ensures a !in s ==> Removed(s, a) == s
    ensures NoDup(s) ==> NoDup(Removed(s, a))
  {
    if s != [] {
      RemovedMembers(s[1..], a);
      var rest := Removed(s[1..], a);
      if NoDup(s) && s[0] != a {
        assert s[0] !in s[1..] by {
          forall k | 0 <= k < |s[1..]| ensures s[1..][k] != s[0] {
            assert s[1..][k] == s[k + 1];
          }
        }
        assert s[0] !in rest;
        assert NoDup([s[0]] + rest) by {
          forall i, j | 0 <= i < j < |rest| + 1 ensures ([s[0]] + rest)[i] != ([s[0]] + rest)[j] {
            if i > 0 {
              assert ([s[0]] + rest)[i] == rest[i - 1];
            }
          }
        }
      }
    }
  }

  /** Removing an activity undoes adding it. */
  lemma {:induction false} RemoveUndoesAdd<T>(s: seq<T>, a: T)
    requires a !in s
    ensures Removed(Added(s, a), a) == s
  {
    if s != [] {
      assert (s + [a])[1..] == s[1..] + [a];
      RemoveUndoesAdd(s[1..], a);
    }
  }

  /** Adding an activity after removing it moves it to the end of the
      iteration order, behind every other subscriber. */
  lemma ReAddMovesToEnd<T>(s: seq<T>, a: T)
    ensures var r := Added(Removed(s, a), a); |r| > 0 && r[|r| - 1] == a && r[..|r| - 1] == Removed(s, a)
  {
    RemovedMembers(s, a);
  }

  /** A plain trigger source: `TriggerBase` with its own container. */
  class Trigger {
    var activities: seq<object>

    constructor ()
      ensures activities == []
    {
      activities := [];
    }

    method AddActivity(a: object)
      modifies this
      ensures activities == Added(old(activities), a)
    {
      activities := Added(activities, a);
    }

    method RemoveActivity(a: object)
      modifies this
      ensures activities == Removed(old(activities), a)
    {
      activities := Removed(activities, a);
    }
  }
}
