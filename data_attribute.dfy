/** The `Data` descriptor: declares a data input of a UJML node, finds the
    child node that holds it, checks its type and shape, and falls back to
    an optional value when the child is absent. */
module DataAttribute {
  import opened Wrappers

  /** A value a data node can hold: the names of the classes it is an
      instance of, and its shape when it is a `numpy.ndarray`. */
  datatype Datum = Datum(classes: set<string>, arrayShape: Option<seq<nat>>)

  /** `Required`, or the `optional_value` to return without a child. */
  datatype Fallback = Required | Optional(value: Datum)

  /** What attribute access yields: the descriptor itself (class access)
      or the data. */
  datatype Access = Itself | Value(datum: Datum)

  datatype DataError =
    | UJMLTypeError(name: Option<string>)
    | InvalidShapeError(name: Option<string>)
    | MissingRequiredInput(tag: string, attribName: Option<string>)
    | AssertionError
    | ChildDataError(message: string)

  /** A UJML node: its tag, its child nodes in document order, and what
      reading its `data` attribute gives. */
  class Node {
    const tag: string
    const children: seq<Node>
    const data: Result<Datum, DataError>

    constructor (tag: string, children: seq<Node>, data: Result<Datum, DataError>)
      ensures this.tag == tag && this.children == children && this.data == data
    {
      this.tag := tag;
      this.children := children;
      this.data := data;
    }
  }

  /** The index of the last occurrence of `x` in `s`, if any. */
  function LastIndexOf<T(==)>(s: seq<T>, x: T): (r: Option<nat>)
    ensures r.Some? ==> r.value < |s| && s[r.value] == x
    ensures r.Some? ==> forall j :: r.value < j < |s| ==> s[j] != x
    ensures r.None? ==> forall j :: 0 <= j < |s| ==> s[j] != x
  {
    if s == [] then None
    else if s[|s| - 1] == x then Some(|s| - 1)
    else LastIndexOf(s[..|s| - 1], x)
  }

  lemma LastIndexOfSnoc<T>(s: seq<T>, y: T, x: T)
    ensures LastIndexOf(s + [y], x) == if y == x then Some(|s|) else LastIndexOf(s, x)
  {
    assert (s + [y])[..|s|] == s;
  }

  function Values(d: seq<(string, object)>): (r: seq<object>)
    ensures |r| == |d| && forall i :: 0 <= i < |d| ==> r[i] == d[i].1
  {
    seq(|d|, i requires 0 <= i < |d| => d[i].1)
  }

  function Tags(ns: seq<Node>): (r: seq<string>)
    ensures |r| == |ns| && forall i :: 0 <= i < |ns| ==> r[i] == ns[i].tag
  {
    seq(|ns|, i requires 0 <= i < |ns| => ns[i].tag)
  }

  /** The shape check: same rank, and every dimension that is not a
      wildcard (`None`, NaN in the source) equal. */
  predicate ShapeMatches(actual: seq<nat>, spec: seq<Option<nat>>) {
    |actual| == |spec| &&
    forall i :: 0 <= i < |spec| && spec[i].Some? ==> actual[i] == spec[i].value
  }

  /** `validate`: the type check first, then the ndarray check, the rank
      check and the per-dimension check. */
  function Validated(typ: Option<string>, shapeSpec: Option<seq<Option<nat>>>, name: Option<string>, d: Datum): (r: Result<Datum, DataError>)
    ensures r.Success? ==> r.value == d
    ensures r.Success? <==>
      (typ.None? || typ.value in d.classes) &&
      (shapeSpec.None? || (d.arrayShape.Some? && ShapeMatches(d.arrayShape.value, shapeSpec.value)))
    ensures typ.Some? && typ.value !in d.classes ==> r == Failure(UJMLTypeError(name))
    ensures (typ.None? || typ.value in d.classes) && shapeSpec.Some? && d.arrayShape.None? ==>
      r == Failure(UJMLTypeError(name))
    ensures (typ.None? || typ.value in d.classes) && shapeSpec.Some? && d.arrayShape.Some? &&
            !ShapeMatches(d.arrayShape.value, shapeSpec.value) ==>
      r == Failure(InvalidShapeError(name))
  {
    if typ.Some? && typ.value !in d.classes then Failure(UJMLTypeError(name))
    else if shapeSpec.None? then Success(d)
    else if d.arrayShape.None? then Failure(UJMLTypeError(name))
    else if !ShapeMatches(d.arrayShape.value, shapeSpec.value) then Failure(InvalidShapeError(name))
    else Success(d)
  }

  /** Only the rank is checked when every dimension is a wildcard. */
  lemma WildcardsMatchAnyDimension(actual: seq<nat>, spec: seq<Option<nat>>)
    requires forall i :: 0 <= i < |spec| ==> spec[i].None?
    ensures ShapeMatches(actual, spec) <==> |actual| == |spec|
  {
  }

  /** The name under which `get_name` finds the descriptor `v` among the
      items of the owner's `__dict__`: the key of the last item whose value
      is `v`, or `current` when there is none. */
  function NameIn(ownerDict: seq<(string, object)>, v: object, current: Option<string>): Option<string> {
    match LastIndexOf(Values(ownerDict), v)
    case Some(k) => Some(ownerDict[k].0)
    case None => current
  }

  /** The child cache after a scan of `inst`'s children for the tag
      `name`: unchanged when `inst` is already cached or no child matches,
      otherwise holding the last matching child. */
  function Cached(cache: map<Node, Node>, inst: Node, name: string): (r: map<Node, Node>)
    ensures inst in cache ==> r == cache
    ensures inst !in cache && name in Tags(inst.children) ==>
      inst in r && r[inst] in inst.children && r[inst].tag == name
    ensures inst !in cache && name !in Tags(inst.children) ==> r == cache
  {
    if inst in cache then cache
    else match LastIndexOf(Tags(inst.children), name)
      case Some(k) => cache[inst := inst.children[k]]
      case None => cache
  }

  class Data {
    const typ: Option<string>
    const optionalValue: Fallback
    const shapeSpec: Option<seq<Option<nat>>>
    var name: Option<string>
    var childCache: map<Node, Node>

    /** `Data(type=None, optional_value=Required, shape=None)`. */
    constructor (typ: Option<string> := None, optionalValue: Fallback := Required, shapeSpec: Option<seq<Option<nat>>> := None)
      ensures this.typ == typ && this.optionalValue == optionalValue && this.shapeSpec == shapeSpec
      ensures name.None? && childCache == map[]
    {
      this.typ := typ;
      this.optionalValue := optionalValue;
      this.shapeSpec := shapeSpec;
      name := None;
      childCache := map[];
    }

    /** What access through `inst` returns once the name is `nm` and the
        cache is `cache`. */
    function Outcome(inst: Node, nm: string, cache: map<Node, Node>): Result<Access, DataError> {
      if inst in cache then
        match cache[inst].data
        case Failure(e) => Failure(e)
        case Success(d) =>
          match Validated(typ, shapeSpec, Some(nm), d)
          case Success(v) => Success(Value(v))
          case Failure(e) => Failure(e)
      else if optionalValue.Required? then Failure(MissingRequiredInput(inst.tag, Some(nm)))
      else Success(Value(optionalValue.value))
    }

    /** `get_name`: sets `name` to the key of the last item of the owner's
        `__dict__` whose value is this descriptor, then asserts it is a
        non-empty name. */
    method GetName(ownerDict: seq<(string, object)>) returns (r: Result<(), DataError>)
      modifies this`name
      ensures name == NameIn(ownerDict, this, old(name))
      ensures r.Success? <==> name.Some? && name.value != ""
      ensures r.Failure? ==> r.error == AssertionError
    {
      var i := 0;
      while i < |ownerDict|
        invariant 0 <= i <= |ownerDict|
        invariant name == NameIn(ownerDict[..i], this, old(name))
      {
        assert Values(ownerDict[..i + 1]) == Values(ownerDict[..i]) + [ownerDict[i].1];
        LastIndexOfSnoc(Values(ownerDict[..i]), ownerDict[i].1, this);
        if ownerDict[i].1 == this {
          name := Some(ownerDict[i].0);
        }
        i := i + 1;
      }
      assert ownerDict[..i] == ownerDict;
      if name.Some? && name.value != "" {
        r := Success(());
      } else {
        r := Failure(AssertionError);
      }
    }

    /** `validate`, with the dimension check as a loop over the paired
        dimensions. */
    method Validate(d: Datum) returns (r: Result<Datum, DataError>)
      ensures r == Validated(typ, shapeSpec, name, d)
      ensures typ.Some? && typ.value !in d.classes ==> r == Failure(UJMLTypeError(name))
      ensures (typ.None? || typ.value in d.classes) && shapeSpec.Some? && d.arrayShape.None? ==>
        r == Failure(UJMLTypeError(name))
      ensures (typ.None? || typ.value in d.classes) && shapeSpec.Some? && d.arrayShape.Some? &&
              |d.arrayShape.value| != |shapeSpec.value| ==>
        r == Failure(InvalidShapeError(name))
      ensures (typ.None? || typ.value in d.classes) && shapeSpec.Some? && d.arrayShape.Some? &&
              (exists k :: 0 <= k < |shapeSpec.value| && k < |d.arrayShape.value| &&
                           shapeSpec.value[k].Some? && d.arrayShape.value[k] != shapeSpec.value[k].value) ==>
        r == Failure(InvalidShapeError(name))
      ensures r.Success? ==> r.value == d
    {
      if typ.Some? && typ.value !in d.classes {
        return Failure(UJMLTypeError(name));
      }
      if shapeSpec.Some? {
        if d.arrayShape.None? {
          return Failure(UJMLTypeError(name));
        }
        var actual := d.arrayShape.value;
        var spec := shapeSpec.value;
        if |actual| != |spec| {
          return Failure(InvalidShapeError(name));
        }
        var i := 0;
        while i < |spec|
          invariant 0 <= i <= |spec|
          invariant forall j :: 0 <= j < i && spec[j].Some? ==> actual[j] == spec[j].value
        {
          if spec[i].Some? && actual[i] != spec[i].value {
            return Failure(InvalidShapeError(name));
          }
          i := i + 1;
        }
      }
      return Success(d);
    }

    /** `__get__`: class access returns the descriptor itself and changes
        nothing; instance access finds the name if needed, scans for the
        child when none is cached, and validates the child's data or falls
        back to the optional value. */
    method Get(instance: Option<Node>, ownerDict: seq<(string, object)>) returns (r: Result<Access, DataError>)
      modifies this`name, this`childCache
      ensures instance.None? ==> r == Success(Itself) && name == old(name) && childCache == old(childCache)
      ensures instance.Some? && old(name).Some? ==> name == old(name)
      ensures instance.Some? && old(name).None? ==> name == NameIn(ownerDict, this, None)
      ensures instance.Some? && old(name).None? && !(name.Some? && name.value != "") ==>
        r == Failure(AssertionError) && childCache == old(childCache)
      ensures instance.Some? && (old(name).Some? || (name.Some? && name.value != "")) ==>
        name.Some? &&
        childCache == Cached(old(childCache), instance.value, name.value) &&
        r == Outcome(instance.value, name.value, childCache)
    {
      if instance.None? {
        return Success(Itself);
      }
      var inst := instance.value;
      if name.None? {
        var found := GetName(ownerDict);
        if found.Failure? {
          return Failure(AssertionError);
        }
      }
      var nm := name.value;
      if inst !in childCache {
        var cs := inst.children;
        var i := 0;
        while i < |cs|
          invariant 0 <= i <= |cs|
          invariant name == Some(nm)
          invariant childCache == match LastIndexOf(Tags(cs[..i]), nm)
            case Some(k) => old(childCache)[inst := cs[k]]
            case None => old(childCache)
        {
          assert Tags(cs[..i + 1]) == Tags(cs[..i]) + [cs[i].tag];
          LastIndexOfSnoc(Tags(cs[..i]), cs[i].tag, nm);
          if cs[i].tag == nm {
            childCache := childCache[inst := cs[i]];
          }
          i := i + 1;
        }
        assert cs[..i] == cs;
      }
      if inst in childCache {
        var child := childCache[inst];
        match child.data
        case Failure(e) =>
          r := Failure(e);
        case Success(d) =>
          var v := Validate(d);
          r := if v.Success? then Success(Value(v.value)) else Failure(v.error);
      } else if optionalValue.Required? {
        r := Failure(MissingRequiredInput(inst.tag, Some(nm)));
      } else {
        r := Success(Value(optionalValue.value));
      }
    }
  }

  /** A fresh scan caches the last child carrying the tag: no later child
      of the node carries it. */
  lemma ScanCachesLastMatch(cache: map<Node, Node>, inst: Node, name: string)
    requires inst !in cache && name in Tags(inst.children)
    ensures exists k :: (0 <= k < |inst.children| && Cached(cache, inst, name)[inst] == inst.children[k] &&
                         forall j :: k < j < |inst.children| ==> inst.children[j].tag != name)
  {
    var k := LastIndexOf(Tags(inst.children), name).value;
    assert Cached(cache, inst, name)[inst] == inst.children[k];
  }

  /** Once a child is cached for a node, later accesses keep it: the scan
      does not run again even when other children carry the tag. */
  lemma CacheIsNotRescanned(cache: map<Node, Node>, inst: Node, name: string, other: string)
    requires inst in Cached(cache, inst, name)
    ensures Cached(Cached(cache, inst, name), inst, other) == Cached(cache, inst, name)
  {
  }
}
