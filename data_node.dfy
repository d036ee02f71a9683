/** The `data` UJML node: the rewriting of its text into a Python list or
    `numpy` array literal (`process_if_array`) and the choice between its
    children's data and its own text. The two regular expressions of the
    source are written out as left-to-right scanners. */
module DataNode {
  import opened Wrappers

  // ---------------------------------------------------------------------
  // str.strip()

  /** The characters `str.isspace` accepts. */
  predicate IsSpace(c: char) {
    var n := c as int;
    (0x09 <= n <= 0x0d) || (0x1c <= n <= 0x20) || n == 0x85 || n == 0xa0 || n == 0x1680 ||
    (0x2000 <= n <= 0x200a) || n == 0x2028 || n == 0x2029 || n == 0x202f || n == 0x205f || n == 0x3000
  }

  function TrimStart(s: string): (r: string)
    ensures |r| <= |s| && r == s[|s| - |r|..]
    ensures forall i :: 0 <= i < |s| - |r| ==> IsSpace(s[i])
    ensures |r| > 0 ==> !IsSpace(r[0])
  {
    if s != [] && IsSpace(s[0]) then TrimStart(s[1..]) else s
  }

  function TrimEnd(s: string): (r: string)
    ensures |r| <= |s| && r == s[..|r|]
    ensures forall i :: |r| <= i < |s| ==> IsSpace(s[i])
    ensures |r| > 0 ==> !IsSpace(r[|r| - 1])
  {
    if s != [] && IsSpace(s[|s| - 1]) then TrimEnd(s[..|s| - 1]) else s
  }

  /** `source.strip()`. */
  function Strip(s: string): (r: string)
    ensures |r| <= |s|
    ensures |r| > 0 ==> !IsSpace(r[0]) && !IsSpace(r[|r| - 1])
    ensures r == [] <==> forall i :: 0 <= i < |s| ==> IsSpace(s[i])
  {
    StripShape(s);
    TrimEnd(TrimStart(s))
  }

  lemma StripShape(s: string)
    ensures var r := TrimEnd(TrimStart(s));
      && (|r| > 0 ==> !IsSpace(r[0]))
      && (r == [] <==> forall i :: 0 <= i < |s| ==> IsSpace(s[i]))
  {
    var t := TrimStart(s);
    var r := TrimEnd(t);
    var k := |s| - |t|;
    if r == [] {
      assert t == [];
    } else {
      assert t[0] == r[0];
      assert s[k] == t[0];
    }
  }

  /** Stripping twice strips nothing more. */
  lemma StripIsIdempotent(s: string)
    ensures Strip(Strip(s)) == Strip(s)
  {
    var t := Strip(s);
    if t == [] {
      assert TrimStart(t) == [];
    } else {
      TrimStartKeeps(t);
      TrimEndKeeps(t);
    }
  }

  lemma TrimStartKeeps(t: string)
    requires t != [] && !IsSpace(t[0])
    ensures TrimStart(t) == t
  {
  }

  lemma TrimEndKeeps(t: string)
    requires t != [] && !IsSpace(t[|t| - 1])
    ensures TrimEnd(t) == t
  {
  }

  // ---------------------------------------------------------------------
  // The separator scan (`is_list_regex.finditer`)

  predicate IsOpener(c: char) {
    c == '[' || c == '(' || c == '{'
  }

  function Closer(c: char): char
    requires IsOpener(c)
  {
    if c == '[' then ']' else if c == '(' then ')' else '}'
  }

  function FirstIndexOf(s: string, c: char): (r: nat)
    requires c in s
    ensures r < |s| && s[r] == c && c !in s[..r]
  {
    if s[0] == c then 0
    else
      var k := FirstIndexOf(s[1..], c);
      assert s[..k + 1] == [s[0]] + s[1..][..k];
      k + 1
  }

  /** The separators the scan reports, in order: an opener whose closer
      occurs later skips everything up to and including the first such
      closer; otherwise a `,` or `;` is reported and the scan moves on by
      one character. */
  function Seps(s: string): (r: seq<char>)
    ensures forall i :: 0 <= i < |r| ==> r[i] == ',' || r[i] == ';'
    decreases |s|
  {
    if s == [] then []
    else if IsOpener(s[0]) && Closer(s[0]) in s[1..] then Seps(s[FirstIndexOf(s[1..], Closer(s[0])) + 2..])
    else if s[0] == ',' || s[0] == ';' then [s[0]] + Seps(s[1..])
    else Seps(s[1..])
  }

  /** Separators inside a bracketed span are not reported. */
  lemma SpanHidesSeparators(o: char, mid: string, rest: string)
    requires IsOpener(o) && Closer(o) !in mid
    ensures Seps([o] + mid + [Closer(o)] + rest) == Seps(rest)
  {
    var s := [o] + mid + [Closer(o)] + rest;
    var tail := s[1..];
    assert tail == mid + [Closer(o)] + rest;
    assert tail[|mid|] == Closer(o);
    var k := FirstIndexOf(tail, Closer(o));
    assert k == |mid|;
    assert s[k + 2..] == rest;
  }

  /** A separator outside any span is reported. */
  lemma SeparatorIsReported(c: char, rest: string)
    requires c == ',' || c == ';'
    ensures Seps([c] + rest) == [c] + Seps(rest)
  {
    assert ([c] + rest)[1..] == rest;
  }

  /** An opener without a later closer of its kind hides nothing. */
  lemma UnclosedOpenerHidesNothing(o: char, rest: string)
    requires IsOpener(o) && Closer(o) !in rest
    ensures Seps([o] + rest) == Seps(rest)
  {
    assert ([o] + rest)[1..] == rest;
  }

  /** The span of an opener ends at the first closer, not the matching
      one: a list of two lists is reported as having a top-level `,`. */
  lemma ListOfListsHasTopLevelComma(x: string, y: string)
    requires ']' !in x && ']' !in y
    ensures Seps(['['] + (['['] + x) + [']'] + ([','] + (['['] + y + [']'] + [']']))) == [',']
  {
    var second := ['['] + y + [']'] + [']'];
    SpanHidesSeparators('[', ['['] + x, [','] + second);
    SeparatorIsReported(',', second);
    SpanHidesSeparators('[', y, [']']);
    UnclosedOpenerHidesNothing('[', []);
    assert [']'] == [']'] + [];
  }

  /** The classification loop of `process_if_array`: 2 when a `;` is
      reported (the loop stops there), otherwise 1 when a `,` is, else 0. */
  method Classify(s: string) returns (t: nat)
    ensures t == 2 <==> ';' in Seps(s)
    ensures t == 1 <==> ';' !in Seps(s) && ',' in Seps(s)
    ensures t == 0 <==> ';' !in Seps(s) && ',' !in Seps(s)
  {
    var seps := Seps(s);
    t := 0;
    var i := 0;
    while i < |seps|
      invariant 0 <= i <= |seps|
      invariant ';' !in seps[..i]
      invariant t == (if ',' in seps[..i] then 1 else 0)
    {
      assert seps[..i + 1] == seps[..i] + [seps[i]];
      if seps[i] == ',' {
        t := 1;
      }
      if seps[i] == ';' {
        t := 2;
        break;
      }
      i := i + 1;
    }
    if t != 2 {
      assert seps[..i] == seps;
    }
  }

  // ---------------------------------------------------------------------
  // The row substitution (`to_2d_list_regex.subn(r"[\1],", ...)`)

  /** `s.split(";")`. */
  function Rows(s: string): (r: seq<string>)
    ensures |r| >= 1
    ensures forall i :: 0 <= i < |r| ==> ';' !in r[i]
  {
    if s == [] then [[]]
    else if s[0] == ';' then [[]] + Rows(s[1..])
    else
      var rest := Rows(s[1..]);
      [[s[0]] + rest[0]] + rest[1..]
  }

  /** `";".join(rows)`. */
  function Join(rows: seq<string>): string
    requires |rows| >= 1
  {
    if |rows| == 1 then rows[0] else rows[0] + ";" + Join(rows[1..])
  }

  /** Splitting loses nothing: joining the rows gives the text back. */
  lemma {:induction false} JoinRows(s: string)
    ensures Join(Rows(s)) == s
  {
    if s != [] {
      JoinRows(s[1..]);
      var rest := Rows(s[1..]);
      if s[0] == ';' {
        assert Rows(s)[1..] == rest;
        assert s == [s[0]] + s[1..];
      } else {
        var rows := Rows(s);
        assert rows[1..] == rest[1..];
        if |rest| == 1 {
          assert s == [s[0]] + s[1..];
        } else {
          assert Join(rest) == rest[0] + ";" + Join(rest[1..]);
          assert Join(rows) == ([s[0]] + rest[0]) + ";" + Join(rest[1..]);
          assert s == [s[0]] + s[1..];
        }
      }
    }
  }

  /** The row without the spaces the pattern's ` *` consumes after `;`. */
  function DropSpaces(s: string): (r: string)
    ensures |r| <= |s| && r == s[|s| - |r|..]
    ensures forall i :: 0 <= i < |s| - |r| ==> s[i] == ' '
    ensures |r| > 0 ==> r[0] != ' '
  {
    if s != [] && s[0] == ' ' then DropSpaces(s[1..]) else s
  }

  /** `"[" + row + "],"` for each row after a `;`. */
  function Bracketed(rows: seq<string>): (r: string)
    ensures rows != [] ==> |r| >= 3 && r[|r| - 2] == ']' && r[|r| - 1] == ','
  {
    if rows == [] then [] else "[" + DropSpaces(rows[0]) + "]," + Bracketed(rows[1..])
  }

  /** The substitution. Normally the first row is wrapped as it is and
      every later row with its leading spaces dropped. When the text starts
      with `;` the pattern first matches the empty string before it, and
      then a match starting at the text's start takes that `;` into the
      second row. */
  function To2D(s: string): (r: string)
    ensures |r| >= 3 && r[0] == '[' && r[|r| - 2] == ']' && r[|r| - 1] == ','
  {
    if s != [] && s[0] == ';' then
      var rows := Rows(s[1..]);
      "[],[;" + rows[0] + "]," + Bracketed(rows[1..])
    else
      var rows := Rows(s);
      "[" + rows[0] + "]," + Bracketed(rows[1..])
  }

  lemma {:induction false} RowsOfOneRow(a: string)
    requires ';' !in a
    ensures Rows(a) == [a]
  {
    if a != [] {
      RowsOfOneRow(a[1..]);
      assert a == [a[0]] + a[1..];
    }
  }

  lemma {:induction false} RowsOfFirstRow(a: string, b: string)
    requires ';' !in a
    ensures Rows(a + [';'] + b) == [a] + Rows(b)
  {
    var s := a + [';'] + b;
    if a == [] {
      assert s[1..] == b;
    } else {
      RowsOfFirstRow(a[1..], b);
      assert s[1..] == a[1..] + [';'] + b;
      assert a == [a[0]] + a[1..];
    }
  }

  /** Two rows: the second loses the spaces after the `;`. */
  lemma TwoRows(a: string, b: string)
    requires ';' !in a && ';' !in b && a != []
    ensures To2D(a + [';'] + b) == "[" + a + "]," + ("[" + DropSpaces(b) + "],")
  {
    var s := a + [';'] + b;
    assert s[0] != ';' by {
      assert s[0] == a[0];
    }
    assert Rows(s) == [a, b] by {
      RowsOfFirstRow(a, b);
      RowsOfOneRow(b);
    }
    calc {
      To2D(s);
      "[" + Rows(s)[0] + "]," + Bracketed(Rows(s)[1..]);
      { assert Rows(s)[1..] == [b]; }
      "[" + a + "]," + Bracketed([b]);
      { BracketedOneRow(b); }
      "[" + a + "]," + ("[" + DropSpaces(b) + "],");
    }
  }

  lemma BracketedOneRow(b: string)
    ensures Bracketed([b]) == "[" + DropSpaces(b) + "],"
  {
    assert [b][1..] == [];
  }

  /** A leading `;` yields an empty first row and keeps the `;` in the
      second. */
  lemma LeadingSemicolon(a: string)
    requires ';' !in a
    ensures To2D(";" + a) == "[],[;" + a + "],"
  {
    assert (";" + a)[1..] == a;
    RowsOfOneRow(a);
  }

  // ---------------------------------------------------------------------
  // process_if_array

  function Wrap(s: string, isNdarray: bool): (r: string)
    ensures isNdarray ==> |r| == |s| + 12 && r[..10] == "np.array([" && r[10..|r| - 2] == s && r[|r| - 2..] == "])"
    ensures !isNdarray ==> |r| == |s| + 2 && r[0] == '[' && r[1..|r| - 1] == s && r[|r| - 1] == ']'
  {
    if isNdarray then "np.array([" + s + "])" else "[" + s + "]"
  }

  /** `out` is what `process_if_array` makes of `source`: the stripped
      text when the scan reports no separator, that text wrapped when it
      reports a `,` only, and its rows substituted and wrapped when it
      reports a `;`. */
  predicate IsRewriting(source: string, isNdarray: bool, out: string) {
    var s := Strip(source);
    (';' !in Seps(s) && ',' !in Seps(s) ==> out == s) &&
    (';' !in Seps(s) && ',' in Seps(s) ==> out == Wrap(s, isNdarray)) &&
    (';' in Seps(s) ==> out == Wrap(To2D(s), isNdarray))
  }

  method ProcessIfArray(source: string, isNdarray: bool) returns (r: string)
    ensures IsRewriting(source, isNdarray, r)
  {
    var s := Strip(source);
    var t := Classify(s);
    if t == 0 {
      return s;
    }
    if t == 2 {
      s := To2D(s);
    }
    r := Wrap(s, isNdarray);
  }

  /** A text that is already a single value is handed on as it is. */
  lemma ScalarIsOnlyStripped(source: string, isNdarray: bool, out: string)
    requires IsRewriting(source, isNdarray, out)
    requires ',' !in Strip(source) && ';' !in Strip(source)
    ensures out == Strip(source)
  {
    var s := Strip(source);
    if ',' in Seps(s) || ';' in Seps(s) {
      SepsComeFromText(s);
    }
  }

  lemma {:induction false} SepsComeFromText(s: string)
    ensures forall c :: c in Seps(s) ==> c in s
    decreases |s|
  {
    if s != [] {
      if IsOpener(s[0]) && Closer(s[0]) in s[1..] {
        var k := FirstIndexOf(s[1..], Closer(s[0]));
        SepsComeFromText(s[k + 2..]);
        assert forall c :: c in s[k + 2..] ==> c in s;
      } else {
        SepsComeFromText(s[1..]);
        assert forall c :: c in s[1..] ==> c in s;
      }
    }
  }

  // ---------------------------------------------------------------------
  // data.data

  /** What reading a child's `data` gives: a value, an `AttributeError`
      (the child is not a data node), or another exception. */
  datatype ChildData<V, E> = HasData(value: V) | RaisesAttributeError | Raises(error: E)

  datatype NodeError<E> = InvalidInputError(tag: string) | Propagated(error: E)

  /** The node's data: a child's data, or the text to hand to the
      interpreter. */
  datatype Evaluation<V> = FromChild(value: V) | Evaluate(source: string)

  method NodeData<V, E>(tag: string, children: seq<ChildData<V, E>>, text: Option<string>, isNdarray: bool)
    returns (r: Result<Evaluation<V>, NodeError<E>>)
    ensures forall k :: (0 <= k < |children| && !children[k].RaisesAttributeError? &&
                         (forall j :: 0 <= j < k ==> children[j].RaisesAttributeError?)) ==>
        r == (if children[k].HasData? then Success(FromChild(children[k].value)) else Failure(Propagated(children[k].error)))
    ensures |children| > 0 && (forall j :: 0 <= j < |children| ==> children[j].RaisesAttributeError?) ==>
      r == Failure(InvalidInputError(tag))
    ensures |children| == 0 && text.None? ==> r == Failure(InvalidInputError(tag))
    ensures |children| == 0 && text.Some? ==> r.Success? && r.value.Evaluate? && IsRewriting(text.value, isNdarray, r.value.source)
  {
    if |children| > 0 {
      var i := 0;
      while i < |children|
        invariant 0 <= i <= |children|
        invariant forall j :: 0 <= j < i ==> children[j].RaisesAttributeError?
      {
        if children[i].HasData? {
          return Success(FromChild(children[i].value));
        } else if children[i].Raises? {
          return Failure(Propagated(children[i].error));
        }
        i := i + 1;
      }
      return Failure(InvalidInputError(tag));
    }
    if text.None? {
      return Failure(InvalidInputError(tag));
    }
    var source := ProcessIfArray(text.value, isNdarray);
    return Success(Evaluate(source));
  }
}
