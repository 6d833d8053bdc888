/** Dot-notation paths (`spec.forProvider.tags`) into resource trees: the
    reference lookup, the leaf read and the create-if-missing walk of
    function/fn.py. A reference to a node that the source mutates in place
    is modelled as a location: the sequence of keys leading to it. */
module DotPaths {
  import opened Values
  import opened Text

  /** The keys a path walks through, split at each `.` the way repeated
      `partition(".")` splits them: a trailing `.` adds no key. */
  function Segments(path: string): (r: seq<string>)
    ensures r != []
    decreases |path|
  {
    var (first, rest) := Partition(path, '.');
    if rest == "" then [first] else [first] + Segments(rest)
  }

  /** The text after the last `.` of a path, or the whole path when it has
      none: Python's `path.rsplit(".", 1)[-1]`, which is also
      `path.split(".")[-1]`. */
  function LastSegment(path: string): (r: string)
    ensures '.' !in r
    ensures |r| <= |path| && path[|path| - |r|..] == r
    ensures r == path || path[|path| - |r| - 1] == '.'
    decreases |path|
  {
    var (first, rest) := Partition(path, '.');
    if '.' in path then
      var r := LastSegment(rest);
      assert path == first + "." + rest;
      assert path[|path| - |rest|..] == rest;
      r
    else path
  }

  predicate NoTrailingDot(path: string) {
    path == [] || path[|path| - 1] != '.'
  }

  /** `_dot_notation_to_struct_field`: the location of the object that holds
      the last key of the path, or `None` when the path is absent. A value on
      the way that is not an object is treated as having no keys. */
  function Lookup(o: Obj, path: string): (r: Option<seq<string>>)
    ensures r.Some? ==> GetAt(o, r.value).Some?
    decreases |path|
  {
    var (first, rest) := Partition(path, '.');
    if rest != "" && first in o then
      if o[first].JObject? then
        match Lookup(o[first].fields, rest)
        case Some(h) => Some([first] + h)
        case None => None
      else None
    else if first in o then Some([])
    else None
  }

  /** The lookup succeeds exactly when every key of the path is present (each
      one but the last holding an object), and it then designates the object
      that holds the last key. */
  lemma {:induction false} LookupResolves(o: Obj, path: string)
    ensures var segs := Segments(path);
      Lookup(o, path) == (if ValueAt(o, segs).Some? then Some(segs[..|segs| - 1]) else None)
    decreases |path|
  {
    var (first, rest) := Partition(path, '.');
    if rest != "" {
      var segs := Segments(path);
      assert segs == [first] + Segments(rest);
      assert segs[1..] == Segments(rest);
      if first in o && o[first].JObject? {
        LookupResolves(o[first].fields, rest);
        var tail := Segments(rest);
        assert segs[..|segs| - 1] == [first] + tail[..|tail| - 1];
      }
    }
  }

  /** `_get_struct_field_using_dot_notation`: the last key of the path and the
      text of its value, when the path is present and the value is truthy. */
  function GetLeaf(o: Obj, path: string): (r: Option<(string, string)>)
    ensures r.Some? ==> r.value.0 == LastSegment(path) && r.value.1 != ""
  {
    match Lookup(o, path)
    case None => None
    case Some(h) =>
      var holder := GetAt(o, h).value;
      var key := LastSegment(path);
      if key in holder && Truthy(holder[key]) then Some((key, Str(holder[key]))) else None
  }

  /** Without a trailing dot, the text after the last `.` is the last key the
      path walks through. */
  lemma {:induction false} LastSegmentIsLastKey(path: string)
    requires NoTrailingDot(path)
    ensures LastSegment(path) == Segments(path)[|Segments(path)| - 1]
    decreases |path|
  {
    if '.' in path {
      var rest := Partition(path, '.').1;
      DottedStep(path);
      LastSegmentIsLastKey(rest);
    }
  }

  /** A path with a `.` and no trailing dot continues, after its first key,
      with a shorter path that has no trailing dot either. */
  lemma DottedStep(path: string)
    requires '.' in path && NoTrailingDot(path)
    ensures var (first, rest) := Partition(path, '.');
      rest != "" && NoTrailingDot(rest) && |rest| < |path| &&
      Segments(path) == [first] + Segments(rest) && LastSegment(path) == LastSegment(rest)
  {
    var (first, rest) := Partition(path, '.');
    assert path == first + ['.'] + rest;
    assert |path| == |first| + 1 + |rest|;
    assert path[|path| - 1] == if rest == "" then '.' else rest[|rest| - 1];
  }

  /** The leaf read is the truthy value at the end of the key path, paired
      with its key. */
  lemma {:induction false} LeafIsValueAt(o: Obj, path: string)
    requires NoTrailingDot(path)
    ensures var segs := Segments(path);
      GetLeaf(o, path) ==
        (match ValueAt(o, segs)
         case Some(v) => if Truthy(v) then Some((segs[|segs| - 1], Str(v))) else None
         case None => None)
  {
    LookupResolves(o, path);
    LastSegmentIsLastKey(path);
    if ValueAt(o, Segments(path)).Some? {
      ValueAtLast(o, Segments(path));
    }
  }

  /** A value at the end of a key path is the last key's entry in the
      object that the rest of the path designates. */
  lemma ValueAtLast(o: Obj, segs: seq<string>)
    requires segs != [] && ValueAt(o, segs).Some?
    ensures var holder := GetAt(o, segs[..|segs| - 1]);
      holder.Some? && segs[|segs| - 1] in holder.value &&
      ValueAt(o, segs) == Some(holder.value[segs[|segs| - 1]])
  {
    var loc := segs[..|segs| - 1];
    var k := segs[|segs| - 1];
    assert segs == loc + [k];
    ValueAtSplit(o, loc, k);
  }

  /** `_dot_notation_to_struct_field_create_if_not_existing`: the tree after
      the missing part of the path was created, and the location of the
      object the source returns. When the first key missing is the last one
      it is created holding `ctor`; when it is the one before last it is
      created as `{last: ctor}`; otherwise only one level is created, holding
      the next key with an empty object. The location is the holder of the
      last key, except that a freshly created last key with an object `ctor`
      yields that new object itself, and a deeper creation yields the single
      level created. `None` stands for the exception raised when the walk
      has to descend into a value that is not an object. */
  function Create(o: Obj, path: string, ctor: Json): (r: Option<(Obj, seq<string>)>)
    ensures r.Some? ==> GetAt(r.value.0, r.value.1).Some?
    ensures r.Some? ==> o.Keys <= r.value.0.Keys
    ensures Lookup(o, path).Some? ==> r == Some((o, Lookup(o, path).value))
    decreases |path|
  {
    match Lookup(o, path)
    case Some(h) => Some((o, h))
    case None =>
      var (first, rest) := Partition(path, '.');
      if first !in o then
        if '.' in rest then
          // `rest.split(".")[0]` is the text before the first dot of `rest`
          Some((o[first := JObject(map[Partition(rest, '.').0 := JObject(map[])])], [first]))
        else if rest != "" then
          Some((o[first := JObject(map[rest := ctor])], [first]))
        else if ctor.JObject? then
          Some((o[first := ctor], [first]))
        else
          Some((o[first := ctor], []))
      else if o[first].JObject? then
        assert rest != "";
        match Create(o[first].fields, rest, ctor)
        case Some((c, h)) => Some((o[first := JObject(c)], [first] + h))
        case None => None
      else None
  }

  /** When the path resolves to depth `k` and its key `k` is missing, the
      lookup fails. */
  lemma {:induction false} LookupMissing(o: Obj, path: string, k: nat)
    requires k < |Segments(path)|
    requires GetAt(o, Segments(path)[..k]).Some?
    requires Segments(path)[k] !in GetAt(o, Segments(path)[..k]).value
    ensures Lookup(o, path) == None
  {
    LookupResolves(o, path);
    var segs := Segments(path);
    MissingKeyHasNoValue(o, segs, k);
  }

  lemma {:induction false} MissingKeyHasNoValue(o: Obj, segs: seq<string>, k: nat)
    requires k < |segs|
    requires GetAt(o, segs[..k]).Some?
    requires segs[k] !in GetAt(o, segs[..k]).value
    ensures ValueAt(o, segs) == None
    decreases k
  {
    if k == 0 {
    } else {
      assert segs[..k][0] == segs[0] && segs[..k][1..] == segs[1..][..k - 1];
      MissingKeyHasNoValue(o[segs[0]].fields, segs[1..], k - 1);
    }
  }

  /** The outcome of the create-if-missing walk when the first missing key
      of a path (without a trailing dot) is key `k`, below the object `P`
      that the first `k` keys reach. */
  function Created(o: Obj, segs: seq<string>, k: nat, ctor: Json): (r: (Obj, seq<string>))
    requires k < |segs|
    requires GetAt(o, segs[..k]).Some?
    ensures GetAt(r.0, r.1).Some?
  {
    var n := |segs|;
    var holder := GetAt(o, segs[..k]).value;
    var made :=
      if k == n - 1 then ctor
      else if k == n - 2 then JObject(map[segs[k + 1] := ctor])
      else JObject(map[segs[k + 1] := JObject(map[])]);
    var o' := PutAt(o, segs[..k], holder[segs[k] := made]);
    GetAtAppend(o', segs[..k], [segs[k]]);
    assert segs[..k + 1] == segs[..k] + [segs[k]];
    if k == n - 1 && !ctor.JObject? then (o', segs[..k]) else (o', segs[..k + 1])
  }

  /** A path that has more than one key is its first key followed by the
      keys of the text after the first dot. */
  lemma SegmentsStep(path: string)
    requires Partition(path, '.').1 != ""
    ensures Segments(path) == [Partition(path, '.').0] + Segments(Partition(path, '.').1)
    ensures NoTrailingDot(path) ==> NoTrailingDot(Partition(path, '.').1)
  {
    var (first, rest) := Partition(path, '.');
    assert path == first + "." + rest;
    assert path[|path| - 1] == rest[|rest| - 1];
  }

  /** The create-if-missing walk when the first key of the path is missing. */
  lemma CreateAtTop(o: Obj, path: string, ctor: Json)
    requires NoTrailingDot(path)
    requires Segments(path)[0] !in o
    ensures Create(o, path, ctor) == Some(Created(o, Segments(path), 0, ctor))
  {
    var segs := Segments(path);
    var n := |segs|;
    assert segs[..0] == [] && segs[..1] == [segs[0]];
    LookupMissing(o, path, 0);
    var (first, rest) := Partition(path, '.');
    assert segs[0] == first;
    if rest != "" {
      SegmentsStep(path);
      var (a, b) := Partition(rest, '.');
      assert segs[1] == Segments(rest)[0] == a;
      if b == "" {
        assert n == 2;
        assert rest[|rest| - 1] != '.';
        assert '.' !in rest;
      } else {
        assert Segments(rest) == [a] + Segments(b);
        assert n >= 3;
      }
    }
  }

  /** The create-if-missing walk, characterised by the depth of the first
      missing key. */
  lemma {:induction false} CreateMissing(o: Obj, path: string, k: nat, ctor: Json)
    requires NoTrailingDot(path)
    requires k < |Segments(path)|
    requires GetAt(o, Segments(path)[..k]).Some?
    requires Segments(path)[k] !in GetAt(o, Segments(path)[..k]).value
    ensures Create(o, path, ctor) == Some(Created(o, Segments(path), k, ctor))
    decreases |path|
  {
    var segs := Segments(path);
    if k == 0 {
      assert segs[..0] == [];
      CreateAtTop(o, path, ctor);
    } else {
      LookupMissing(o, path, k);
      var (first, rest) := Partition(path, '.');
      SegmentsStep(path);
      var sub := o[first].fields;
      var tail := segs[1..];
      assert tail == Segments(rest);
      assert segs[..k] == [first] + tail[..k - 1];
      CreateMissing(sub, rest, k - 1, ctor);
      CreatedStep(o, segs, k, ctor);
    }
  }

  /** Creating below the first key is creating in the object it holds. */
  lemma CreatedStep(o: Obj, segs: seq<string>, k: nat, ctor: Json)
    requires 0 < k < |segs|
    requires GetAt(o, segs[..k]).Some?
    ensures segs[0] in o && o[segs[0]].JObject?
    ensures GetAt(o[segs[0]].fields, segs[1..][..k - 1]) == GetAt(o, segs[..k])
    ensures Created(o, segs, k, ctor) ==
      var (c, h) := Created(o[segs[0]].fields, segs[1..], k - 1, ctor);
      (o[segs[0] := JObject(c)], [segs[0]] + h)
  {
    var tail := segs[1..];
    var sub := o[segs[0]].fields;
    assert segs[..k][0] == segs[0] && segs[..k][1..] == tail[..k - 1];
    assert segs[..k + 1] == [segs[0]] + tail[..k];
    assert segs[..k] == [segs[0]] + tail[..k - 1];
    var holder := GetAt(o, segs[..k]).value;
    assert tail[k - 1] == segs[k];
    assert |tail| == |segs| - 1;
    var made :=
      if k == |segs| - 1 then ctor
      else if k == |segs| - 2 then JObject(map[segs[k + 1] := ctor])
      else JObject(map[segs[k + 1] := JObject(map[])]);
    assert PutAt(o, segs[..k], holder[segs[k] := made]) ==
      o[segs[0] := JObject(PutAt(sub, tail[..k - 1], holder[segs[k] := made]))];
  }

  /** With at most the last two keys missing, the walk creates the field
      itself: afterwards the path holds `ctor`, and the other entries of the
      object that holds the first missing key are unchanged. */
  lemma CreatedShallow(o: Obj, segs: seq<string>, k: nat, ctor: Json)
    requires k < |segs| <= k + 2
    requires GetAt(o, segs[..k]).Some?
    ensures var o' := Created(o, segs, k, ctor).0;
      var holder := GetAt(o, segs[..k]).value;
      ValueAt(o', segs) == Some(ctor) &&
      GetAt(o', segs[..k]).Some? &&
      forall key :: key in holder && key != segs[k] ==>
        key in GetAt(o', segs[..k]).value && GetAt(o', segs[..k]).value[key] == holder[key]
  {
    var n := |segs|;
    var holder := GetAt(o, segs[..k]).value;
    var made := if k == n - 1 then ctor else JObject(map[segs[k + 1] := ctor]);
    var holder' := holder[segs[k] := made];
    var o' := PutAt(o, segs[..k], holder');
    assert Created(o, segs, k, ctor).0 == o';
    if k == n - 1 {
      assert segs == segs[..k] + [segs[k]];
      ValueAtPut(o, segs[..k], holder', segs[k]);
    } else {
      assert segs == segs[..k + 1] + [segs[k + 1]];
      assert segs[..k + 1] == segs[..k] + [segs[k]];
      GetAtAppend(o', segs[..k], [segs[k]]);
      assert GetAt(o', segs[..k + 1]) == Some(map[segs[k + 1] := ctor]);
      ValueAtSplit(o', segs[..k + 1], segs[k + 1]);
    }
  }

  /** With three or more keys missing, the walk yields the single level it
      created, which holds only the next key. */
  lemma CreatedDeep(o: Obj, segs: seq<string>, k: nat, ctor: Json)
    requires k + 3 <= |segs|
    requires GetAt(o, segs[..k]).Some?
    ensures var (o', h) := Created(o, segs, k, ctor);
      GetAt(o', h) == Some(map[segs[k + 1] := JObject(map[])])
  {
    var holder := GetAt(o, segs[..k]).value;
    var made := JObject(map[segs[k + 1] := JObject(map[])]);
    var o2 := PutAt(o, segs[..k], holder[segs[k] := made]);
    assert segs[..k + 1] == segs[..k] + [segs[k]];
    GetAtAppend(o2, segs[..k], [segs[k]]);
  }
}
