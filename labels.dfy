/** Labels derived from the environment: every configured environment path
    that holds a value becomes a sanitised label. */
module Labels {
  import opened Values
  import opened DotPaths
  import opened Settings
  import opened Sanitize

  /** The label key for the environment key `key`: the label prefix in
      front, sanitised as a label key. */
  function LabelKeyFor(c: Cfg, key: string): string {
    SanitizeLabel(c.labelPrefix + key, c.kebab, c.kebabCase)
  }

  /** The label value for an environment value: letters, digits, `-`, `_`
      and `.`, at most 63 characters. */
  function LabelValueFor(v: string): (r: string)
    ensures |r| <= MaxNameLength && OnlyAllowed(r, '-', {'-', '_', '.'}) && Trimmed(r, '-')
  {
    ToRfc952(v, MaxNameLength, '-', {'-', '_', '.'})
  }

  /** Up to 63 characters the label value is the one `get_labels` stores
      with the sanitiser as written. */
  lemma LabelValueAsWritten(v: string)
    requires |v| <= MaxNameLength
    ensures LabelValueFor(v) == ToRfc952AsWritten(v, MaxNameLength, '-', {'-', '_', '.'})
  {
    CorrectedWithinLimit(v, MaxNameLength, '-', {'-', '_', '.'});
  }

  /** One step of the loop of `get_labels`. */
  function ApplyLabel(c: Cfg, labels: Obj, env: Obj, path: string): Obj {
    match GetLeaf(env, path)
    case Some((key, v)) => labels[LabelKeyFor(c, key) := JString(LabelValueFor(v))]
    case None => labels
  }

  /** The labels after the loop of `get_labels` over `paths`. */
  function LabelsAfter(c: Cfg, labels: Obj, env: Obj, paths: seq<string>): Obj
    decreases |paths|
  {
    if paths == [] then labels else LabelsAfter(c, ApplyLabel(c, labels, env, paths[0]), env, paths[1..])
  }

  /** The labels the environment produces on its own. */
  function Derived(c: Cfg, env: Obj, paths: seq<string>): Obj {
    LabelsAfter(c, map[], env, paths)
  }

  lemma {:induction false} LabelsAfterMerge(c: Cfg, labels: Obj, env: Obj, paths: seq<string>)
    ensures LabelsAfter(c, labels, env, paths) == labels + Derived(c, env, paths)
    decreases |paths|
  {
    if paths != [] {
      var l1 := ApplyLabel(c, labels, env, paths[0]);
      var d1 := ApplyLabel(c, map[], env, paths[0]);
      var rest := Derived(c, env, paths[1..]);
      LabelsAfterMerge(c, l1, env, paths[1..]);
      LabelsAfterMerge(c, d1, env, paths[1..]);
      ApplyLabelIsUnion(c, labels, env, paths[0]);
      assert Derived(c, env, paths) == d1 + rest;
      UnionAssoc(labels, d1, rest);
    }
  }

  lemma ApplyLabelIsUnion(c: Cfg, labels: Obj, env: Obj, path: string)
    ensures ApplyLabel(c, labels, env, path) == labels + ApplyLabel(c, map[], env, path)
  {
    match GetLeaf(env, path)
    case Some((key, v)) =>
      var k := LabelKeyFor(c, key);
      UpdateIsUnion(labels, k, JString(LabelValueFor(v)));
    case None =>
      assert labels + map[] == labels;
  }

  /** Map facts kept out of the callers' contexts, where the solver would
      otherwise search for them among many others. */
  lemma UpdateIsUnion(m: Obj, k: string, v: Json)
    ensures m[k := v] == m + map[k := v]
  {
  }

  lemma UnionAssoc(a: Obj, b: Obj, d: Obj)
    ensures (a + b) + d == a + (b + d)
  {
  }

  /** Existing labels are kept unless a derived label has the same key, and
      the derived labels overwrite: the result is the existing labels
      updated with the derived ones. Applying the derivation again changes
      nothing, which is why deriving the labels a second time for tags
      leaves the metadata as it is. */
  lemma LabelsAfterIdempotent(c: Cfg, labels: Obj, env: Obj, paths: seq<string>)
    ensures var once := LabelsAfter(c, labels, env, paths);
      once == labels + Derived(c, env, paths) &&
      LabelsAfter(c, once, env, paths) == once
  {
    var once := LabelsAfter(c, labels, env, paths);
    LabelsAfterMerge(c, labels, env, paths);
    LabelsAfterMerge(c, once, env, paths);
    var d := Derived(c, env, paths);
    assert (labels + d) + d == labels + d;
  }

  /** The environment path `path` holds a value whose label key is `k`. */
  predicate YieldsKey(c: Cfg, env: Obj, path: string, k: string) {
    GetLeaf(env, path).Some? && LabelKeyFor(c, GetLeaf(env, path).value.0) == k
  }

  /** A derived label exists exactly for the environment paths that hold a
      value, under the sanitised key of the path's last segment. */
  lemma {:induction false} DerivedKeys(c: Cfg, env: Obj, paths: seq<string>, k: string)
    ensures k in Derived(c, env, paths) <==>
      exists i :: 0 <= i < |paths| && YieldsKey(c, env, paths[i], k)
    decreases |paths|
  {
    if paths != [] {
      DerivedCons(c, env, paths);
      DerivedKeys(c, env, paths[1..], k);
      SingleLabelKey(c, env, paths[0], k);
      YieldsSomewhereCons(c, env, paths, k);
    }
  }

  /** The one label a path derives has the key that path yields. */
  lemma SingleLabelKey(c: Cfg, env: Obj, path: string, k: string)
    ensures k in ApplyLabel(c, map[], env, path) <==> YieldsKey(c, env, path, k)
  {
  }

  /** Some path yields `k` exactly when the first does or a later one does. */
  lemma YieldsSomewhereCons(c: Cfg, env: Obj, paths: seq<string>, k: string)
    requires paths != []
    ensures (exists i :: 0 <= i < |paths| && YieldsKey(c, env, paths[i], k)) <==>
      YieldsKey(c, env, paths[0], k) ||
      exists i :: 0 <= i < |paths[1..]| && YieldsKey(c, env, paths[1..][i], k)
  {
    if i :| 0 <= i < |paths| && YieldsKey(c, env, paths[i], k) {
      if i > 0 {
        assert paths[1..][i - 1] == paths[i];
      }
    }
    if i :| 0 <= i < |paths[1..]| && YieldsKey(c, env, paths[1..][i], k) {
      assert paths[1..][i] == paths[i + 1];
    }
  }

  /** The labels derived from a nonempty list of paths: the first path's
      label, overwritten by those of the remaining paths. */
  lemma DerivedCons(c: Cfg, env: Obj, paths: seq<string>)
    requires paths != []
    ensures Derived(c, env, paths) == ApplyLabel(c, map[], env, paths[0]) + Derived(c, env, paths[1..])
  {
    LabelsAfterMerge(c, ApplyLabel(c, map[], env, paths[0]), env, paths[1..]);
  }

  /** A path that holds a value fixes its label, unless a later path
      yields the same label key: of the paths that yield a key, the last
      one decides the label's value. */
  lemma {:induction false} DerivedValueAt(c: Cfg, env: Obj, paths: seq<string>, i: nat)
    requires i < |paths| && GetLeaf(env, paths[i]).Some?
    requires forall j :: i < j < |paths| ==>
      !YieldsKey(c, env, paths[j], LabelKeyFor(c, GetLeaf(env, paths[i]).value.0))
    ensures LabelKeyFor(c, GetLeaf(env, paths[i]).value.0) in Derived(c, env, paths)
    ensures Derived(c, env, paths)[LabelKeyFor(c, GetLeaf(env, paths[i]).value.0)] ==
      JString(LabelValueFor(GetLeaf(env, paths[i]).value.1))
  {
    var leaf := GetLeaf(env, paths[i]).value;
    SingleLabel(c, env, paths[i]);
    DerivedLabelAt(c, env, paths, i, LabelKeyFor(c, leaf.0), JString(LabelValueFor(leaf.1)));
  }

  /** A path that holds a value derives exactly one label. */
  lemma SingleLabel(c: Cfg, env: Obj, path: string)
    requires GetLeaf(env, path).Some?
    ensures ApplyLabel(c, map[], env, path) ==
      map[LabelKeyFor(c, GetLeaf(env, path).value.0) := JString(LabelValueFor(GetLeaf(env, path).value.1))]
  {
    var m: Obj := map[];
    var leaf := ApplyLabelFound(c, m, env, path);
    var k, lv := LabelKeyFor(c, leaf.0), JString(LabelValueFor(leaf.1));
    assert m[k := lv] == map[k := lv];
  }

  /** The label a path that holds a value writes, with the leaf named. */
  lemma ApplyLabelFound(c: Cfg, labels: Obj, env: Obj, path: string) returns (leaf: (string, string))
    requires GetLeaf(env, path).Some?
    ensures leaf == GetLeaf(env, path).value
    ensures ApplyLabel(c, labels, env, path) == labels[LabelKeyFor(c, leaf.0) := JString(LabelValueFor(leaf.1))]
  {
    leaf := GetLeaf(env, path).value;
  }

  /** `DerivedValueAt` with the label written at position `i` named. */
  lemma {:induction false} DerivedLabelAt(c: Cfg, env: Obj, paths: seq<string>, i: nat, k: string, lv: Json)
    requires i < |paths| && ApplyLabel(c, map[], env, paths[i]) == map[k := lv]
    requires forall j :: i < j < |paths| ==> !YieldsKey(c, env, paths[j], k)
    ensures k in Derived(c, env, paths) && Derived(c, env, paths)[k] == lv
    decreases |paths|, 1
  {
    if i == 0 {
      DerivedHeadLabel(c, env, paths, k, lv);
    } else {
      DerivedLaterLabel(c, env, paths, i, k, lv);
    }
  }

  /** A label written after the first path is the remaining paths' label. */
  lemma {:induction false} DerivedLaterLabel(c: Cfg, env: Obj, paths: seq<string>, i: nat, k: string, lv: Json)
    requires 0 < i < |paths| && ApplyLabel(c, map[], env, paths[i]) == map[k := lv]
    requires forall j :: i < j < |paths| ==> !YieldsKey(c, env, paths[j], k)
    ensures k in Derived(c, env, paths) && Derived(c, env, paths)[k] == lv
    decreases |paths|, 0
  {
    NoLaterYieldInTail(c, env, paths, i, k);
    DerivedLabelAt(c, env, paths[1..], i - 1, k, lv);
    DerivedFromTail(c, env, paths, k);
  }

  /** The first path's label survives when no later path yields its key. */
  lemma DerivedHeadLabel(c: Cfg, env: Obj, paths: seq<string>, k: string, lv: Json)
    requires paths != [] && ApplyLabel(c, map[], env, paths[0]) == map[k := lv]
    requires forall j :: 0 < j < |paths| ==> !YieldsKey(c, env, paths[j], k)
    ensures k in Derived(c, env, paths) && Derived(c, env, paths)[k] == lv
  {
    HeadKeyNotRederived(c, env, paths, k);
    DerivedCons(c, env, paths);
    UnionAt(map[k := lv], Derived(c, env, paths[1..]), k);
  }

  /** A label the remaining paths derive is a label of all the paths. */
  lemma DerivedFromTail(c: Cfg, env: Obj, paths: seq<string>, k: string)
    requires paths != [] && k in Derived(c, env, paths[1..])
    ensures k in Derived(c, env, paths)
    ensures Derived(c, env, paths)[k] == Derived(c, env, paths[1..])[k]
  {
    DerivedCons(c, env, paths);
    UnionAt(ApplyLabel(c, map[], env, paths[0]), Derived(c, env, paths[1..]), k);
  }

  /** Dropping the first path keeps the later paths later. */
  lemma NoLaterYieldInTail(c: Cfg, env: Obj, paths: seq<string>, i: nat, k: string)
    requires 0 < i < |paths|
    requires forall j :: i < j < |paths| ==> !YieldsKey(c, env, paths[j], k)
    ensures paths[1..][i - 1] == paths[i]
    ensures forall j :: i - 1 < j < |paths[1..]| ==> !YieldsKey(c, env, paths[1..][j], k)
  {
    forall j | i - 1 < j < |paths[1..]| ensures !YieldsKey(c, env, paths[1..][j], k) {
      assert paths[1..][j] == paths[j + 1];
    }
  }

  /** When no later path yields `k`, the remaining paths do not derive
      it. */
  lemma HeadKeyNotRederived(c: Cfg, env: Obj, paths: seq<string>, k: string)
    requires paths != []
    requires forall j :: 0 < j < |paths| ==> !YieldsKey(c, env, paths[j], k)
    ensures k !in Derived(c, env, paths[1..])
  {
    forall j | 0 <= j < |paths[1..]| ensures !YieldsKey(c, env, paths[1..][j], k) {
      assert paths[1..][j] == paths[j + 1];
    }
    DerivedKeys(c, env, paths[1..], k);
  }

  /** Where a key of a union of maps takes its value from. */
  lemma UnionAt(a: Obj, b: Obj, k: string)
    requires k in a || k in b
    ensures k in a + b
    ensures (a + b)[k] == if k in b then b[k] else a[k]
  {
  }

  /** The same for the labels of a resource: whatever labels it had, a
      path with no later path yielding its key decides that label. */
  lemma {:induction false} LaterPathWins(c: Cfg, labels: Obj, env: Obj, paths: seq<string>, i: nat)
    requires i < |paths| && GetLeaf(env, paths[i]).Some?
    requires forall j :: i < j < |paths| ==>
      !YieldsKey(c, env, paths[j], LabelKeyFor(c, GetLeaf(env, paths[i]).value.0))
    ensures var (key, v) := GetLeaf(env, paths[i]).value;
      var r := LabelsAfter(c, labels, env, paths);
      LabelKeyFor(c, key) in r && r[LabelKeyFor(c, key)] == JString(LabelValueFor(v))
  {
    LabelsAfterMerge(c, labels, env, paths);
    DerivedValueAt(c, env, paths, i);
  }

  /** The last path that holds a value decides its label's value. */
  lemma LastPathWins(c: Cfg, labels: Obj, env: Obj, paths: seq<string>, p: string)
    requires GetLeaf(env, p).Some?
    ensures var (key, v) := GetLeaf(env, p).value;
      var r := LabelsAfter(c, labels, env, paths + [p]);
      LabelKeyFor(c, key) in r && r[LabelKeyFor(c, key)] == JString(LabelValueFor(v))
  {
    LabelsAfterSnoc(c, labels, env, paths, p);
  }

  lemma {:induction false} LabelsAfterSnoc(c: Cfg, labels: Obj, env: Obj, paths: seq<string>, p: string)
    ensures LabelsAfter(c, labels, env, paths + [p]) ==
      ApplyLabel(c, LabelsAfter(c, labels, env, paths), env, p)
    decreases |paths|
  {
    if paths == [] {
      assert paths + [p] == [p];
    } else {
      assert (paths + [p])[1..] == paths[1..] + [p];
      LabelsAfterSnoc(c, ApplyLabel(c, labels, env, paths[0]), env, paths[1..], p);
    }
  }
}
