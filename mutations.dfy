/** The per-resource mutations of function/fn.py as functions on values:
    reading the resource's metadata, the environment overrides from
    annotations and mapped values, the name and label rewrite, the tags,
    the label replication, the provider-side name, the external-name
    annotation and the final annotation cleanup. The runner's methods are
    proved against these. */
module Mutations {
  import opened Values
  import opened Text
  import opened DotPaths
  import opened Settings
  import opened Sanitize
  import opened Naming
  import opened Labels

  // ---------------------------------------------------------------------
  // Reading the metadata

  /** The resource's metadata object; an absent metadata reads as empty. */
  function MetadataOf(tree: Obj): Obj {
    if "metadata" in tree && tree["metadata"].JObject? then tree["metadata"].fields else map[]
  }

  /** Metadata the mutations can work on: annotations and labels, when
      present, are objects, and the name, when present, is text. */
  predicate MetadataWellFormed(md: Obj) {
    ("annotations" !in md || md["annotations"].JObject?) &&
    ("labels" !in md || md["labels"].JObject?) &&
    ("name" !in md || md["name"].JString?)
  }

  /** A resource whose metadata the model processes. Metadata, annotations
      or labels that are not objects make the source raise, which aborts the
      request. The source needs a text name only when it renames; with
      renaming skipped it carries any name value through to the tags, the
      provider field and the external name, which this model, whose rendered
      name is text, does not represent: it aborts on such a name too. */
  predicate WellFormed(tree: Obj) {
    ("metadata" !in tree || tree["metadata"].JObject?) && MetadataWellFormed(MetadataOf(tree))
  }

  /** The annotations object; an absent one reads as empty. */
  function AnnObj(md: Obj): Obj {
    if "annotations" in md && md["annotations"].JObject? then md["annotations"].fields else map[]
  }

  /** The annotations whose values are text, as the toggles read them. */
  function Ann(md: Obj): (r: map<string, string>)
    ensures forall k :: k in r <==> k in AnnObj(md) && AnnObj(md)[k].JString?
    ensures forall k :: k in r ==> AnnObj(md)[k] == JString(r[k])
  {
    map k | k in AnnObj(md) && AnnObj(md)[k].JString? :: AnnObj(md)[k].s
  }

  /** The labels object; an absent one reads as empty. */
  function LabelsObj(md: Obj): Obj {
    if "labels" in md && md["labels"].JObject? then md["labels"].fields else map[]
  }

  /** The current name; an absent one reads as empty. */
  function NameOf(md: Obj): string {
    if "name" in md && md["name"].JString? then md["name"].s else ""
  }

  // ---------------------------------------------------------------------
  // Environment overrides from annotations

  /** The environment keys the prefixed annotations among `keys` name:
      the annotation key without the prefix, camel-cased. */
  ghost function ParsedKeys(ann: Obj, keys: set<string>, prefix: string, camel: string -> string): set<string> {
    set a | a in keys && a in ann && StartsWith(a, prefix) :: camel(a[|prefix|..])
  }

  /** `env'` is what `_parse_annotations` makes of `env` after visiting the
      annotations `keys` in some order: every prefixed annotation writes
      its value under its parsed key, so each parsed key holds the value of
      one of the annotations naming it (the one visited last), and every
      other key is untouched. */
  ghost predicate ParsedFrom(env: Obj, ann: Obj, keys: set<string>, prefix: string,
                             camel: string -> string, env': Obj) {
    env'.Keys == env.Keys + ParsedKeys(ann, keys, prefix, camel) &&
    (forall k :: k in env && k !in ParsedKeys(ann, keys, prefix, camel) ==> env'[k] == env[k]) &&
    (forall k :: k in ParsedKeys(ann, keys, prefix, camel) ==>
      exists a :: a in keys && a in ann && StartsWith(a, prefix) &&
        camel(a[|prefix|..]) == k && env'[k] == ann[a])
  }

  /** Visiting no annotation leaves the environment as it is. */
  lemma ParsedFromNothing(env: Obj, ann: Obj, prefix: string, camel: string -> string)
    ensures ParsedFrom(env, ann, {}, prefix, camel, env)
  {
  }

  /** Visiting one more annotation: a prefixed one writes its value under
      its parsed key, any other one changes nothing. */
  lemma ParsedFromStep(env: Obj, ann: Obj, keys: set<string>, prefix: string,
                       camel: string -> string, env': Obj, a: string)
    requires ParsedFrom(env, ann, keys, prefix, camel, env')
    requires a in ann && a !in keys
    ensures StartsWith(a, prefix) ==>
      ParsedFrom(env, ann, keys + {a}, prefix, camel, env'[camel(a[|prefix|..]) := ann[a]])
    ensures !StartsWith(a, prefix) ==> ParsedFrom(env, ann, keys + {a}, prefix, camel, env')
  {
    var old' := ParsedKeys(ann, keys, prefix, camel);
    var new' := ParsedKeys(ann, keys + {a}, prefix, camel);
    if StartsWith(a, prefix) {
      var k := camel(a[|prefix|..]);
      assert new' == old' + {k};
      var e := env'[k := ann[a]];
      forall j | j in new'
        ensures exists b :: (b in keys + {a} && b in ann && StartsWith(b, prefix) &&
                             camel(b[|prefix|..]) == j && e[j] == ann[b])
      {
        if j != k {
          var b :| b in keys && b in ann && StartsWith(b, prefix) &&
            camel(b[|prefix|..]) == j && env'[j] == ann[b];
          assert b in keys + {a};
        } else {
          assert a in keys + {a};
        }
      }
    } else {
      assert new' == old';
    }
  }

  /** When no two prefixed annotations name the same environment key, the
      order in which the annotations are visited does not matter: the
      parsed environment is determined. */
  lemma ParsedDeterministic(env: Obj, ann: Obj, prefix: string, camel: string -> string,
                            e1: Obj, e2: Obj)
    requires forall a, b ::
      (a in ann && b in ann && StartsWith(a, prefix) && StartsWith(b, prefix) &&
       camel(a[|prefix|..]) == camel(b[|prefix|..])) ==> a == b
    requires ParsedFrom(env, ann, ann.Keys, prefix, camel, e1)
    requires ParsedFrom(env, ann, ann.Keys, prefix, camel, e2)
    ensures e1 == e2
  {
    forall k | k in e1
      ensures e1[k] == e2[k]
    {
      if k in ParsedKeys(ann, ann.Keys, prefix, camel) {
        var a :| a in ann.Keys && a in ann && StartsWith(a, prefix) &&
          camel(a[|prefix|..]) == k && e1[k] == ann[a];
        var b :| b in ann.Keys && b in ann && StartsWith(b, prefix) &&
          camel(b[|prefix|..]) == k && e2[k] == ann[b];
      }
    }
  }

  // ---------------------------------------------------------------------
  // Mapped values

  /** The environment value one mapped-values rule produces for the text
      `v` read from the resource: the table's entry when there is one;
      otherwise the fallback when `v` is longer than the rule's maximum
      length, and `v` itself when it is not; lower-cased in every case. */
  function MapValue(keys: Keys, rule: MappedValueRule, v: string): (r: string)
    ensures forall i :: 0 <= i < |r| ==> !('A' <= r[i] <= 'Z')
    ensures v in rule.table ==> r == Lower(Str(rule.table[v]))
    ensures v !in rule.table && |v| > rule.maxLength.GetOr(keys.mappedValueMaxLength) ==>
      r == Lower(Str(rule.fallback.GetOr(JString(keys.mappedValueDefault))))
    ensures v !in rule.table && |v| <= rule.maxLength.GetOr(keys.mappedValueMaxLength) ==>
      |r| == |v| && forall i :: 0 <= i < |v| ==> r[i] == LowerChar(v[i])
  {
    var value :=
      if v in rule.table then rule.table[v]
      else if |v| > rule.maxLength.GetOr(keys.mappedValueMaxLength) then
        rule.fallback.GetOr(JString(keys.mappedValueDefault))
      else JString(Lower(v));
    Lower(Str(value))
  }

  /** One rule: when its source path holds a value in the resource, the
      mapped value is stored under its target. */
  function ApplyMapping(keys: Keys, env: Obj, tree: Obj, rule: MappedValueRule): Obj {
    match GetLeaf(tree, rule.source)
    case Some((_, v)) => env[rule.target := JString(MapValue(keys, rule, v))]
    case None => env
  }

  /** The environment after the mapped-values loop of `mutate_resource`. */
  function MappedEnv(keys: Keys, env: Obj, tree: Obj, rules: seq<MappedValueRule>): Obj
    decreases |rules|
  {
    if rules == [] then env else MappedEnv(keys, ApplyMapping(keys, env, tree, rules[0]), tree, rules[1..])
  }

  /** Mapped values only ever write their targets: every other key keeps
      its presence and its value. */
  lemma {:induction false} MappedEnvKeeps(keys: Keys, env: Obj, tree: Obj,
                                          rules: seq<MappedValueRule>, k: string)
    requires forall i :: 0 <= i < |rules| ==> rules[i].target != k
    ensures var r := MappedEnv(keys, env, tree, rules);
      (k in r <==> k in env) && (k in env ==> r[k] == env[k])
    decreases |rules|
  {
    if rules != [] {
      assert rules[0].target != k;
      MappedEnvKeeps(keys, ApplyMapping(keys, env, tree, rules[0]), tree, rules[1..], k);
    }
  }

  /** A rule whose source holds a value fixes its target, unless a later
      rule writes the same target: of the rules on one target, the last
      one whose source holds a value wins. */
  lemma {:induction false} MappedEnvValueAt(keys: Keys, env: Obj, tree: Obj,
                                            rules: seq<MappedValueRule>, i: nat, rule: MappedValueRule)
    requires i < |rules| && rules[i] == rule && GetLeaf(tree, rule.source).Some?
    requires forall j :: i < j < |rules| ==> rules[j].target != rule.target
    ensures var r := MappedEnv(keys, env, tree, rules);
      rule.target in r &&
      r[rule.target] == JString(MapValue(keys, rule, GetLeaf(tree, rule.source).value.1))
    decreases i
  {
    if i == 0 {
      MappedEnvHeadWins(keys, env, tree, rules);
    } else {
      var rest := rules[1..];
      assert rest[i - 1] == rule;
      forall j | i - 1 < j < |rest| ensures rest[j].target != rule.target {
        assert rest[j] == rules[j + 1];
      }
      MappedEnvValueAt(keys, ApplyMapping(keys, env, tree, rules[0]), tree, rest, i - 1, rule);
    }
  }

  /** The first rule's write survives when no later rule has its target. */
  lemma MappedEnvHeadWins(keys: Keys, env: Obj, tree: Obj, rules: seq<MappedValueRule>)
    requires rules != [] && GetLeaf(tree, rules[0].source).Some?
    requires forall j :: 0 < j < |rules| ==> rules[j].target != rules[0].target
    ensures var r := MappedEnv(keys, env, tree, rules);
      rules[0].target in r &&
      r[rules[0].target] == JString(MapValue(keys, rules[0], GetLeaf(tree, rules[0].source).value.1))
  {
    var rest := rules[1..];
    forall j | 0 <= j < |rest| ensures rest[j].target != rules[0].target {
      assert rest[j] == rules[j + 1];
    }
    MappedEnvKeeps(keys, ApplyMapping(keys, env, tree, rules[0]), tree, rest, rules[0].target);
  }

  /** The last rule, in particular, always wins when its source holds a
      value. */
  lemma MappedEnvLastRuleWins(keys: Keys, env: Obj, tree: Obj,
                              rules: seq<MappedValueRule>, rule: MappedValueRule)
    requires GetLeaf(tree, rule.source).Some?
    ensures var r := MappedEnv(keys, env, tree, rules + [rule]);
      rule.target in r &&
      r[rule.target] == JString(MapValue(keys, rule, GetLeaf(tree, rule.source).value.1))
  {
    MappedEnvSnoc(keys, env, tree, rules, rule);
  }

  lemma {:induction false} MappedEnvSnoc(keys: Keys, env: Obj, tree: Obj,
                                         rules: seq<MappedValueRule>, rule: MappedValueRule)
    ensures MappedEnv(keys, env, tree, rules + [rule]) ==
      ApplyMapping(keys, MappedEnv(keys, env, tree, rules), tree, rule)
    decreases |rules|
  {
    if rules == [] {
      assert rules + [rule] == [rule];
    } else {
      assert (rules + [rule])[1..] == rules[1..] + [rule];
      MappedEnvSnoc(keys, ApplyMapping(keys, env, tree, rules[0]), tree, rules[1..], rule);
    }
  }

  /** The table is consulted first: `XTest` with the table `{XTest: xt}`
      maps to `xt`. */
  lemma MapValueTableHit(keys: Keys, fallback: Option<Json>, maxLength: Option<nat>)
    ensures var rule := MappedValueRule("spec.x", "y", map["XTest" := JString("xt")], fallback, maxLength);
      MapValue(keys, rule, "XTest") == "xt"
  {
    assert Lower("xt") == "xt";
  }

  /** A value missing from the table and longer than the maximum length is
      replaced by the fallback, which is lower-cased like every other
      mapped value. */
  lemma MapValueFallbackLowered(keys: Keys, v: string)
    requires |v| > 2
    ensures var rule := MappedValueRule("spec.x", "y", map[], Some(JString("Other")), Some(2));
      MapValue(keys, rule, v) == "other"
  {
    assert Lower("Other") == "other";
  }

  // ---------------------------------------------------------------------
  // Name and labels

  /** The metadata after the label part of `mutate_metadata`: existing
      labels are updated with the derived ones; a resource without labels
      gets a label set only when something was derived. */
  function LabelledMetadata(c: Cfg, env: Obj, md: Obj): (r: Obj)
    ensures "labels" in r <==> "labels" in md || Derived(c, env, c.envToLabel) != map[]
    ensures forall k :: k != "labels" ==> (k in r <==> k in md)
    ensures forall k :: k in md && k != "labels" ==> r[k] == md[k]
    ensures MetadataWellFormed(md) ==> LabelsObj(r) == LabelsObj(md) + Derived(c, env, c.envToLabel)
    ensures MetadataWellFormed(md) ==> MetadataWellFormed(r)
  {
    LabelsAfterMerge(c, LabelsObj(md), env, c.envToLabel);
    var labels := LabelsAfter(c, LabelsObj(md), env, c.envToLabel);
    if "labels" in md || labels != map[] then md["labels" := JObject(labels)] else md
  }

  /** A name as the host accepts it: at most 63 characters, lower-case
      letters, digits, `-` and `.`, not starting or ending with `-`. */
  predicate ValidObjectName(n: string) {
    |n| <= MaxNameLength && Trimmed(n, '-') && forall i :: 0 <= i < |n| ==> NameChar(n[i])
  }

  /** `md'` is `md` renamed: its name is the sanitised form of the rendered
      name `newName`, a valid object name; it has a name entry exactly when
      `md` had one; an empty name was rendered as empty; every other entry
      is unchanged. */
  ghost predicate NameRewritten(md: Obj, md': Obj, newName: string) {
    (forall k :: k != "name" ==> (k in md' <==> k in md)) &&
    (forall k :: k in md && k != "name" ==> k in md' && md'[k] == md[k]) &&
    ("name" in md' <==> "name" in md) &&
    (NameOf(md) == "" ==> newName == "") &&
    NameOf(md') == SanitizedName(newName) && ValidObjectName(NameOf(md'))
  }

  /** `mutate_metadata`: the labels as above, then, unless renaming is
      skipped, the rendered name, whose sanitised form replaces the name in
      the metadata. The second component is the rendered name the other
      mutations use, which is not sanitised. */
  function MetadataStep(c: Cfg, env: Obj, md: Obj, skip: bool): (r: Result<(Obj, string)>)
    ensures skip ==> r == Ok((LabelledMetadata(c, env, md), NameOf(md)))
    ensures r.Ok? && MetadataWellFormed(md) ==>
      MetadataWellFormed(r.value.0) && LabelsObj(r.value.0) == LabelsObj(md) + Derived(c, env, c.envToLabel)
    ensures !skip && r.Ok? ==> NameRewritten(LabelledMetadata(c, env, md), r.value.0, r.value.1)
    ensures !skip && r.Fatal? ==> NameOf(md) != ""
  {
    var md1 := LabelledMetadata(c, env, md);
    assert NameOf(md1) == NameOf(md);
    if skip then Ok((md1, NameOf(md))) else NameStep(c, env, md1)
  }

  /** The renaming part of `mutate_metadata`: the name rendered from the
      metadata's current name, and the metadata carrying its sanitised
      form. */
  function NameStep(c: Cfg, env: Obj, md: Obj): (r: Result<(Obj, string)>)
    ensures r.Ok? ==> NameRewritten(md, r.value.0, r.value.1)
    ensures r.Ok? && MetadataWellFormed(md) ==>
      MetadataWellFormed(r.value.0) && LabelsObj(r.value.0) == LabelsObj(md)
    ensures r.Fatal? ==> NameOf(md) != ""
  {
    var newName :- NameFor(c, env, Ann(md), NameOf(md));
    SanitizedEmpty(newName);
    Ok((Renamed(md, SanitizedName(newName)), newName))
  }

  /** The metadata with its name replaced by `name`, left as it is when the
      name does not change. */
  function Renamed(md: Obj, name: string): (r: Obj)
    ensures NameOf(r) == name || (name == "" && NameOf(md) == "")
    ensures "name" in r <==> "name" in md || name != NameOf(md)
    ensures forall k :: k != "name" ==> (k in r <==> k in md)
    ensures forall k :: k in md && k != "name" ==> r[k] == md[k]
    ensures MetadataWellFormed(md) ==> MetadataWellFormed(r) && LabelsObj(r) == LabelsObj(md)
  {
    if name != NameOf(md) then md["name" := JString(name)] else md
  }

  lemma SanitizedEmpty(name: string)
    ensures name == "" ==> SanitizedName(name) == ""
  {
  }

  // ---------------------------------------------------------------------
  // Tags

  /** The input-level default of the labels-as-tags toggle, as text. */
  function LabelsAsTagsDefault(input: Input): string {
    match input.labelsAsTags
    case None => "False"
    case Some(v) => Str(v)
  }

  /** The labels that carry the label prefix. */
  function OwnLabels(labels: Obj, prefix: string): (r: Obj)
    ensures forall k :: k in r <==> k in labels && StartsWith(k, prefix)
    ensures forall k :: k in r ==> r[k] == labels[k]
  {
    map k | k in labels && StartsWith(k, prefix) :: labels[k]
  }

  /** `Struct.update`: the tags must be an object, and so must the source. */
  function MergeInto(tags: Json, src: Json, what: Failure): (r: Result<Json>)
    ensures r.Ok? <==> tags.JObject? && src.JObject?
    ensures r.Ok? ==> r.value == JObject(tags.fields + src.fields)
  {
    if !tags.JObject? then Fatal(TagsNotObject)
    else if !src.JObject? then Fatal(what)
    else Ok(JObject(tags.fields + src.fields))
  }

  /** The environment key the tags are read from. */
  function TagsField(c: Cfg, md: Obj): string {
    FromAnnotationOrInput(Ann(md), c.keys.annTagsField, c.input.tagsField, "")
  }

  predicate IncludeNameTag(c: Cfg, md: Obj) {
    CheckIfTrue(Ann(md), c.keys.annIncludeTagName, "False")
  }

  predicate IncludeLabelsAsTags(c: Cfg, md: Obj) {
    CheckIfTrue(Ann(md), c.keys.annIncludeLabelsAsTags, LabelsAsTagsDefault(c.input))
  }

  /** The labels copied to tags: those `get_labels` yields again, restricted
      to the label prefix. */
  function LabelTags(c: Cfg, env: Obj, md: Obj): Obj {
    OwnLabels(LabelsAfter(c, LabelsObj(md), env, c.envToLabel), c.labelPrefix)
  }

  /** One tag source: merged when it applies. */
  function Layer(applies: bool, tags: Json, src: Json, what: Failure): (r: Result<Json>)
    ensures !applies ==> r == Ok(tags)
  {
    if applies then MergeInto(tags, src, what) else Ok(tags)
  }

  lemma LayerObject(applies: bool, tags: Obj, src: Obj, what: Failure)
    ensures Layer(applies, JObject(tags), JObject(src), what) ==
      Ok(JObject(tags + if applies then src else map[]))
  {
    assert tags + map[] == tags;
  }

  /** `mutate_tags` on the tags value: each source, when it applies, is
      merged over what came before it. */
  function NewTags(c: Cfg, env: Obj, md: Obj, tags: Json, newName: string): Result<Json> {
    var field := TagsField(c, md);
    var t1 :- Layer(field in env && Truthy(env[field]), tags,
                    if field in env then env[field] else JNull, TagSourceNotObject(field));
    var t2 :- Layer(c.input.tags != map[], t1, JObject(c.input.tags), TagsNotObject);
    var t3 :- Layer(IncludeNameTag(c, md), t2, JObject(map["Name" := JString(newName)]), TagsNotObject);
    Layer(IncludeLabelsAsTags(c, md), t3, JObject(LabelTags(c, env, md)), TagsNotObject)
  }

  /** The order of precedence of the tag sources, the last overriding:
      existing tags, the environment's tags, the input's tags, the Name tag
      and the labels. */
  lemma NewTagsPrecedence(c: Cfg, env: Obj, md: Obj, tags: Obj, newName: string)
    requires var f := TagsField(c, md); f in env && Truthy(env[f]) ==> env[f].JObject?
    ensures var f := TagsField(c, md);
      var e := if f in env && Truthy(env[f]) then env[f].fields else map[];
      var n := if IncludeNameTag(c, md) then map["Name" := JString(newName)] else map[];
      var l := if IncludeLabelsAsTags(c, md) then LabelTags(c, env, md) else map[];
      NewTags(c, env, md, JObject(tags), newName) == Ok(JObject(tags + e + c.input.tags + n + l))
  {
    var f := TagsField(c, md);
    var a1 := f in env && Truthy(env[f]);
    var e := if a1 then env[f].fields else map[];
    var src := if f in env then env[f] else JNull;
    if a1 {
      LayerObject(true, tags, src.fields, TagSourceNotObject(f));
    } else {
      assert tags + e == tags;
    }
    assert Layer(a1, JObject(tags), src, TagSourceNotObject(f)) == Ok(JObject(tags + e));
    var a2 := c.input.tags != map[];
    LayerObject(a2, tags + e, c.input.tags, TagsNotObject);
    assert (tags + e) + (if a2 then c.input.tags else map[]) == tags + e + c.input.tags;
    var n := if IncludeNameTag(c, md) then map["Name" := JString(newName)] else map[];
    LayerObject(IncludeNameTag(c, md), tags + e + c.input.tags, map["Name" := JString(newName)], TagsNotObject);
    LayerObject(IncludeLabelsAsTags(c, md), tags + e + c.input.tags + n, LabelTags(c, env, md), TagsNotObject);
  }

  /** Tags that are not an object make the request fail as soon as any
      source applies, and are left alone otherwise. */
  lemma NewTagsNotObject(c: Cfg, env: Obj, md: Obj, tags: Json, newName: string)
    requires !tags.JObject?
    ensures var f := TagsField(c, md);
      var applies := (f in env && Truthy(env[f])) || c.input.tags != map[] ||
        IncludeNameTag(c, md) || IncludeLabelsAsTags(c, md);
      NewTags(c, env, md, tags, newName) == if applies then Fatal(TagsNotObject) else Ok(tags)
  {
  }

  /** The example of the tag precedence: environment tags `{a: 1}`, input
      tags `{a: 2, b: 3}` and the Name tag `X` give `{a: 2, b: 3, Name: X}`. */
  lemma NewTagsExample(c: Cfg, env: Obj, md: Obj)
    requires TagsField(c, md) == "tags"
    requires env == map["tags" := JObject(map["a" := JString("1")])]
    requires c.input.tags == map["a" := JString("2"), "b" := JString("3")]
    requires IncludeNameTag(c, md) && !IncludeLabelsAsTags(c, md)
    ensures NewTags(c, env, md, JObject(map[]), "X") ==
      Ok(JObject(map["a" := JString("2"), "b" := JString("3"), "Name" := JString("X")]))
  {
    var e := map["a" := JString("1")];
    assert Truthy(env["tags"]) by {
      assert "a" in e;
    }
    NewTagsPrecedence(c, env, md, map[], "X");
    ExampleTags(e, c.input.tags);
  }

  lemma ExampleTags(e: Obj, i: Obj)
    requires e == map["a" := JString("1")]
    requires i == map["a" := JString("2"), "b" := JString("3")]
    ensures map[] + e + i + map["Name" := JString("X")] + map[] ==
      map["a" := JString("2"), "b" := JString("3"), "Name" := JString("X")]
  {
    assert (map[] + e) + i == i;
  }

  /** The location of the provider parameters. */
  const ForProvider: seq<string> := ["spec", "forProvider"]

  /** Python's `key in v` on a decoded value: a key of an object, a
      substring of a text, an element of a list; `None` where Python raises
      a `TypeError` (null, booleans and numbers are not containers). */
  function PyIn(key: string, v: Json): Option<bool> {
    match v
    case JObject(m) => Some(key in m)
    case JString(s) => Some(Occurs(s, key))
    case JArray(items) => Some(JString(key) in items)
    case _ => None
  }

  /** The guard `key in v` followed by `v[key]`, as `mutate_tags` and
      `mutate_forprovider_name` evaluate it: the entry when `v` is an
      object holding `key`; nothing when `key in v` is false; `failure`
      when `in` raises, or when a text or list that contains `key` is then
      indexed with it. */
  function Member(v: Json, key: string, failure: Failure): (r: Result<Option<Json>>)
    ensures (r.Ok? && r.value.Some?) <==> (v.JObject? && key in v.fields)
    ensures r.Ok? && r.value.Some? ==> r.value.value == v.fields[key]
    ensures r == Ok(None) <==> PyIn(key, v) == Some(false)
    ensures r.Fatal? ==> r.failure == failure
  {
    match PyIn(key, v)
    case None => Fatal(failure)
    case Some(false) => Ok(None)
    case Some(true) => if v.JObject? then Ok(Some(v.fields[key])) else Fatal(failure)
  }

  /** `mutate_tags` on the resource: only a resource whose provider
      parameters hold a `tags` entry is touched, and then only that entry
      changes. The guard aborts the request, uncaught, where `spec` or
      `spec.forProvider` is a value that `in` cannot search, or a text or
      list that contains the key it is then indexed with. */
  function TagsStep(c: Cfg, env: Obj, md: Obj, tree: Obj, newName: string): (r: Result<Obj>)
    ensures r.Ok? ==> r.value.Keys == tree.Keys
    ensures "spec" !in tree ==> r == Ok(tree)
    ensures GetAt(tree, ForProvider).Some? && "tags" !in GetAt(tree, ForProvider).value ==> r == Ok(tree)
    ensures GetAt(tree, ForProvider).Some? && "tags" in GetAt(tree, ForProvider).value ==>
      var fp := GetAt(tree, ForProvider).value;
      var t := NewTags(c, env, md, fp["tags"], newName);
      (t.Fatal? ==> r == Fatal(t.failure)) &&
      (t.Ok? ==> r == Ok(WithForProvider(tree, fp["tags" := t.value])))
    ensures "spec" in tree && !HasForProvider(tree) ==>
      r == if PyIn("forProvider", tree["spec"]) == Some(false) then Ok(tree) else Fatal(NotAnObject("spec"))
    ensures HasForProvider(tree) && !tree["spec"].fields["forProvider"].JObject? ==>
      r == if PyIn("tags", tree["spec"].fields["forProvider"]) == Some(false) then Ok(tree)
           else Fatal(NotAnObject("spec.forProvider"))
  {
    if "spec" !in tree then Ok(tree)
    else
      var fpv :- Member(tree["spec"], "forProvider", NotAnObject("spec"));
      if fpv.None? then Ok(tree)
      else
        var tags :- Member(fpv.value, "tags", NotAnObject("spec.forProvider"));
        if tags.None? then Ok(tree)
        else
          var t :- NewTags(c, env, md, tags.value, newName);
          Ok(WithForProvider(tree, fpv.value.fields["tags" := t]))
  }

  /** The tag step changes the `tags` entry of the provider parameters
      and nothing else: every other entry of the resource, of its `spec`
      and of its provider parameters keeps its value. */
  lemma TagsStepFrame(c: Cfg, env: Obj, md: Obj, tree: Obj, newName: string)
    requires TagsStep(c, env, md, tree, newName).Ok?
    ensures var r := TagsStep(c, env, md, tree, newName).value;
      (forall k :: k in tree && k != "spec" ==> r[k] == tree[k]) &&
      (!HasForProvider(tree) ==> r == tree)
    ensures var r := TagsStep(c, env, md, tree, newName).value;
      HasForProvider(tree) ==>
        r["spec"].JObject? && r["spec"].fields.Keys == tree["spec"].fields.Keys &&
        forall k :: k in tree["spec"].fields && k != "forProvider" ==>
          r["spec"].fields[k] == tree["spec"].fields[k]
    ensures var r := TagsStep(c, env, md, tree, newName).value;
      var fp := GetAt(tree, ForProvider);
      fp.Some? ==>
        GetAt(r, ForProvider).Some? && GetAt(r, ForProvider).value.Keys == fp.value.Keys &&
        forall k :: k in fp.value && k != "tags" ==> GetAt(r, ForProvider).value[k] == fp.value[k]
  {
    var r := TagsStep(c, env, md, tree, newName).value;
    if r != tree {
      var fp := GetAt(tree, ForProvider).value;
      WithForProviderFrame(tree, fp["tags" := NewTags(c, env, md, fp["tags"], newName).value]);
    }
  }

  /** Deriving the labels for tags again leaves the metadata's labels as
      the label step made them, so the tag step changes no metadata. */
  lemma LabelTagsFromMetadata(c: Cfg, env: Obj, md: Obj)
    requires MetadataWellFormed(md)
    ensures var md1 := LabelledMetadata(c, env, md);
      LabelsAfter(c, LabelsObj(md1), env, c.envToLabel) == LabelsObj(md1)
  {
    LabelsAfterIdempotent(c, LabelsObj(md), env, c.envToLabel);
    LabelsAfterMerge(c, LabelsObj(md), env, c.envToLabel);
  }

  // ---------------------------------------------------------------------
  // Replicating labels

  /** The field the labels are copied to, when the annotation names one. */
  function ReplicateField(keys: Keys, md: Obj): Option<string> {
    var ann := Ann(md);
    if keys.annReplicateLabelsTo in ann && ann[keys.annReplicateLabelsTo] != "" then
      Some(ann[keys.annReplicateLabelsTo])
    else None
  }

  /** `replicate_labels`: the create-if-missing walk on the annotated
      destination yields an object, and the labels, when there are any, are
      merged into it. A walk that fails is logged and leaves the resource as
      it was. */
  function Replicate(keys: Keys, md: Obj, tree: Obj): (r: Obj)
    ensures tree.Keys <= r.Keys
    ensures ReplicateField(keys, md).None? ==> r == tree
  {
    match ReplicateField(keys, md)
    case None => tree
    case Some(field) =>
      match Create(tree, field, JObject(map[]))
      case None => tree
      case Some((t, h)) =>
        var labels := LabelsObj(md);
        if labels != map[] then
          var r := PutAt(t, h, GetAt(t, h).value + labels);
          assert h == [] ==> r == t + labels;
          r
        else t
  }

  /** When the destination already exists, the walk yields the object that
      holds it, so the labels land beside the destination rather than in
      it: each label becomes a key of the destination's parent. */
  lemma ReplicateIntoParent(keys: Keys, md: Obj, tree: Obj)
    requires ReplicateField(keys, md).Some?
    requires NoTrailingDot(ReplicateField(keys, md).value)
    requires ValueAt(tree, Segments(ReplicateField(keys, md).value)).Some?
    ensures var segs := Segments(ReplicateField(keys, md).value);
      var parent := segs[..|segs| - 1];
      var r := Replicate(keys, md, tree);
      forall l :: l in LabelsObj(md) ==> ValueAt(r, parent + [l]) == Some(LabelsObj(md)[l])
  {
    var field := ReplicateField(keys, md).value;
    var segs := Segments(field);
    var parent := segs[..|segs| - 1];
    LookupResolves(tree, field);
    assert Create(tree, field, JObject(map[])) == Some((tree, parent));
    var labels := LabelsObj(md);
    if labels != map[] {
      var holder := GetAt(tree, parent).value;
      forall l | l in labels
        ensures ValueAt(Replicate(keys, md, tree), parent + [l]) == Some(labels[l])
      {
        ValueAtPut(tree, parent, holder + labels, l);
      }
    }
  }

  /** When only the last key of the destination is missing, the walk
      creates it as an empty object and returns it, so the destination ends
      up holding exactly the labels, and the other entries beside it are
      kept. */
  lemma ReplicateIntoNew(keys: Keys, md: Obj, tree: Obj)
    requires ReplicateField(keys, md).Some?
    requires NoTrailingDot(ReplicateField(keys, md).value)
    requires LabelsObj(md) != map[]
    requires var segs := Segments(ReplicateField(keys, md).value);
      var parent := segs[..|segs| - 1];
      GetAt(tree, parent).Some? && segs[|segs| - 1] !in GetAt(tree, parent).value
    ensures var segs := Segments(ReplicateField(keys, md).value);
      var r := Replicate(keys, md, tree);
      ValueAt(r, segs) == Some(JObject(LabelsObj(md)))
  {
    var field := ReplicateField(keys, md).value;
    var segs := Segments(field);
    var k := |segs| - 1;
    var labels := LabelsObj(md);
    var t := Created(tree, segs, k, JObject(map[])).0;
    assert Create(tree, field, JObject(map[])) == Some((t, segs)) by {
      CreateMissing(tree, field, k, JObject(map[]));
      assert segs[..k + 1] == segs;
    }
    assert GetAt(t, segs) == Some(map[]) by {
      CreatedShallow(tree, segs, k, JObject(map[]));
      ValueAtGetAt(t, segs);
    }
    ReplicateWrites(keys, md, tree, t, segs);
    assert map[] + labels == labels;
    ValueAtGetAt(PutAt(t, segs, labels), segs);
  }

  /** With labels to copy, replication merges them into the object the walk
      yields. */
  lemma ReplicateWrites(keys: Keys, md: Obj, tree: Obj, t: Obj, h: seq<string>)
    requires ReplicateField(keys, md).Some? && LabelsObj(md) != map[]
    requires Create(tree, ReplicateField(keys, md).value, JObject(map[])) == Some((t, h))
    ensures GetAt(t, h).Some?
    ensures Replicate(keys, md, tree) == PutAt(t, h, GetAt(t, h).value + LabelsObj(md))
  {
  }

  // ---------------------------------------------------------------------
  // The provider-side name

  /** The provider parameter that receives the name, `name` by default. */
  function ForProviderField(keys: Keys, md: Obj): string {
    var ann := Ann(md);
    if keys.annForProviderNameField in ann then ann[keys.annForProviderNameField] else "name"
  }

  predicate IncludeForProviderName(c: Cfg, md: Obj) {
    CheckIfTrue(Ann(md), c.keys.annIncludeForProviderName, "False")
  }

  predicate OverrideForProviderName(c: Cfg, md: Obj) {
    CheckIfTrue(Ann(md), c.keys.annForProviderNameOverride, "False")
  }

  /** The resource has provider parameters (of whatever kind). */
  predicate HasForProvider(tree: Obj) {
    "spec" in tree && tree["spec"].JObject? && "forProvider" in tree["spec"].fields
  }

  /** The resource with new provider parameters. */
  function WithForProvider(tree: Obj, fp: Obj): (r: Obj)
    requires HasForProvider(tree)
    ensures r.Keys == tree.Keys && GetAt(r, ForProvider) == Some(fp)
    ensures forall segs :: segs != [] ==> ValueAt(r, ForProvider + segs) == ValueAt(fp, segs)
  {
    var r := tree["spec" := JObject(tree["spec"].fields["forProvider" := JObject(fp)])];
    assert forall segs :: segs != [] ==> (ForProvider + segs)[1..][1..] == segs;
    r
  }

  /** Nothing but the provider parameters changes: every other entry of
      the resource and of its `spec` keeps its value. */
  lemma WithForProviderFrame(tree: Obj, fp: Obj)
    requires HasForProvider(tree)
    ensures var r := WithForProvider(tree, fp);
      (forall k :: k in tree && k != "spec" ==> r[k] == tree[k]) &&
      r["spec"].JObject? && r["spec"].fields.Keys == tree["spec"].fields.Keys &&
      forall k :: k in tree["spec"].fields && k != "forProvider" ==>
        r["spec"].fields[k] == tree["spec"].fields[k]
  {
  }

  /** The write of `mutate_forprovider_name` on the provider parameters
      `fp`. The walk creates the field (with an empty text) when missing;
      then the name is written into the holder the walk yields when
      overriding is asked for or when the holder has the field (the test
      `not x not in y` reads `x in y`); otherwise the branch that would
      re-render the existing value looks the field up in a holder that
      lacks it, and the request fails (`None`). */
  function NameInto(fp: Obj, field: string, override: bool, newName: string): (r: Option<Obj>)
  {
    WriteName(Create(fp, field, JString("")), LastSegment(field), override, newName)
  }

  /** The write itself, given what the walk yielded. */
  function WriteName(created: Option<(Obj, seq<string>)>, last: string, override: bool, newName: string): Option<Obj>
    requires created.Some? ==> GetAt(created.value.0, created.value.1).Some?
  {
    match created
    case None => None
    case Some((o, h)) =>
      var holder := GetAt(o, h).value;
      if override || last in holder then Some(PutAt(o, h, holder[last := JString(newName)]))
      else None
  }

  /** `mutate_forprovider_name`: only with its toggle on and on a resource
      with provider parameters; any failure aborts the request. */
  function ForProviderStep(c: Cfg, md: Obj, tree: Obj, newName: string): (r: Result<Obj>)
    ensures !IncludeForProviderName(c, md) || "spec" !in tree ==> r == Ok(tree)
    ensures IncludeForProviderName(c, md) && "spec" in tree && !HasForProvider(tree) ==>
      r == if PyIn("forProvider", tree["spec"]) == Some(false) then Ok(tree)
           else Fatal(ForProviderNameField(ForProviderField(c.keys, md)))
    ensures r.Ok? ==> r.value.Keys == tree.Keys
    ensures r.Fatal? ==> r.failure == ForProviderNameField(ForProviderField(c.keys, md))
  {
    var field := ForProviderField(c.keys, md);
    if !IncludeForProviderName(c, md) || "spec" !in tree then Ok(tree)
    else
      var found :- Member(tree["spec"], "forProvider", ForProviderNameField(field));
      match found
      case None => Ok(tree)
      case Some(fpv) =>
        if !fpv.JObject? then Fatal(ForProviderNameField(field))
        else
          match NameInto(fpv.fields, field, OverrideForProviderName(c, md), newName)
          case None => Fatal(ForProviderNameField(field))
          case Some(fp) => Ok(WithForProvider(tree, fp))
  }

  /** The existing value of the field is never re-rendered: when the field
      already holds a value, whatever it is, it is replaced by the new name,
      with or without the override. */
  lemma NameIntoIgnoresExisting(fp: Obj, field: string, override: bool, newName: string)
    requires NoTrailingDot(field)
    requires ValueAt(fp, Segments(field)).Some?
    ensures var r := NameInto(fp, field, override, newName);
      r.Some? && ValueAt(r.value, Segments(field)) == Some(JString(newName))
  {
    var segs := Segments(field);
    var h := segs[..|segs| - 1];
    var last := segs[|segs| - 1];
    NameIntoExisting(fp, field, override, newName);
    SplitLast(segs);
    ValueAtPut(fp, h, GetAt(fp, h).value[last := JString(newName)], last);
  }

  lemma NameIntoExisting(fp: Obj, field: string, override: bool, newName: string)
    requires NoTrailingDot(field)
    requires ValueAt(fp, Segments(field)).Some?
    ensures var segs := Segments(field);
      var h := segs[..|segs| - 1];
      GetAt(fp, h).Some? &&
      NameInto(fp, field, override, newName) ==
        Some(PutAt(fp, h, GetAt(fp, h).value[segs[|segs| - 1] := JString(newName)]))
  {
    var segs := Segments(field);
    var h := segs[..|segs| - 1];
    var last := segs[|segs| - 1];
    LookupResolves(fp, field);
    LastSegmentIsLastKey(field);
    SplitLast(segs);
    ValueAtSplit(fp, h, last);
    var created := Create(fp, field, JString(""));
    assert created == Some((fp, h));
    assert last in GetAt(fp, h).value;
    assert WriteName(created, last, override, newName) ==
      Some(PutAt(fp, h, GetAt(fp, h).value[last := JString(newName)]));
  }

  /** With at most its last two keys missing, the field is created and
      then receives the new name, with or without the override. */
  lemma NameIntoCreates(fp: Obj, field: string, override: bool, newName: string, k: nat)
    requires NoTrailingDot(field)
    requires var segs := Segments(field);
      k < |segs| <= k + 2 && GetAt(fp, segs[..k]).Some? && segs[k] !in GetAt(fp, segs[..k]).value
    ensures var r := NameInto(fp, field, override, newName);
      r.Some? && ValueAt(r.value, Segments(field)) == Some(JString(newName))
  {
    var segs := Segments(field);
    var n := |segs|;
    var last := segs[n - 1];
    CreateMissing(fp, field, k, JString(""));
    LastSegmentIsLastKey(field);
    var (o, h) := Created(fp, segs, k, JString(""));
    assert h == segs[..n - 1];
    CreatedShallow(fp, segs, k, JString(""));
    SplitLast(segs);
    ValueAtSplit(o, h, last);
    var holder := GetAt(o, h).value;
    assert last in holder;
    assert NameInto(fp, field, override, newName) == Some(PutAt(o, h, holder[last := JString(newName)]));
    ValueAtPut(o, h, holder[last := JString(newName)], last);
  }

  /** With three or more keys of the field missing, the walk creates only
      one level, so without the override the request fails (unless the
      field's last key happens to equal the first created one). */
  lemma NameIntoDeepMissingFails(fp: Obj, field: string, newName: string, k: nat)
    requires NoTrailingDot(field)
    requires var segs := Segments(field);
      k + 3 <= |segs| && GetAt(fp, segs[..k]).Some? && segs[k] !in GetAt(fp, segs[..k]).value &&
      segs[k + 1] != segs[|segs| - 1]
    ensures NameInto(fp, field, false, newName) == None
  {
    var segs := Segments(field);
    CreateMissing(fp, field, k, JString(""));
    CreatedDeep(fp, segs, k, JString(""));
    LastSegmentIsLastKey(field);
  }

  /** With the toggle on, on a resource whose provider parameters are an
      object, the field ends up holding the rendered (unsanitised) name
      whenever it existed or at most its last two keys were missing. */
  lemma ForProviderWritesName(c: Cfg, md: Obj, tree: Obj, newName: string, k: nat)
    requires IncludeForProviderName(c, md) && HasForProvider(tree)
    requires tree["spec"].fields["forProvider"].JObject?
    requires NoTrailingDot(ForProviderField(c.keys, md))
    requires var segs := Segments(ForProviderField(c.keys, md));
      var fp := tree["spec"].fields["forProvider"].fields;
      ValueAt(fp, segs).Some? ||
      (k < |segs| <= k + 2 && GetAt(fp, segs[..k]).Some? && segs[k] !in GetAt(fp, segs[..k]).value)
    ensures var r := ForProviderStep(c, md, tree, newName);
      r.Ok? && ValueAt(r.value, ForProvider + Segments(ForProviderField(c.keys, md))) == Some(JString(newName))
  {
    var field := ForProviderField(c.keys, md);
    var segs := Segments(field);
    var fp := tree["spec"].fields["forProvider"].fields;
    var o := OverrideForProviderName(c, md);
    NameIntoWrites(fp, field, o, newName, k);
    ForProviderStepWrites(c, md, tree, newName);
  }

  /** The write on the provider parameters succeeds and leaves the name in
      the field, when the field exists or at most its last two keys are
      missing. */
  lemma NameIntoWrites(fp: Obj, field: string, o: bool, newName: string, k: nat)
    requires NoTrailingDot(field)
    requires var segs := Segments(field);
      ValueAt(fp, segs).Some? ||
      (k < |segs| <= k + 2 && GetAt(fp, segs[..k]).Some? && segs[k] !in GetAt(fp, segs[..k]).value)
    ensures NameInto(fp, field, o, newName).Some? &&
      ValueAt(NameInto(fp, field, o, newName).value, Segments(field)) == Some(JString(newName))
  {
    if ValueAt(fp, Segments(field)).Some? {
      NameIntoIgnoresExisting(fp, field, o, newName);
    } else {
      NameIntoCreates(fp, field, o, newName, k);
    }
  }

  /** Provider parameters that are no object, or a write that fails, abort
      the step. */
  lemma ForProviderStepFails(c: Cfg, md: Obj, tree: Obj, newName: string)
    requires IncludeForProviderName(c, md) && HasForProvider(tree)
    requires var fpv := tree["spec"].fields["forProvider"];
      !fpv.JObject? ||
      NameInto(fpv.fields, ForProviderField(c.keys, md), OverrideForProviderName(c, md), newName).None?
    ensures ForProviderStep(c, md, tree, newName) == Fatal(ForProviderNameField(ForProviderField(c.keys, md)))
  {
  }

  /** On provider parameters that are an object, the step is the write's
      outcome: an abort where the write fails, the written parameters put
      back otherwise. */
  lemma ForProviderStepFound(c: Cfg, md: Obj, tree: Obj, newName: string, fp: Option<Obj>)
    requires IncludeForProviderName(c, md) && HasForProvider(tree)
    requires tree["spec"].fields["forProvider"].JObject?
    requires fp == NameInto(tree["spec"].fields["forProvider"].fields, ForProviderField(c.keys, md),
                            OverrideForProviderName(c, md), newName)
    ensures fp.None? ==> ForProviderStep(c, md, tree, newName) == Fatal(ForProviderNameField(ForProviderField(c.keys, md)))
    ensures fp.Some? ==> ForProviderStep(c, md, tree, newName) == Ok(WithForProvider(tree, fp.value))
  {
  }

  /** A successful write on the provider parameters is the step's
      outcome. */
  lemma ForProviderStepWrites(c: Cfg, md: Obj, tree: Obj, newName: string)
    requires IncludeForProviderName(c, md) && HasForProvider(tree)
    requires tree["spec"].fields["forProvider"].JObject?
    requires NameInto(tree["spec"].fields["forProvider"].fields, ForProviderField(c.keys, md),
                      OverrideForProviderName(c, md), newName).Some?
    ensures var w := NameInto(tree["spec"].fields["forProvider"].fields, ForProviderField(c.keys, md),
                              OverrideForProviderName(c, md), newName).value;
      ForProviderStep(c, md, tree, newName) == Ok(WithForProvider(tree, w)) &&
      forall segs :: segs != [] ==> ValueAt(ForProviderStep(c, md, tree, newName).value, ForProvider + segs) == ValueAt(w, segs)
  {
  }

  /** A path is its holder's location followed by its last key; stated
      apart so that the callers' proofs stay small. */
  lemma SplitLast(s: seq<string>)
    requires s != []
    ensures s == s[..|s| - 1] + [s[|s| - 1]]
  {
  }

  // ---------------------------------------------------------------------
  // External name and cleanup

  predicate IncludeExternalName(c: Cfg, md: Obj) {
    CheckIfTrue(Ann(md), c.keys.annIncludeExternalName, "False")
  }

  /** `mutate_external_name`: when asked for and the rendered name is not
      empty, the external-name annotation is set, unless it is already
      there: an existing external name is never overwritten. */
  function ExternalNameStep(c: Cfg, md: Obj, newName: string): (r: Obj)
    requires MetadataWellFormed(md)
    ensures !(IncludeExternalName(c, md) && newName != "") ==> r == md
    ensures IncludeExternalName(c, md) && newName != "" ==>
      ExternalNameAnnotation in AnnObj(r) &&
      (ExternalNameAnnotation in AnnObj(md) ==> AnnObj(r) == AnnObj(md)) &&
      (ExternalNameAnnotation !in AnnObj(md) ==>
        AnnObj(r) == AnnObj(md)[ExternalNameAnnotation := JString(newName)])
    ensures forall k :: k != "annotations" ==> (k in r <==> k in md)
    ensures forall k :: k in md && k != "annotations" ==> r[k] == md[k]
    ensures MetadataWellFormed(r)
  {
    if IncludeExternalName(c, md) && newName != "" then
      var a := AnnObj(md);
      md["annotations" := JObject(if ExternalNameAnnotation in a then a else a[ExternalNameAnnotation := JString(newName)])]
    else md
  }

  /** The annotations without those carrying the prefix. */
  function Unprefixed(a: Obj, prefix: string): (r: Obj)
    ensures forall k :: k in r <==> k in a && !StartsWith(k, prefix)
    ensures forall k :: k in r ==> r[k] == a[k]
  {
    map k | k in a && !StartsWith(k, prefix) :: a[k]
  }

  /** `_cleanup_fn_specific_annotations`: the annotations carrying the
      function's prefix are removed; nothing else changes. */
  function Cleanup(prefix: string, md: Obj): (r: Obj)
    requires MetadataWellFormed(md)
    ensures forall a :: a in AnnObj(r) ==> !StartsWith(a, prefix)
    ensures forall a :: a in AnnObj(md) && !StartsWith(a, prefix) ==>
      a in AnnObj(r) && AnnObj(r)[a] == AnnObj(md)[a]
    ensures forall k :: k != "annotations" ==> (k in r <==> k in md)
    ensures forall k :: k in md && k != "annotations" ==> r[k] == md[k]
    ensures MetadataWellFormed(r)
  {
    if "annotations" in md then md["annotations" := JObject(Unprefixed(AnnObj(md), prefix))] else md
  }

  /** Cleaning twice is cleaning once. */
  lemma CleanupIdempotent(prefix: string, md: Obj)
    requires MetadataWellFormed(md)
    ensures Cleanup(prefix, Cleanup(prefix, md)) == Cleanup(prefix, md)
  {
    var once := Cleanup(prefix, md);
    if "annotations" in md {
      var a := AnnObj(once);
      assert Unprefixed(a, prefix) == a;
    }
  }

  /** With an empty prefix every annotation carries it, so the cleanup
      removes all of them, the external name included. */
  lemma CleanupEmptyPrefix(md: Obj)
    requires MetadataWellFormed(md)
    ensures AnnObj(Cleanup("", md)) == map[]
  {
    var r := Cleanup("", md);
    forall a | a in AnnObj(r) ensures false {
      assert StartsWith(a, "");
    }
  }

  // ---------------------------------------------------------------------
  // The whole resource

  /** The metadata after the external-name step and the cleanup. */
  function FinishMetadata(c: Cfg, md: Obj, newName: string): (r: Obj)
    requires MetadataWellFormed(md)
    ensures MetadataWellFormed(r)
    ensures forall a :: a in AnnObj(r) ==> !StartsWith(a, c.annotationPrefix)
    ensures NameOf(r) == NameOf(md) && LabelsObj(r) == LabelsObj(md)
  {
    Cleanup(c.annotationPrefix, ExternalNameStep(c, md, newName))
  }

  /** The resource with a metadata entry, an empty one when it has none. */
  function WithMetadata(tree: Obj): (r: Obj)
    ensures r.Keys == tree.Keys + {"metadata"}
    ensures "metadata" in tree ==> r == tree
  {
    if "metadata" in tree then tree else tree["metadata" := JObject(map[])]
  }

  /** The metadata written back into the resource. */
  function WriteBack(tree: Obj, md: Obj): (r: Obj)
    ensures r.Keys == tree.Keys + {"metadata"} && MetadataOf(r) == md
  {
    tree["metadata" := JObject(md)]
  }

  /** The four mutations that follow the metadata step, in the order the
      source starts them, then the external name, the cleanup and the
      write-back of the metadata `md`. */
  function AfterMetadata(c: Cfg, env: Obj, md: Obj, tree: Obj, newName: string): (r: Result<Obj>)
    requires MetadataWellFormed(md)
    ensures r.Ok? ==> tree.Keys + {"metadata"} <= r.value.Keys
    ensures r.Ok? ==> MetadataOf(r.value) == FinishMetadata(c, md, newName)
  {
    var tree1 :- TagsStep(c, env, md, tree, newName);
    var tree2 := Replicate(c.keys, md, tree1);
    var tree3 :- ForProviderStep(c, md, tree2, newName);
    Ok(WriteBack(tree3, FinishMetadata(c, md, newName)))
  }

  /** `run_mutations` followed by the cleanup and the write-back of the
      metadata, on a resource whose environment `env` already holds the
      mapped values and the parsed annotations. */
  function RunMutations(c: Cfg, env: Obj, tree: Obj): (r: Result<Obj>)
    requires WellFormed(tree)
    ensures r.Ok? ==> tree.Keys + {"metadata"} <= r.value.Keys && MetadataWellFormed(MetadataOf(r.value))
    ensures r.Ok? ==> forall a :: a in AnnObj(MetadataOf(r.value)) ==> !StartsWith(a, c.annotationPrefix)
    ensures r.Ok? && !CheckIfTrue(Ann(MetadataOf(tree)), c.keys.annSkipNameModify, "False") ==>
      ValidObjectName(NameOf(MetadataOf(r.value)))
    ensures r.Ok? ==>
      LabelsObj(MetadataOf(r.value)) == LabelsObj(MetadataOf(tree)) + Derived(c, env, c.envToLabel)
  {
    var md0 := MetadataOf(tree);
    var skip := CheckIfTrue(Ann(md0), c.keys.annSkipNameModify, "False");
    var (md1, newName) :- MetadataStep(c, env, md0, skip);
    AfterMetadata(c, env, md1, WithMetadata(tree), newName)
  }

  /** What processing one desired resource yields, given the shared
      environment: a malformed resource aborts the request; otherwise the
      environment receives the mapped values and then the prefixed
      annotations (in the annotations' order, which the model leaves
      open), and the mutations run on it. */
  ghost predicate Processed(c: Cfg, env: Obj, tree: Obj, out: Result<Obj>) {
    if !WellFormed(tree) then out == Fatal(MalformedMetadata)
    else
      var mapped := MappedEnv(c.keys, env, tree, c.input.mappedValues);
      var ann := AnnObj(MetadataOf(tree));
      exists parsed :: ParsedFrom(mapped, ann, ann.Keys, c.annotationPrefix, c.camel, parsed) &&
        out == RunMutations(c, parsed, tree)
  }
}
