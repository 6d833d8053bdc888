/** The stateful side of function/fn.py: a `Resource` wraps one desired
    resource with its own copy of the environment, and the `Runner` keeps
    the per-request settings it reads from the function input and mutates
    every desired resource in turn. Each method is proved against the
    functions of the Mutations module. */
module Engine {
  import opened Values
  import opened Text
  import opened DotPaths
  import opened Settings
  import opened Sanitize
  import opened Naming
  import opened Labels
  import opened Mutations

  /** One desired resource being processed: its private environment, the
      working copy of its metadata, and the resource itself. */
  class Resource {
    var environment: Obj
    var metadata: Obj
    var tree: Obj

    constructor (environment: Obj, tree: Obj)
      ensures this.environment == environment
      ensures this.metadata == MetadataOf(tree)
      ensures this.tree == tree
    {
      this.environment := environment;
      this.metadata := MetadataOf(tree);
      this.tree := tree;
    }
  }

  /** The result of the collection loop so far, followed by what the rest
      of the items yield. */
  function Prepend(values: seq<Json>, rest: Result<seq<Json>>): Result<seq<Json>> {
    match rest
    case Ok(vs) => Ok(values + vs)
    case Fatal(f) => Fatal(f)
  }

  /** Every resource in `out` is the outcome of processing the desired
      resource of the same name. */
  ghost predicate AllProcessed(c: Cfg, env: Obj, desired: map<string, Obj>, out: map<string, Obj>) {
    forall n :: n in out ==> n in desired && Processed(c, env, desired[n], Ok(out[n]))
  }

  /** The loop over the desired resources has processed all but
      `remaining`, with the outcomes `out`. */
  ghost predicate Progress(c: Cfg, env: Obj, desired: map<string, Obj>, remaining: set<string>,
                           out: map<string, Obj>) {
    remaining <= desired.Keys && out.Keys == desired.Keys - remaining && AllProcessed(c, env, desired, out)
  }

  lemma ProgressStep(c: Cfg, env: Obj, desired: map<string, Obj>, remaining: set<string>,
                     out: map<string, Obj>, name: string, out': map<string, Obj>)
    requires Progress(c, env, desired, remaining, out) && name in remaining
    requires name in out' && out' == out[name := out'[name]] && AllProcessed(c, env, desired, out')
    ensures Progress(c, env, desired, remaining - {name}, out')
  {
  }

  class Runner {
    const keys: Keys
    const camel: string -> string
    const kebabCase: string -> string
    var annotationPrefix: string
    var input: Input
    var labelPrefix: string
    var kebab: bool
    var environment: Obj
    var envToLabel: seq<string>

    /** A runner before its first request. */
    constructor (keys: Keys, camel: string -> string, kebabCase: string -> string)
      ensures this.keys == keys && this.camel == camel && this.kebabCase == kebabCase
      ensures annotationPrefix == "" && input == EmptyInput && labelPrefix == ""
      ensures kebab && environment == map[] && envToLabel == []
    {
      this.keys := keys;
      this.camel := camel;
      this.kebabCase := kebabCase;
      annotationPrefix := "";
      input := EmptyInput;
      labelPrefix := "";
      kebab := true;
      environment := map[];
      envToLabel := [];
    }

    /** The settings every mutation reads. */
    function Config(): Cfg
      reads this
    {
      Cfg(keys, input, annotationPrefix, labelPrefix, kebab, envToLabel, camel, kebabCase)
    }

    /** `_format_name_prefix`: copy the values of dotted items to their
        camel-cased keys, then collect every item's value, failing at the
        first missing one, and join them. */
    method FormatNamePrefix(env: Obj, items: seq<string>, sep: string) returns (r: Result<string>)
      ensures r == NamePrefix(env, items, sep, camel)
    {
      var e := env;
      var i := 0;
      while i < |items|
        invariant 0 <= i <= |items|
        invariant InjectDotted(e, items[i..], camel) == InjectDotted(env, items, camel)
      {
        assert items[i..][1..] == items[i + 1..];
        if '.' in items[i] {
          var found := GetLeaf(e, items[i]);
          if found.Some? {
            e := e[camel(items[i]) := JString(found.value.1)];
          }
        }
        i := i + 1;
      }
      assert items[i..] == [];
      assert items[0..] == items;
      var all := ItemValues(e, items, camel);
      if all.Ok? {
        assert [] + all.value == all.value;
      }
      var values: seq<Json> := [];
      var j := 0;
      while j < |items|
        invariant 0 <= j <= |items| && |values| == j
        invariant ItemValues(e, items, camel) == Prepend(values, ItemValues(e, items[j..], camel))
      {
        assert items[j..][1..] == items[j + 1..];
        var item := camel(items[j]);
        if item !in e {
          return Fatal(MissingTemplateItem(item));
        }
        var rest := ItemValues(e, items[j + 1..], camel);
        if rest.Ok? {
          assert values + ([e[item]] + rest.value) == (values + [e[item]]) + rest.value;
        }
        values := values + [e[item]];
        j := j + 1;
      }
      assert items[j..] == [];
      assert values + [] == values;
      r := JoinText(values, sep);
    }

    /** `get_name`: an empty name stays empty; otherwise the prefix the
        template renders, the separator and the name, cut to 63
        characters. */
    method GetName(res: Resource, name: string) returns (r: Result<string>)
      ensures r == NameFor(Config(), res.environment, Ann(res.metadata), name)
    {
      if name == "" {
        return Ok("");
      }
      var ann := Ann(res.metadata);
      var sep := TemplateSeparator(Config(), ann);
      var items :- TemplateItems(Config(), ann);
      var prefix :- FormatNamePrefix(res.environment, items, sep);
      r := Ok(Truncate(prefix + sep + name, MaxNameLength));
    }

    /** `get_labels`: the labels derived from the environment. When the
        resource has labels, they are the dictionary being updated, so the
        metadata's labels change in place. */
    method GetLabels(res: Resource) returns (labels: Obj)
      modifies res
      requires MetadataWellFormed(res.metadata)
      ensures labels == LabelsAfter(Config(), LabelsObj(old(res.metadata)), res.environment, envToLabel)
      ensures res.metadata ==
        if "labels" in old(res.metadata) then old(res.metadata)["labels" := JObject(labels)]
        else old(res.metadata)
      ensures res.environment == old(res.environment) && res.tree == old(res.tree)
    {
      var md := res.metadata;
      var env := res.environment;
      var paths := envToLabel;
      var c := Config();
      labels := LabelsObj(md);
      assert "labels" in md ==> md["labels" := JObject(labels)] == md;
      var i := 0;
      while i < |paths|
        invariant 0 <= i <= |paths|
        invariant LabelsAfter(c, labels, env, paths[i..]) == LabelsAfter(c, LabelsObj(md), env, paths)
        invariant res.metadata == if "labels" in md then md["labels" := JObject(labels)] else md
        invariant res.environment == env && res.tree == old(res.tree)
      {
        assert paths[i..][1..] == paths[i + 1..];
        var found := GetLeaf(env, paths[i]);
        if found.Some? {
          var (key, value) := found.value;
          labels := labels[LabelKeyFor(c, key) := JString(LabelValueFor(value))];
        }
        if "labels" in md {
          res.metadata := md["labels" := JObject(labels)];
        }
        i := i + 1;
      }
      assert paths[i..] == [];
    }

    /** `_parse_annotations`: every annotation carrying the function's
        prefix sets the environment entry named by the rest of its key,
        camel-cased, to its value. */
    method ParseAnnotations(res: Resource)
      modifies res
      ensures ParsedFrom(old(res.environment), AnnObj(res.metadata), AnnObj(res.metadata).Keys,
                         annotationPrefix, camel, res.environment)
      ensures res.metadata == old(res.metadata) && res.tree == old(res.tree)
    {
      var ann := AnnObj(res.metadata);
      var env0 := res.environment;
      ParsedFromNothing(env0, ann, annotationPrefix, camel);
      var remaining := ann.Keys;
      var done: set<string> := {};
      while remaining != {}
        invariant done + remaining == ann.Keys && done !! remaining
        invariant ParsedFrom(env0, ann, done, annotationPrefix, camel, res.environment)
        invariant res.metadata == old(res.metadata) && res.tree == old(res.tree)
        decreases |remaining|
      {
        var a :| a in remaining;
        ParsedFromStep(env0, ann, done, annotationPrefix, camel, res.environment, a);
        if StartsWith(a, annotationPrefix) {
          res.environment := res.environment[camel(a[|annotationPrefix|..]) := ann[a]];
        }
        done := done + {a};
        remaining := remaining - {a};
      }
    }

    /** `_cleanup_fn_specific_annotations`: remove, one by one, the
        annotations that carry the function's prefix. */
    method CleanupAnnotations(res: Resource)
      modifies res
      requires MetadataWellFormed(res.metadata)
      ensures res.metadata == Cleanup(annotationPrefix, old(res.metadata))
      ensures res.environment == old(res.environment) && res.tree == old(res.tree)
    {
      if "annotations" !in res.metadata {
        return;
      }
      var a := AnnObj(res.metadata);
      var kept := a;
      var remaining := a.Keys;
      while remaining != {}
        invariant remaining <= a.Keys
        invariant forall k :: k in kept <==> k in a && (k in remaining || !StartsWith(k, annotationPrefix))
        invariant forall k :: k in kept ==> kept[k] == a[k]
        decreases |remaining|
      {
        var k :| k in remaining;
        if StartsWith(k, annotationPrefix) {
          kept := kept - {k};
        }
        remaining := remaining - {k};
      }
      assert kept == Unprefixed(a, annotationPrefix);
      res.metadata := res.metadata["annotations" := JObject(kept)];
    }

    /** `mutate_metadata`: parse the annotations, derive the labels, and
        unless renaming is skipped render the name and store its sanitised
        form. Returns the rendered name. */
    method MutateMetadata(res: Resource, skip: bool) returns (r: Result<string>)
      modifies res
      requires MetadataWellFormed(res.metadata)
      ensures ParsedFrom(old(res.environment), AnnObj(old(res.metadata)), AnnObj(old(res.metadata)).Keys,
                         annotationPrefix, camel, res.environment)
      ensures var s := MetadataStep(Config(), res.environment, old(res.metadata), skip);
        (s.Ok? ==> r == Ok(s.value.1) && res.metadata == s.value.0) &&
        (s.Fatal? ==> r == Fatal(s.failure))
      ensures res.tree == old(res.tree)
    {
      ParseAnnotations(res);
      var c := Config();
      var env := res.environment;
      var md0 := res.metadata;
      var current := NameOf(md0);
      var labels := GetLabels(res);
      LabelsAfterMerge(c, LabelsObj(md0), env, envToLabel);
      if "labels" !in md0 && labels != map[] {
        res.metadata := res.metadata["labels" := JObject(labels)];
      }
      var md1 := res.metadata;
      assert md1 == LabelledMetadata(c, env, md0);
      if skip {
        return Ok(current);
      }
      var named := GetName(res, current);
      assert MetadataStep(c, env, md0, false) ==
        if named.Fatal? then Fatal(named.failure)
        else Ok((Renamed(md1, SanitizedName(named.value)), named.value));
      if named.Fatal? {
        return Fatal(named.failure);
      }
      var newName := named.value;
      var sanitized := SanitizedName(newName);
      if sanitized != current {
        res.metadata := res.metadata["name" := JString(sanitized)];
      }
      r := Ok(newName);
    }

    /** `mutate_tags`: merge, in order, the environment's tags, the input's
        tags, the Name tag and the prefixed labels into the tags of a
        resource whose provider parameters have some; the guard aborts on
        a `spec` or `forProvider` it cannot search. The labels are
        derived again, which rewrites the metadata's labels in place. */
    method MutateTags(res: Resource, newName: string) returns (r: Result<()>)
      modifies res
      requires MetadataWellFormed(res.metadata)
      ensures var s := TagsStep(Config(), old(res.environment), old(res.metadata), old(res.tree), newName);
        (s.Ok? ==> r.Ok? && res.tree == s.value) && (s.Fatal? ==> r == Fatal(s.failure))
      ensures res.environment == old(res.environment)
      ensures res.metadata == old(res.metadata) ||
        ("labels" in old(res.metadata) &&
         res.metadata == old(res.metadata)["labels" := JObject(
           LabelsAfter(Config(), LabelsObj(old(res.metadata)), res.environment, envToLabel))])
    {
      var tree := res.tree;
      if "spec" !in tree {
        return Ok(());
      }
      var fpv :- Member(tree["spec"], "forProvider", NotAnObject("spec"));
      if fpv.None? {
        return Ok(());
      }
      var t0 :- Member(fpv.value, "tags", NotAnObject("spec.forProvider"));
      if t0.None? {
        return Ok(());
      }
      var tags :- MergedTags(res, t0.value, newName);
      res.tree := WithForProvider(tree, fpv.value.fields["tags" := tags]);
      r := Ok(());
    }

    /** The merges of `mutate_tags` into the existing tags `t0`. */
    method MergedTags(res: Resource, t0: Json, newName: string) returns (r: Result<Json>)
      modifies res
      requires MetadataWellFormed(res.metadata)
      ensures r == NewTags(Config(), res.environment, old(res.metadata), t0, newName)
      ensures res.environment == old(res.environment) && res.tree == old(res.tree)
      ensures res.metadata == old(res.metadata) ||
        ("labels" in old(res.metadata) &&
         res.metadata == old(res.metadata)["labels" := JObject(
           LabelsAfter(Config(), LabelsObj(old(res.metadata)), res.environment, envToLabel))])
    {
      var c := Config();
      var env := res.environment;
      var md := res.metadata;
      var field := TagsField(c, md);
      var t1 :- Layer(field in env && Truthy(env[field]), t0, if field in env then env[field] else JNull,
                      TagSourceNotObject(field));
      var t2 :- Layer(input.tags != map[], t1, JObject(input.tags), TagsNotObject);
      var t3 :- Layer(IncludeNameTag(c, md), t2, JObject(map["Name" := JString(newName)]), TagsNotObject);
      if !IncludeLabelsAsTags(c, md) {
        return Ok(t3);
      }
      var labels := GetLabels(res);
      r := MergeInto(t3, JObject(OwnLabels(labels, labelPrefix)), TagsNotObject);
    }

    /** `replicate_labels`: create the annotated destination when missing
        and merge the labels into the object the walk yields. */
    method ReplicateLabels(res: Resource)
      modifies res
      ensures res.tree == Replicate(keys, res.metadata, old(res.tree))
      ensures res.metadata == old(res.metadata) && res.environment == old(res.environment)
    {
      var field := ReplicateField(keys, res.metadata);
      if field.None? {
        return;
      }
      var labels := LabelsObj(res.metadata);
      var created := Create(res.tree, field.value, JObject(map[]));
      if created.None? {
        return;
      }
      var (t, to) := created.value;
      res.tree := t;
      if labels != map[] {
        var dest := GetAt(t, to).value;
        res.tree := PutAt(t, to, dest + labels);
      }
    }

    /** `mutate_forprovider_name`: with the toggle on and provider
        parameters present, create the field when missing and write the
        rendered name into the object the walk yields; a `spec` the guard
        cannot search aborts. */
    method MutateForProviderName(res: Resource, newName: string) returns (r: Result<()>)
      modifies res
      ensures var s := ForProviderStep(Config(), res.metadata, old(res.tree), newName);
        (s.Ok? ==> r.Ok? && res.tree == s.value) && (s.Fatal? ==> r == Fatal(s.failure))
      ensures res.metadata == old(res.metadata) && res.environment == old(res.environment)
    {
      var t :- ForProviderNamed(res.metadata, res.tree, newName);
      res.tree := t;
      r := Ok(());
    }

    /** The guard of `mutate_forprovider_name` and the write it leads to,
        on the resource's tree. */
    method ForProviderNamed(md: Obj, tree: Obj, newName: string) returns (r: Result<Obj>)
      ensures r == ForProviderStep(Config(), md, tree, newName)
    {
      var field := ForProviderField(keys, md);
      if !IncludeForProviderName(Config(), md) || "spec" !in tree {
        return Ok(tree);
      }
      var found :- Member(tree["spec"], "forProvider", ForProviderNameField(field));
      if found.None? {
        return Ok(tree);
      }
      assert HasForProvider(tree) && found.value == tree["spec"].fields["forProvider"];
      if !found.value.JObject? {
        ForProviderStepFails(Config(), md, tree, newName);
        return Fatal(ForProviderNameField(field));
      }
      r := WriteProviderName(md, tree, newName);
    }

    /** The write of `mutate_forprovider_name` once the guard has found
        provider parameters that are an object: the resource with the
        written parameters, or the abort. */
    method WriteProviderName(md: Obj, tree: Obj, newName: string) returns (r: Result<Obj>)
      requires IncludeForProviderName(Config(), md) && HasForProvider(tree)
      requires tree["spec"].fields["forProvider"].JObject?
      ensures r == ForProviderStep(Config(), md, tree, newName)
    {
      var field := ForProviderField(keys, md);
      var fp := WriteNameInto(tree["spec"].fields["forProvider"].fields, field,
                              OverrideForProviderName(Config(), md), newName);
      ForProviderStepFound(Config(), md, tree, newName, fp);
      if fp.None? {
        return Fatal(ForProviderNameField(field));
      }
      r := Ok(WithForProvider(tree, fp.value));
    }

    /** The body of the `try` in `mutate_forprovider_name` on the provider
        parameters `fp`: the create-if-missing walk, then the write into the
        object it yields; `None` where the source raises. */
    method WriteNameInto(fp: Obj, field: string, ov: bool, newName: string) returns (r: Option<Obj>)
      ensures r == NameInto(fp, field, ov, newName)
    {
      var created := Create(fp, field, JString(""));
      if created.None? {
        return None;
      }
      var (o, ref) := created.value;
      var holder := GetAt(o, ref).value;
      var last := LastSegment(field);
      if !(ov || last in holder) {
        return None;
      }
      r := Some(PutAt(o, ref, holder[last := JString(newName)]));
    }

    /** `mutate_external_name`. */
    method MutateExternalName(res: Resource, newName: string)
      modifies res
      requires MetadataWellFormed(res.metadata)
      ensures res.metadata == ExternalNameStep(Config(), old(res.metadata), newName)
      ensures res.tree == old(res.tree) && res.environment == old(res.environment)
    {
      res.metadata := ExternalNameStep(Config(), res.metadata, newName);
    }

    /** `run_mutations`: the skip toggle is read from the resource's own
        annotations and the resource gets a metadata entry; then the
        metadata is mutated, followed by the other mutations. */
    method RunMutations(res: Resource) returns (r: Result<string>)
      modifies res
      requires WellFormed(res.tree) && res.metadata == MetadataOf(res.tree)
      ensures ParsedFrom(old(res.environment), AnnObj(old(res.metadata)), AnnObj(old(res.metadata)).Keys,
                         annotationPrefix, camel, res.environment)
      ensures var s := Mutations.RunMutations(Config(), res.environment, old(res.tree));
        (s.Ok? ==> r.Ok? && MetadataWellFormed(res.metadata) &&
                   WriteBack(res.tree, Cleanup(annotationPrefix, res.metadata)) == s.value) &&
        (s.Fatal? ==> r == Fatal(s.failure))
    {
      var md0 := res.metadata;
      var skip := CheckIfTrue(Ann(MetadataOf(res.tree)), keys.annSkipNameModify, "False");
      res.tree := WithMetadata(res.tree);
      var newName :- MutateMetadata(res, skip);
      LabelTagsFromMetadata(Config(), res.environment, md0);
      var _ :- RunTasks(res, newName);
      r := Ok(newName);
    }

    /** The task group of `run_mutations`: the tags, the replicated labels,
        the provider-side name and the external name, mutated in the order
        they are scheduled in. The metadata's labels are already derived,
        so deriving them again for the tags changes nothing. */
    method RunTasks(res: Resource, newName: string) returns (r: Result<()>)
      modifies res
      requires MetadataWellFormed(res.metadata)
      requires LabelsAfter(Config(), LabelsObj(res.metadata), res.environment, envToLabel) == LabelsObj(res.metadata)
      ensures var s := AfterMetadata(Config(), old(res.environment), old(res.metadata), old(res.tree), newName);
        (s.Ok? ==> r.Ok? && MetadataWellFormed(res.metadata) &&
                   WriteBack(res.tree, Cleanup(annotationPrefix, res.metadata)) == s.value) &&
        (s.Fatal? ==> r == Fatal(s.failure))
      ensures res.environment == old(res.environment)
    {
      var md := res.metadata;
      assert "labels" in md ==> md["labels" := JObject(LabelsObj(md))] == md;
      var _ :- MutateTags(res, newName);
      assert res.metadata == md;
      ReplicateLabels(res);
      var _ :- MutateForProviderName(res, newName);
      MutateExternalName(res, newName);
      r := Ok(());
    }

    /** `mutate_resource`: the mapped values are written into the
        resource's environment, the mutations run, the function's own
        annotations are removed and the metadata is written back. */
    method MutateResource(res: Resource) returns (r: Result<Obj>)
      modifies res
      requires WellFormed(res.tree) && res.metadata == MetadataOf(res.tree)
      ensures Processed(Config(), old(res.environment), old(res.tree), r)
    {
      var tree0 := res.tree;
      var env0 := res.environment;
      var rules := input.mappedValues;
      var i := 0;
      while i < |rules|
        invariant 0 <= i <= |rules|
        invariant MappedEnv(keys, res.environment, tree0, rules[i..]) == MappedEnv(keys, env0, tree0, rules)
        invariant res.tree == tree0 && res.metadata == MetadataOf(tree0)
      {
        assert rules[i..][1..] == rules[i + 1..];
        var found := GetLeaf(res.tree, rules[i].source);
        if found.Some? {
          res.environment := res.environment[rules[i].target := JString(MapValue(keys, rules[i], found.value.1))];
        }
        i := i + 1;
      }
      assert rules[i..] == [];
      var mapped := res.environment;
      var outcome := RunMutations(res);
      ghost var parsed := res.environment;
      ghost var ann := AnnObj(MetadataOf(tree0));
      assert ParsedFrom(mapped, ann, ann.Keys, annotationPrefix, camel, parsed);
      if outcome.Fatal? {
        return Fatal(outcome.failure);
      }
      CleanupAnnotations(res);
      res.tree := WriteBack(res.tree, res.metadata);
      r := Ok(res.tree);
    }

    /** `read_environment`: remember the input, read the environment from
        the request context and overlay the input's values, then derive
        the annotation and label prefixes and the kebab-case toggle. */
    method ReadEnvironment(ctx: Obj, newInput: Input) returns (r: Result<()>)
      modifies this
      ensures input == newInput && envToLabel == old(envToLabel)
      ensures var key := newInput.context.GetOr(keys.contextKeyEnvironment);
        var read := ContextFor(ctx, key);
        var toggle := KebabFrom(newInput, old(kebab));
        (read.Fatal? ==> r == Fatal(read.failure)) &&
        (read.Ok? && toggle.Fatal? ==> r == Fatal(toggle.failure)) &&
        (r.Ok? <==> read.Ok? && toggle.Ok?) &&
        (r.Ok? ==>
          environment == read.value + newInput.values &&
          annotationPrefix == PrefixFrom(newInput.annotationsPrefix, keys.annotationPrefix,
                                         newInput.annotationsSeparator, keys.prefixSeparator) &&
          labelPrefix == PrefixFrom(newInput.labelsPrefix, "", newInput.labelsSeparator, keys.prefixSeparator) &&
          kebab == toggle.value)
    {
      input := newInput;
      var key := newInput.context.GetOr(keys.contextKeyEnvironment);
      var read :- ContextFor(ctx, key);
      environment := read + newInput.values;
      annotationPrefix := PrefixFrom(newInput.annotationsPrefix, keys.annotationPrefix,
                                     newInput.annotationsSeparator, keys.prefixSeparator);
      labelPrefix := PrefixFrom(newInput.labelsPrefix, "", newInput.labelsSeparator, keys.prefixSeparator);
      var toggle :- KebabFrom(newInput, kebab);
      kebab := toggle;
      r := Ok(());
    }

    /** `RunFunction`: read the environment, then mutate every desired
        resource, each with its own copy of the environment. A failure
        aborts the whole request; on success every resource is the outcome
        of processing it alone, from the environment, prefixes and toggle
        read from this request. */
    method RunFunction(ctx: Obj, newInput: Input, desired: map<string, Obj>)
      returns (r: Result<map<string, Obj>>, ghost failed: string)
      modifies this
      ensures input == newInput
      ensures var read := ContextFor(ctx, newInput.context.GetOr(keys.contextKeyEnvironment));
        read.Fatal? ==> r == Fatal(read.failure)
      ensures (ContextFor(ctx, newInput.context.GetOr(keys.contextKeyEnvironment)).Ok? &&
               KebabFrom(newInput, old(kebab)).Fatal?) ==> r == Fatal(KebabToggleNotText)
      ensures var read := ContextFor(ctx, newInput.context.GetOr(keys.contextKeyEnvironment));
        var toggle := KebabFrom(newInput, old(kebab));
        read.Ok? && toggle.Ok? ==>
          environment == read.value + newInput.values &&
          annotationPrefix == PrefixFrom(newInput.annotationsPrefix, keys.annotationPrefix,
                                         newInput.annotationsSeparator, keys.prefixSeparator) &&
          labelPrefix == PrefixFrom(newInput.labelsPrefix, "", newInput.labelsSeparator, keys.prefixSeparator) &&
          kebab == toggle.value
      ensures r.Ok? ==>
        (envToLabel == newInput.envToLabel && r.value.Keys == desired.Keys &&
         AllProcessed(Config(), environment, desired, r.value))
      ensures (r.Fatal? && ContextFor(ctx, newInput.context.GetOr(keys.contextKeyEnvironment)).Ok? &&
               KebabFrom(newInput, old(kebab)).Ok?) ==>
        (envToLabel == newInput.envToLabel && failed in desired &&
         Processed(Config(), environment, desired[failed], Fatal(r.failure)))
    {
      var read := ReadEnvironment(ctx, newInput);
      if read.Fatal? {
        return Fatal(read.failure), "";
      }
      envToLabel := newInput.envToLabel;
      r, failed := ProcessAll(desired, Config(), environment);
    }

    /** The desired resources, each mutated on its own copy of the shared
        environment `env`, in some order; the first failure stops the
        request. */
    method ProcessAll(desired: map<string, Obj>, ghost c: Cfg, ghost env: Obj)
      returns (r: Result<map<string, Obj>>, ghost failed: string)
      requires c == Config() && env == environment
      ensures r.Ok? ==> r.value.Keys == desired.Keys && AllProcessed(c, env, desired, r.value)
      ensures r.Fatal? ==> failed in desired && Processed(c, env, desired[failed], Fatal(r.failure))
    {
      var out: map<string, Obj> := map[];
      var remaining := desired.Keys;
      while remaining != {}
        invariant Progress(c, env, desired, remaining, out)
        decreases |remaining|
      {
        var name :| name in remaining;
        var next;
        next, failed := ProcessInto(desired, name, out, c, env);
        if next.Fatal? {
          return Fatal(next.failure), failed;
        }
        ProgressStep(c, env, desired, remaining, out, name, next.value);
        out := next.value;
        remaining := remaining - {name};
      }
      r, failed := Ok(out), "";
    }

    /** The outcome of the resource `name` added to those processed so far. */
    method ProcessInto(desired: map<string, Obj>, name: string, out: map<string, Obj>, ghost c: Cfg, ghost env: Obj)
      returns (r: Result<map<string, Obj>>, ghost failed: string)
      requires c == Config() && env == environment
      requires name in desired && AllProcessed(c, env, desired, out)
      ensures r.Ok? ==> name in r.value && r.value == out[name := r.value[name]] && AllProcessed(c, env, desired, r.value)
      ensures r.Fatal? ==> failed == name && Processed(c, env, desired[failed], Fatal(r.failure))
    {
      var mutated := ProcessOne(desired[name]);
      failed := name;
      if mutated.Fatal? {
        return Fatal(mutated.failure), name;
      }
      r := Ok(out[name := mutated.value]);
    }

    /** One desired resource, on its own copy of the shared environment;
        a resource whose metadata cannot be read aborts the request. */
    method ProcessOne(tree: Obj) returns (r: Result<Obj>)
      ensures Processed(Config(), environment, tree, r)
    {
      if !WellFormed(tree) {
        return Fatal(MalformedMetadata);
      }
      var res := new Resource(environment, tree);
      r := MutateResource(res);
    }
  }
}
