/** The function input, the names of the recognised keys and annotations,
    the two-tier outcome (success or a request-aborting failure), and the
    small lookup rules shared by every mutation: true-ish toggles and the
    annotation-over-input precedence. */
module Settings {
  import opened Values
  import opened Text

  /** The names the engine looks for. Their concrete texts live in a
      constants file that is not part of this model, so they are carried as
      data: every rule below holds whatever they are. */
  datatype Keys = Keys(
    annotationPrefix: string,               // default `annotations.prefix`
    prefixSeparator: string,                // default prefix separator
    contextKeyEnvironment: string,          // default context key
    nameTemplateSeparator: string,          // default template separator
    mappedValueDefault: string,             // default mapped-value fallback
    mappedValueMaxLength: nat,              // default mapped-value max length
    annNameTemplate: string,                // annotation: name template items
    annNameTemplateSeparator: string,       // annotation: template separator
    annTagsField: string,                   // annotation: environment tags key
    annIncludeExternalName: string,         // annotation: external-name toggle
    annIncludeForProviderName: string,      // annotation: forProvider toggle
    annForProviderNameField: string,        // annotation: forProvider field
    annForProviderNameOverride: string,     // annotation: forProvider override
    annIncludeTagName: string,              // annotation: Name tag toggle
    annIncludeLabelsAsTags: string,         // annotation: labels-as-tags
    annReplicateLabelsTo: string,           // annotation: replicate labels to
    annSkipNameModify: string)              // annotation: skip renaming

  /** The annotation the external-name step sets. */
  const ExternalNameAnnotation: string := "crossplane.io/external-name"

  /** One `mappedValues` rule: read `source` from the resource, translate it
      through `table` and store it in the environment under `target`. */
  datatype MappedValueRule = MappedValueRule(
    source: string,
    target: string,
    table: map<string, Json>,
    fallback: Option<Json>,
    maxLength: Option<nat>)

  /** The `spec` of the function input; absent optional fields are `None`,
      absent collections empty. `envToLabel` maps environment dot paths to
      label names, but only its keys are ever read, so it is held as those
      keys in the order the input lists them. */
  datatype Input = Input(
    context: Option<string>,
    values: Obj,
    nameTemplate: seq<string>,
    templateItemsSeparator: Option<string>,
    envToLabel: seq<string>,                // keys of the path-to-label-name map
    mappedValues: seq<MappedValueRule>,
    tags: Obj,
    tagsField: Option<string>,
    annotationsPrefix: Option<string>,
    annotationsSeparator: Option<string>,
    labelsPrefix: Option<string>,
    labelsSeparator: Option<string>,
    labelsAsTags: Option<Json>,
    kebabCaseLabelsAndTags: Option<Json>)

  /** The input a runner holds before its first request. */
  const EmptyInput: Input :=
    Input(None, map[], [], None, [], [], map[], None, None, None, None, None, None, None)

  /** Why a request is aborted. */
  datatype Failure =
    | MissingTemplateItem(item: string)
    | TemplateItemNotText(item: string)
    | EmptySeparator
    | ContextNotFound(key: string)
    | KebabToggleNotText
    | MalformedMetadata
    | ForProviderNameField(field: string)
    | TagsNotObject
    | TagSourceNotObject(field: string)
    | NotAnObject(path: string)

  /** A value, or the failure that aborts the whole request. */
  datatype Result<+T> = Ok(value: T) | Fatal(failure: Failure) {
    predicate IsFailure() { Fatal? }
    function PropagateFailure<U>(): Result<U> requires Fatal? { Fatal(failure) }
    function Extract(): T requires Ok? { value }
  }

  /** The per-request settings every mutation reads: what the runner
      computed from the input, and the two case converters of the source's
      `caseconverter` dependency, which is not part of this model. */
  datatype Cfg = Cfg(
    keys: Keys,
    input: Input,
    annotationPrefix: string,
    labelPrefix: string,
    kebab: bool,
    envToLabel: seq<string>,
    camel: string -> string,
    kebabCase: string -> string)

  const TrueWords: set<string> := {"on", "true", "y", "yes"}

  /** Python's `str(b)` for a boolean. */
  function BoolText(b: bool): string {
    if b then "True" else "False"
  }

  /** `_check_if_true`: the entry for `name`, or the text of the default, is
      one of the true words once lower-cased. */
  function CheckIfTrue(data: map<string, string>, name: string, default: string): (r: bool)
    ensures name in data ==> (r <==> Lower(data[name]) in TrueWords)
    ensures name !in data ==> (r <==> Lower(default) in TrueWords)
  {
    Lower(if name in data then data[name] else default) in TrueWords
  }

  /** Passing a boolean default through `str` and back reads it unchanged:
      an absent toggle is exactly the default. */
  lemma CheckIfTrueDefault(data: map<string, string>, name: string, default: bool)
    requires name !in data
    ensures CheckIfTrue(data, name, BoolText(default)) == default
  {
    assert Lower("True") == "true";
    assert Lower("False") == "false";
  }

  /** `_get_from_annotation_or_input`: the resource's annotation wins over
      the function input, which wins over the default. */
  function FromAnnotationOrInput(ann: map<string, string>, annKey: string,
                                 inputValue: Option<string>, default: string): (r: string)
    ensures annKey in ann ==> r == ann[annKey]
    ensures annKey !in ann && inputValue.Some? ==> r == inputValue.value
    ensures annKey !in ann && inputValue.None? ==> r == default
  {
    if annKey in ann then ann[annKey] else inputValue.GetOr(default)
  }

  /** The environment stored in the request context under `key`. A key
      with more than one `/` names a nested entry: the part after the last
      `/` inside the entry named by the part before it. The entry must be
      an object. */
  function ContextFor(ctx: Obj, key: string): (r: Result<Obj>)
    ensures Count(key, '/') <= 1 ==>
      (r.Ok? <==> key in ctx && ctx[key].JObject?) && (r.Ok? ==> ctx[key] == JObject(r.value))
    ensures Count(key, '/') > 1 ==>
      var (group, k) := RPartition(key, '/');
      key == group + "/" + k && '/' !in k &&
      (r.Ok? <==> group in ctx && ctx[group].JObject? && k in ctx[group].fields &&
                  ctx[group].fields[k].JObject?) &&
      (r.Ok? ==> ctx[group].fields[k] == JObject(r.value))
    ensures r.Fatal? ==> r.failure == ContextNotFound(key)
  {
    if Count(key, '/') > 1 then
      var (group, k) := RPartition(key, '/');
      if group in ctx && ctx[group].JObject? && k in ctx[group].fields && ctx[group].fields[k].JObject? then
        Ok(ctx[group].fields[k].fields)
      else Fatal(ContextNotFound(key))
    else if key in ctx && ctx[key].JObject? then Ok(ctx[key].fields)
    else Fatal(ContextNotFound(key))
  }

  /** A prefix and its separator, or nothing at all when the prefix is
      empty. */
  function PrefixFrom(prefix: Option<string>, defaultPrefix: string,
                      separator: Option<string>, defaultSeparator: string): (r: string)
    ensures prefix.GetOr(defaultPrefix) == "" ==> r == ""
    ensures prefix.GetOr(defaultPrefix) != "" ==>
      r == prefix.GetOr(defaultPrefix) + separator.GetOr(defaultSeparator)
  {
    var p := prefix.GetOr(defaultPrefix);
    if p != "" then p + separator.GetOr(defaultSeparator) else ""
  }

  /** The kebab-case toggle of a request: the input's text when it gives
      one (a value that is not text makes the request fail), otherwise the
      runner's previous setting. */
  function KebabFrom(input: Input, previous: bool): (r: Result<bool>)
    ensures input.kebabCaseLabelsAndTags.None? ==> r == Ok(previous)
    ensures input.kebabCaseLabelsAndTags.Some? && input.kebabCaseLabelsAndTags.value.JString? ==>
      r == Ok(Lower(input.kebabCaseLabelsAndTags.value.s) in TrueWords)
    ensures input.kebabCaseLabelsAndTags.Some? && !input.kebabCaseLabelsAndTags.value.JString? ==>
      r == Fatal(KebabToggleNotText)
  {
    match input.kebabCaseLabelsAndTags
    case None =>
      CheckIfTrueDefault(map[], "kebab", previous);
      Ok(Lower(BoolText(previous)) in TrueWords)
    case Some(v) =>
      if v.JString? then Ok(Lower(v.s) in TrueWords) else Fatal(KebabToggleNotText)
  }
}
