# function-naming-convention, modelled in Dafny

This project models the resource-mutation engine of a Crossplane composition
function that enforces a naming convention. For every desired resource of a
request it rewrites `metadata.name`, `metadata.labels`, the provider tags
(`spec.forProvider.tags`), a name field under `spec.forProvider` and the
`crossplane.io/external-name` annotation. It reads these inputs: an
environment taken once from the request context and merged with the
function input's `values`, plus per-resource annotations under a
configurable prefix.

Modules, leaves first:

- `Values` holds the one tree datatype (`Json`), with locations. A location
  is a sequence of keys that stands for a reference into a tree the source
  mutates in place.
- `Text` holds the Python string operations the engine uses:
  `partition`, `rpartition`, `split`, `join`, `lower`, slicing and
  `startswith`.
- `DotPaths` holds dot-notation lookup, the leaf read and the
  create-if-missing walk.
- `Sanitize` holds `_to_rfc952_name`, `_sanitized_name` and
  `_sanitize_label`, following the host-name rules of RFC 952 as relaxed by
  section 2.1 of RFC 1123. Names are limited to 63 characters and prefixed
  label keys to 253. `_to_rfc952_name` is modelled twice: as written
  (`ToRfc952AsWritten`, `SanitizeLabelAsWritten`) and corrected (`ToRfc952`),
  as described under "## Findings". The rest of the model uses the
  corrected version. The two agree whenever the input fits the length
  limit (`CorrectedWithinLimit`). That covers every metadata name, because
  a rendered name has at most 63 characters (`SanitizedNameAsWritten`).
  They differ only for label keys and values longer than the limit;
  "## Left out" lists these.
- `Settings` holds the function input, the recognised keys, the two-tier
  outcome (`Result`: success or a request-aborting `Fatal`),
  `_check_if_true`, `_get_from_annotation_or_input` and the reading of the
  context and prefixes.
- `Naming` holds `_format_name_prefix` and `get_name`.
- `Labels` holds `get_labels`.
- `Mutations` holds every per-resource mutation as a function on values,
  plus `Processed`, the outcome of processing one resource.
- `Engine` holds the `Resource` and `Runner` classes. Their methods update
  fields step by step as the source does, and each is proved against the
  functions of `Mutations`.

The source's concurrency is modelled as sequential code:

- The four sub-mutations of `run_mutations` contain no `await`, so they run
  to completion in the order they are created: tags, label replication,
  forProvider name, external name.
- Each resource works on its own deep copy of the environment.
- The request loop is therefore a loop over the desired resources in an
  unspecified order. Its contract says that every output resource is what
  processing that resource alone yields from the shared environment. So
  the order cannot matter, and no resource sees another's annotations.
  `ProcessAll` and `ProcessOne` do not modify the runner, so the shared
  environment is never changed.

Where the code differs from what its own comments, docstrings and names suggest, the model follows the code:

- `mutate_forprovider_name` never re-renders an existing value. The test
  `not x not in y` reads `x in y`. After the create-if-missing walk the
  field is in the holder, so it is overwritten with the unsanitised
  rendered name. The re-rendering branch is reached only when the field is
  absent from the holder, and it fails there, aborting the request.
- The create-if-missing walk creates at most one level below the first
  missing key, not every missing level. When the path already exists it
  returns the object that holds the last key. So `replicate_labels` into an
  existing destination merges the labels into the destination's parent.
- A label's key is the last segment of its environment path with the label
  prefix in front, sanitised as a whole. The input's `envToLabel` maps
  environment dot paths to label names, but only its keys are read. The
  configured label names are ignored: with `{region: regionName}` and the
  prefix `bb/`, the label is `bb/region`, not `bb/regionName`. The model
  holds just the keys.
- Mapped values are lower-cased in every case, including a table hit and
  the fallback.
- The annotation holding the name template is split on the text of the
  template-separator annotation's key (`c.ANNOTATION_NAME_TEMPLATE_SEPARATOR`
  at function/fn.py:263). The model carries that key as data and splits on
  it.

Constants from the repository's constants module are carried in a `Keys`
record, because that module is not part of this model. Every property holds
whatever those texts are. The limits 63 and 253 come from the docstring of
`_sanitize_label`.

## Model

| member | source | states |
|---|---|---|
| `DotPaths.Lookup` | function/fn.py:21-33 | a found location always designates an object of the tree |
| `DotPaths.LookupResolves` | function/fn.py:21-33 | the lookup succeeds exactly when every key of the path is present, each but the last holding an object, and it then yields the holder of the last key, not the leaf |
| `DotPaths.GetLeaf` | function/fn.py:74-87 | a result pairs the path's last segment with a non-empty text |
| `DotPaths.LeafIsValueAt` | function/fn.py:74-87 | the leaf read yields the value at the end of the key path exactly when that value is present and truthy, paired with the last key |
| `DotPaths.Create` | function/fn.py:36-64 | an existing path leaves the tree unchanged and yields the holder of its last key; otherwise keys are only ever added |
| `DotPaths.CreateMissing` | function/fn.py:36-64 | the walk is characterised by the depth of the first missing key: it creates the last key, `{last: ctor}`, or a single empty level, and yields the location the source returns in each case |
| `DotPaths.CreatedShallow` | function/fn.py:49-57 | with at most the last two keys missing, the path afterwards holds the constructor value and the other entries beside the first missing key are unchanged |
| `DotPaths.CreatedDeep` | function/fn.py:51-58 | with three or more keys missing only one level is created, holding the next key with an empty object, and that level is returned |
| `Sanitize.ToRfc952AsWritten` | function/fn.py:90-102 | as written: at most `maxLength` characters, each alphanumeric, allowed or the replacement, and never starting with the replacement |
| `Sanitize.AsWrittenCanEndWithReplacement` | function/fn.py:99-102 | as written, a name one short of the limit followed by `-` and a letter is cut right after the `-` |
| `Sanitize.AsWrittenEndsWithDashAt63` | function/fn.py:99-102 | the concrete input of 62 letters, `-` and `b` yields 63 characters ending in `-` |
| `Sanitize.ToRfc952` | function/fn.py:90-102 | corrected: within the limit, only allowed characters, and neither starting nor ending with the replacement |
| `Sanitize.CorrectedIsAsWrittenTrimmed` | function/fn.py:99-102 | the corrected sanitiser is a prefix of the one as written and agrees with it whenever the cut leaves no trailing replacement |
| `Sanitize.CorrectedWithinLimit` | function/fn.py:99-102 | an input that fits the limit is sanitised the same by the corrected version and the version as written |
| `Sanitize.ToRfc952KeepsSanitized` | function/fn.py:90-102 | corrected: an already valid name is returned unchanged (as written too, since such a name fits the limit) |
| `Sanitize.ToRfc952Idempotent` | function/fn.py:90-102 | corrected: sanitising twice is sanitising once |
| `Sanitize.SanitizedName` | function/fn.py:194-197 | corrected: at most 63 characters, all in `[a-z0-9.-]`, not starting or ending with `-` |
| `Sanitize.SanitizedNameAsWritten` | function/fn.py:194-197 | up to 63 characters the object-name sanitiser is `_sanitized_name` as written: the lower-cased result of `_to_rfc952_name` as written |
| `Sanitize.SanitizedNameIdempotent` | function/fn.py:194-197 | corrected: a sanitised object name is left as it is |
| `Sanitize.UnderscoreBecomesDash` | tests/test_fn.py:866-870 | two valid name parts joined by `_` (as in `aa-tst-usw2-xt-foo_bar`) sanitise to the same text with `-` |
| `Sanitize.SanitizeLabelAsWritten` | function/fn.py:168-192 | as written: a label key of at most 253 characters |
| `Sanitize.SanitizeLabelWithinLimits` | function/fn.py:168-192 | when the prefix fits 189 characters and the name segment fits 63, the corrected label sanitiser is `_sanitize_label` as written |
| `Sanitize.LabelAsWrittenEndsWithDash` | function/fn.py:188-192 | as written, a 62-letter name segment followed by `-b` becomes a key ending in `-`; corrected, the `-` is trimmed |
| `Sanitize.SanitizeLabelShape` | function/fn.py:168-192 | corrected: a sanitised key without `/` is a valid name segment of at most 63 characters; one with `/` is a non-empty valid prefix of at most 189 characters, the `/`, and a valid name segment |
| `Sanitize.ToRfc952KeepsNoUpper` | function/fn.py:90-102 | the sanitiser brings in no upper-case letter: a lower-case input gives a lower-case result |
| `Sanitize.SanitizeLabelIdempotent` | function/fn.py:168-192 | corrected: sanitising a label key twice equals once; with kebab-casing on this holds for any converter whose output has no upper-case letter and which returns a lower-case valid kebab-case name as it is |
| `Settings.CheckIfTrue` | function/fn.py:133-140 | true exactly when the entry, or the default's text when absent, lower-cases to one of `on`, `true`, `y`, `yes` |
| `Settings.CheckIfTrueDefault` | function/fn.py:133-140 | an absent toggle reads as its boolean default |
| `Settings.FromAnnotationOrInput` | function/fn.py:217-232 | the annotation wins over the input, which wins over the default |
| `Settings.ContextFor` | function/fn.py:495-508 | a key with at most one `/` is looked up directly; one with more is split at its last `/` into group and key; it fails exactly when the entry is missing or not an object |
| `Settings.PrefixFrom` | function/fn.py:512-521 | an empty prefix gives the empty text; otherwise prefix then separator, each defaulting |
| `Settings.KebabFrom` | function/fn.py:523-527 | the input's toggle when given, otherwise the runner's previous setting |
| `Naming.InjectDottedKeeps` | function/fn.py:149-156 | injecting dotted items only adds keys and only changes the camel-cased keys of dotted items |
| `Naming.NamePrefixMeaning` | function/fn.py:142-166 | after injection, the prefix fails exactly when an item is missing or not text (a missing item gives `MissingTemplateItem`), and otherwise is the items' texts joined in template order |
| `Naming.NamePrefixExample` | function/fn.py:142-166 | items `region-code`, `domain` over `{regionCode: usw2, domain: core}` give `usw2-core`, and the name `foo` becomes `usw2-core-foo` |
| `Naming.TemplateItems` | function/fn.py:260-265 | the input template unless the annotation is set and non-empty; then the annotation is split at every occurrence of the separator key: no item contains it and the items joined back with it give the annotation; an empty separator aborts, as `str.split` raises |
| `Naming.NameFor` | function/fn.py:242-270 | an empty name stays empty; a rendered name is at most 63 characters |
| `Naming.NameForShape` | function/fn.py:267-270 | the rendered name is the first `min(n, 63)` characters of `prefix + sep + name`, where `n` is that text's length |
| `Labels.LabelValueAsWritten` | function/fn.py:289 | up to 63 characters a label value is the one the sanitiser as written stores |
| `Labels.LabelValueFor` | function/fn.py:289 | corrected: a label value has at most 63 characters of letters, digits, `-`, `_`, `.` and is trimmed of `-` |
| `Labels.LabelsAfterIdempotent` | function/fn.py:272-290 | the labels are the existing labels overwritten by the derived ones, and deriving again changes nothing |
| `Labels.DerivedKeys` | function/fn.py:280-289 | a derived label exists exactly for the paths holding a value, under the sanitised prefixed key of the path's last segment |
| `Labels.DerivedValueAt` | function/fn.py:280-289 | any path holding a value derives its label with that value, unless a later path in the `envToLabel` order yields the same key |
| `Labels.LaterPathWins` | function/fn.py:280-289 | the same for a resource's labels after `get_labels`, whatever labels it had before |
| `Labels.LastPathWins` | function/fn.py:280-289 | corollary for the last path: when it holds a value, its label always has that value |
| `Mutations.ParsedFromStep` | function/fn.py:234-240 | each prefixed annotation writes its value under the camel-cased key without the prefix; other annotations change nothing |
| `Mutations.ParsedDeterministic` | function/fn.py:234-240 | when no two prefixed annotations name the same key, the parsed environment does not depend on visiting order |
| `Mutations.MapValue` | function/fn.py:386-407 | the mapped value is lower-case in every case: a table hit gives the table entry's text lower-cased; a miss longer than the rule's maximum length (default applied) gives the fallback's text lower-cased (default applied); any other miss gives the value read, lower-cased |
| `Mutations.MappedEnvKeeps` | function/fn.py:379-407 | the mapped-value loop leaves every key that is no rule's target as it was, present or absent |
| `Mutations.MappedEnvValueAt` | function/fn.py:379-407 | any rule whose source holds a value sets its target to the rule's mapped value, unless a later rule has the same target |
| `Mutations.MappedEnvLastRuleWins` | function/fn.py:379-407 | corollary for the last rule: when its source holds a value, its target always gets its mapped value |
| `Mutations.MapValueTableHit` | function/fn.py:388-389 | example: `XTest` with the table `{XTest: xt}` maps to `xt` |
| `Mutations.MapValueFallbackLowered` | function/fn.py:390-407 | example: with fallback `Other` and maximum length 2, any miss of more than 2 characters maps to `other` |
| `Mutations.LabelledMetadata` | function/fn.py:356-360 | the metadata's labels become the old labels updated by the derived ones; a label entry is added only when something was derived; nothing else changes |
| `Mutations.MetadataStep` | function/fn.py:341-372 | with renaming skipped the name is kept; otherwise the metadata name is the sanitised rendered name, a valid object name, and only the name entry changes |
| `Mutations.NameStep` | function/fn.py:361-371 | the renaming changes only the name entry, to the sanitised form of the rendered name, a valid object name; an empty name renders as empty |
| `Mutations.NewTagsPrecedence` | function/fn.py:414-470 | the tags become the old tags overwritten in turn by the environment tags, the input tags, the `Name` tag and the prefixed labels, each only when it applies |
| `Mutations.NewTagsNotObject` | function/fn.py:437-470 | tags that are not an object abort the request as soon as a source applies, and are untouched otherwise |
| `Mutations.NewTagsExample` | function/fn.py:433-457 | environment `{a: 1}`, input `{a: 2, b: 3}` and Name `X` give `{a: 2, b: 3, Name: X}` |
| `Mutations.Member` | function/fn.py:423-427 | the guard `key in v` followed by `v[key]`: the entry exactly when `v` is an object holding the key; no entry exactly when `in` answers false; the given failure where `in` raises or the indexing would |
| `Mutations.TagsStep` | function/fn.py:423-432 | a resource without `spec`, without `forProvider` or without `tags` is untouched; a `spec` or `forProvider` that `in` cannot search, or that is a text or list containing the key, aborts; otherwise the tags become the merged tags, or their failure aborts |
| `Mutations.TagsStepFrame` | function/fn.py:423-470 | a successful tag step changes only the `tags` entry: every other entry of the resource, of its `spec` and of its provider parameters keeps its value |
| `Mutations.LabelTagsFromMetadata` | function/fn.py:459-468 | deriving the labels again for tags leaves the metadata's labels as the metadata step made them |
| `Mutations.Replicate` | function/fn.py:529-540 | the resource keeps every top-level key, and without a destination annotation nothing changes |
| `Mutations.ReplicateIntoParent` | function/fn.py:536-538 | when the destination already exists, each label becomes a key of the destination's parent with the label's value; a label named like the destination's last key replaces the destination |
| `Mutations.ReplicateIntoNew` | function/fn.py:536-538 | a destination whose only missing key is the last ends up holding exactly the labels |
| `Mutations.ForProviderStep` | function/fn.py:307-339 | with the toggle off or no `spec` nothing changes; without `forProvider` nothing changes where `in` answers false and the request aborts where it raises or the indexing would; a success keeps the resource's keys; a failure names the field |
| `Mutations.NameIntoIgnoresExisting` | function/fn.py:323-330 | an existing field is overwritten with the new name whatever it held and whatever the override toggle |
| `Mutations.NameIntoCreates` | function/fn.py:317-330 | a field with at most its last two keys missing is created and receives the new name |
| `Mutations.NameIntoDeepMissingFails` | function/fn.py:317-336 | with three or more keys missing, no override, and a next key that differs from the last, the write fails |
| `Mutations.ForProviderWritesName` | function/fn.py:307-339 | with the toggle on, the field ends up holding the unsanitised rendered name whenever it existed or at most two keys were missing |
| `Mutations.ExternalNameStep` | function/fn.py:292-305 | the annotation is added only when toggled and the name is non-empty, and an existing external name is never overwritten; nothing else changes |
| `Mutations.Cleanup` | function/fn.py:199-215 | no prefixed annotation survives, every other annotation is kept with its value, and nothing outside the annotations changes |
| `Mutations.CleanupIdempotent` | function/fn.py:199-215 | cleaning twice is cleaning once |
| `Mutations.CleanupEmptyPrefix` | function/fn.py:199-215 | with an empty prefix every annotation is removed |
| `Mutations.AfterMetadata` | function/fn.py:553-557 | after the four sub-mutations the written-back metadata is the external-name step followed by the cleanup, and no key of the resource is lost |
| `Mutations.RunMutations` | function/fn.py:542-557 | a success has well-formed metadata, no prefixed annotation, the old labels updated by the derived ones and, unless renaming is skipped, a valid object name |
| `Engine.Resource.constructor` | function/fn.py:108-117 | a resource holds its own environment, its tree and the tree's metadata, empty when absent |
| `Engine.Runner.constructor` | function/fn.py:123-130 | a new runner has empty prefixes and input and kebab-casing on |
| `Engine.Runner.FormatNamePrefix` | function/fn.py:142-166 | the two loops compute `NamePrefix`, failing at the first missing item |
| `Engine.Runner.GetName` | function/fn.py:242-270 | the method computes `NameFor` from the resource's environment and annotations |
| `Engine.Runner.GetLabels` | function/fn.py:272-290 | the loop derives the labels over the existing ones, changing the metadata's labels in place when present |
| `Engine.Runner.ParseAnnotations` | function/fn.py:234-240 | the environment is the parsed one (`ParsedFrom`); metadata and tree are unchanged |
| `Engine.Runner.CleanupAnnotations` | function/fn.py:199-215 | the loop removing prefixed annotations yields `Cleanup` |
| `Engine.Runner.MutateMetadata` | function/fn.py:341-372 | the annotations are parsed into the environment, and the metadata and returned name are those of `MetadataStep` or its failure |
| `Engine.Runner.MutateTags` | function/fn.py:414-432 | the tree becomes `TagsStep` of the old tree, or the failure is returned |
| `Engine.Runner.MergedTags` | function/fn.py:433-470 | the merges yield `NewTags`, and the metadata's labels at most get re-derived |
| `Engine.Runner.ReplicateLabels` | function/fn.py:529-540 | the tree becomes `Replicate` of the old tree |
| `Engine.Runner.MutateForProviderName` | function/fn.py:307-339 | the tree becomes `ForProviderStep` of the old tree, or its failure is returned |
| `Engine.Runner.ForProviderNamed` | function/fn.py:309-339 | the guard and the write compute `ForProviderStep` of the tree |
| `Engine.Runner.WriteProviderName` | function/fn.py:317-330 | on provider parameters that are an object, the create-if-missing walk and the write compute `ForProviderStep` of the tree |
| `Engine.Runner.MutateExternalName` | function/fn.py:292-305 | the metadata becomes `ExternalNameStep` of the old metadata |
| `Engine.Runner.RunMutations` | function/fn.py:542-557 | the resource ends as `Mutations.RunMutations` describes, on the environment the annotations were parsed into |
| `Engine.Runner.RunTasks` | function/fn.py:553-557 | the four sub-mutations in creation order yield `AfterMetadata`, stopping at the first failure |
| `Engine.Runner.MutateResource` | function/fn.py:374-412 | the mapped-value loop, the mutations, the cleanup and the write-back yield the outcome `Processed` describes |
| `Engine.Runner.ReadEnvironment` | function/fn.py:488-527 | the input is stored; the environment is the context entry overlaid with the input values; prefixes and kebab toggle follow the input; a missing context aborts |
| `Engine.Runner.RunFunction` | function/fn.py:559-592 | an unreadable context aborts; a non-text `kebabCaseLabelsAndTags` aborts with that failure; when both are read, the runner's environment is the context entry overlaid with the input's values and its prefixes and kebab toggle are those this request sets; a success maps every desired resource to its own processing outcome; a failure names a resource whose processing fails |
| `Engine.Runner.ProcessAll` | function/fn.py:570-582 | every resource is processed on its own copy of the shared environment; the first failure aborts the request |
| `Engine.Runner.ProcessInto` | function/fn.py:570-582 | one step of the request loop adds the processed resource to the outputs, or reports it as the resource that failed |
| `Engine.Runner.ProcessOne` | function/fn.py:472-486 | one resource's outcome is `Processed` from the shared environment; metadata, annotations or labels that are not objects, or a name that is not text, abort |

## Left out

- gRPC plumbing is not modelled: `context.abort`, status codes, `response.to`, the TTL and the gRPC server in function/main.py. A request's outcome is `Ok` with the new desired resources, or `Fatal` with the reason.
- `asyncio` task groups and `except*` are modelled as sequential loops in creation order, as explained above. Cancellation of sibling tasks is not modelled; any failure discards the whole response.
- Protobuf `Struct` conversion is not modelled (`struct_to_dict`, `dict_to_struct`, `resource.update`, `get_or_create_struct`). One tree datatype is used throughout, and `resource.update` is modelled as replacing the desired resource.
- `camelcase` and `kebabcase` come from the `caseconverter` library, which is not part of this model. They are uninterpreted function values held by the runner.
- `isalnum` and `lower` are restricted to ASCII. Python's Unicode rules are not modelled.
- Numbers are integers. `str()` of an integral number prints it with `.0`, as protobuf numbers are floats. `str()` of a container prints a fixed placeholder instead of Python's repr.
- `maxLength` of a mapped-value rule is a natural number rather than a float.
- Logging and the unused `Resource.result` are left out. So is the diagnostic `Resource.ref`, with the parent kind and name appended to it by `process_resource`.
- The function input is a typed record. Input fields of the wrong type are not modelled, except a kebab-case toggle that is not text, which aborts the request. Annotation values that are not text are ignored by the toggles, where the source would raise.
- `DotPaths.Lookup`: a value on a path that is not an object is treated as having no keys, so the path is skipped. The source raises `TypeError` in two cases:
  - the path goes through a number, boolean or null (`in` is undefined there);
  - the path goes through a text or list that contains the next key as a substring or element (indexing it by a key fails, at function/fn.py:31 and 84).
  Nothing in `get_labels`, the name-prefix injection or the mapped-value loop catches it, so the source aborts the request where the model skips the path. In `replicate_labels` the error is caught and logged, which matches the model's skip.
- `DotPaths.Create`: a walk that must descend into a value that is not an object is modelled as a failure. `replicate_labels` then logs and skips, and `mutate_forprovider_name` aborts.
- `Labels.LastPathWins` (and `Labels.DerivedValueAt`, `Labels.LaterPathWins`): `envToLabel` is a map in the source and is held here as its keys in input order. Which of two paths yielding the same label key is "later" depends on the map's iteration order, which protobuf `Struct` decoding does not promise.
- SanitizedName: built on the corrected sanitiser. It differs from function/fn.py:197 only on names over 63 characters whose 63-character cut ends in `-` (62 letters and `-b` keeps a trailing `-` in the source). Every name the model sanitises is a rendered name of at most 63 characters, where `SanitizedNameAsWritten` proves the two agree.
- SanitizedNameIdempotent: proved of the corrected sanitiser. `_sanitized_name` as written is not idempotent on 62 letters and `-b`: the second pass strips the `-` the first pass left. It is idempotent on names of at most 63 characters, as `SanitizedNameAsWritten` shows.
- SanitizeLabel: built on the corrected sanitiser. `_sanitize_label` as written (`SanitizeLabelAsWritten`) differs when a prefix longer than 189 characters, or a name segment longer than 63, is cut right after a `-`. `SanitizeLabelWithinLimits` proves they agree otherwise, and `LabelAsWrittenEndsWithDash` exhibits a difference.
- SanitizeLabelShape: proved of the corrected sanitiser. As written, a long prefix or name segment can end in `-` after the cut (`LabelAsWrittenEndsWithDash`), which is not a valid label key.
- SanitizeLabelIdempotent: proved of the corrected sanitiser. As written, sanitising 62 letters and `-b` twice drops the `-` the first pass left. With kebab-casing on it is proved for any converter that outputs no upper-case letter and returns a lower-case valid kebab-case name unchanged (`KebabConverter`). `caseconverter.kebabcase` is not part of this model, so that it meets these conditions is not proved. The repository's tests expect it to lower-case (`accountCode` becomes `account-code` at tests/test_fn.py:227).
- LabelValueFor: built on the corrected sanitiser. As written, a value over 63 characters cut right after a `-` keeps that `-` (62 letters and `-b` gives 62 letters and `-`). Up to 63 characters they agree (`LabelValueAsWritten`).
- ProcessOne: through `WellFormed`, the model aborts on a `metadata.name` that is not text even when renaming is skipped. The source then carries the value through unchanged, into the `Name` tag, the provider-side name field and the external-name annotation, and succeeds. The model's rendered name is text, so it does not represent that case. With renaming on, the source aborts for such names, except an empty list or object, which it renames to the empty text.
- `Engine.Runner.ParseAnnotations`: dictionary iteration order is not fixed by the model. When two prefixed annotations camel-case to the same key, the contract only says the value comes from one of them; `ParsedDeterministic` shows there is no ambiguity otherwise.
- `Engine.Runner.ReadEnvironment`: the kebab-case default is the runner's previous setting, as written. A runner serving several requests carries it over from one to the next.
- The non-fatal `except` clauses of `mutate_tags` (`ValueError`, `TypeError`) cannot fire for values of this tree type. A tags field or tag source that is not an object raises an uncaught error in the source, so it aborts the request here too.

## Findings

| source | as written | input that shows it | evidently intended | confidence | as-written member | corrected member |
|---|---|---|---|---|---|---|
| function/fn.py:102 | `_to_rfc952_name` strips the replacement character before cutting to `max_length`, so the cut can expose a trailing `-` | 62 letters followed by `-b`, limit 63: the result is the 62 letters and `-`, which is not a valid RFC 1123 label or label-key name | the result begins and ends with an alphanumeric character, as the docstring of `_sanitize_label` (function/fn.py:171-174) requires | high; not executed | `Sanitize.AsWrittenCanEndWithReplacement` | `Sanitize.ToRfc952` |
