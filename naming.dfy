/** The name template engine: items of the environment, joined with a
    separator, in front of the resource's own name. */
module Naming {
  import opened Values
  import opened Text
  import opened DotPaths
  import opened Settings
  import Sanitize

  /** One step of the injection loop of `_format_name_prefix`: a template
      item in dot notation whose value is found in the environment is copied
      to the item's camel-cased key. */
  function InjectItem(env: Obj, item: string, camel: string -> string): (r: Obj)
    ensures env.Keys <= r.Keys
    ensures forall k :: k in env && k != camel(item) ==> r[k] == env[k]
  {
    if '.' in item then
      match GetLeaf(env, item)
      case Some((_, v)) => env[camel(item) := JString(v)]
      case None => env
    else env
  }

  /** The environment after the injection loop over `items`. */
  function InjectDotted(env: Obj, items: seq<string>, camel: string -> string): (r: Obj)
    decreases |items|
  {
    if items == [] then env else InjectDotted(InjectItem(env, items[0], camel), items[1..], camel)
  }

  /** Keys that the injection loop may write. */
  ghost predicate Injected(k: string, items: seq<string>, camel: string -> string) {
    exists i :: 0 <= i < |items| && '.' in items[i] && camel(items[i]) == k
  }

  /** The injection only adds keys: everything already in the environment
      stays, and only the camel-cased keys of dotted items can change. */
  lemma {:induction false} InjectDottedKeeps(env: Obj, items: seq<string>, camel: string -> string)
    ensures var r := InjectDotted(env, items, camel);
      env.Keys <= r.Keys &&
      forall k :: k in env && !Injected(k, items, camel) ==> r[k] == env[k]
    decreases |items|
  {
    if items != [] {
      var e1 := InjectItem(env, items[0], camel);
      InjectDottedKeeps(e1, items[1..], camel);
      forall k | k in env && !Injected(k, items, camel)
        ensures InjectDotted(env, items, camel)[k] == env[k]
      {
        assert !Injected(k, items[1..], camel) by {
          forall j | 0 <= j < |items[1..]|
            ensures !('.' in items[1..][j] && camel(items[1..][j]) == k)
          {
            assert items[1..][j] == items[j + 1];
          }
        }
        assert !('.' in items[0] && camel(items[0]) == k);
      }
    }
  }

  /** The collection loop of `_format_name_prefix`: the value of every item,
      failing at the first item whose camel-cased key is missing. */
  function ItemValues(env: Obj, items: seq<string>, camel: string -> string): (r: Result<seq<Json>>)
    ensures r.Ok? ==> |r.value| == |items|
    decreases |items|
  {
    if items == [] then Ok([])
    else if camel(items[0]) !in env then Fatal(MissingTemplateItem(camel(items[0])))
    else
      var rest :- ItemValues(env, items[1..], camel);
      Ok([env[camel(items[0])]] + rest)
  }

  /** `separator.join(values)`, which fails unless every value is text. */
  function JoinText(values: seq<Json>, sep: string): (r: Result<string>)
    decreases |values|
  {
    if values == [] then Ok("")
    else if !values[0].JString? then Fatal(TemplateItemNotText(Str(values[0])))
    else if |values| == 1 then Ok(values[0].s)
    else
      var rest :- JoinText(values[1..], sep);
      Ok(values[0].s + sep + rest)
  }

  /** `_format_name_prefix`. */
  function NamePrefix(env: Obj, items: seq<string>, sep: string, camel: string -> string): Result<string> {
    var e := InjectDotted(env, items, camel);
    var values :- ItemValues(e, items, camel);
    JoinText(values, sep)
  }

  /** Every item resolves to text in the environment `e`. */
  ghost predicate AllText(e: Obj, items: seq<string>, camel: string -> string) {
    forall i :: 0 <= i < |items| ==> camel(items[i]) in e && e[camel(items[i])].JString?
  }

  /** The texts of the items, in template order. */
  ghost function Texts(e: Obj, items: seq<string>, camel: string -> string): (r: seq<string>)
    requires AllText(e, items, camel)
    ensures |r| == |items|
    ensures forall i :: 0 <= i < |items| ==> r[i] == e[camel(items[i])].s
    decreases |items|
  {
    if items == [] then [] else [e[camel(items[0])].s] + Texts(e, items[1..], camel)
  }

  lemma {:induction false} ItemValuesMissing(e: Obj, items: seq<string>, camel: string -> string)
    ensures ItemValues(e, items, camel).Fatal? <==>
      exists i :: 0 <= i < |items| && camel(items[i]) !in e
    ensures ItemValues(e, items, camel).Ok? ==>
      forall i :: 0 <= i < |items| ==> ItemValues(e, items, camel).value[i] == e[camel(items[i])]
    decreases |items|
  {
    if items != [] && camel(items[0]) in e {
      ItemValuesMissing(e, items[1..], camel);
      if exists i :: 0 <= i < |items[1..]| && camel(items[1..][i]) !in e {
        var i :| 0 <= i < |items[1..]| && camel(items[1..][i]) !in e;
        assert camel(items[i + 1]) !in e;
      }
      if exists i :: 0 <= i < |items| && camel(items[i]) !in e {
        var i :| 0 <= i < |items| && camel(items[i]) !in e;
        assert i != 0 && camel(items[1..][i - 1]) !in e;
      }
      if ItemValues(e, items, camel).Ok? {
        var v := ItemValues(e, items, camel).value;
        forall i | 0 <= i < |items| ensures v[i] == e[camel(items[i])] {
          if i > 0 { assert v[i] == ItemValues(e, items[1..], camel).value[i - 1]; }
        }
      }
    } else if items != [] {
      assert camel(items[0]) !in e;
    }
  }

  lemma {:induction false} JoinTextOfTexts(values: seq<Json>, texts: seq<string>, sep: string)
    requires |values| == |texts|
    requires forall i :: 0 <= i < |values| ==> values[i] == JString(texts[i])
    ensures JoinText(values, sep) == Ok(Join(texts, sep))
    decreases |values|
  {
    if values != [] {
      JoinTextOfTexts(values[1..], texts[1..], sep);
    }
  }

  lemma {:induction false} JoinTextFails(values: seq<Json>, sep: string, i: nat)
    requires i < |values| && !values[i].JString?
    ensures JoinText(values, sep).Fatal?
    decreases |values|
  {
    if i > 0 && values[0].JString? {
      JoinTextFails(values[1..], sep, i - 1);
    }
  }

  /** The name prefix is the items' texts joined with the separator, once
      dotted items were injected; it fails exactly when some item is missing
      or is not text. Missing items abort so that a changed environment can
      never silently rename (and so recreate) a resource. */
  lemma NamePrefixMeaning(env: Obj, items: seq<string>, sep: string, camel: string -> string)
    ensures var e := InjectDotted(env, items, camel);
      && (NamePrefix(env, items, sep, camel).Ok? <==> AllText(e, items, camel))
      && (AllText(e, items, camel) ==> NamePrefix(env, items, sep, camel) == Ok(Join(Texts(e, items, camel), sep)))
      && ((exists i :: 0 <= i < |items| && camel(items[i]) !in e) ==>
            NamePrefix(env, items, sep, camel).Fatal? &&
            NamePrefix(env, items, sep, camel).failure.MissingTemplateItem?)
  {
    var e := InjectDotted(env, items, camel);
    ItemValuesMissing(e, items, camel);
    var iv := ItemValues(e, items, camel);
    if AllText(e, items, camel) {
      JoinTextOfTexts(iv.value, Texts(e, items, camel), sep);
    } else if iv.Ok? {
      var i :| 0 <= i < |items| && !(camel(items[i]) in e && e[camel(items[i])].JString?);
      JoinTextFails(iv.value, sep, i);
    }
    if exists i :: 0 <= i < |items| && camel(items[i]) !in e {
      MissingFailure(e, items, camel);
    }
  }

  lemma {:induction false} MissingFailure(e: Obj, items: seq<string>, camel: string -> string)
    requires ItemValues(e, items, camel).Fatal?
    ensures ItemValues(e, items, camel).failure.MissingTemplateItem?
    decreases |items|
  {
    if camel(items[0]) in e {
      MissingFailure(e, items[1..], camel);
    }
  }

  /** The template items: the resource's annotation, split on the template
      separator annotation's key at every occurrence, when it is set and
      non-empty; otherwise the input's template. An empty separator cannot
      split, and aborts. */
  function TemplateItems(c: Cfg, ann: map<string, string>): (r: Result<seq<string>>)
    ensures c.keys.annNameTemplate !in ann || ann[c.keys.annNameTemplate] == "" ==>
      r == Ok(c.input.nameTemplate)
    ensures (c.keys.annNameTemplate in ann && ann[c.keys.annNameTemplate] != "" &&
             c.keys.annNameTemplateSeparator == "") ==> r == Fatal(EmptySeparator)
    ensures (c.keys.annNameTemplate in ann && ann[c.keys.annNameTemplate] != "" &&
             c.keys.annNameTemplateSeparator != "") ==>
      r.Ok? && Join(r.value, c.keys.annNameTemplateSeparator) == ann[c.keys.annNameTemplate] &&
      forall i :: 0 <= i < |r.value| ==> !Occurs(r.value[i], c.keys.annNameTemplateSeparator)
  {
    var k := c.keys.annNameTemplate;
    if k in ann && ann[k] != "" then
      var delim := c.keys.annNameTemplateSeparator;
      if delim == "" then Fatal(EmptySeparator)
      else
        JoinSplit(ann[k], delim);
        Ok(Split(ann[k], delim))
    else Ok(c.input.nameTemplate)
  }

  /** The separator between items, and between the prefix and the name. */
  function TemplateSeparator(c: Cfg, ann: map<string, string>): string {
    FromAnnotationOrInput(ann, c.keys.annNameTemplateSeparator,
                          c.input.templateItemsSeparator, c.keys.nameTemplateSeparator)
  }

  /** `get_name`: an empty name stays empty (the host generates one);
      otherwise the prefix, the separator and the name, cut to 63
      characters. */
  function NameFor(c: Cfg, env: Obj, ann: map<string, string>, name: string): (r: Result<string>)
    ensures name == "" ==> r == Ok("")
    ensures r.Ok? ==> |r.value| <= Sanitize.MaxNameLength
  {
    if name == "" then Ok("")
    else
      var items :- TemplateItems(c, ann);
      var sep := TemplateSeparator(c, ann);
      var prefix :- NamePrefix(env, items, sep, c.camel);
      Ok(Truncate(prefix + sep + name, Sanitize.MaxNameLength))
  }

  /** A rendered name is the first 63 characters of the template's prefix,
      the separator and the original name: all of it when it fits, and
      exactly 63 characters of it when it does not. */
  lemma NameForShape(c: Cfg, env: Obj, ann: map<string, string>, name: string)
    requires name != ""
    requires NameFor(c, env, ann, name).Ok?
    ensures var items := TemplateItems(c, ann).value;
      var sep := TemplateSeparator(c, ann);
      var prefix := NamePrefix(env, items, sep, c.camel).value;
      var r := NameFor(c, env, ann, name).value;
      r <= prefix + sep + name &&
      |r| == if |prefix + sep + name| <= Sanitize.MaxNameLength then |prefix + sep + name|
             else Sanitize.MaxNameLength
  {
  }

  /** The example of the naming convention: items `region-code` and `domain`
      with `-` give `usw2-core-foo` for the resource `foo`. */
  lemma NamePrefixExample(camel: string -> string)
    requires camel("region-code") == "regionCode" && camel("domain") == "domain"
    ensures var env := map["regionCode" := JString("usw2"), "domain" := JString("core")];
      var items := ["region-code", "domain"];
      NamePrefix(env, items, "-", camel) == Ok("usw2-core") &&
      Truncate(NamePrefix(env, items, "-", camel).value + "-" + "foo", Sanitize.MaxNameLength) == "usw2-core-foo"
  {
    var env := map["regionCode" := JString("usw2"), "domain" := JString("core")];
    var items := ["region-code", "domain"];
    assert items[1..] == ["domain"] && items[1..][1..] == [];
    assert '.' !in items[0] && '.' !in items[1];
    assert InjectItem(env, items[0], camel) == env;
    assert InjectItem(env, items[1], camel) == env;
    assert InjectDotted(env, items, camel) == env;
    assert ItemValues(env, items[1..][1..], camel) == Ok([]);
    assert items[1..][0] == "domain" && items[0] == "region-code";
    assert camel(items[1..][0]) in env && env[camel(items[1..][0])] == JString("core");
    assert [JString("core")] + [] == [JString("core")];
    assert camel(items[0]) in env && env[camel(items[0])] == JString("usw2");
    assert ItemValues(env, items[1..], camel) == Ok([JString("core")]);
    assert [JString("usw2")] + [JString("core")] == [JString("usw2"), JString("core")];
    assert ItemValues(env, items, camel) == Ok([JString("usw2"), JString("core")]);
    var vs := [JString("usw2"), JString("core")];
    assert vs[1..] == [JString("core")];
    assert JoinText(vs[1..], "-") == Ok("core");
    assert JoinText(vs, "-") == Ok("usw2" + "-" + "core");
    assert "usw2" + "-" + "core" == "usw2-core";
    assert "usw2-core" + "-" + "foo" == "usw2-core-foo";
  }
}
