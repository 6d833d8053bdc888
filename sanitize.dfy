/** Name sanitisation towards RFC 952 / RFC 1123 host names: the character
    replacement and trimming of `_to_rfc952_name`, and the two sanitisers
    built on it for Kubernetes object names and label keys. */
module Sanitize {
  import opened Text

  /** Longest name segment: a DNS label (section 2.1 of RFC 1123). */
  const MaxNameLength: nat := 63
  /** Longest prefixed label key: a DNS subdomain plus `/` plus a name. */
  const MaxPrefixedNameLength: nat := 253
  /** Room left for a label-key prefix: 253 - 1 (for the slash) - 63. */
  const MaxLabelPrefixLength: nat := MaxPrefixedNameLength - 1 - MaxNameLength

  /** `str.isalnum()` on ASCII letters and digits. */
  predicate IsAlnum(c: char) {
    'a' <= c <= 'z' || 'A' <= c <= 'Z' || '0' <= c <= '9'
  }

  /** Every character is alphanumeric, one of `valid`, or `repl`. */
  predicate OnlyAllowed(s: string, repl: char, valid: set<char>) {
    forall i :: 0 <= i < |s| ==> IsAlnum(s[i]) || s[i] in valid || s[i] == repl
  }

  /** Neither end of `s` is `c`. */
  predicate Trimmed(s: string, c: char) {
    s == [] || (s[0] != c && s[|s| - 1] != c)
  }

  /** Each character that is neither alphanumeric nor in `valid` becomes
      `repl`. */
  function Replace(s: string, repl: char, valid: set<char>): (r: string)
    ensures |r| == |s|
    ensures forall i :: 0 <= i < |s| ==>
      r[i] == (if IsAlnum(s[i]) || s[i] in valid then s[i] else repl)
  {
    if s == [] then []
    else [if IsAlnum(s[0]) || s[0] in valid then s[0] else repl] + Replace(s[1..], repl, valid)
  }

  /** `s.lstrip(c)`: `s` without its leading run of `c`. */
  function StripLeft(s: string, c: char): (r: string)
    ensures |r| <= |s| && r == s[|s| - |r|..]
    ensures forall i :: 0 <= i < |s| - |r| ==> s[i] == c
    ensures r == [] || r[0] != c
  {
    if s != [] && s[0] == c then StripLeft(s[1..], c) else s
  }

  /** `s.rstrip(c)`: `s` without its trailing run of `c`. */
  function StripRight(s: string, c: char): (r: string)
    ensures |r| <= |s| && r == s[..|r|]
    ensures forall i :: |r| <= i < |s| ==> s[i] == c
    ensures r == [] || r[|r| - 1] != c
  {
    if s != [] && s[|s| - 1] == c then StripRight(s[..|s| - 1], c) else s
  }

  /** `s.strip(c)`. */
  function Strip(s: string, c: char): (r: string)
    ensures Trimmed(r, c)
  {
    StripRight(StripLeft(s, c), c)
  }

  /** `_to_rfc952_name` as written: replace, strip the replacement character
      from both ends, and only then cut to `maxLength`, so the cut can leave
      the replacement character at the end. */
  function ToRfc952AsWritten(name: string, maxLength: nat, repl: char, valid: set<char>): (r: string)
    ensures |r| <= maxLength
    ensures OnlyAllowed(r, repl, valid)
    ensures r == [] || r[0] != repl
  {
    var stripped := Strip(Replace(name, repl, valid), repl);
    Truncate(stripped, maxLength)
  }

  /** `_to_rfc952_name` with the trimming also applied after the cut: the
      result fits `maxLength`, uses only allowed characters and neither
      starts nor ends with the replacement character. */
  function ToRfc952(name: string, maxLength: nat, repl: char, valid: set<char>): (r: string)
    ensures |r| <= maxLength
    ensures OnlyAllowed(r, repl, valid)
    ensures Trimmed(r, repl)
  {
    StripRight(ToRfc952AsWritten(name, maxLength, repl, valid), repl)
  }

  /** The corrected sanitiser differs from the one as written only by the
      trailing replacement characters the cut exposed. */
  lemma CorrectedIsAsWrittenTrimmed(name: string, maxLength: nat, repl: char, valid: set<char>)
    ensures var w := ToRfc952AsWritten(name, maxLength, repl, valid);
      ToRfc952(name, maxLength, repl, valid) <= w &&
      (w == [] || w[|w| - 1] != repl ==> ToRfc952(name, maxLength, repl, valid) == w)
  {
  }

  /** Within the length limit the cut removes nothing, so the corrected
      sanitiser and the one as written agree. */
  lemma CorrectedWithinLimit(name: string, maxLength: nat, repl: char, valid: set<char>)
    requires |name| <= maxLength
    ensures ToRfc952(name, maxLength, repl, valid) == ToRfc952AsWritten(name, maxLength, repl, valid)
  {
    var stripped := Strip(Replace(name, repl, valid), repl);
    assert ToRfc952AsWritten(name, maxLength, repl, valid) == stripped;
    assert StripRight(stripped, repl) == stripped;
  }

  lemma {:induction false} ReplaceKeepsAllowed(s: string, repl: char, valid: set<char>)
    requires OnlyAllowed(s, repl, valid)
    ensures Replace(s, repl, valid) == s
  {
    var r := Replace(s, repl, valid);
    assert forall i :: 0 <= i < |s| ==> r[i] == s[i];
  }

  /** A name that is already sanitised is left as it is: the sanitiser is
      the identity on its own results, hence idempotent. */
  lemma ToRfc952KeepsSanitized(name: string, maxLength: nat, repl: char, valid: set<char>)
    requires |name| <= maxLength
    requires OnlyAllowed(name, repl, valid)
    requires Trimmed(name, repl)
    ensures ToRfc952(name, maxLength, repl, valid) == name
  {
    ReplaceKeepsAllowed(name, repl, valid);
    assert StripLeft(name, repl) == name;
    assert StripRight(name, repl) == name;
  }

  lemma ToRfc952Idempotent(name: string, maxLength: nat, repl: char, valid: set<char>)
    ensures var once := ToRfc952(name, maxLength, repl, valid);
      ToRfc952(once, maxLength, repl, valid) == once
  {
    ToRfc952KeepsSanitized(ToRfc952(name, maxLength, repl, valid), maxLength, repl, valid);
  }

  /** Finding, as written: a name that is one character short of the limit,
      followed by `-` and another character, is cut right after the `-`. */
  lemma AsWrittenCanEndWithReplacement(s: string, maxLength: nat, valid: set<char>)
    requires s != [] && |s| + 1 == maxLength
    requires forall i :: 0 <= i < |s| ==> IsAlnum(s[i])
    ensures ToRfc952AsWritten(s + "-b", maxLength, '-', valid) == s + "-"
    ensures ToRfc952(s + "-b", maxLength, '-', valid) == s
  {
    var name := s + "-b";
    assert OnlyAllowed(name, '-', valid);
    ReplaceKeepsAllowed(name, '-', valid);
    assert name[0] == s[0];
    assert StripLeft(name, '-') == name;
    assert StripRight(name, '-') == name;
    assert name[..maxLength] == s + "-";
    assert StripRight(s + "-", '-') == StripRight(s, '-');
    assert StripRight(s, '-') == s;
  }

  /** The same input with a 63-character limit: 62 letters, a dash and one
      more letter. */
  lemma AsWrittenEndsWithDashAt63()
    ensures var name := seq(62, _ => 'a') + "-b";
      var w := ToRfc952AsWritten(name, MaxNameLength, '-', {'.', '-'});
      |w| == 63 && w[62] == '-'
  {
    AsWrittenCanEndWithReplacement(seq(62, _ => 'a'), MaxNameLength, {'.', '-'});
  }

  /** `_sanitized_name`: an RFC 1123 subdomain-style object name in lower
      case. */
  function SanitizedName(name: string): (r: string)
    ensures |r| <= MaxNameLength
    ensures forall i :: 0 <= i < |r| ==>
      'a' <= r[i] <= 'z' || '0' <= r[i] <= '9' || r[i] == '-' || r[i] == '.'
    ensures Trimmed(r, '-')
  {
    var s := ToRfc952(name, MaxNameLength, '-', {'-', '.'});
    LowerKeepsNameChars(s);
    Lower(s)
  }

  /** Up to 63 characters, which is every name `get_name` renders, the
      object-name sanitiser is `_sanitized_name` as written. */
  lemma SanitizedNameAsWritten(name: string)
    requires |name| <= MaxNameLength
    ensures SanitizedName(name) == Lower(ToRfc952AsWritten(name, MaxNameLength, '-', {'-', '.'}))
  {
    CorrectedWithinLimit(name, MaxNameLength, '-', {'-', '.'});
  }

  lemma LowerKeepsNameChars(s: string)
    requires OnlyAllowed(s, '-', {'-', '.'}) && Trimmed(s, '-')
    ensures var r := Lower(s);
      Trimmed(r, '-') &&
      forall i :: 0 <= i < |r| ==>
        'a' <= r[i] <= 'z' || '0' <= r[i] <= '9' || r[i] == '-' || r[i] == '.'
  {
    var r := Lower(s);
    forall i | 0 <= i < |r|
      ensures 'a' <= r[i] <= 'z' || '0' <= r[i] <= '9' || r[i] == '-' || r[i] == '.'
    {
      assert r[i] == LowerChar(s[i]);
      assert IsAlnum(s[i]) || s[i] in {'-', '.'};
    }
    if s != [] {
      assert r[0] == LowerChar(s[0]) && r[|r| - 1] == LowerChar(s[|s| - 1]);
    }
  }

  /** Sanitising an already sanitised object name changes nothing. */
  lemma SanitizedNameIdempotent(name: string)
    ensures SanitizedName(SanitizedName(name)) == SanitizedName(name)
  {
    var once := SanitizedName(name);
    assert OnlyAllowed(once, '-', {'-', '.'});
    ToRfc952KeepsSanitized(once, MaxNameLength, '-', {'-', '.'});
    LowerKeepsLowercase(once);
  }

  lemma {:induction false} ReplaceAppend(a: string, b: string, repl: char, valid: set<char>)
    ensures Replace(a + b, repl, valid) == Replace(a, repl, valid) + Replace(b, repl, valid)
  {
    var l := Replace(a + b, repl, valid);
    var r := Replace(a, repl, valid) + Replace(b, repl, valid);
    assert forall i :: 0 <= i < |a + b| ==> l[i] == r[i];
  }

  lemma {:induction false} LowerKeepsLowercase(s: string)
    requires forall i :: 0 <= i < |s| ==> !('A' <= s[i] <= 'Z')
    ensures Lower(s) == s
  {
    var l := Lower(s);
    assert forall i :: 0 <= i < |s| ==> l[i] == s[i];
  }

  /** Characters an object name keeps unchanged. */
  predicate NameChar(c: char) {
    'a' <= c <= 'z' || '0' <= c <= '9' || c == '-' || c == '.'
  }

  /** Joining two parts that are already valid object-name text with an
      underscore, as a rendered name such as `aa-tst-usw2-xt-foo_bar` does,
      yields the same text with a dash in place of the underscore. */
  lemma UnderscoreBecomesDash(a: string, b: string)
    requires a != [] && b != [] && |a| + 1 + |b| <= MaxNameLength
    requires forall i :: 0 <= i < |a| ==> NameChar(a[i])
    requires forall i :: 0 <= i < |b| ==> NameChar(b[i])
    requires a[0] != '-' && b[|b| - 1] != '-'
    ensures SanitizedName(a + "_" + b) == a + "-" + b
  {
    var valid := {'-', '.'};
    var t := a + "-" + b;
    ReplaceAppend(a + "_", b, '-', valid);
    ReplaceAppend(a, "_", '-', valid);
    ReplaceKeepsAllowed(a, '-', valid);
    ReplaceKeepsAllowed(b, '-', valid);
    assert Replace("_", '-', valid) == "-";
    assert t[0] == a[0] && t[|t| - 1] == b[|b| - 1];
    assert StripLeft(t, '-') == t;
    assert StripRight(t, '-') == t;
    assert forall i :: 0 <= i < |t| ==> NameChar(t[i]);
    LowerKeepsLowercase(t);
  }

  /** Characters a label-name segment keeps: kebab-cased names keep only
      dashes, others also underscores and dots. */
  function LabelNameChars(kebab: bool): set<char> {
    if kebab then {'-'} else {'-', '_', '.'}
  }

  /** A valid label-name segment: at most 63 allowed characters, neither
      starting nor ending with `-`. */
  predicate ValidLabelName(n: string, kebab: bool) {
    |n| <= MaxNameLength && OnlyAllowed(n, '-', LabelNameChars(kebab)) && Trimmed(n, '-')
  }

  /** A valid label-key prefix: a non-empty DNS-subdomain-style text that
      leaves room for the slash and a full name. */
  predicate ValidLabelPrefix(p: string) {
    0 < |p| <= MaxLabelPrefixLength && OnlyAllowed(p, '-', {'.'}) && Trimmed(p, '-')
  }

  /** `_sanitize_label`: an optional prefix before the first `/`, cut to fit a
      253-character key, and a name segment of at most 63 characters,
      kebab-cased first when `kebab` is set. */
  function SanitizeLabel(name: string, kebab: bool, kebabCase: string -> string): (r: string)
    ensures |r| <= MaxPrefixedNameLength
  {
    var (prefix, segment) :=
      if '/' in name then
        var (p, n) := Partition(name, '/');
        (ToRfc952(p, MaxLabelPrefixLength, '-', {'.'}), n)
      else ("", name);
    var n := ToRfc952(if kebab then kebabCase(segment) else segment,
                      MaxNameLength, '-', LabelNameChars(kebab));
    LabelKey(prefix, n)
  }

  /** `_sanitize_label` as written, on the sanitiser as written: a cut that
      ends right after a `-` leaves that `-` at the end of the prefix or of
      the name segment. */
  function SanitizeLabelAsWritten(name: string, kebab: bool, kebabCase: string -> string): (r: string)
    ensures |r| <= MaxPrefixedNameLength
  {
    var (prefix, segment) :=
      if '/' in name then
        var (p, n) := Partition(name, '/');
        (ToRfc952AsWritten(p, MaxLabelPrefixLength, '-', {'.'}), n)
      else ("", name);
    var n := ToRfc952AsWritten(if kebab then kebabCase(segment) else segment,
                               MaxNameLength, '-', LabelNameChars(kebab));
    LabelKey(prefix, n)
  }

  /** The corrected label sanitiser agrees with the one as written whenever
      the prefix fits 189 characters and the (kebab-cased) name segment fits
      63, so that neither cut removes anything. */
  lemma SanitizeLabelWithinLimits(name: string, kebab: bool, kebabCase: string -> string)
    requires '/' in name ==> |Partition(name, '/').0| <= MaxLabelPrefixLength
    requires var segment := if '/' in name then Partition(name, '/').1 else name;
      |if kebab then kebabCase(segment) else segment| <= MaxNameLength
    ensures SanitizeLabel(name, kebab, kebabCase) == SanitizeLabelAsWritten(name, kebab, kebabCase)
  {
    var segment := if '/' in name then Partition(name, '/').1 else name;
    if '/' in name {
      CorrectedWithinLimit(Partition(name, '/').0, MaxLabelPrefixLength, '-', {'.'});
    }
    CorrectedWithinLimit(if kebab then kebabCase(segment) else segment,
                         MaxNameLength, '-', LabelNameChars(kebab));
  }

  /** As written, a name segment of 62 letters, `-` and a letter becomes a
      label key ending in `-`, which the corrected sanitiser trims. */
  lemma LabelAsWrittenEndsWithDash(s: string)
    requires |s| == MaxNameLength - 1 && '/' !in s
    requires forall i :: 0 <= i < |s| ==> IsAlnum(s[i])
    ensures SanitizeLabelAsWritten(s + "-b", false, x => x) == s + "-"
    ensures SanitizeLabel(s + "-b", false, x => x) == s
  {
    var name := s + "-b";
    assert '/' !in name by {
      assert forall i :: 0 <= i < |name| ==> name[i] != '/';
    }
    AsWrittenCanEndWithReplacement(s, MaxNameLength, LabelNameChars(false));
    assert SanitizeLabelAsWritten(name, false, x => x) ==
           LabelKey("", ToRfc952AsWritten(name, MaxNameLength, '-', LabelNameChars(false)));
    assert SanitizeLabel(name, false, x => x) ==
           LabelKey("", ToRfc952(name, MaxNameLength, '-', LabelNameChars(false)));
  }

  /** A label key from its (possibly empty) prefix and its name. */
  function LabelKey(prefix: string, n: string): string {
    if prefix != "" then prefix + "/" + n else n
  }

  lemma NoSlashInAllowed(s: string, valid: set<char>)
    requires OnlyAllowed(s, '-', valid) && '/' !in valid
    ensures '/' !in s
  {
    forall i | 0 <= i < |s| ensures s[i] != '/' {
      assert IsAlnum(s[i]) || s[i] in valid || s[i] == '-';
    }
  }

  lemma LabelKeyShape(prefix: string, n: string, kebab: bool)
    requires ValidLabelName(n, kebab)
    requires prefix == "" || ValidLabelPrefix(prefix)
    ensures var r := LabelKey(prefix, n);
      ('/' !in r ==> ValidLabelName(r, kebab)) &&
      ('/' in r ==> ValidLabelPrefix(Partition(r, '/').0) && ValidLabelName(Partition(r, '/').1, kebab))
  {
    NoSlashInAllowed(n, LabelNameChars(kebab));
    if prefix != "" {
      NoSlashInAllowed(prefix, {'.'});
      assert LabelKey(prefix, n) == prefix + ['/'] + n;
      PartitionAtFirst(prefix, n, '/');
    }
  }

  /** A sanitised label key is either a bare valid name, or a valid prefix, a
      `/` and a valid name. */
  lemma SanitizeLabelShape(name: string, kebab: bool, kebabCase: string -> string)
    ensures var r := SanitizeLabel(name, kebab, kebabCase);
      ('/' !in r ==> ValidLabelName(r, kebab)) &&
      ('/' in r ==> ValidLabelPrefix(Partition(r, '/').0) && ValidLabelName(Partition(r, '/').1, kebab))
  {
    var (prefix, segment) :=
      if '/' in name then
        var (p, n) := Partition(name, '/');
        (ToRfc952(p, MaxLabelPrefixLength, '-', {'.'}), n)
      else ("", name);
    var n := ToRfc952(if kebab then kebabCase(segment) else segment,
                      MaxNameLength, '-', LabelNameChars(kebab));
    assert SanitizeLabel(name, kebab, kebabCase) == LabelKey(prefix, n);
    LabelKeyShape(prefix, n, kebab);
  }

  /** No ASCII upper-case letter occurs in `s`. */
  predicate NoUpper(s: string) {
    forall i :: 0 <= i < |s| ==> !('A' <= s[i] <= 'Z')
  }

  lemma NoUpperSlice(s: string, lo: nat, hi: nat)
    requires NoUpper(s) && lo <= hi <= |s|
    ensures NoUpper(s[lo..hi])
  {
    forall i | 0 <= i < hi - lo ensures !('A' <= s[lo..hi][i] <= 'Z') {
      assert s[lo..hi][i] == s[lo + i];
    }
  }

  /** The sanitiser brings in no upper-case letter: it only keeps
      characters of the input or writes the replacement character. */
  lemma ToRfc952KeepsNoUpper(name: string, maxLength: nat, repl: char, valid: set<char>)
    requires NoUpper(name) && !('A' <= repl <= 'Z')
    ensures NoUpper(ToRfc952(name, maxLength, repl, valid))
  {
    var replaced := Replace(name, repl, valid);
    forall i | 0 <= i < |replaced| ensures !('A' <= replaced[i] <= 'Z') {
      assert replaced[i] == name[i] || replaced[i] == repl;
    }
    var left := StripLeft(replaced, repl);
    NoUpperSlice(replaced, |replaced| - |left|, |replaced|);
    var stripped := StripRight(left, repl);
    NoUpperSlice(left, 0, |stripped|);
    var cut := Truncate(stripped, maxLength);
    NoUpperSlice(stripped, 0, |cut|);
    assert cut == ToRfc952AsWritten(name, maxLength, repl, valid);
    NoUpperSlice(cut, 0, |StripRight(cut, repl)|);
  }

  /** What the label sanitiser relies on from the kebab-case converter:
      its output holds no upper-case letter, and a lower-case name that is
      already a valid kebab-case label name is returned as it is. */
  ghost predicate KebabConverter(kebabCase: string -> string) {
    (forall s :: NoUpper(kebabCase(s))) &&
    (forall n :: ValidLabelName(n, true) && NoUpper(n) ==> kebabCase(n) == n)
  }

  /** Sanitising a label key twice gives the same key as once. With
      kebab-casing on, the name segment of a sanitised key is lower-case,
      because the converter's output is and the sanitiser adds no
      upper-case letter, so the converter leaves it alone the second
      time. */
  lemma {:induction false} SanitizeLabelIdempotent(name: string, kebab: bool, kebabCase: string -> string)
    requires kebab ==> KebabConverter(kebabCase)
    ensures var once := SanitizeLabel(name, kebab, kebabCase);
      SanitizeLabel(once, kebab, kebabCase) == once
  {
    var (prefix, segment) :=
      if '/' in name then
        var (p, n) := Partition(name, '/');
        (ToRfc952(p, MaxLabelPrefixLength, '-', {'.'}), n)
      else ("", name);
    var n := ToRfc952(if kebab then kebabCase(segment) else segment,
                      MaxNameLength, '-', LabelNameChars(kebab));
    assert SanitizeLabel(name, kebab, kebabCase) == LabelKey(prefix, n);
    if kebab {
      ToRfc952KeepsNoUpper(kebabCase(segment), MaxNameLength, '-', LabelNameChars(kebab));
    }
    SanitizeLabelOfKey(prefix, n, kebab, kebabCase);
  }

  /** A key made of a valid prefix (or none) and a valid name is its own
      sanitised form, provided the converter keeps the name. */
  lemma {:induction false} SanitizeLabelOfKey(prefix: string, n: string, kebab: bool, kebabCase: string -> string)
    requires prefix == "" || ValidLabelPrefix(prefix)
    requires ValidLabelName(n, kebab)
    requires kebab ==> KebabConverter(kebabCase) && NoUpper(n)
    ensures SanitizeLabel(LabelKey(prefix, n), kebab, kebabCase) == LabelKey(prefix, n)
  {
    if prefix != "" {
      SanitizeLabelOfPrefixed(prefix, n, kebab, kebabCase);
    } else {
      SanitizeLabelOfBare(n, kebab, kebabCase);
    }
  }

  lemma {:induction false} SanitizeLabelOfBare(n: string, kebab: bool, kebabCase: string -> string)
    requires ValidLabelName(n, kebab)
    requires kebab ==> KebabConverter(kebabCase) && NoUpper(n)
    ensures SanitizeLabel(n, kebab, kebabCase) == n
  {
    SegmentFixed(n, kebab, kebabCase);
    NoSlashInAllowed(n, LabelNameChars(kebab));
  }

  lemma {:induction false} SanitizeLabelOfPrefixed(prefix: string, n: string, kebab: bool, kebabCase: string -> string)
    requires ValidLabelPrefix(prefix)
    requires ValidLabelName(n, kebab)
    requires kebab ==> KebabConverter(kebabCase) && NoUpper(n)
    ensures SanitizeLabel(prefix + "/" + n, kebab, kebabCase) == prefix + "/" + n
  {
    var key := prefix + "/" + n;
    SegmentFixed(n, kebab, kebabCase);
    NoSlashInAllowed(prefix, {'.'});
    assert key == prefix + ['/'] + n;
    PartitionAtFirst(prefix, n, '/');
    ToRfc952KeepsSanitized(prefix, MaxLabelPrefixLength, '-', {'.'});
  }

  /** A valid name segment comes back unchanged from the converter and the
      sanitiser. */
  lemma {:induction false} SegmentFixed(n: string, kebab: bool, kebabCase: string -> string)
    requires ValidLabelName(n, kebab)
    requires kebab ==> KebabConverter(kebabCase) && NoUpper(n)
    ensures ToRfc952(if kebab then kebabCase(n) else n, MaxNameLength, '-', LabelNameChars(kebab)) == n
  {
    ToRfc952KeepsSanitized(n, MaxNameLength, '-', LabelNameChars(kebab));
  }
}
