/** The Python string operations the engine relies on, over ASCII text. */
module Text {
  import opened Values

  /** Python's `str.partition(c)` without the separator: the text before the
      first `c` and the text after it; `(s, "")` when `c` does not occur. */
  function Partition(s: string, c: char): (r: (string, string))
    ensures c in s ==> s == r.0 + [c] + r.1 && c !in r.0
    ensures c !in s ==> r == (s, "")
  {
    if s == [] then ("", "")
    else if s[0] == c then ("", s[1..])
    else
      var (a, b) := Partition(s[1..], c);
      assert s == [s[0]] + s[1..];
      ([s[0]] + a, b)
  }

  /** Python's `str.rpartition(c)` without the separator: the text before the
      last `c` and the text after it; `("", s)` when `c` does not occur. */
  function RPartition(s: string, c: char): (r: (string, string))
    ensures c in s ==> s == r.0 + [c] + r.1 && c !in r.1
    ensures c !in s ==> r == ("", s)
  {
    if s == [] then ("", "")
    else if s[|s| - 1] == c then (s[..|s| - 1], "")
    else
      var (a, b) := RPartition(s[..|s| - 1], c);
      assert s == s[..|s| - 1] + [s[|s| - 1]];
      (a, b + [s[|s| - 1]])
  }

  /** Python's `s.count(c)` for a single character. */
  function Count(s: string, c: char): (r: nat)
    ensures r == 0 <==> c !in s
  {
    if s == [] then 0 else (if s[0] == c then 1 else 0) + Count(s[1..], c)
  }

  /** Python's `s.startswith(p)`. */
  predicate StartsWith(s: string, p: string) {
    |p| <= |s| && s[..|p|] == p
  }

  /** Python's `s[:n]`. */
  function Truncate(s: string, n: nat): (r: string)
    ensures |r| <= n && r <= s
    ensures |s| <= n ==> r == s
    ensures |s| > n ==> |r| == n
  {
    if |s| <= n then s else s[..n]
  }

  function LowerChar(c: char): char {
    if 'A' <= c <= 'Z' then (c as int - 'A' as int + 'a' as int) as char else c
  }

  /** Python's `str.lower()` restricted to ASCII. */
  function Lower(s: string): (r: string)
    ensures |r| == |s|
    ensures forall i :: 0 <= i < |s| ==> r[i] == LowerChar(s[i])
  {
    if s == [] then [] else [LowerChar(s[0])] + Lower(s[1..])
  }

  /** `sep` occurs in `s` at index `i`. */
  predicate OccursAt(s: string, sep: string, i: int) {
    0 <= i && i + |sep| <= |s| && s[i..i + |sep|] == sep
  }

  /** Python's `sep in s`. */
  predicate Occurs(s: string, sep: string) {
    exists i :: 0 <= i <= |s| - |sep| && OccursAt(s, sep, i)
  }

  /** The index of the leftmost occurrence of a non-empty `sep` in `s`. */
  function Find(s: string, sep: string): (r: Option<nat>)
    requires sep != []
    ensures r.Some? ==> OccursAt(s, sep, r.value)
    ensures r.Some? ==> forall j :: 0 <= j < r.value ==> !OccursAt(s, sep, j)
    ensures r.None? ==> !Occurs(s, sep)
    decreases |s|
  {
    if |s| < |sep| then None
    else if s[..|sep|] == sep then Some(0)
    else
      match Find(s[1..], sep)
      case Some(i) =>
        OccursAtTail(s, sep);
        Some(i + 1)
      case None =>
        OccursAtTail(s, sep);
        None
  }

  /** An occurrence past the first index is an occurrence in the tail. */
  lemma OccursAtTail(s: string, sep: string)
    requires s != []
    ensures forall j :: 0 < j ==> (OccursAt(s, sep, j) <==> OccursAt(s[1..], sep, j - 1))
  {
    forall j | 0 < j
      ensures OccursAt(s, sep, j) <==> OccursAt(s[1..], sep, j - 1)
    {
      if j + |sep| <= |s| {
        assert s[j..j + |sep|] == s[1..][j - 1..j - 1 + |sep|];
      }
    }
  }

  /** Python's `s.split(sep)` for a non-empty separator: the pieces between
      the leftmost non-overlapping occurrences of `sep`, none of which
      contains `sep`. */
  function Split(s: string, sep: string): (r: seq<string>)
    requires sep != []
    ensures r != []
    ensures forall k :: 0 <= k < |r| ==> !Occurs(r[k], sep)
    decreases |s|
  {
    match Find(s, sep)
    case None => [s]
    case Some(i) =>
      BeforeFirstHasNone(s, sep, i);
      [s[..i]] + Split(s[i + |sep|..], sep)
  }

  /** The text before the leftmost occurrence contains no occurrence. */
  lemma BeforeFirstHasNone(s: string, sep: string, i: nat)
    requires sep != [] && i <= |s|
    requires forall j :: 0 <= j < i ==> !OccursAt(s, sep, j)
    ensures !Occurs(s[..i], sep)
  {
    forall j | 0 <= j <= i - |sep|
      ensures !OccursAt(s[..i], sep, j)
    {
      assert s[..i][j..j + |sep|] == s[j..j + |sep|];
      assert !OccursAt(s, sep, j);
    }
  }

  /** Python's `sep.join(parts)`. */
  function Join(parts: seq<string>, sep: string): string {
    if parts == [] then ""
    else if |parts| == 1 then parts[0]
    else parts[0] + sep + Join(parts[1..], sep)
  }

  /** Joining the pieces of a split with the same separator gives back the
      original text. */
  lemma {:induction false} JoinSplit(s: string, sep: string)
    requires sep != []
    ensures Join(Split(s, sep), sep) == s
    decreases |s|
  {
    match Find(s, sep)
    case None =>
    case Some(i) =>
      var rest := s[i + |sep|..];
      JoinSplit(rest, sep);
      assert Split(s, sep) == [s[..i]] + Split(rest, sep);
      assert s == s[..i] + s[i..i + |sep|] + rest;
  }

  /** Partitioning at the first occurrence recovers the two sides. */
  lemma {:induction false} PartitionAtFirst(a: string, b: string, c: char)
    requires c !in a
    ensures Partition(a + [c] + b, c) == (a, b)
  {
    var s := a + [c] + b;
    if a == [] {
      assert s[0] == c && s[1..] == b;
    } else {
      assert s[0] == a[0] && s[1..] == a[1..] + [c] + b;
      PartitionAtFirst(a[1..], b, c);
      assert [a[0]] + a[1..] == a;
    }
  }
}
