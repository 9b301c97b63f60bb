/** The string operations the program relies on, with what they mean. */
module Strings {
  import opened Prelude

  predicate HasPrefix(s: string, p: string) {
    |p| <= |s| && s[..|p|] == p
  }

  // `part` occurs in `s` at position i.
  predicate OccursAt(s: string, part: string, i: nat) {
    i + |part| <= |s| && s[i..i + |part|] == part
  }

  predicate Contains(s: string, part: string) {
    exists i: nat :: i <= |s| && OccursAt(s, part, i)
  }

  // Python's `rfind` from position n down: the last occurrence, or -1.
  function LastFrom(s: string, part: string, n: int): int
    requires n <= |s|
    decreases n + 1
  {
    if n < 0 then -1 else if OccursAt(s, part, n) then n else LastFrom(s, part, n - 1)
  }

  function RFind(s: string, part: string): int {
    LastFrom(s, part, |s|)
  }

  lemma {:induction false} LastFromMeans(s: string, part: string, n: int)
    requires -1 <= n <= |s|
    ensures var r := LastFrom(s, part, n);
      && -1 <= r <= n
      && (r >= 0 ==> OccursAt(s, part, r))
      && (forall i :: r < i <= n ==> !OccursAt(s, part, i))
    decreases n + 1
  {
    if n >= 0 && !OccursAt(s, part, n) {
      LastFromMeans(s, part, n - 1);
    }
  }

  lemma RFindMeans(s: string, part: string)
    requires part != []
    ensures var r := RFind(s, part);
      && -1 <= r < |s| + 1
      && (r >= 0 ==> OccursAt(s, part, r) && r + |part| <= |s|)
      && (forall i: nat :: r < i ==> !OccursAt(s, part, i))
  {
    LastFromMeans(s, part, |s|);
  }

  // What precedes the first separator and what follows it are determined by the whole.
  lemma {:induction false} SplitUnique(a: string, x: string, b: string, y: string, sep: char)
    requires sep !in a && sep !in b
    requires a + [sep] + x == b + [sep] + y
    ensures a == b && x == y
  {
    var s, t := a + [sep] + x, b + [sep] + y;
    assert forall i :: 0 <= i < |a| ==> s[i] == a[i];
    assert forall i :: 0 <= i < |b| ==> t[i] == b[i];
    assert s[|a|] == sep && t[|b|] == sep;
    assert s[..|a|] == a && t[..|b|] == b;
    assert s[|a| + 1..] == x && t[|b| + 1..] == y;
  }

  function Count(s: string, c: char): nat {
    if s == "" then 0 else (if s[0] == c then 1 else 0) + Count(s[1..], c)
  }

  lemma {:induction false} CountJoin(a: string, b: string, c: char)
    ensures Count(a + b, c) == Count(a, c) + Count(b, c)
  {
    if a == "" {
      assert a + b == b;
    } else {
      assert (a + b)[1..] == a[1..] + b;
      CountJoin(a[1..], b, c);
    }
  }

  lemma {:induction false} CountNone(s: string, c: char)
    ensures Count(s, c) == 0 <==> c !in s
  {
    if s != "" {
      CountNone(s[1..], c);
      assert s == [s[0]] + s[1..];
    }
  }

  // A string that contains the separator is two strings joined by it.
  lemma SplitAt(s: string, sep: char) returns (a: string, b: string)
    requires sep in s
    ensures s == a + [sep] + b
  {
    var i :| 0 <= i < |s| && s[i] == sep;
    a, b := s[..i], s[i + 1..];
  }

  lemma CountJoined(a: string, b: string)
    ensures Count(a + ":" + b, ':') == Count(a, ':') + 1 + Count(b, ':')
  {
    CountJoin(a + ":", b, ':');
    CountJoin(a, ":", ':');
    assert Count(":", ':') == 1 + Count("", ':');
  }

  /******* Identifiers in keys joined by colons *******/

  // What a formatted string shows of a value that may be absent.
  function Show(x: Option<string>): string {
    if x.None? then "None" else x.value
  }

  // Neither absent, nor reading like an absent one, nor containing the separator.
  predicate Distinct(id: Option<string>) {
    id.Some? && id.value != "None" && ':' !in id.value
  }

  // An absent identifier and the word None look alike.
  function Twin(id: Option<string>): Option<string> {
    if id.None? then Some("None") else if id == Some("None") then None else id
  }
}
