/** A text cut at a separator character: the reading that the program's strchr loops share. */
module Splitting {

  /** The next `c` at or after `from`, else the end of the text. */
  function Cut(s: string, c: char, from: nat): (n: nat)
    requires from <= |s|
    ensures from <= n <= |s| && (n == |s| || s[n] == c)
    ensures forall i :: from <= i < n ==> s[i] != c
    decreases |s| - from
  {
    if from == |s| || s[from] == c then from else Cut(s, c, from + 1)
  }

  function Split(s: string, c: char): (parts: seq<string>)
    ensures |parts| > 0
  {
    var n := Cut(s, c, 0);
    if n == |s| then [s] else [s[..n]] + Split(s[n + 1..], c)
  }

  function Join(parts: seq<string>, c: char): string {
    if parts == [] then "" else if |parts| == 1 then parts[0] else parts[0] + ([c] + Join(parts[1..], c))
  }

  lemma CutIs(s: string, c: char, from: nat, n: nat)
    requires from <= n <= |s| && (n == |s| || s[n] == c)
    requires forall i :: from <= i < n ==> s[i] != c
    ensures Cut(s, c, from) == n
  {
  }

  lemma SplitWhole(s: string, c: char)
    requires c !in s
    ensures Split(s, c) == [s]
  {
    CutIs(s, c, 0, |s|);
  }

  lemma SplitHead(p: string, c: char, rest: string)
    requires c !in p
    ensures Split(p + ([c] + rest), c) == [p] + Split(rest, c)
  {
    var s := p + ([c] + rest);
    CutIs(s, c, 0, |p|);
    assert s[..|p|] == p && s[|p| + 1..] == rest;
  }

  /** Splitting what was joined returns the parts. */
  lemma {:induction false} SplitJoin(parts: seq<string>, c: char)
    requires |parts| > 0 && forall k :: 0 <= k < |parts| ==> c !in parts[k]
    ensures Split(Join(parts, c), c) == parts
  {
    if |parts| == 1 {
      SplitWhole(parts[0], c);
    } else {
      SplitHead(parts[0], c, Join(parts[1..], c));
      SplitJoin(parts[1..], c);
    }
  }

  lemma SplitIs(s: string, c: char)
    ensures var n := Cut(s, c, 0); Split(s, c) == if n == |s| then [s] else [s[..n]] + Split(s[n + 1..], c)
  {
    hide Cut;
  }

  lemma JoinCons(p: string, parts: seq<string>, c: char)
    requires parts != []
    ensures Join([p] + parts, c) == p + ([c] + Join(parts, c))
  {
    assert ([p] + parts)[1..] == parts;
  }

  lemma CutText(s: string, c: char, n: nat)
    requires n < |s| && s[n] == c
    ensures s == s[..n] + ([c] + s[n + 1..])
  {
  }

  predicate AllLack(parts: seq<string>, c: char) {
    forall k :: 0 <= k < |parts| ==> c !in parts[k]
  }

  lemma ConsLacks(p: string, parts: seq<string>, c: char)
    requires c !in p && AllLack(parts, c)
    ensures AllLack([p] + parts, c)
  {
  }

  /** Joining what was split returns the text, and no part holds the separator. */
  lemma {:induction false} JoinSplit(s: string, c: char)
    ensures Join(Split(s, c), c) == s && AllLack(Split(s, c), c)
  {
    var n := Cut(s, c, 0);
    SplitIs(s, c);
    if n < |s| {
      assert c !in s[..n];
      CutText(s, c, n);
      hide *;
      JoinSplit(s[n + 1..], c);
      JoinCons(s[..n], Split(s[n + 1..], c), c);
      ConsLacks(s[..n], Split(s[n + 1..], c), c);
    }
  }
}
