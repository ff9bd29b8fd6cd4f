/** The libc string searches that every reader of this program is built on.  A C string is the
    sequence of its characters before the terminating NUL.

    The readers know nothing of XML: they look for the first occurrence of a fixed pattern.  What
    they find in a text that was put together from parts therefore depends on where in the parts the
    pattern occurs, and on whether it can reach across a boundary; both are settled here once. */
module Strings {
  import opened Wrappers

  predicate Digit(c: char) {
    '0' <= c <= '9'
  }

  /** `pat` stands at position `i` of `s`. */
  predicate At(s: string, i: nat, pat: string) {
    i + |pat| <= |s| && s[i..i + |pat|] == pat
  }

  /** strstr(s + from, pat): the first position at or after `from`. */
  function Find(s: string, pat: string, from: nat): (r: Option<nat>)
    requires from <= |s|
    ensures r.Some? ==> from <= r.value && At(s, r.value, pat)
    ensures r.Some? ==> forall i :: from <= i < r.value ==> !At(s, i, pat)
    ensures r.None? ==> forall i :: from <= i ==> !At(s, i, pat)
    decreases |s| - from
  {
    if At(s, from, pat) then Some(from)
    else if from == |s| then None
    else Find(s, pat, from + 1)
  }

  predicate Occurs(s: string, pat: string) {
    Find(s, pat, 0).Some?
  }

  /** The first character of `pat` does not come back inside it, so `pat` cannot overlap itself.
      Every tag and attribute pattern of the program has this shape. */
  predicate HeadOnce(pat: string) {
    |pat| > 0 && forall k :: 1 <= k < |pat| ==> pat[k] != pat[0]
  }

  lemma AtChar(s: string, i: nat, pat: string, k: nat)
    requires At(s, i, pat) && k < |pat|
    ensures s[i + k] == pat[k]
  {
    assert s[i..i + |pat|][k] == s[i + k];
  }

  lemma CharIf(s: string, i: nat, pat: string, k: nat)
    ensures k < |pat| && At(s, i, pat) ==> s[i + k] == pat[k]
  {
    if k < |pat| && At(s, i, pat) {
      AtChar(s, i, pat, k);
    }
  }

  lemma FindIs(s: string, pat: string, from: nat, at: nat)
    requires from <= at && At(s, at, pat)
    requires forall i :: from <= i < at ==> !At(s, i, pat)
    ensures from <= |s| && Find(s, pat, from) == Some(at)
  {
  }

  lemma FindNone(s: string, pat: string, from: nat)
    requires from <= |s|
    requires forall i :: from <= i ==> !At(s, i, pat)
    ensures Find(s, pat, from) == None
  {
  }

  /** Occurrences inside `a` are those of `a + b` that end by |a|. */
  lemma AtPrefix(a: string, b: string, i: nat, pat: string)
    requires i + |pat| <= |a|
    ensures At(a + b, i, pat) == At(a, i, pat)
  {
    assert (a + b)[i..i + |pat|] == a[i..i + |pat|];
  }

  /** Occurrences inside `b` are those of `a + b` that start at or after |a|. */
  lemma AtSuffix(a: string, b: string, i: nat, pat: string)
    ensures At(a + b, |a| + i, pat) == At(b, i, pat)
  {
    if i + |pat| <= |b| {
      assert (a + b)[|a| + i..|a| + i + |pat|] == b[i..i + |pat|];
    }
  }

  /** A pattern in two parts. */
  lemma AtConcat(s: string, i: nat, p: string, q: string)
    ensures At(s, i, p + q) <==> At(s, i, p) && At(s, i + |p|, q)
  {
    if i + |p| + |q| <= |s| {
      assert s[i..i + |p| + |q|] == s[i..i + |p|] + s[i + |p|..i + |p| + |q|];
      assert (p + q)[..|p|] == p && (p + q)[|p|..] == q;
    }
  }

  /** An occurrence that starts in `a` and reaches into `b` puts `b[0]` inside the pattern. */
  lemma AtAcross(a: string, b: string, i: nat, pat: string)
    requires i < |a| < i + |pat| && At(a + b, i, pat)
    ensures |b| > 0 && b[0] == pat[|a| - i]
  {
    AtChar(a + b, i, pat, |a| - i);
  }

  /** No occurrence starts in `a` when `a` holds none and `b` starts with a character that `pat`
      does not have after its first one. */
  lemma NoStartIn(a: string, b: string, pat: string)
    requires !Occurs(a, pat) && |pat| > 0
    requires |b| == 0 || forall k :: 1 <= k < |pat| ==> pat[k] != b[0]
    ensures forall i: nat :: i < |a| ==> !At(a + b, i, pat)
  {
    forall i: nat | i < |a| ensures !At(a + b, i, pat) {
      if i + |pat| <= |a| {
        AtPrefix(a, b, i, pat);
      } else if At(a + b, i, pat) {
        AtAcross(a, b, i, pat);
      }
    }
  }

  /** A search across a prefix in which nothing starts is a search in the rest. */
  lemma FindSkip(a: string, b: string, pat: string)
    requires forall i: nat :: i < |a| ==> !At(a + b, i, pat)
    ensures Find(a + b, pat, 0) == Find(a + b, pat, |a|)
  {
    var r := Find(a + b, pat, |a|);
    if r.Some? {
      FindIs(a + b, pat, 0, r.value);
    } else {
      FindNone(a + b, pat, 0);
    }
  }

  function Plus(r: Option<nat>, n: nat): Option<nat> {
    match r
    case None => None
    case Some(i) => Some(i + n)
  }

  /** A search that starts after a prefix is a search in the rest. */
  lemma FindShift(a: string, b: string, from: nat, pat: string)
    requires from <= |b|
    ensures Find(a + b, pat, |a| + from) == Plus(Find(b, pat, from), |a|)
    decreases |b| - from
  {
    AtSuffix(a, b, from, pat);
    if !At(b, from, pat) && from < |b| {
      FindShift(a, b, from + 1, pat);
    }
  }

  /** The first occurrence of a self-avoiding pattern after a text that does not contain it. */
  lemma FindAfter(p: string, pat: string, t: string)
    requires HeadOnce(pat) && !Occurs(p, pat)
    ensures Find(p + (pat + t), pat, 0) == Some(|p|)
  {
    NoStartIn(p, pat + t, pat);
    AtSuffix(p, pat + t, 0, pat);
    FindIs(p + (pat + t), pat, 0, |p|);
  }

  /** Two texts with a common prefix have the same first occurrence inside it. */
  lemma PrefixSame(s: string, t: string, n: nat, pat: string, from: nat)
    requires n <= |s| && n <= |t| && s[..n] == t[..n] && from <= |s| && from <= |t|
    requires Find(s, pat, from).Some? && Find(s, pat, from).value + |pat| <= n
    ensures Find(t, pat, from) == Find(s, pat, from)
  {
    var a := Find(s, pat, from).value;
    forall i: nat | from <= i <= a ensures At(t, i, pat) == At(s, i, pat) {
      assert s[..n][i..i + |pat|] == s[i..i + |pat|];
      assert t[..n][i..i + |pat|] == t[i..i + |pat|];
    }
    FindIs(t, pat, from, a);
  }

  lemma OccursAt(s: string, i: nat, pat: string)
    requires At(s, i, pat)
    ensures Occurs(s, pat)
  {
    assert At(s, i, pat);
  }

  /** A part of a text without the pattern is without it too. */
  lemma PartLacks(s: string, i: nat, j: nat, pat: string)
    requires i <= j <= |s| && !Occurs(s, pat)
    ensures !Occurs(s[i..j], pat)
  {
    if Occurs(s[i..j], pat) {
      AtPart(s, i, j, Find(s[i..j], pat, 0).value, pat);
    }
  }

  lemma AtPart(s: string, i: nat, j: nat, k: nat, pat: string)
    requires i <= j <= |s|
    ensures At(s[i..j], k, pat) ==> At(s, i + k, pat)
  {
    if At(s[i..j], k, pat) {
      AtPrefix(s[i..j], s[j..], k, pat);
      assert s[i..] == s[i..j] + s[j..];
      AtSuffix(s[..i], s[i..], k, pat);
      assert s == s[..i] + s[i..];
    }
  }

  lemma HeadLacks(s: string, j: nat, pat: string)
    requires j <= |s| && !Occurs(s, pat)
    ensures !Occurs(s[..j], pat)
  {
    PartLacks(s, 0, j, pat);
    assert s[0..j] == s[..j];
  }

  lemma TailLacks(s: string, i: nat, pat: string)
    requires i <= |s| && !Occurs(s, pat)
    ensures !Occurs(s[i..], pat)
  {
    PartLacks(s, i, |s|, pat);
    assert s[i..|s|] == s[i..];
  }

  lemma LacksByChar(s: string, pat: string)
    requires |pat| > 0 && pat[0] !in s
    ensures !Occurs(s, pat)
  {
    if Occurs(s, pat) {
      AtChar(s, Find(s, pat, 0).value, pat, 0);
    }
  }

  /** Joining two texts without the pattern makes none, when `b` starts with a character that the
      pattern has not, except in front. */
  lemma JoinLacksByHead(a: string, b: string, pat: string)
    requires !Occurs(a, pat) && !Occurs(b, pat) && |pat| > 0
    requires |b| == 0 || forall k :: 1 <= k < |pat| ==> pat[k] != b[0]
    ensures !Occurs(a + b, pat)
  {
    NoStartIn(a, b, pat);
    FindSkip(a, b, pat);
    FindShift(a, b, 0, pat);
  }

  /** The same when `a` ends with a character that the pattern has at most at its end. */
  lemma JoinLacksByLast(a: string, b: string, pat: string)
    requires !Occurs(a, pat) && !Occurs(b, pat) && |pat| > 0
    requires |a| == 0 || forall k :: 0 <= k < |pat| - 1 ==> pat[k] != a[|a| - 1]
    ensures !Occurs(a + b, pat)
  {
    forall i: nat | i < |a| ensures !At(a + b, i, pat) {
      if i + |pat| <= |a| {
        AtPrefix(a, b, i, pat);
      } else {
        CharIf(a + b, i, pat, |a| - 1 - i);
      }
    }
    FindSkip(a, b, pat);
    FindShift(a, b, 0, pat);
  }

  /** The same when `a` has not even the first character of the pattern. */
  lemma JoinLacksByFirst(a: string, b: string, pat: string)
    requires |pat| > 0 && pat[0] !in a && !Occurs(b, pat)
    ensures !Occurs(a + b, pat)
  {
    forall i: nat | i < |a| ensures !At(a + b, i, pat) {
      CharIf(a + b, i, pat, 0);
    }
    FindSkip(a, b, pat);
    FindShift(a, b, 0, pat);
  }

  /** The same when some character of `a` is not in the pattern, and behind it `a` has not even the pattern's
      first character. */
  lemma JoinLacksBehind(a: string, b: string, pat: string, m: nat)
    requires !Occurs(a, pat) && !Occurs(b, pat) && pat != ""
    requires m < |a| && a[m] !in pat && forall k :: m < k < |a| ==> a[k] != pat[0]
    ensures !Occurs(a + b, pat)
  {
    forall i: nat | i < |a| ensures !At(a + b, i, pat) {
      if i + |pat| <= |a| {
        AtPrefix(a, b, i, pat);
      } else if i <= m {
        CharIf(a + b, i, pat, m - i);
      } else {
        CharIf(a + b, i, pat, 0);
      }
    }
    FindSkip(a, b, pat);
    FindShift(a, b, 0, pat);
  }

  lemma OccursInSuffix(a: string, b: string, pat: string)
    requires Occurs(b, pat)
    ensures Occurs(a + b, pat)
  {
    AtSuffix(a, b, Find(b, pat, 0).value, pat);
    OccursAt(a + b, |a| + Find(b, pat, 0).value, pat);
  }

  lemma OccursInPrefix(a: string, b: string, pat: string)
    requires Occurs(a, pat)
    ensures Occurs(a + b, pat)
  {
    AtPrefix(a, b, Find(a, pat, 0).value, pat);
    OccursAt(a + b, Find(a, pat, 0).value, pat);
  }

  /** A pattern that starts with one that does not occur. */
  lemma LongerLacks(s: string, short: string, pat: string)
    requires !Occurs(s, short) && short <= pat
    ensures !Occurs(s, pat)
  {
    if Occurs(s, pat) {
      var i := Find(s, pat, 0).value;
      assert pat == short + pat[|short|..];
      AtConcat(s, i, short, pat[|short|..]);
      OccursAt(s, i, short);
    }
  }
}
