/** Text cut at its single quotes: a pattern without quotes occurs in one of the parts or not at all.

    The folder element is printed with its values in single quotes, so the parts between the quotes
    are in turn fixed text and a value. */
module Quotes {
  import Splitting
  import opened Strings
  import opened Wrappers

  const QUOTE := "'"

  /** The parts with a single quote between each two. */
  function Quoted(parts: seq<string>): string {
    Splitting.Join(parts, '\'')
  }

  predicate Lack(parts: seq<string>, pat: string) {
    forall i :: 0 <= i < |parts| ==> !Occurs(parts[i], pat)
  }

  lemma QuoteLacks(pat: string)
    requires pat != "" && '\'' !in pat
    ensures !Occurs(QUOTE, pat)
  {
    LacksByChar(QUOTE, pat);
  }

  lemma {:induction false} JoinLacks(parts: seq<string>, pat: string)
    requires pat != "" && '\'' !in pat && Lack(parts, pat)
    ensures !Occurs(Quoted(parts), pat)
  {
    if parts == [] {
      LacksByChar("", pat);
    } else if |parts| > 1 {
      JoinLacks(parts[1..], pat);
      hide Occurs;
      QuoteLacks(pat);
      JoinLacksByLast(QUOTE, Quoted(parts[1..]), pat);
      JoinLacksByHead(parts[0], QUOTE + Quoted(parts[1..]), pat);
    }
  }

  lemma {:induction false} JoinSplit(a: seq<string>, b: seq<string>)
    requires a != [] && b != []
    ensures Quoted(a + b) == Quoted(a) + (QUOTE + Quoted(b))
  {
    if |a| == 1 {
      assert (a + b)[1..] == b;
    } else {
      assert (a + b)[1..] == a[1..] + b;
      JoinSplit(a[1..], b);
      var x, y, z := a[0], QUOTE + Quoted(a[1..]), QUOTE + Quoted(b);
      assert x + (QUOTE + (Quoted(a[1..]) + z)) == (x + y) + z;
    }
  }

  /** A pattern that needs a character the text has not. */
  lemma LacksChar(s: string, pat: string, k: nat)
    requires k < |pat| && pat[k] !in s
    ensures !Occurs(s, pat)
  {
    if Occurs(s, pat) {
      AtChar(s, Find(s, pat, 0).value, pat, k);
    }
  }
}
