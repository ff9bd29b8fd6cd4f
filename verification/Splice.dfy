/** The text between two tags: read it, replace it, read it again. */
module Splice {
  import opened Strings
  import opened Wrappers
  import opened XmlRead

  /** Both tags start alike, tell apart at the second character, and do not overlap themselves. */
  predicate TagPair(open: string, close: string) {
    HeadOnce(open) && HeadOnce(close) && |open| > 1 && |close| > 1 && open[0] == close[0] && open[1] != close[1]
  }

  predicate HasBoth(xml: string, open: string, close: string) {
    Occurs(xml, open) && Occurs(xml, close)
  }

  /** The first close tag of the text follows the first open tag. */
  predicate InOrder(xml: string, open: string, close: string)
    requires HasBoth(xml, open, close)
  {
    Find(xml, close, 0).value >= Find(xml, open, 0).value + |open|
  }

  function Head(xml: string, open: string): string
    requires Occurs(xml, open)
  {
    xml[..Find(xml, open, 0).value + |open|]
  }

  function Tail(xml: string, close: string): string
    requires Occurs(xml, close)
  {
    xml[Find(xml, close, 0).value..]
  }

  /** The source keeps everything up to the first open tag and everything from the first close tag. */
  function Replace(xml: string, d: string, open: string, close: string): string
    requires HasBoth(xml, open, close)
  {
    Head(xml, open) + d + Tail(xml, close)
  }

  lemma TailStarts(xml: string, close: string)
    requires Occurs(xml, close)
    ensures At(Tail(xml, close), 0, close) && Tail(xml, close) == close + Tail(xml, close)[|close|..]
  {
    DropAt(xml, Find(xml, close, 0).value, close);
  }

  lemma DropAt(s: string, i: nat, pat: string)
    requires At(s, i, pat)
    ensures At(s[i..], 0, pat) && s[i..] == pat + s[i..][|pat|..]
  {
    hide Occurs, Find;
    var t := s[i..];
    assert t[..|pat|] == s[i..i + |pat|];
    assert t == t[..|pat|] + t[|pat|..];
  }

  /** The first open tag stays where it is. */
  lemma OpenStays(xml: string, d: string, open: string, close: string)
    requires TagPair(open, close) && HasBoth(xml, open, close)
    ensures Find(Replace(xml, d, open, close), open, 0) == Find(xml, open, 0)
  {
    var a := Find(xml, open, 0).value;
    PrefixSame(xml, Replace(xml, d, open, close), a + |open|, open, 0);
  }

  /** The first close tag at or after a text without one that is followed by one. */
  lemma CloseAfter(p: string, d: string, s: string, close: string)
    requires HeadOnce(close) && !Occurs(d, close)
    ensures Find(p + d + (close + s), close, |p|) == Some(|p| + |d|)
  {
    FindAfter(d, close, s);
    FindShift(p, d + (close + s), 0, close);
    assert p + d + (close + s) == p + (d + (close + s));
  }

  /** What is read right behind `p` is `d` exactly if `d` holds no close tag. */
  lemma UntilIff(p: string, d: string, s: string, close: string)
    requires HeadOnce(close)
    ensures |p| <= |p + d + (close + s)|
    ensures Until(p + d + (close + s), |p|, close) == Some(d) <==> !Occurs(d, close)
  {
    var text := p + d + (close + s);
    if !Occurs(d, close) {
      CloseAfter(p, d, s, close);
      assert text[|p|..|p| + |d|] == d;
    } else {
      var i := Find(d, close, 0).value;
      assert text[|p| + i..|p| + i + |close|] == d[i..i + |close|];
      assert At(text, |p| + i, close);
    }
  }

  /** Reading after a replacement returns what was written, if and only if that text holds no close
      tag.  Nothing is asked of the XML. */
  lemma PutGetIff(xml: string, d: string, open: string, close: string)
    requires TagPair(open, close) && HasBoth(xml, open, close)
    ensures Between(Replace(xml, d, open, close), open, close) == Some(d) <==> !Occurs(d, close)
  {
    OpenStays(xml, d, open, close);
    TailStarts(xml, close);
    UntilIff(Head(xml, open), d, Tail(xml, close)[|close|..], close);
  }

  lemma ThreeParts(s: string, i: nat, j: nat)
    requires i <= j <= |s|
    ensures s == s[..i] + s[i..j] + s[j..]
  {
  }

  /** Writing back what was read changes nothing, if and only if the first close tag follows the
      first open tag. */
  lemma GetPutIff(xml: string, open: string, close: string)
    requires TagPair(open, close) && HasBoth(xml, open, close) && Between(xml, open, close).Some?
    ensures Replace(xml, Between(xml, open, close).value, open, close) == xml <==> InOrder(xml, open, close)
  {
    var d := Between(xml, open, close).value;
    var a, b := Find(xml, open, 0).value, Find(xml, close, 0).value;
    if InOrder(xml, open, close) {
      FindIs(xml, close, a + |open|, b);
      ThreeParts(xml, a + |open|, b);
    } else {
      assert |Replace(xml, d, open, close)| > |xml|;
    }
  }

  /** Between a text that ends with the open tag and a text without close tags, none starts. */
  lemma NoCloseInHead(xml: string, rest: string, open: string, close: string)
    requires TagPair(open, close) && HasBoth(xml, open, close) && InOrder(xml, open, close)
    ensures forall i: nat :: i < |Head(xml, open)| ==> !At(Head(xml, open) + rest, i, close)
  {
    var p := Head(xml, open);
    var a := Find(xml, open, 0).value;
    forall i: nat | i < |p| ensures !At(p + rest, i, close) {
      if i + |close| <= |p| {
        AtPrefix(p, rest, i, close);
        assert p[i..i + |close|] == xml[i..i + |close|];
        assert !At(xml, i, close);
      } else if At(p + rest, i, close) {
        AcrossOpen(xml, rest, i, open, close);
      }
    }
  }

  lemma AcrossOpen(xml: string, rest: string, i: nat, open: string, close: string)
    requires TagPair(open, close) && Occurs(xml, open)
    requires i < |Head(xml, open)| < i + |close|
    ensures !At(Head(xml, open) + rest, i, close)
  {
    var p, a := Head(xml, open), Find(xml, open, 0).value;
    AtChar(xml, a, open, 0);
    AtChar(xml, a, open, 1);
    if a < i {
      AtChar(xml, a, open, i - a);
      CharIf(p + rest, i, close, 0);
    } else if a == i {
      CharIf(p + rest, i, close, 1);
    } else {
      CharIf(p + rest, i, close, a - i);
    }
  }

  /** In order, the new text is in order too, with both tags around the text that was written. */
  lemma ReplaceInOrder(xml: string, d: string, open: string, close: string)
    requires TagPair(open, close) && HasBoth(xml, open, close) && InOrder(xml, open, close) && !Occurs(d, close)
    ensures var text := Replace(xml, d, open, close);
            && HasBoth(text, open, close) && InOrder(text, open, close)
            && Head(text, open) == Head(xml, open) && Tail(text, close) == Tail(xml, close)
  {
    var p, s := Head(xml, open), Tail(xml, close);
    var text := p + d + s;
    OpenStays(xml, d, open, close);
    TailStarts(xml, close);
    CloseAfter(p, d, s[|close|..], close);
    NoCloseInHead(xml, d + s, open, close);
    AroundMiddle(p, d, s);
    FindSkip(p, d + s, close);
  }

  lemma AroundMiddle(p: string, d: string, s: string)
    ensures p + d + s == p + (d + s) && (p + d + s)[..|p|] == p && (p + d + s)[|p| + |d|..] == s
  {
    assert p + d + s == p + (d + s);
  }

  /** A close tag in front of the first open tag ends in front of it, and stays the first one. */
  lemma CloseStays(xml: string, d: string, open: string, close: string)
    requires TagPair(open, close) && HasBoth(xml, open, close) && !InOrder(xml, open, close)
    ensures var text := Replace(xml, d, open, close);
            HasBoth(text, open, close) && Find(text, close, 0) == Find(xml, close, 0)
  {
    var a, b := Find(xml, open, 0).value, Find(xml, close, 0).value;
    OpenStays(xml, d, open, close);
    AtChar(xml, b, close, 0);
    AtChar(xml, b, close, 1);
    AtChar(xml, a, open, 0);
    AtChar(xml, a, open, 1);
    if a < b {
      AtChar(xml, a, open, b - a);
    } else if b < a < b + |close| {
      AtChar(xml, b, close, a - b);
    }
    PrefixSame(xml, Replace(xml, d, open, close), a + |open|, close, 0);
  }

  /** A close tag in the written text leaves none of the old text's for the first. */
  lemma CloseInside(xml: string, d: string, open: string, close: string)
    requires HasBoth(xml, open, close) && Occurs(d, close) && close != ""
    ensures Occurs(Replace(xml, d, open, close), close)
    ensures Find(Replace(xml, d, open, close), close, 0).value < |Head(xml, open)| + |d|
  {
    hide Head, Tail, Find;
    MiddleFirst(Head(xml, open), d, Tail(xml, close), close);
  }

  lemma MiddleFirst(p: string, d: string, s: string, pat: string)
    requires Occurs(d, pat) && pat != ""
    ensures Occurs(p + d + s, pat) && Find(p + d + s, pat, 0).value < |p| + |d|
  {
    var k := FirstAt(d, pat);
    hide *;
    AtSuffix(p, d, k, pat);
    AtPrefix(p + d, s, |p| + k, pat);
    OccursAt(p + d + s, |p| + k, pat);
    FirstNotBehind(p + d + s, pat, |p| + k);
  }

  lemma FirstNotBehind(s: string, pat: string, at: nat)
    requires At(s, at, pat)
    ensures Find(s, pat, 0).Some? && Find(s, pat, 0).value <= at
  {
    OccursAt(s, at, pat);
  }

  function FirstAt(s: string, pat: string): (i: nat)
    requires Occurs(s, pat)
    ensures At(s, i, pat) && i + |pat| <= |s|
  {
    Find(s, pat, 0).value
  }

  /** Replacing twice is replacing once with the second text, if and only if the tags are in order and the first
      text holds no close tag. */
  lemma PutPutIff(xml: string, d: string, d': string, open: string, close: string)
    requires TagPair(open, close) && HasBoth(xml, open, close)
    ensures HasBoth(Replace(xml, d, open, close), open, close)
    ensures Replace(Replace(xml, d, open, close), d', open, close) == Replace(xml, d', open, close)
            <==> InOrder(xml, open, close) && !Occurs(d, close)
  {
    var text := Replace(xml, d, open, close);
    if !InOrder(xml, open, close) {
      CloseStays(xml, d, open, close);
      OpenStays(xml, d, open, close);
      assert |Replace(text, d', open, close)| > |Replace(xml, d', open, close)|;
    } else if Occurs(d, close) {
      OpenStays(xml, d, open, close);
      CloseInside(xml, d, open, close);
      assert |Replace(text, d', open, close)| > |Replace(xml, d', open, close)|;
    } else {
      ReplaceInOrder(xml, d, open, close);
    }
  }
}
