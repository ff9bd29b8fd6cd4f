/** XML text as a row of pieces, each starting with the only '<' it contains: where a tag pattern
    is found in such a text.

    A tag pattern starts with '<' as well, so it can stand at the start of a piece and nowhere else,
    and the first piece that begins with it is where strstr ends up. */
module Pieces {
  import opened Strings
  import opened Wrappers
  import opened XmlRead

  /** A tag and whatever text follows it. */
  predicate Piece(p: string) {
    |p| > 0 && p[0] == '<' && forall k :: 1 <= k < |p| ==> p[k] != '<'
  }

  predicate AllPieces(ps: seq<string>) {
    forall i :: 0 <= i < |ps| ==> Piece(ps[i])
  }

  function Flatten(ps: seq<string>): string {
    if ps == [] then "" else ps[0] + Flatten(ps[1..])
  }

  lemma {:induction false} FlattenConcat(a: seq<string>, b: seq<string>)
    ensures Flatten(a + b) == Flatten(a) + Flatten(b)
  {
    if a == [] {
      assert a + b == b;
    } else {
      assert (a + b)[1..] == a[1..] + b;
      FlattenConcat(a[1..], b);
    }
  }

  lemma FlattenStarts(ps: seq<string>)
    requires AllPieces(ps)
    ensures Flatten(ps) == "" || Flatten(ps)[0] == '<'
  {
  }

  /** In a piece followed by pieces, a tag pattern starts in front or nowhere. */
  lemma SkipPiece(p: string, rest: string, pat: string)
    requires Piece(p) && Piece(pat) && (rest == "" || rest[0] == '<')
    ensures forall i: nat :: 0 < i < |p| ==> !At(p + rest, i, pat)
    ensures At(p + rest, 0, pat) <==> pat <= p
  {
    forall i: nat | 0 < i < |p| ensures !At(p + rest, i, pat) {
      CharIf(p + rest, i, pat, 0);
    }
    if |pat| <= |p| {
      AtPrefix(p, rest, 0, pat);
    } else {
      CharIf(p + rest, 0, pat, |p|);
    }
  }

  lemma TakeCons(ps: seq<string>, k: nat)
    requires 0 < k <= |ps|
    ensures Flatten(ps[..k]) == ps[0] + Flatten(ps[1..][..k - 1])
  {
    assert ps[1..][..k - 1] == ps[..k][1..];
  }

  /** The pattern is found at the first piece that starts with it. */
  lemma {:induction false} FindPiece(ps: seq<string>, k: nat, pat: string)
    requires AllPieces(ps) && Piece(pat) && k < |ps| && pat <= ps[k]
    requires forall j :: 0 <= j < k ==> !(pat <= ps[j])
    ensures Find(Flatten(ps), pat, 0) == Some(|Flatten(ps[..k])|)
  {
    hide Find, At, Piece;
    var p, rest := ps[0], Flatten(ps[1..]);
    FlattenStarts(ps[1..]);
    SkipPiece(p, rest, pat);
    if k == 0 {
      FindIs(p + rest, pat, 0, 0);
    } else {
      TakeCons(ps, k);
      FindPiece(ps[1..], k - 1, pat);
      FindSkip(p, rest, pat);
      FindShift(p, rest, 0, pat);
    }
  }

  lemma {:induction false} FindNoPiece(ps: seq<string>, pat: string)
    requires AllPieces(ps) && Piece(pat) && forall j :: 0 <= j < |ps| ==> !(pat <= ps[j])
    ensures Find(Flatten(ps), pat, 0) == None
  {
    if ps == [] {
      FindNone("", pat, 0);
    } else {
      var p, rest := ps[0], Flatten(ps[1..]);
      FlattenStarts(ps[1..]);
      SkipPiece(p, rest, pat);
      FindNoPiece(ps[1..], pat);
      FindSkip(p, rest, pat);
      FindShift(p, rest, 0, pat);
    }
  }

  lemma FlattenSplit(ps: seq<string>, k: nat)
    requires k <= |ps|
    ensures Flatten(ps) == Flatten(ps[..k]) + Flatten(ps[k..])
  {
    assert ps == ps[..k] + ps[k..];
    FlattenConcat(ps[..k], ps[k..]);
  }

  lemma FlattenHead(ps: seq<string>, k: nat)
    requires k < |ps|
    ensures Flatten(ps[k..]) == ps[k] + Flatten(ps[k + 1..])
  {
    assert ps[k..][1..] == ps[k + 1..];
  }

  /** What stands between the open tag of piece `k` and the first close tag after it, at piece `j`. */
  lemma BetweenPieces(ps: seq<string>, k: nat, j: nat, open: string, close: string, text: string)
    requires AllPieces(ps) && Piece(open) && Piece(close) && k < j < |ps|
    requires ps[k] == open + text && close <= ps[j]
    requires forall i :: 0 <= i < k ==> !(open <= ps[i])
    requires forall i :: k < i < j ==> !(close <= ps[i])
    ensures Between(Flatten(ps), open, close) == Some(text + Flatten(ps[k + 1..j]))
  {
    hide *;
    FindPiece(ps, k, open);
    var before, after := Flatten(ps[..k]), Flatten(ps[k + 1..]);
    FlattenAround(ps, k, open, text);
    FindRest(ps, k, j, close);
    TextOf(ps, k, open, text);
    UntilSkipping(before + open, text, after, Flatten(ps[k + 1..j]), close);
    BetweenIs(Flatten(ps), open, close, |before|);
  }

  /** The special case of an element that holds text only. */
  lemma LeafPieces(ps: seq<string>, k: nat, open: string, close: string, text: string)
    requires AllPieces(ps) && Piece(open) && Piece(close) && k + 1 < |ps|
    requires ps[k] == open + text && ps[k + 1] == close
    requires forall i :: 0 <= i < k ==> !(open <= ps[i])
    ensures Between(Flatten(ps), open, close) == Some(text)
  {
    hide *;
    BetweenPieces(ps, k, k + 1, open, close, text);
    NothingBetween(ps, k, text);
  }

  lemma NothingBetween(ps: seq<string>, k: nat, text: string)
    requires k < |ps|
    ensures text + Flatten(ps[k + 1..k + 1]) == text
  {
  }

  lemma BetweenIs(xml: string, open: string, close: string, i: nat)
    requires Find(xml, open, 0) == Some(i)
    ensures i + |open| <= |xml| && Between(xml, open, close) == Until(xml, i + |open|, close)
  {
  }

  lemma TextOf(ps: seq<string>, k: nat, open: string, text: string)
    requires AllPieces(ps) && k < |ps| && Piece(open) && ps[k] == open + text
    ensures '<' !in text
  {
    forall i | 0 <= i < |text| ensures text[i] != '<' {
      assert ps[k][|open| + i] == text[i];
    }
  }

  lemma FlattenAround(ps: seq<string>, k: nat, open: string, text: string)
    requires k < |ps| && ps[k] == open + text
    ensures Flatten(ps) == Flatten(ps[..k]) + open + text + Flatten(ps[k + 1..])
  {
    hide Flatten;
    FlattenSplit(ps, k);
    FlattenHead(ps, k);
    var before, after := Flatten(ps[..k]), Flatten(ps[k + 1..]);
    assert before + (open + text + after) == before + open + text + after;
  }

  lemma FindRest(ps: seq<string>, k: nat, j: nat, close: string)
    requires AllPieces(ps) && Piece(close) && k < j < |ps| && close <= ps[j]
    requires forall i :: k < i < j ==> !(close <= ps[i])
    ensures Find(Flatten(ps[k + 1..]), close, 0) == Some(|Flatten(ps[k + 1..j])|)
    ensures Flatten(ps[k + 1..j]) <= Flatten(ps[k + 1..])
  {
    hide Find, Flatten, Piece;
    var after := ps[k + 1..];
    FindPiece(after, j - k - 1, close);
    FlattenSplit(after, j - k - 1);
    assert after[..j - k - 1] == ps[k + 1..j];
  }

  /** The text in front of the first close tag, when no '<' comes before the pieces start. */
  lemma UntilSkipping(p: string, text: string, rest: string, inner: string, close: string)
    requires Piece(close) && '<' !in text && Find(rest, close, 0) == Some(|inner|) && inner <= rest
    ensures Until(p + text + rest, |p|, close) == Some(text + inner)
  {
    hide Find;
    forall i: nat | i < |text| ensures !At(text + rest, i, close) {
      CharIf(text + rest, i, close, 0);
    }
    FindSkip(text, rest, close);
    FindShift(text, rest, 0, close);
    FindShift(p, text + rest, 0, close);
    Middle(p, text, rest, inner);
  }

  lemma Middle(p: string, text: string, rest: string, inner: string)
    requires inner <= rest
    ensures p + text + rest == p + (text + rest)
    ensures (p + text + rest)[|p|..|p| + |text| + |inner|] == text + inner
  {
    assert p + text + rest == p + (text + rest);
  }
}
