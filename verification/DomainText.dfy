/** A domain XML as folder elements with other text around them, and where a search in it hits. */
module DomainText {
  import opened FolderXml
  import opened Quotes
  import opened SharedFolders
  import opened Strings
  import opened Wrappers

  /** The pattern occurs outside the folder elements. */
  predicate OtherHas(head: string, items: seq<(Folder, string)>, pat: string) {
    Occurs(head, pat) || exists i :: 0 <= i < |items| && Occurs(items[i].1, pat)
  }

  predicate SomeBlockHas(items: seq<(Folder, string)>, pat: string) {
    exists i :: 0 <= i < |items| && Occurs(Block(items[i].0), pat)
  }

  /** A pattern that cannot reach across the border of an element: it holds no '<' except in front, and either no
      '>' except at its end, or no '<' at all and a first character that the end of an element has not. */
  predicate Contained(pat: string) {
    && pat != "" && (forall k :: 1 <= k < |pat| ==> pat[k] != '<')
    && ((forall k :: 0 <= k < |pat| - 1 ==> pat[k] != '>') || (pat[0] == 'd' && '<' !in pat))
  }

  /** How an element starts and ends. */
  predicate Bordered(b: string) {
    && |b| > 13 && b[0] == '<' && b[|b| - 1] == '>' && b[|b| - 13] == '<'
    && forall k :: |b| - 13 < k < |b| ==> b[k] != 'd'
  }

  lemma BlockBorders(f: Folder)
    requires Clean(f)
    ensures Bordered(Block(f))
  {
    BlockParts(f);
    CloseChars();
    hide Body, Clean, Occurs;
    assert FS_OPEN[0] == '<' && |FS_OPEN| > 0;
    hide FS_CLOSE, FS_OPEN;
    BorderOf(Body(f), FS_CLOSE);
  }

  lemma CloseChars()
    ensures |FS_CLOSE| == 13 && FS_CLOSE[0] == '<' && FS_CLOSE[12] == '>' && 'd' !in FS_CLOSE
  {
  }

  lemma BorderOf(body: string, close: string)
    requires body != "" && |close| == 13
    ensures var b := body + close; b[0] == body[0] && forall k :: |b| - 13 <= k < |b| ==> b[k] == close[k - (|b| - 13)]
  {
  }

  /** In an element with text on both sides the pattern occurs in one of the three. */
  lemma InOneOf(head: string, block: string, rest: string, pat: string)
    requires Contained(pat) && Bordered(block)
    ensures Occurs(head + (block + rest), pat) <==> Occurs(head, pat) || Occurs(block, pat) || Occurs(rest, pat)
  {
    hide Occurs;
    if Occurs(head, pat) {
      OccursInPrefix(head, block + rest, pat);
    } else if Occurs(block, pat) {
      OccursInPrefix(block, rest, pat);
      OccursInSuffix(head, block + rest, pat);
    } else if Occurs(rest, pat) {
      OccursInSuffix(block, rest, pat);
      OccursInSuffix(head, block + rest, pat);
    } else {
      if '<' !in pat && pat[0] == 'd' {
        JoinLacksBehind(block, rest, pat, |block| - 13);
      } else {
        JoinLacksByLast(block, rest, pat);
      }
      JoinLacksByHead(head, block + rest, pat);
    }
  }

  /** A search in the whole text hits if and only if the pattern occurs in the other text or in an element. */
  lemma {:induction false} FoundIff(head: string, items: seq<(Folder, string)>, pat: string)
    requires GoodItems(items) && Contained(pat)
    ensures Occurs(head + Blocks(items), pat) <==> OtherHas(head, items, pat) || SomeBlockHas(items, pat)
    decreases |items|
  {
    hide Occurs, Clean, Block, FS_OPEN, Contained, Bordered;
    if items == [] {
      assert head + "" == head;
    } else {
      var f, gap, rest := items[0].0, items[0].1, Blocks(items[1..]);
      GoodRest(items);
      FoundIff(gap, items[1..], pat);
      Associate(Block(f), gap, rest);
      BlockBorders(f);
      InOneOf(head, Block(f), gap + rest, pat);
      OtherStep(head, items, pat);
    }
  }

  lemma OtherStep(head: string, items: seq<(Folder, string)>, pat: string)
    requires items != []
    ensures OtherHas(head, items, pat) <==> Occurs(head, pat) || OtherHas(items[0].1, items[1..], pat)
    ensures SomeBlockHas(items, pat) <==> Occurs(Block(items[0].0), pat) || SomeBlockHas(items[1..], pat)
  {
    hide Occurs, Block;
    if i :| 0 <= i < |items| && Occurs(items[i].1, pat) {
      assert i > 0 ==> items[1..][i - 1] == items[i];
    }
    if i :| 0 <= i < |items| && Occurs(Block(items[i].0), pat) {
      assert i > 0 ==> items[1..][i - 1] == items[i];
    }
  }
}
