/** lv_edit_snapshot_description (src/libvirt_backend.c) and the reader of the result. */
module DescriptionEdit {
  import opened Buffers
  import opened Splice
  import opened Strings
  import opened Wrappers
  import opened XmlRead

  const OPEN := "<description>"
  const CLOSE := "</description>"
  const NAME_END := "</name>"
  const INSERT_BUFFER: nat := 2048

  /** The element that is inserted, printed into a buffer of 2048 bytes. */
  function Element(d: string): string {
    var full := OPEN + d + CLOSE;
    if |full| < INSERT_BUFFER then full else full[..INSERT_BUFFER - 1]
  }

  function Edit(xml: string, d: string): Option<string> {
    if HasBoth(xml, OPEN, CLOSE) then Some(Replace(xml, d, OPEN, CLOSE))
    else
      match Find(xml, NAME_END, 0)
      case None => None
      case Some(i) => Some(xml[..i + |NAME_END|] + Element(d) + xml[i + |NAME_END|..])
  }

  /** The splice as it runs: three copies into a buffer of exactly the new length and one byte for the NUL. */
  method EditInBuffer(xml: string, d: string) returns (r: Option<string>)
    ensures r == Edit(xml, d)
  {
    hide OPEN, CLOSE, NAME_END, Element;
    var start, end := Find(xml, OPEN, 0), Find(xml, CLOSE, 0);
    if start.Some? && end.Some? {
      var text := Spliced(xml[..start.value + |OPEN|], d, xml[end.value..]);
      return Some(text);
    }
    var nameEnd := Find(xml, NAME_END, 0);
    if nameEnd.None? {
      return None;
    }
    var prefixLen := nameEnd.value + |NAME_END|;
    var text := Spliced(xml[..prefixLen], Element(d), xml[prefixLen..]);
    r := Some(text);
  }

  method Spliced(prefix: string, middle: string, suffix: string) returns (text: string)
    ensures text == prefix + middle + suffix
  {
    var buf := new char[|prefix| + |middle| + |suffix| + 1](_ => '\0');
    var len := PutThree(buf, prefix, middle, suffix);
    buf[len] := '\0';
    text := buf[..len];
  }

  function Read(xml: string): Option<string> {
    Extract(xml, "description")
  }

  lemma Tags()
    ensures TagPair(OPEN, CLOSE) && OpenTag("description") == OPEN && CloseTag("description") == CLOSE
    ensures |OPEN| == 13 && |CLOSE| == 14
  {
  }

  /** Reading after an edit that replaces returns the new text, if and only if that text contains
      no close tag. */
  lemma EditThenReadIff(xml: string, d: string)
    requires HasBoth(xml, OPEN, CLOSE)
    ensures Read(Edit(xml, d).value) == Some(d) <==> !Occurs(d, CLOSE)
  {
    Tags();
    PutGetIff(xml, d, OPEN, CLOSE);
  }

  /** A description that spells out the close tag is read back as empty. */
  lemma CloseTagIsLost(xml: string)
    requires HasBoth(xml, OPEN, CLOSE)
    ensures Read(Edit(xml, CLOSE).value) != Some(CLOSE)
  {
    EditThenReadIff(xml, CLOSE);
    hide CLOSE;
    assert CLOSE[..|CLOSE|] == CLOSE;
    OccursAt(CLOSE, 0, CLOSE);
  }

  /** Editing with the text that was read changes nothing, if and only if the first close tag
      follows the first open tag. */
  lemma ReadThenEditIff(xml: string)
    requires HasBoth(xml, OPEN, CLOSE) && Read(xml).Some?
    ensures Edit(xml, Read(xml).value) == Some(xml) <==> InOrder(xml, OPEN, CLOSE)
  {
    Tags();
    GetPutIff(xml, OPEN, CLOSE);
  }

  /** Editing twice is editing once with the second text, if and only if the tags are in order and the first text
      holds no close tag. */
  lemma EditTwiceIff(xml: string, d: string, d': string)
    requires HasBoth(xml, OPEN, CLOSE)
    ensures Edit(Edit(xml, d).value, d') == Edit(xml, d') <==> InOrder(xml, OPEN, CLOSE) && !Occurs(d, CLOSE)
  {
    Tags();
    PutPutIff(xml, d, d', OPEN, CLOSE);
  }

  /** Behind the name the text does not go on with an end of the close tag, so a tag cut off by the
      buffer cannot be completed by accident. */
  predicate NoAccident(rest: string) {
    forall k :: 0 < k < |CLOSE| ==> !(CLOSE[k..] <= rest)
  }

  /** Inserting into a text with neither tag and reading back returns the text, if and only if it
      fits the buffer and contains no close tag. */
  lemma InsertThenReadIff(xml: string, d: string)
    requires !Occurs(xml, OPEN) && !Occurs(xml, CLOSE) && Occurs(xml, NAME_END)
    requires NoAccident(xml[Find(xml, NAME_END, 0).value + |NAME_END|..])
    ensures Edit(xml, d).Some?
    ensures Read(Edit(xml, d).value) == Some(d) <==> |d| <= 2020 && !Occurs(d, CLOSE)
  {
    Tags();
    var n := Find(xml, NAME_END, 0).value + |NAME_END|;
    InsertIff(xml[..n], xml[n..], d, OPEN, CLOSE, xml);
  }

  /** There is no result exactly when the text has neither both tags nor the end of a name. */
  lemma EditFailsIff(xml: string, d: string)
    ensures Edit(xml, d) == None <==> !HasBoth(xml, OPEN, CLOSE) && !Occurs(xml, NAME_END)
  {
  }

  /** The element is inserted right behind the first end of a name.  Taking it out again gives the old text, and it is
      the whole element when that fits the buffer of 2048 bytes. */
  lemma InsertPlace(xml: string, d: string)
    requires !HasBoth(xml, OPEN, CLOSE) && Occurs(xml, NAME_END)
    ensures Edit(xml, d).Some?
    ensures var text, at := Edit(xml, d).value, Find(xml, NAME_END, 0).value + |NAME_END|; var n := |text| - |xml|;
            && 0 < n < 2048 && at <= |xml| && text[..at] == xml[..at] && text[at + n..] == xml[at..]
            && Find(text, NAME_END, 0) == Some(at - |NAME_END|) && OPEN <= text[at..]
            && (|d| <= 2020 ==> text[at..at + n] == OPEN + d + CLOSE)
  {
    var at := Find(xml, NAME_END, 0).value + |NAME_END|;
    ElementIs(d);
    InsertIs(xml, d, Find(xml, NAME_END, 0).value);
    assert |NAME_END| == 7;
    hide OPEN, CLOSE, NAME_END, Element, Edit;
    Around(xml, at, Element(d));
    assert OPEN <= Element(d) <= (xml[..at] + Element(d) + xml[at..])[at..];
    PrefixSame(xml, xml[..at] + Element(d) + xml[at..], at, NAME_END, 0);
  }

  lemma InsertIs(xml: string, d: string, i: nat)
    requires !HasBoth(xml, OPEN, CLOSE) && Find(xml, NAME_END, 0) == Some(i)
    ensures i + |NAME_END| <= |xml|
    ensures Edit(xml, d) == Some(xml[..i + |NAME_END|] + Element(d) + xml[i + |NAME_END|..])
  {
    hide OPEN, CLOSE, NAME_END, Element, HasBoth, Find;
  }

  lemma Around(xml: string, at: nat, e: string)
    requires at <= |xml|
    ensures var text := xml[..at] + e + xml[at..];
            && |text| == |xml| + |e| && text[..at] == xml[..at] && text[at + |e|..] == xml[at..]
            && text[at..at + |e|] == e && e <= text[at..]
  {
    var text := xml[..at] + e + xml[at..];
    assert text[at..] == e + xml[at..];
  }

  lemma ElementIs(d: string)
    ensures 0 < |Element(d)| < 2048 && OPEN <= Element(d) && (|d| <= 2020 ==> Element(d) == OPEN + d + CLOSE)
  {
  }

  const NAME := "<name>"

  /** Where the part of the text begins that an edit may change. */
  function Changes(xml: string): Option<nat> {
    if HasBoth(xml, OPEN, CLOSE) then Plus(Find(xml, OPEN, 0), |OPEN|) else Plus(Find(xml, NAME_END, 0), |NAME_END|)
  }

  lemma PrefixStays(xml: string, d: string)
    requires Edit(xml, d).Some?
    ensures Changes(xml).Some? && Changes(xml).value <= |xml| && Changes(xml).value <= |Edit(xml, d).value|
    ensures Edit(xml, d).value[..Changes(xml).value] == xml[..Changes(xml).value]
  {
    hide OPEN, CLOSE, NAME_END, Element;
  }

  /** An edit of either kind leaves the snapshot's name readable and the same, when the first name element stands in
      front of the description. */
  lemma EditKeepsName(xml: string, d: string)
    requires Edit(xml, d).Some? && Find(xml, NAME, 0).Some? && Find(xml, NAME_END, 0).Some?
    requires Find(xml, NAME, 0).value + |NAME| <= Find(xml, NAME_END, 0).value
    requires HasBoth(xml, OPEN, CLOSE) ==> Find(xml, NAME_END, 0).value < Find(xml, OPEN, 0).value
    ensures Extract(xml, "name").Some? && Extract(Edit(xml, d).value, "name") == Extract(xml, "name")
  {
    NameTags();
    NameEnds(xml);
    var a, i := Find(xml, NAME, 0).value, Find(xml, NAME_END, 0).value;
    assert Hits(xml, NAME, 0, a) && Hits(xml, NAME_END, 0, i);
    hide *;
    PrefixStays(xml, d);
    SameBetween(xml, Edit(xml, d).value, Changes(xml).value, NAME, NAME_END, a, i);
    ExtractIs(xml, "name");
    ExtractIs(Edit(xml, d).value, "name");
  }

  lemma ExtractIs(xml: string, tag: string)
    ensures Extract(xml, tag) == Between(xml, OpenTag(tag), CloseTag(tag))
  {
  }

  /** The search from `from` on hits at `i`. */
  ghost predicate Hits(s: string, pat: string, from: nat, i: nat) {
    from <= |s| && Find(s, pat, from) == Some(i)
  }

  /** Two texts that agree up to the end of an element. */
  lemma SameBetween(s: string, t: string, n: nat, open: string, close: string, a: nat, i: nat)
    requires n <= |s| && n <= |t| && s[..n] == t[..n] && Hits(s, open, 0, a) && Hits(s, close, 0, i)
    requires a + |open| <= i && i + |close| <= n
    ensures Between(s, open, close).Some? && Between(t, open, close) == Between(s, open, close)
  {
    hide *;
    LaterStart(s, close, a + |open|, i);
    SameFind(s, t, n, open, 0, a);
    SameFind(s, t, n, close, a + |open|, i);
    BetweenAt(s, open, close, a, i);
    BetweenAt(t, open, close, a, i);
    SameSlice(s, t, n, a + |open|, i);
  }

  lemma LaterStart(s: string, pat: string, from: nat, i: nat)
    requires Hits(s, pat, 0, i) && from <= i
    ensures Hits(s, pat, from, i)
  {
    FindIs(s, pat, from, i);
  }

  lemma SameFind(s: string, t: string, n: nat, pat: string, from: nat, i: nat)
    requires n <= |s| && n <= |t| && s[..n] == t[..n] && from <= n && Hits(s, pat, from, i) && i + |pat| <= n
    ensures Hits(t, pat, from, i)
  {
    PrefixSame(s, t, n, pat, from);
  }

  lemma BetweenAt(s: string, open: string, close: string, a: nat, i: nat)
    requires Hits(s, open, 0, a) && Hits(s, close, a + |open|, i)
    ensures a + |open| <= i <= |s| && Between(s, open, close) == Some(s[a + |open|..i])
  {
    hide Find;
  }

  lemma SameSlice(s: string, t: string, n: nat, i: nat, j: nat)
    requires i <= j <= n <= |s| && n <= |t| && s[..n] == t[..n]
    ensures s[i..j] == t[i..j]
  {
    assert s[..n][i..j] == s[i..j] && t[..n][i..j] == t[i..j];
  }

  lemma NameTags()
    ensures OpenTag("name") == NAME && CloseTag("name") == NAME_END
  {
  }

  /** A first end of a name in front of a description ends in front of it as well. */
  lemma NameEnds(xml: string)
    requires Find(xml, NAME_END, 0).Some?
    requires HasBoth(xml, OPEN, CLOSE) ==> Find(xml, NAME_END, 0).value < Find(xml, OPEN, 0).value
    ensures Changes(xml).Some? && Find(xml, NAME_END, 0).value + |NAME_END| <= Changes(xml).value
  {
    assert |NAME_END| == 7 && |OPEN| == 13;
  }

  /** The same for any pair of tags and any split of the text. */
  lemma InsertIff(p: string, s: string, d: string, open: string, close: string, xml: string)
    requires TagPair(open, close) && |open| + |close| < INSERT_BUFFER
    requires xml == p + s && !Occurs(xml, open) && !Occurs(xml, close)
    requires forall k :: 0 < k < |close| ==> !(close[k..] <= s)
    ensures var full := open + d + close;
            var element := if |full| < INSERT_BUFFER then full else full[..INSERT_BUFFER - 1];
            Between(p + element + s, open, close) == Some(d)
            <==> |d| <= INSERT_BUFFER - 1 - |open| - |close| && !Occurs(d, close)
  {
    InPrefix(p, s, open);
    var full := open + d + close;
    if |full| < INSERT_BUFFER {
      WholeRead(p, d, s, open, close);
    } else {
      var cut := full[..INSERT_BUFFER - 1];
      CutHasNoClose(p + cut, s, d, |p| + |open|, close, xml, p);
      CutNotRead(p, cut, s, d, open, close);
    }
  }

  lemma WholeRead(p: string, d: string, s: string, open: string, close: string)
    requires TagPair(open, close) && !Occurs(p, open)
    ensures Between(p + (open + d + close) + s, open, close) == Some(d) <==> !Occurs(d, close)
  {
    Regroup(p, open, d, close, s);
    FindAfter(p, open, d + close + s);
    UntilIff(p + open, d, s, close);
  }

  lemma Regroup(p: string, open: string, d: string, close: string, s: string)
    ensures p + (open + d + close) + s == p + (open + (d + close + s))
    ensures p + (open + d + close) + s == (p + open) + d + (close + s)
  {
    assert p + (open + d + close) + s == (p + open) + d + (close + s);
  }

  lemma CutNotRead(p: string, cut: string, s: string, d: string, open: string, close: string)
    requires HeadOnce(open) && !Occurs(p, open) && open <= cut
    requires !At(p + cut + s, |p| + |open| + |d|, close)
    ensures Between(p + cut + s, open, close) != Some(d)
  {
    var rest := cut[|open|..];
    assert cut == open + rest;
    assert p + cut + s == p + (open + (rest + s));
    FindAfter(p, open, rest + s);
  }

  /** In a text `head + s` whose cut-off part ends in front of `s`, no close tag stands right behind
      the place where `d` would end: it would be complete in `s`, or completed by `s`. */
  lemma CutHasNoClose(head: string, s: string, d: string, start: nat, close: string, xml: string, p: string)
    requires xml == p + s && !Occurs(xml, close)
    requires forall k :: 0 < k < |close| ==> !(close[k..] <= s)
    requires |head| < start + |d| + |close|
    ensures !At(head + s, start + |d|, close)
  {
    var at := start + |d|;
    if at >= |head| {
      AtSuffix(head, s, at - |head|, close);
      AtSuffix(p, s, at - |head|, close);
    } else if at + |close| <= |head + s| {
      var k := |head| - at;
      assert (head + s)[at..at + |close|][k..] == s[..|close| - k];
      assert !(close[k..] <= s);
    }
  }

  lemma InPrefix(p: string, s: string, pat: string)
    requires !Occurs(p + s, pat)
    ensures !Occurs(p, pat)
  {
    if Occurs(p, pat) {
      AtPrefix(p, s, Find(p, pat, 0).value, pat);
    }
  }
}
