/** A raw NVRAM whose path occurs in front of its element as well: lv_convert_nvram (src/libvirt_backend.c) rewrites
    the first occurrence.

    A path without angle brackets that starts with a slash cannot overlap the name of a tag or its end, so an earlier
    occurrence stands in front of the element or among its attributes.  A replacement there moves the element's
    content, and changes nothing in it. */
module NvramEarlier {
  import opened Nvram
  import opened Strings
  import opened Wrappers
  import opened XmlRead

  /** The search from `from` on hits at `i`. */
  ghost predicate Hits(s: string, pat: string, from: nat, i: nat) {
    from <= |s| && Find(s, pat, from) == Some(i)
  }

  /** The first NVRAM element of a text; its content stands from `gt + 1` to `end`. */
  ghost predicate Element(s: string, tag: nat, gt: nat, end: nat) {
    && !Occurs(s, BARE) && Hits(s, TAG, 0, tag) && Hits(s, ">", tag, gt)
    && gt + 1 <= end <= |s| && Hits(s, END, gt + 1, end)
  }

  function Content(s: string, gt: nat, end: nat): string {
    if gt + 1 <= end <= |s| then s[gt + 1..end] else ""
  }

  /** Text that neither is nor completes a tag. */
  predicate Inert(n: string) {
    n != "" && '<' !in n && '>' !in n && n[0] !in BARE && n[0] !in TAG
  }

  // A text Put(a, m, b) becomes Put(a, n, b).

  function Put(a: string, m: string, b: string): string {
    (a + m) + b
  }

  /** Behind the replaced part everything is found as before, only moved. */
  lemma FoundBehind(a: string, m: string, n: string, b: string, k: nat, pat: string, i: nat)
    requires k <= |b| && Hits(Put(a, m, b), pat, |a| + |m| + k, |a| + |m| + i)
    ensures Hits(Put(a, n, b), pat, |a| + |n| + k, |a| + |n| + i)
  {
    PutIs(a, m, b);
    PutIs(a, n, b);
    hide *;
    FoundMoved(a + m, a + n, b, k, pat, i);
  }

  lemma PutIs(a: string, m: string, b: string)
    ensures Put(a, m, b) == (a + m) + b && |a + m| == |a| + |m|
  {
  }

  lemma FoundMoved(am: string, an: string, b: string, k: nat, pat: string, i: nat)
    requires k <= |b| && Hits(am + b, pat, |am| + k, |am| + i)
    ensures Hits(an + b, pat, |an| + k, |an| + i)
  {
    FindShift(am, b, k, pat);
    FindShift(an, b, k, pat);
    hide Find;
  }

  lemma SameContent(a: string, m: string, n: string, b: string, y: nat, z: nat)
    requires y + 1 <= z <= |b|
    ensures |Put(a, n, b)| == |a| + |n| + |b|
    ensures Content(Put(a, n, b), |a| + |n| + y, |a| + |n| + z) == Content(Put(a, m, b), |a| + |m| + y, |a| + |m| + z)
  {
    var s, t := Put(a, m, b), Put(a, n, b);
    assert t[|a| + |n| + y + 1..|a| + |n| + z] == b[y + 1..z] == s[|a| + |m| + y + 1..|a| + |m| + z];
  }

  lemma LacksBare(a: string, m: string, b: string, n: string)
    requires !Occurs(Put(a, m, b), BARE) && Inert(n)
    ensures !Occurs(Put(a, n, b), BARE)
  {
    BareChars();
    var s := Put(a, m, b);
    HeadLacks(s, |a|, BARE);
    TailLacks(s, |a| + |m|, BARE);
    assert s[..|a|] == a && s[|a| + |m|..] == b;
    hide Occurs, BARE;
    JoinLacksByFirst(n, b, BARE);
    JoinLacksByHead(a, n + b, BARE);
    assert Put(a, n, b) == a + (n + b);
  }

  lemma TagChars()
    ensures |TAG| == 7 && TAG[0] == '<' && 'f' !in TAG && '/' !in TAG && 'f' !in BARE && '/' !in BARE
    ensures RAW[0] == 'f' && RAW2[0] == 'f' && '>' !in RAW && '>' !in RAW2 && |RAW| == |RAW2|
    ensures Inert(QCOW) && Inert(QCOW2)
  {
  }

  /** Nothing of the pattern starts in front of its first occurrence. */
  lemma HeadHasNone(a: string, rest: string, pat: string, at: nat)
    requires |a| <= at && Hits(a + rest, pat, 0, at) && pat != ""
    ensures !Occurs(a, pat)
  {
    if Occurs(a, pat) {
      AtPrefix(a, rest, Find(a, pat, 0).value, pat);
    }
  }

  lemma NoTagStarts(a: string, n: string, b: string)
    requires !Occurs(a, TAG) && Inert(n) && |TAG| > 0 && TAG[0] == '<'
    ensures forall i: nat :: i < |a| + |n| ==> !At(Put(a, n, b), i, TAG)
  {
    hide TAG, Occurs;
    var t := Put(a, n, b);
    assert t == a + (n + b);
    NoStartIn(a, n + b, TAG);
    forall i: nat | |a| <= i < |a| + |n| ensures !At(t, i, TAG) {
      CharIf(t, i, TAG, 0);
    }
  }

  lemma SkipTo(s: string, pat: string, from: nat, mid: nat, i: nat)
    requires from <= mid <= i && Hits(s, pat, from, i)
    ensures Hits(s, pat, mid, i)
  {
    FindIs(s, pat, mid, i);
  }

  /** The replaced part stands in front of the element. */
  lemma TagBehind(a: string, m: string, b: string, n: string, x: nat)
    requires Hits(Put(a, m, b), TAG, 0, |a| + |m| + x) && Inert(n)
    ensures Hits(Put(a, n, b), TAG, 0, |a| + |n| + x)
  {
    TagChars();
    hide *;
    Reassociate(a, m, b);
    HeadHasNone(a, m + b, TAG, |a| + |m| + x);
    SkipTo(Put(a, m, b), TAG, 0, |a| + |m|, |a| + |m| + x);
    FoundBehind(a, m, n, b, 0, TAG, x);
    SkipHead(a, n, b, x);
  }

  lemma SkipHead(a: string, n: string, b: string, x: nat)
    requires !Occurs(a, TAG) && Inert(n) && Hits(Put(a, n, b), TAG, |a| + |n|, |a| + |n| + x)
    ensures Hits(Put(a, n, b), TAG, 0, |a| + |n| + x)
  {
    TagChars();
    hide TAG, Inert, Occurs, Find;
    NoTagStarts(a, n, b);
    FindSkip(a + n, b, TAG);
  }

  lemma Reassociate(a: string, m: string, b: string)
    ensures Put(a, m, b) == a + (m + b)
  {
  }

  lemma TagStands(a: string, m: string, b: string, n: string, tag: nat)
    requires tag + |TAG| <= |a| && Hits(Put(a, m, b), TAG, 0, tag)
    ensures Hits(Put(a, n, b), TAG, 0, tag)
  {
    hide TAG;
    assert Put(a, n, b)[..|a|] == Put(a, m, b)[..|a|];
    PrefixSame(Put(a, m, b), Put(a, n, b), |a|, TAG, 0);
  }

  /** The replaced part stands among the attributes of the element's tag. */
  lemma GtBehind(a: string, m: string, b: string, n: string, tag: nat, y: nat)
    requires tag <= |a| && Hits(Put(a, m, b), ">", tag, |a| + |m| + y) && Inert(n)
    ensures Hits(Put(a, n, b), ">", tag, |a| + |n| + y)
  {
    InertIs(n);
    hide *;
    SkipTo(Put(a, m, b), ">", tag, |a| + |m|, |a| + |m| + y);
    FoundBehind(a, m, n, b, 0, ">", y);
    SkipTag(a, m, b, n, tag, y);
  }

  lemma InertIs(n: string)
    requires Inert(n)
    ensures '>' !in n
  {
  }

  lemma SkipTag(a: string, m: string, b: string, n: string, tag: nat, y: nat)
    requires tag <= |a| && Hits(Put(a, m, b), ">", tag, |a| + |m| + y) && '>' !in n
    requires Hits(Put(a, n, b), ">", |a| + |n|, |a| + |n| + y)
    ensures Hits(Put(a, n, b), ">", tag, |a| + |n| + y)
  {
    forall i: nat | tag <= i < |a| + |n| ensures !At(Put(a, n, b), i, ">") {
      NoGtAt(a, m, b, n, tag, |a| + |m| + y, i);
    }
    FindIs(Put(a, n, b), ">", tag, |a| + |n| + y);
  }

  lemma NoGtAt(a: string, m: string, b: string, n: string, tag: nat, gt: nat, i: nat)
    requires tag <= |a| && |a| + |m| <= gt && Hits(Put(a, m, b), ">", tag, gt) && '>' !in n && tag <= i < |a| + |n|
    ensures !At(Put(a, n, b), i, ">")
  {
    var s, t := Put(a, m, b), Put(a, n, b);
    CharIf(t, i, ">", 0);
    if i < |a| {
      assert t[i] == s[i] && !At(s, i, ">") && s[i..i + 1] == [s[i]];
    } else {
      assert t[i] == n[i - |a|];
    }
  }

  /** What stands behind the replaced part moves with it, so a text whose first tag ends with the moved '>' has the
      same content. */
  lemma ElementMoves(a: string, m: string, n: string, b: string, tag: nat, tag': nat, y: nat, z: nat)
    requires Element(Put(a, m, b), tag, |a| + |m| + y, |a| + |m| + z) && y + 1 <= z <= |b|
    requires !Occurs(Put(a, n, b), BARE) && Hits(Put(a, n, b), TAG, 0, tag')
    requires Hits(Put(a, n, b), ">", tag', |a| + |n| + y)
    ensures Element(Put(a, n, b), tag', |a| + |n| + y, |a| + |n| + z)
    ensures Content(Put(a, n, b), |a| + |n| + y, |a| + |n| + z) == Content(Put(a, m, b), |a| + |m| + y, |a| + |m| + z)
  {
    hide TAG, BARE, END, Occurs, Hits, Content, Put;
    FoundBehind(a, m, n, b, y + 1, END, z);
    SameContent(a, m, n, b, y, z);
  }

  /** A replacement in front of an element keeps its content. */
  lemma FrontKeeps(a: string, m: string, n: string, b: string, x: nat, y: nat, z: nat)
    requires Element(Put(a, m, b), |a| + |m| + x, |a| + |m| + y, |a| + |m| + z) && Inert(n)
    ensures Element(Put(a, n, b), |a| + |n| + x, |a| + |n| + y, |a| + |n| + z)
    ensures Content(Put(a, n, b), |a| + |n| + y, |a| + |n| + z) == Content(Put(a, m, b), |a| + |m| + y, |a| + |m| + z)
  {
    ElementSays(a, m, b, |a| + |m| + x, y, z);
    hide *;
    LacksBare(a, m, b, n);
    TagBehind(a, m, b, n, x);
    FoundBehind(a, m, n, b, x, ">", y);
    ElementMoves(a, m, n, b, |a| + |m| + x, |a| + |n| + x, y, z);
  }

  /** So does one among the attributes of its tag. */
  lemma InsideKeeps(a: string, m: string, n: string, b: string, tag: nat, y: nat, z: nat)
    requires Element(Put(a, m, b), tag, |a| + |m| + y, |a| + |m| + z) && Inert(n) && tag + |TAG| <= |a|
    ensures Element(Put(a, n, b), tag, |a| + |n| + y, |a| + |n| + z)
    ensures Content(Put(a, n, b), |a| + |n| + y, |a| + |n| + z) == Content(Put(a, m, b), |a| + |m| + y, |a| + |m| + z)
  {
    ElementSays(a, m, b, tag, y, z);
    hide *;
    LacksBare(a, m, b, n);
    TagStands(a, m, b, n, tag);
    GtBehind(a, m, b, n, tag, y);
    ElementMoves(a, m, n, b, tag, tag, y, z);
  }

  lemma ElementSays(a: string, m: string, b: string, tag: nat, y: nat, z: nat)
    requires Element(Put(a, m, b), tag, |a| + |m| + y, |a| + |m| + z)
    ensures !Occurs(Put(a, m, b), BARE) && Hits(Put(a, m, b), TAG, 0, tag) && Hits(Put(a, m, b), ">", tag, |a| + |m| + y)
    ensures y + 1 <= z <= |b| && tag <= |a| + |m| + y
  {
  }

  // ----- what the conversion then leaves in the element -----

  lemma ContentRead(s: string, tag: nat, gt: nat, end: nat)
    requires Element(s, tag, gt, end)
    ensures ExtractExt(s, "nvram") == Some(Content(s, gt, end))
  {
    Patterns();
    hide TAG, BARE, END, Occurs, Find, ElementText;
    ElementTextIs(s, BARE, TAG, END, tag, gt, end);
  }

  lemma RawPlace(t: string, tag: nat, gt: nat, raw: string, at: nat)
    requires Hits(t, TAG, 0, tag) && Hits(t, ">", tag, gt) && tag <= at < gt && At(t, at, raw)
    requires raw != "" && raw[0] == 'f' && '>' !in raw
    ensures tag + |TAG| <= at && at + |raw| <= gt
  {
    TagChars();
    AtChar(t, at, raw, 0);
    CharIf(t, at, raw, gt - at);
    AtChar(t, gt, ">", 0);
    if at < tag + |TAG| {
      AtChar(t, tag, TAG, at - tag);
    }
  }

  lemma FormatPlace(t: string, tag: nat, gt: nat)
    requires Hits(t, TAG, 0, tag) && Hits(t, ">", tag, gt) && RawFormat(t).Some?
    ensures var (at, text) := RawFormat(t).value; tag + |TAG| <= at && at + |RAW| <= gt < |t| && Inert(text)
  {
    TagChars();
    hide TAG, QCOW, QCOW2, Inert;
    RawPlace(t, tag, gt, if Find(t, RAW, tag).Some? then RAW else RAW2, RawFormat(t).value.0);
  }

  function Replaced(t: string, at: nat, m: nat, text: string): string
    requires at + m <= |t|
  {
    t[..at] + text + t[at + m..]
  }

  lemma CutOut(t: string, at: nat, m: nat, text: string) returns (a: string, was: string, b: string)
    requires at + m <= |t|
    ensures t == Put(a, was, b) && |a| == at && |was| == m && Replaced(t, at, m, text) == Put(a, text, b)
    ensures |b| == |t| - at - m
  {
    a, was, b := t[..at], t[at..at + m], t[at + m..];
  }

  lemma ReplaceInside(t: string, at: nat, m: nat, text: string, tag: nat, gt: nat, end: nat)
    requires Element(t, tag, gt, end) && Inert(text) && tag + |TAG| <= at && at + m <= gt && gt + 1 <= end <= |t|
    ensures var r := Replaced(t, at, m, text); var y, z := gt - m + |text|, end - m + |text|;
            Element(r, tag, y, z) && Content(r, y, z) == Content(t, gt, end)
  {
    hide *;
    var a, was, b := CutOut(t, at, m, text);
    InsideKeeps(a, was, text, b, tag, gt - at - m, end - at - m);
  }

  lemma ReplaceInFront(t: string, at: nat, m: nat, text: string, tag: nat, gt: nat, end: nat)
    requires Element(t, tag, gt, end) && Inert(text) && at + m <= tag <= gt && gt + 1 <= end <= |t|
    ensures var r := Replaced(t, at, m, text); var y, z := gt - m + |text|, end - m + |text|;
            Element(r, tag - m + |text|, y, z) && Content(r, y, z) == Content(t, gt, end)
  {
    hide *;
    var a, was, b := CutOut(t, at, m, text);
    FrontKeeps(a, was, text, b, tag - at - m, gt - at - m, end - at - m);
  }

  /** The format is rewritten among the attributes, so the content stays. */
  lemma FormatKeeps(t: string, tag: nat, gt: nat, end: nat)
    requires Element(t, tag, gt, end)
    ensures ExtractExt(FormatRewritten(t), "nvram") == Some(Content(t, gt, end))
  {
    hide *;
    ElementEnds(t, tag, gt, end);
    if RawFormat(t).None? {
      FormatStays(t);
      ContentRead(t, tag, gt, end);
    } else {
      var (at, text) := RawFormat(t).value;
      FormatPlace(t, tag, gt);
      RewrittenIs(t, at, text);
      ReplaceInside(t, at, |RAW|, text, tag, gt, end);
      ContentRead(FormatRewritten(t), tag, gt - |RAW| + |text|, end - |RAW| + |text|);
    }
  }

  lemma FormatStays(t: string)
    requires RawFormat(t) == None
    ensures FormatRewritten(t) == t
  {
  }

  lemma ElementEnds(t: string, tag: nat, gt: nat, end: nat)
    requires Element(t, tag, gt, end)
    ensures tag <= gt && gt + 1 <= end <= |t| && Hits(t, TAG, 0, tag) && Hits(t, ">", tag, gt)
  {
  }

  lemma RewrittenIs(t: string, at: nat, text: string)
    requires RawFormat(t) == Some((at, text))
    ensures at + |RAW| <= |t| && FormatRewritten(t) == Replaced(t, at, |RAW|, text)
  {
    hide RawFormat, RAW;
  }

  // ----- the path in front of its element -----

  /** An absolute path without angle brackets. */
  predicate Absolute(path: string) {
    path != "" && path[0] == '/' && '<' !in path && '>' !in path
  }

  lemma NewPathIsInert(path: string)
    requires Absolute(path) && |path| + |EXT| < PATH_MAX
    ensures Inert(Qcow2Path(path))
  {
    TagChars();
    assert '<' !in EXT && '>' !in EXT && |EXT| > 0;
    var dot := LastDot(path);
    assert dot.Some? ==> dot.value > 0;
    var stem := match dot case Some(k) => path[..k] case None => path;
    assert stem != "" && stem[0] == '/' && '<' !in stem && '>' !in stem;
    hide TAG, BARE, EXT;
    assert Qcow2Path(path) == stem + EXT;
  }

  /** An earlier occurrence stands wholly in front of the tag, or among its attributes. */
  lemma EarlierPlace(s: string, path: string, j: nat, tag: nat, gt: nat)
    requires Hits(s, TAG, 0, tag) && Hits(s, ">", tag, gt) && At(s, j, path) && Absolute(path) && j <= gt
    ensures j + |path| <= tag || (tag + |TAG| <= j && j + |path| <= gt)
  {
    TagChars();
    AtChar(s, j, path, 0);
    AtChar(s, tag, TAG, 0);
    AtChar(s, gt, ">", 0);
    CharIf(s, j, path, if j <= tag then tag - j else 0);
    CharIf(s, j, path, gt - j);
    CharIf(s, tag, TAG, if j >= tag then j - tag else 0);
  }

  /** Then the element keeps the old path. */
  lemma EarlierKeeps(xml: string, path: string, tag: nat, gt: nat, end: nat, j: nat)
    requires Element(xml, tag, gt, end) && Content(xml, gt, end) == path && Absolute(path)
    requires |path| + |EXT| < PATH_MAX && Hits(xml, path, 0, j) && j <= gt
    ensures ExtractExt(FormatRewritten(PathRewritten(xml, path)), "nvram") == Some(path)
  {
    hide *;
    ElementEnds(xml, tag, gt, end);
    HitStands(xml, path, j);
    EarlierPlace(xml, path, j, tag, gt);
    PathReplaced(xml, path, j);
    NewPathIsInert(path);
    var d := |Qcow2Path(path)|;
    if j + |path| <= tag {
      ReplaceInFront(xml, j, |path|, Qcow2Path(path), tag, gt, end);
      FormatKeeps(PathRewritten(xml, path), tag - |path| + d, gt - |path| + d, end - |path| + d);
    } else {
      ReplaceInside(xml, j, |path|, Qcow2Path(path), tag, gt, end);
      FormatKeeps(PathRewritten(xml, path), tag, gt - |path| + d, end - |path| + d);
    }
  }

  lemma RawIsElement(xml: string, q: Parts)
    requires RawElement(xml, q)
    ensures Ordered(xml, q) && Element(xml, q.tag, q.gt, q.end) && Content(xml, q.gt, q.end) == PathIn(xml, q)
    ensures |PathIn(xml, q)| + |EXT| < PATH_MAX
  {
  }

  lemma HitStands(s: string, pat: string, j: nat)
    requires Hits(s, pat, 0, j)
    ensures At(s, j, pat) && j + |pat| <= |s|
  {
  }

  lemma PathReplaced(xml: string, path: string, j: nat)
    requires Hits(xml, path, 0, j)
    ensures j + |path| <= |xml| && PathRewritten(xml, path) == Replaced(xml, j, |path|, Qcow2Path(path))
  {
    hide Qcow2Path;
  }

  lemma ConvertRaw(xml: string, q: Parts)
    requires RawElement(xml, q)
    ensures Convert(xml) == Rewritten(FormatRewritten(PathRewritten(xml, PathIn(xml, q))))
  {
    ReadsRaw(xml, q);
    assert PathIn(xml, q) != "";
    hide ExtractExt, ExtractAttr, PathRewritten, FormatRewritten, RawElement, PathIn;
  }

  lemma PathIsFound(xml: string, q: Parts) returns (j: nat)
    requires RawElement(xml, q)
    ensures Hits(xml, PathIn(xml, q), 0, j) && j <= q.gt + 1
  {
    assert At(xml, q.gt + 1, PathIn(xml, q));
    OccursAt(xml, q.gt + 1, PathIn(xml, q));
    j := Find(xml, PathIn(xml, q), 0).value;
  }

  lemma OwnReadsBack(xml: string, q: Parts)
    requires RawNvram(xml, q)
    ensures Ordered(xml, q) && Convert(xml).Rewritten?
    ensures ExtractExt(Convert(xml).xml, "nvram") == Some(Qcow2Path(PathIn(xml, q)))
  {
    RawNvramSays(xml, q);
    hide *;
    ConvertThenRead(xml, q);
  }

  lemma EarlierReadsOld(xml: string, q: Parts, j: nat)
    requires RawElement(xml, q) && Absolute(PathIn(xml, q)) && Hits(xml, PathIn(xml, q), 0, j) && j <= q.gt
    ensures Convert(xml).Rewritten? && ExtractExt(Convert(xml).xml, "nvram") == Some(PathIn(xml, q))
  {
    RawIsElement(xml, q);
    hide *;
    ConvertRaw(xml, q);
    EarlierKeeps(xml, PathIn(xml, q), q.tag, q.gt, q.end, j);
  }

  /** Reading the result gives the .qcow2 path if and only if the first occurrence of the path is the element's own,
      or the path ends in .qcow2 already. */
  lemma ReadsBackIff(xml: string, q: Parts)
    requires RawElement(xml, q) && Absolute(PathIn(xml, q))
    ensures Convert(xml).Rewritten?
    ensures var path := PathIn(xml, q);
            ExtractExt(Convert(xml).xml, "nvram") == Some(Qcow2Path(path))
            <==> Hits(xml, path, 0, q.gt + 1) || Qcow2Path(path) == path
  {
    RawIsElement(xml, q);
    OwnIsRaw(xml, q);
    hide *;
    var j := PathIsFound(xml, q);
    HitsOnce(xml, PathIn(xml, q), j, q.gt + 1);
    if j == q.gt + 1 {
      OwnReadsBack(xml, q);
    } else {
      EarlierReadsOld(xml, q, j);
    }
  }

  lemma OwnIsRaw(xml: string, q: Parts)
    requires RawElement(xml, q)
    ensures Hits(xml, PathIn(xml, q), 0, q.gt + 1) <==> RawNvram(xml, q)
  {
  }

  lemma HitsOnce(s: string, pat: string, i: nat, j: nat)
    requires Hits(s, pat, 0, i)
    ensures Hits(s, pat, 0, j) <==> i == j
  {
  }
}
