/** lv_convert_nvram (src/libvirt_backend.c) on the two other forms of an NVRAM element: without attributes, where there
    is no format to rewrite and none to tell a second conversion to stop, and with a format in double quotes, which is
    rewritten in double quotes.

    Both proofs follow the text from the front: what stands up to the '>' of the tag is the same before and after, so
    the tag is found in the same place, and what stands behind the path is only moved. */
module NvramForms {
  import opened Nvram
  import opened NvramEarlier
  import opened Strings
  import opened Wrappers
  import opened XmlRead

  // ----- without attributes -----

  /** One <nvram>path</nvram> whose path holds no '<' and occurs nowhere earlier in the text. */
  ghost predicate BareElement(xml: string, i: nat, end: nat) {
    && Hits(xml, BARE, 0, i) && i + |BARE| < end <= |xml| && Hits(xml, END, i + |BARE|, end) && !Occurs(xml, TAG)
    && '<' !in xml[i + |BARE|..end] && Hits(xml, xml[i + |BARE|..end], 0, i + |BARE|)
    && end - i + |EXT| < PATH_MAX
  }

  function BarePath(xml: string, i: nat, end: nat): string
    requires i + |BARE| < end <= |xml|
  {
    xml[i + |BARE|..end]
  }

  function BareConverted(xml: string, i: nat, end: nat): string
    requires i + |BARE| < end <= |xml|
  {
    xml[..i + |BARE|] + Qcow2Path(BarePath(xml, i, end)) + xml[end..]
  }

  lemma BareSays(xml: string, i: nat, end: nat)
    requires BareElement(xml, i, end)
    ensures i + |BARE| < end <= |xml| && Hits(xml, BARE, 0, i) && Hits(xml, END, i + |BARE|, end) && !Occurs(xml, TAG)
    ensures var path := BarePath(xml, i, end);
            path != "" && '<' !in path && Hits(xml, path, 0, i + |BARE|) && |path| + |EXT| < PATH_MAX
            && i + |BARE| + |path| == end
  {
  }

  lemma BareReads(xml: string, i: nat, end: nat)
    requires i + |BARE| <= end <= |xml| && Hits(xml, BARE, 0, i) && Hits(xml, END, i + |BARE|, end)
    ensures ExtractExt(xml, "nvram") == Some(xml[i + |BARE|..end])
  {
    Patterns();
    hide BARE, END, TAG, Find;
  }

  lemma NoAttr(xml: string)
    requires !Occurs(xml, TAG)
    ensures ExtractAttr(xml, "nvram", "format") == None && FormatRewritten(xml) == xml
  {
    Patterns();
    hide TAG;
  }

  lemma BareTagChars()
    ensures |BARE| == 7 && BARE[6] == '>' && (forall k :: 0 <= k < |TAG| - 1 ==> TAG[k] != '>') && |TAG| > 0 && TAG[0] == '<'
    ensures HeadOnce(END) && END[0] == '<'
  {
  }

  /** The new text has still no tag with attributes. */
  lemma BareStays(xml: string, i: nat, end: nat)
    requires BareElement(xml, i, end)
    ensures i + |BARE| < end <= |xml| && !Occurs(BareConverted(xml, i, end), TAG)
  {
    BareSays(xml, i, end);
    BareTagChars();
    var a, n, b := xml[..i + |BARE|], Qcow2Path(BarePath(xml, i, end)), xml[end..];
    AtChar(xml, i, BARE, 6);
    HeadLacks(xml, i + |BARE|, TAG);
    TailLacks(xml, end, TAG);
    PathKeepsOutTags(BarePath(xml, i, end));
    assert a[|a| - 1] == '>';
    hide TAG, BARE, Qcow2Path, Occurs, BareElement;
    JoinLacksByFirst(n, b, TAG);
    JoinLacksByLast(a, n + b, TAG);
    assert a + (n + b) == BareConverted(xml, i, end);
  }

  /** The path is replaced and all other text stays; there is no format to rewrite. */
  lemma BareConvertIs(xml: string, i: nat, end: nat)
    requires BareElement(xml, i, end)
    ensures i + |BARE| < end <= |xml| && Convert(xml) == Rewritten(BareConverted(xml, i, end))
  {
    BareSays(xml, i, end);
    var path := BarePath(xml, i, end);
    BarePathRewritten(xml, i, end);
    hide *;
    BareStays(xml, i, end);
    BareReads(xml, i, end);
    NoAttr(xml);
    NoAttr(BareConverted(xml, i, end));
    ConvertPath(xml, path, BareConverted(xml, i, end));
  }

  lemma BarePathRewritten(xml: string, i: nat, end: nat)
    requires i + |BARE| < end <= |xml| && Hits(xml, BarePath(xml, i, end), 0, i + |BARE|)
    ensures PathRewritten(xml, BarePath(xml, i, end)) == BareConverted(xml, i, end)
  {
    hide BARE, Qcow2Path, Hits, Occurs;
    PathReplaced(xml, BarePath(xml, i, end), i + |BARE|);
  }

  lemma ConvertPath(xml: string, path: string, text: string)
    requires ExtractExt(xml, "nvram") == Some(path) && path != "" && ExtractAttr(xml, "nvram", "format") == None
    requires PathRewritten(xml, path) == text && FormatRewritten(text) == text
    ensures Convert(xml) == Rewritten(text)
  {
    hide ExtractExt, ExtractAttr, PathRewritten, FormatRewritten;
  }

  lemma {:induction false} LastDotIs(s: string, k: nat)
    requires k < |s| && s[k] == '.' && forall i :: k < i < |s| ==> s[i] != '.'
    ensures LastDot(s) == Some(k)
  {
    if k + 1 < |s| {
      LastDotIs(s[..|s| - 1], k);
    }
  }

  /** A .qcow2 path keeps its name. */
  lemma Qcow2PathStays(path: string)
    requires |path| + |EXT| < PATH_MAX
    ensures Qcow2Path(Qcow2Path(path)) == Qcow2Path(path)
  {
    var stem := match LastDot(path) case Some(k) => path[..k] case None => path;
    var full := stem + EXT;
    assert EXT[0] == '.' && |EXT| == 6 && forall i :: 0 < i < 6 ==> EXT[i] != '.';
    hide EXT;
    LastDotIs(full, |stem|);
    assert full[..|stem|] == stem;
  }

  /** Reading the result gives the .qcow2 path.  As nothing says qcow2 in the text, another conversion goes through the
      whole rewrite again, and changes nothing. */
  lemma BareConvertsAgain(xml: string, i: nat, end: nat)
    requires BareElement(xml, i, end)
    ensures i + |BARE| < end <= |xml|
    ensures var text := BareConverted(xml, i, end);
            ExtractExt(text, "nvram") == Some(Qcow2Path(BarePath(xml, i, end))) && Convert(text) == Rewritten(text)
  {
    BareSays(xml, i, end);
    BareStays(xml, i, end);
    var path, text := BarePath(xml, i, end), BareConverted(xml, i, end);
    BareFound(xml, i, end);
    PathGrows(path);
    Qcow2PathStays(path);
    hide *;
    BareReadBack(xml, i, end);
    NoAttr(text);
    SameRewritten(text, Qcow2Path(path));
    ConvertPath(text, Qcow2Path(path), text);
  }

  lemma SameRewritten(text: string, path: string)
    requires Qcow2Path(path) == path
    ensures PathRewritten(text, path) == text
  {
    hide Qcow2Path;
    match Find(text, path, 0)
    case None =>
    case Some(i) => assert text[..i] + path + text[i + |path|..] == text;
  }

  /** Where the tags of the result stand. */
  lemma BareFound(xml: string, i: nat, end: nat)
    requires BareElement(xml, i, end)
    ensures i + |BARE| < end <= |xml|
    ensures var text := BareConverted(xml, i, end); var n := |Qcow2Path(BarePath(xml, i, end))|;
            Hits(text, BARE, 0, i) && Hits(text, END, i + |BARE|, i + |BARE| + n) && |text| == |xml| - (end - i - |BARE|) + n
  {
    hide *;
    BareTags(xml, i, end);
    BareHits(xml, i, end, Qcow2Path(BarePath(xml, i, end)));
  }

  lemma BareTags(xml: string, i: nat, end: nat)
    requires BareElement(xml, i, end)
    ensures i + |BARE| < end <= |xml| && Hits(xml, BARE, 0, i) && Hits(xml, END, i + |BARE|, end)
    ensures '<' !in Qcow2Path(BarePath(xml, i, end))
  {
    BareSays(xml, i, end);
    hide BareElement, Qcow2Path, Hits, BARE, END, Occurs;
    PathKeepsOutTags(BarePath(xml, i, end));
  }

  lemma BareHits(xml: string, i: nat, end: nat, q: string)
    requires i + |BARE| < end <= |xml| && Hits(xml, BARE, 0, i) && Hits(xml, END, i + |BARE|, end)
    requires q == Qcow2Path(BarePath(xml, i, end)) && '<' !in q
    ensures var text := BareConverted(xml, i, end);
            Hits(text, BARE, 0, i) && Hits(text, END, i + |BARE|, i + |BARE| + |q|)
            && |text| == |xml| - (end - i - |BARE|) + |q|
  {
    BareTagChars();
    hide *;
    EndStands(xml, END, i + |BARE|, end);
    var a, b := BareCut(xml, i, end);
    TagBefore(xml, a, q, b, BARE, i);
    EndBehind(a, q, b, END);
  }

  lemma BareCut(xml: string, i: nat, end: nat) returns (a: string, b: string)
    requires i + |BARE| < end <= |xml|
    ensures a == xml[..i + |BARE|] && b == xml[end..] && |a| == i + |BARE| && |b| == |xml| - end
    ensures BareConverted(xml, i, end) == Put(a, Qcow2Path(BarePath(xml, i, end)), b)
  {
    hide BARE, Qcow2Path;
    a, b := xml[..i + |BARE|], xml[end..];
  }

  lemma TagBefore(s: string, a: string, q: string, b: string, pat: string, i: nat)
    requires i + |pat| == |a| <= |s| && a == s[..|a|] && Hits(s, pat, 0, i)
    ensures Hits(Put(a, q, b), pat, 0, i) && |Put(a, q, b)| == |a| + |q| + |b|
  {
    assert Put(a, q, b)[..|a|] == s[..|a|];
    PrefixSame(s, Put(a, q, b), |a|, pat, 0);
  }

  lemma EndBehind(a: string, q: string, b: string, pat: string)
    requires At(b, 0, pat) && pat != "" && pat[0] !in q
    ensures Hits(Put(a, q, b), pat, |a|, |a| + |q|)
  {
    var t := Put(a, q, b);
    assert t == (a + q) + b;
    AtBehind(a + q, b, pat);
    forall k: nat | |a| <= k < |a| + |q| ensures !At(t, k, pat) {
      CharIf(t, k, pat, 0);
    }
    FindIs(t, pat, |a|, |a| + |q|);
  }

  lemma AtBehind(p: string, b: string, pat: string)
    requires At(b, 0, pat)
    ensures At(p + b, |p|, pat)
  {
    assert (p + b)[|p|..|p| + |pat|] == b[..|pat|];
  }

  lemma EndStands(s: string, pat: string, from: nat, at: nat)
    requires Hits(s, pat, from, at)
    ensures at <= |s| && At(s[at..], 0, pat)
  {
    assert s[at..][..|pat|] == s[at..at + |pat|];
  }

  lemma BareReadBack(xml: string, i: nat, end: nat)
    requires i + |BARE| < end <= |xml|
    requires var text := BareConverted(xml, i, end); var n := |Qcow2Path(BarePath(xml, i, end))|;
             Hits(text, BARE, 0, i) && Hits(text, END, i + |BARE|, i + |BARE| + n)
             && |text| == |xml| - (end - i - |BARE|) + n
    ensures ExtractExt(BareConverted(xml, i, end), "nvram") == Some(Qcow2Path(BarePath(xml, i, end)))
  {
    var text, q := BareConverted(xml, i, end), Qcow2Path(BarePath(xml, i, end));
    assert text[i + |BARE|..i + |BARE| + |q|] == q;
    hide *;
    BareReads(text, i, i + |BARE| + |q|);
  }

  // ----- with a double-quoted format -----

  const KEY2 := "format=\""

  /** From `from` on no format is in single quotes. */
  ghost predicate Keyless(s: string, from: nat) {
    from <= |s| && !Occurs(s[from..], KEY)
  }

  /** One <nvram ... format="raw" ...>path</nvram>: behind its tag no format is in single quotes, the path holds no '<'
      and occurs nowhere earlier. */
  ghost predicate DoubleQuoted(xml: string, q: Parts) {
    && Ordered(xml, q) && !Occurs(xml, BARE) && Hits(xml, TAG, 0, q.tag) && Hits(xml, ">", q.tag, q.gt)
    && Keyless(xml, q.tag) && Hits(xml, KEY2, q.tag, q.format) && At(xml, q.format, RAW2)
    && Hits(xml, END, q.gt + 1, q.end)
    && '<' !in PathIn(xml, q) && |PathIn(xml, q)| + |EXT| < PATH_MAX && Hits(xml, PathIn(xml, q), 0, q.gt + 1)
  }

  function DoubleConverted(xml: string, q: Parts): string
    requires Ordered(xml, q)
  {
    Front(xml, q) + QCOW2 + Middle(xml, q) + Qcow2Path(PathIn(xml, q)) + Back(xml, q)
  }

  lemma Patterns2()
    ensures "format" + "=\"" == KEY2 && KEY2 + ("raw" + "\"") == RAW2 && KEY2 + ("qcow2" + "\"") == QCOW2
    ensures |KEY2| == 8 && |RAW2| == |RAW| && |RAW2| > 0 && RAW2[0] == 'f' && KEY <= RAW
    ensures |QCOW2| > 0 && QCOW2[0] == 'f' && QCOW2[|QCOW2| - 1] == '"' && !Occurs(QCOW2, KEY)
  {
    Patterns();
    assert '\'' !in QCOW2 && KEY[7] == '\'';
    if Occurs(QCOW2, KEY) {
      AtChar(QCOW2, Find(QCOW2, KEY, 0).value, KEY, 7);
    }
  }

  lemma KeyChars()
    ensures |KEY| == 8 && KEY[0] == 'f' && '<' !in KEY && '>' !in KEY && '.' !in KEY && '"' !in KEY && '\'' !in KEY2
    ensures forall k :: 1 <= k < |KEY| ==> KEY[k] != 'f'
    ensures |EXT| > 0 && EXT[0] == '.' && 'f' !in EXT
  {
  }

  lemma NoKeyFrom(s: string, from: nat)
    requires Keyless(s, from)
    ensures Find(s, KEY, from) == None
  {
    hide KEY;
    FindShift(s[..from], s[from..], 0, KEY);
    assert s == s[..from] + s[from..];
  }

  lemma Qcow2PathLacksKey(path: string)
    requires !Occurs(path, KEY) && |path| + |EXT| < PATH_MAX
    ensures !Occurs(Qcow2Path(path), KEY)
  {
    KeyChars();
    var stem := match LastDot(path) case Some(k) => path[..k] case None => path;
    HeadLacks(path, |stem|, KEY);
    assert path[..|stem|] == stem;
    assert Qcow2Path(path) == stem + EXT;
    hide Occurs, KEY, EXT;
    LacksByChar(EXT, KEY);
    JoinLacksByHead(stem, EXT, KEY);
  }

  /** Three texts without the key, the first ending with '>' and the last starting with '<'. */
  lemma KeyJoins(a: string, n: string, b: string)
    requires !Occurs(a, KEY) && !Occurs(n, KEY) && !Occurs(b, KEY)
    requires a != "" && a[|a| - 1] == '>' && b != "" && b[0] == '<'
    ensures !Occurs(a + n + b, KEY)
  {
    KeyChars();
    hide Occurs, KEY;
    JoinLacksByLast(a, n, KEY);
    JoinLacksByHead(a + n, b, KEY);
  }

  lemma DoubleSays(xml: string, q: Parts)
    requires DoubleQuoted(xml, q)
    ensures Ordered(xml, q) && !Occurs(xml, BARE) && Hits(xml, TAG, 0, q.tag) && Hits(xml, ">", q.tag, q.gt)
    ensures Keyless(xml, q.tag) && Hits(xml, KEY2, q.tag, q.format) && At(xml, q.format, RAW2)
    ensures Hits(xml, END, q.gt + 1, q.end) && Hits(xml, PathIn(xml, q), 0, q.gt + 1)
    ensures '<' !in PathIn(xml, q) && PathIn(xml, q) != "" && |PathIn(xml, q)| + |EXT| < PATH_MAX
    ensures q.tag <= q.format <= q.gt < q.end && |Front(xml, q)| == q.format
  {
  }

  lemma DoubleEnds(xml: string, q: Parts)
    requires DoubleQuoted(xml, q)
    ensures xml[q.gt] == '>' && q.end < |xml| && xml[q.end] == '<'
  {
    BareTagChars();
    AtChar(xml, q.gt, ">", 0);
    AtChar(xml, q.end, END, 0);
  }

  /** With new text behind a '>' and in front of a '<' there is still no format in single quotes. */
  lemma KeyStaysOut(s: string, tag: nat, g: nat, e: nat, n: string)
    requires tag < g <= e < |s| && s[g - 1] == '>' && s[e] == '<' && Keyless(s, tag) && !Occurs(n, KEY)
    ensures Keyless(s[..g] + n + s[e..], tag)
  {
    var rest := s[tag..];
    var a, b := rest[..g - tag], rest[e - tag..];
    hide Occurs, KEY;
    HeadLacks(rest, g - tag, KEY);
    TailLacks(rest, e - tag, KEY);
    KeyJoins(a, n, b);
    assert (s[..g] + n + s[e..])[tag..] == a + n + b;
  }

  lemma PathLacksKey(xml: string, q: Parts)
    requires Ordered(xml, q) && Keyless(xml, q.tag)
    ensures !Occurs(PathIn(xml, q), KEY)
  {
    hide Occurs, KEY;
    PartLacks(xml[q.tag..], q.gt + 1 - q.tag, q.end - q.tag, KEY);
    SliceOf(xml, q.tag, q.gt + 1, q.end);
  }

  lemma SliceOf(s: string, i: nat, j: nat, k: nat)
    requires i <= j <= k <= |s|
    ensures s[i..][j - i..k - i] == s[j..k]
  {
  }

  lemma WithPathKeyless(xml: string, q: Parts)
    requires Ordered(xml, q) && Keyless(xml, q.tag) && !Occurs(Qcow2Path(PathIn(xml, q)), KEY)
    requires xml[q.gt] == '>' && q.end < |xml| && xml[q.end] == '<'
    ensures Keyless(WithPath(xml, q), q.tag)
  {
    hide Qcow2Path, PathIn, Occurs, Keyless, KEY;
    KeyStaysOut(xml, q.tag, q.gt + 1, q.end, Qcow2Path(PathIn(xml, q)));
  }

  lemma WithPathLacksKey(xml: string, q: Parts)
    requires DoubleQuoted(xml, q)
    ensures Ordered(xml, q) && Keyless(WithPath(xml, q), q.tag)
  {
    DoubleSays(xml, q);
    DoubleEnds(xml, q);
    hide *;
    PathLacksKey(xml, q);
    Qcow2PathLacksKey(PathIn(xml, q));
    WithPathKeyless(xml, q);
  }

  ghost predicate SameStart(s: string, t: string, n: nat) {
    n <= |s| && n <= |t| && s[..n] == t[..n]
  }

  /** In a text that agrees with the old one through the '>', the double-quoted format is found. */
  lemma RawFormatDouble(xml: string, text: string, tag: nat, gt: nat, at: nat)
    requires Hits(xml, TAG, 0, tag) && Hits(xml, ">", tag, gt) && Hits(xml, KEY2, tag, at) && At(xml, at, RAW2)
    requires at + |RAW2| <= gt && SameStart(xml, text, gt + 1) && tag + |TAG| <= gt && Keyless(text, tag)
    ensures RawFormat(text) == Some((at, QCOW2))
  {
    RawFormatSize();
    hide *;
    FirstRaw2(xml, tag, at);
    NoRawFrom(text, tag);
    HitStays(xml, text, gt + 1, TAG, 0, tag);
    HitStays(xml, text, gt + 1, ">", tag, gt);
    HitStays(xml, text, gt + 1, RAW2, tag, at);
    RawFormatIs2(text, tag, gt, at);
  }

  lemma RawFormatSize()
    ensures |RAW2| > 0 && |">"| == 1
  {
  }

  lemma NoRawFrom(s: string, from: nat)
    requires Keyless(s, from)
    ensures from <= |s| && Find(s, RAW, from) == None
  {
    Patterns2();
    NoKeyFrom(s, from);
    hide KEY, RAW, Find, Occurs;
    NoLonger(s, from, KEY, RAW);
  }

  lemma HitStays(s: string, t: string, n: nat, pat: string, from: nat, i: nat)
    requires SameStart(s, t, n) && Hits(s, pat, from, i) && i + |pat| <= n
    ensures Hits(t, pat, from, i)
  {
    PrefixSame(s, t, n, pat, from);
  }

  lemma RawFormatIs2(text: string, tag: nat, gt: nat, at: nat)
    requires Hits(text, TAG, 0, tag) && Hits(text, ">", tag, gt) && tag <= |text| && Find(text, RAW, tag) == None
    requires Hits(text, RAW2, tag, at) && at < gt
    ensures RawFormat(text) == Some((at, QCOW2))
  {
    hide TAG, RAW, RAW2, QCOW2, Find;
  }

  lemma FirstRaw2(xml: string, tag: nat, at: nat)
    requires Hits(xml, KEY2, tag, at) && At(xml, at, RAW2)
    ensures Hits(xml, RAW2, tag, at)
  {
    Patterns2();
    forall i: nat | tag <= i < at ensures !At(xml, i, RAW2) {
      AtConcat(xml, i, KEY2, "raw" + "\"");
    }
    FindIs(xml, RAW2, tag, at);
  }

  lemma NoLonger(s: string, from: nat, short: string, pat: string)
    requires from <= |s| && Find(s, short, from) == None && short <= pat
    ensures Find(s, pat, from) == None
  {
    forall i: nat | from <= i ensures !At(s, i, pat) {
      assert pat == short + pat[|short|..];
      AtConcat(s, i, short, pat[|short|..]);
    }
    FindNone(s, pat, from);
  }

  lemma ReadsDouble(xml: string, q: Parts)
    requires Ordered(xml, q) && !Occurs(xml, BARE) && Hits(xml, TAG, 0, q.tag) && Hits(xml, ">", q.tag, q.gt)
    requires Hits(xml, END, q.gt + 1, q.end)
    ensures ExtractExt(xml, "nvram") == Some(PathIn(xml, q))
  {
    Patterns();
    hide TAG, BARE, END, Occurs, Find, ElementText;
    ElementTextIs(xml, BARE, TAG, END, q.tag, q.gt, q.end);
  }

  /** The format reads as what stands in double quotes. */
  lemma AttrDouble(xml: string, tag: nat, at: nat, value: string)
    requires Hits(xml, TAG, 0, tag) && tag <= |xml| && Keyless(xml, tag) && Hits(xml, KEY2, tag, at)
    requires At(xml, at, KEY2 + (value + "\"")) && '"' !in value
    ensures ExtractAttr(xml, "nvram", "format") == Some(value)
  {
    Patterns();
    Patterns2();
    NoKeyFrom(xml, tag);
    hide TAG, KEY, KEY2, Occurs, Find, AttrText;
    AttrTextDouble(xml, TAG, KEY, KEY2, tag, at, value);
  }

  lemma PathIsReplaced(xml: string, q: Parts)
    requires Ordered(xml, q) && Hits(xml, PathIn(xml, q), 0, q.gt + 1)
    ensures PathRewritten(xml, PathIn(xml, q)) == WithPath(xml, q)
  {
    hide Qcow2Path, PathIn, Find;
    PathLength(xml, q);
  }

  lemma DoubleFormatRewritten(xml: string, q: Parts)
    requires Ordered(xml, q) && RawFormat(WithPath(xml, q)) == Some((q.format, QCOW2))
    ensures FormatRewritten(WithPath(xml, q)) == DoubleConverted(xml, q)
  {
    hide RawFormat, Qcow2Path, Find, PathIn, RAW, QCOW2;
    TwoReplacements(xml, q.format, |RAW|, q.gt + 1, q.end, Qcow2Path(PathIn(xml, q)), QCOW2);
  }

  lemma ConvertsOther(xml: string, path: string, format: string, mid: string, text: string)
    requires ExtractExt(xml, "nvram") == Some(path) && path != ""
    requires ExtractAttr(xml, "nvram", "format") == Some(format) && format != "qcow2"
    requires PathRewritten(xml, path) == mid && FormatRewritten(mid) == text
    ensures Convert(xml) == Rewritten(text)
  {
    hide ExtractExt, ExtractAttr, PathRewritten, FormatRewritten;
  }

  lemma RawIsOther()
    ensures "raw" != "qcow2" && '"' !in "raw" && '"' !in "qcow2" && KEY2 + ("raw" + "\"") == RAW2
    ensures KEY2 + ("qcow2" + "\"") == QCOW2 && |RAW2| == |RAW|
  {
    assert "raw"[0] == 'r';
  }

  lemma WithPathSame(xml: string, q: Parts)
    requires Ordered(xml, q)
    ensures SameStart(xml, WithPath(xml, q), q.gt + 1)
  {
    hide WithPath;
    WithPathStarts(xml, q);
  }

  lemma WithPathFormat(xml: string, q: Parts)
    requires DoubleQuoted(xml, q)
    ensures Ordered(xml, q) && RawFormat(WithPath(xml, q)) == Some((q.format, QCOW2))
  {
    DoubleSays(xml, q);
    DoubleOrder(xml, q);
    hide *;
    WithPathSame(xml, q);
    WithPathLacksKey(xml, q);
    RawFormatDouble(xml, WithPath(xml, q), q.tag, q.gt, q.format);
  }

  lemma DoubleOrder(xml: string, q: Parts)
    requires Ordered(xml, q)
    ensures q.tag + |TAG| <= q.format && q.format + |RAW2| <= q.gt && q.tag + |TAG| <= q.gt && q.tag <= |xml|
  {
    Patterns2();
  }

  /** Path and format are replaced, the format with its own quotes, and all other text stays. */
  lemma DoubleConvertIs(xml: string, q: Parts)
    requires DoubleQuoted(xml, q)
    ensures Ordered(xml, q) && Convert(xml) == Rewritten(DoubleConverted(xml, q))
  {
    DoubleSays(xml, q);
    DoubleOrder(xml, q);
    hide *;
    RawIsOther();
    ReadsDouble(xml, q);
    AttrDouble(xml, q.tag, q.format, "raw");
    PathIsReplaced(xml, q);
    WithPathFormat(xml, q);
    DoubleFormatRewritten(xml, q);
    ConvertsOther(xml, PathIn(xml, q), "raw", WithPath(xml, q), DoubleConverted(xml, q));
  }

  lemma PutStarts(s: string, a: string, n: string, b: string)
    requires SameStart(s, a, |a|)
    ensures SameStart(s, Put(a, n, b), |a|) && |Put(a, n, b)| == |a| + |n| + |b|
  {
    assert Put(a, n, b)[..|a|] == a;
  }

  lemma PutLacksBare(a: string, n: string, b: string)
    requires !Occurs(a, BARE) && !Occurs(b, BARE) && a != "" && a[|a| - 1] == '>' && '<' !in n
    ensures !Occurs(Put(a, n, b), BARE)
  {
    BareTagChars();
    BareChars();
    hide BARE, Occurs;
    JoinLacksByFirst(n, b, BARE);
    JoinLacksByLast(a, n + b, BARE);
    assert Put(a, n, b) == a + (n + b);
  }

  lemma PutContent(a: string, n: string, b: string, gt: nat)
    requires |a| == gt + 1
    ensures Content(Put(a, n, b), gt, gt + 1 + |n|) == n
  {
    assert Put(a, n, b)[gt + 1..gt + 1 + |n|] == n;
  }

  lemma IsElement(t: string, tag: nat, gt: nat, end: nat)
    requires !Occurs(t, BARE) && Hits(t, TAG, 0, tag) && Hits(t, ">", tag, gt)
    requires gt + 1 <= end <= |t| && Hits(t, END, gt + 1, end)
    ensures Element(t, tag, gt, end)
  {
  }

  lemma PathElement(s: string, a: string, n: string, b: string, tag: nat, gt: nat)
    requires |a| == gt + 1 && SameStart(s, a, |a|) && Hits(s, TAG, 0, tag) && Hits(s, ">", tag, gt) && tag + |TAG| <= gt
    requires !Occurs(a, BARE) && !Occurs(b, BARE) && a[gt] == '>' && '<' !in n && At(b, 0, END)
    ensures Element(Put(a, n, b), tag, gt, gt + 1 + |n|) && Content(Put(a, n, b), gt, gt + 1 + |n|) == n
  {
    BareTagChars();
    RawFormatSize();
    hide *;
    PutStarts(s, a, n, b);
    HitStays(s, Put(a, n, b), gt + 1, TAG, 0, tag);
    HitStays(s, Put(a, n, b), gt + 1, ">", tag, gt);
    EndBehind(a, n, b, END);
    PutLacksBare(a, n, b);
    PutContent(a, n, b, gt);
    IsElement(Put(a, n, b), tag, gt, gt + 1 + |n|);
  }

  lemma DoubleTags(xml: string, q: Parts)
    requires DoubleQuoted(xml, q)
    ensures Ordered(xml, q) && '<' !in Qcow2Path(PathIn(xml, q)) && xml[q.gt] == '>' && !Occurs(xml, BARE)
    ensures Hits(xml, TAG, 0, q.tag) && Hits(xml, ">", q.tag, q.gt) && Hits(xml, END, q.gt + 1, q.end)
  {
    DoubleSays(xml, q);
    hide DoubleQuoted, Qcow2Path, PathIn, Hits, Occurs, At;
    DoubleEnds(xml, q);
    PathKeepsOutTags(PathIn(xml, q));
  }

  lemma WithPathElement(xml: string, q: Parts)
    requires DoubleQuoted(xml, q)
    ensures Ordered(xml, q)
    ensures var n := Qcow2Path(PathIn(xml, q)); var end := q.gt + 1 + |n|;
            Element(WithPath(xml, q), q.tag, q.gt, end) && Content(WithPath(xml, q), q.gt, end) == n
  {
    hide *;
    DoubleTags(xml, q);
    PathPut(xml, q, Qcow2Path(PathIn(xml, q)));
  }

  lemma PathPut(xml: string, q: Parts, n: string)
    requires Ordered(xml, q) && n == Qcow2Path(PathIn(xml, q)) && '<' !in n && xml[q.gt] == '>' && !Occurs(xml, BARE)
    requires Hits(xml, TAG, 0, q.tag) && Hits(xml, ">", q.tag, q.gt) && Hits(xml, END, q.gt + 1, q.end)
    ensures var end := q.gt + 1 + |n|;
            Element(WithPath(xml, q), q.tag, q.gt, end) && Content(WithPath(xml, q), q.gt, end) == n
  {
    hide *;
    DoubleOrder(xml, q);
    var a, b := PathCut(xml, q);
    PathElement(xml, a, n, b, q.tag, q.gt);
  }

  lemma PathCut(xml: string, q: Parts) returns (a: string, b: string)
    requires Ordered(xml, q) && !Occurs(xml, BARE) && Hits(xml, END, q.gt + 1, q.end)
    ensures SameStart(xml, a, |a|) && At(b, 0, END) && |a| == q.gt + 1 <= |xml| && a[q.gt] == xml[q.gt]
    ensures WithPath(xml, q) == Put(a, Qcow2Path(PathIn(xml, q)), b) && !Occurs(a, BARE) && !Occurs(b, BARE)
  {
    hide BARE, END, Qcow2Path, Occurs, PathIn, Hits;
    EndStands(xml, END, q.gt + 1, q.end);
    a, b := xml[..q.gt + 1], xml[q.end..];
    HeadLacks(xml, q.gt + 1, BARE);
    TailLacks(xml, q.end, BARE);
  }

  // The format stands in a text a + RAW2 + b and becomes QCOW2.

  lemma FormatFound(a: string, b: string, tag: nat)
    requires tag <= |a| && Hits(Put(a, RAW2, b), TAG, 0, tag) && tag + |TAG| <= |a|
    requires Keyless(Put(a, RAW2, b), tag) && Hits(Put(a, RAW2, b), KEY2, tag, |a|)
    ensures ExtractAttr(Put(a, QCOW2, b), "nvram", "format") == Some("qcow2")
  {
    hide *;
    RawIsOther();
    TagStands(a, RAW2, b, QCOW2, tag);
    FormatKeyless(a, b, tag);
    FormatAt(a, b, tag);
    AttrDouble(Put(a, QCOW2, b), tag, |a|, "qcow2");
  }

  lemma FormatAt(a: string, b: string, tag: nat)
    requires tag <= |a| && Hits(Put(a, RAW2, b), KEY2, tag, |a|)
    ensures Hits(Put(a, QCOW2, b), KEY2, tag, |a|) && At(Put(a, QCOW2, b), |a|, QCOW2) && |a| <= |Put(a, QCOW2, b)|
  {
    Patterns2();
    var s, t := Put(a, RAW2, b), Put(a, QCOW2, b);
    assert t[|a|..|a| + |QCOW2|] == QCOW2;
    AtConcat(t, |a|, KEY2, "qcow2" + "\"");
    assert s[..|a|] == a == t[..|a|];
    hide KEY2, QCOW2, RAW2;
    SamePrefix(s, t, |a|, KEY2);
    PrefixSame(s, t, |a| + |KEY2|, KEY2, tag);
  }

  lemma FormatKeyless(a: string, b: string, tag: nat)
    requires tag <= |a| && Keyless(Put(a, RAW2, b), tag)
    ensures Keyless(Put(a, QCOW2, b), tag)
  {
    TailOfPut(a, RAW2, b, tag);
    TailOfPut(a, QCOW2, b, tag);
    hide RAW2, QCOW2, KEY, Occurs, Put;
    EndsLackKey(a[tag..], RAW2, b);
    QcowJoins(a[tag..], b);
  }

  lemma TailOfPut(a: string, m: string, b: string, tag: nat)
    requires tag <= |a|
    ensures |Put(a, m, b)| >= tag && Put(a, m, b)[tag..] == Put(a[tag..], m, b)
  {
  }

  lemma EndsLackKey(a: string, m: string, b: string)
    requires !Occurs(Put(a, m, b), KEY)
    ensures !Occurs(a, KEY) && !Occurs(b, KEY)
  {
    hide KEY, Occurs;
    HeadLacks(Put(a, m, b), |a|, KEY);
    TailLacks(Put(a, m, b), |a| + |m|, KEY);
    assert Put(a, m, b)[..|a|] == a && Put(a, m, b)[|a| + |m|..] == b;
  }

  lemma QcowJoins(a: string, b: string)
    requires !Occurs(a, KEY) && !Occurs(b, KEY)
    ensures !Occurs(Put(a, QCOW2, b), KEY)
  {
    Patterns2();
    KeyChars();
    hide KEY, QCOW2, Occurs;
    JoinLacksByHead(a, QCOW2, KEY);
    JoinLacksByLast(a + QCOW2, b, KEY);
  }

  lemma FormatCut(t: string, at: nat) returns (a: string, b: string)
    requires RawFormat(t) == Some((at, QCOW2)) && At(t, at, RAW2)
    ensures t == Put(a, RAW2, b) && FormatRewritten(t) == Put(a, QCOW2, b) && |a| == at
  {
    Patterns2();
    hide RAW, RAW2, QCOW2, RawFormat;
    a, b := t[..at], t[at + |RAW2|..];
    assert t == t[..at] + t[at..at + |RAW2|] + t[at + |RAW2|..];
  }

  lemma DoubleExtracts(xml: string, q: Parts)
    requires DoubleQuoted(xml, q)
    ensures Ordered(xml, q) && ExtractExt(DoubleConverted(xml, q), "nvram") == Some(Qcow2Path(PathIn(xml, q)))
  {
    hide *;
    WithPathElement(xml, q);
    WithPathFormat(xml, q);
    FormatKeeps(WithPath(xml, q), q.tag, q.gt, q.gt + 1 + |Qcow2Path(PathIn(xml, q))|);
    DoubleFormatRewritten(xml, q);
  }

  lemma DoubleFormat(xml: string, q: Parts)
    requires DoubleQuoted(xml, q)
    ensures Ordered(xml, q) && ExtractAttr(DoubleConverted(xml, q), "nvram", "format") == Some("qcow2")
  {
    hide *;
    WithPathElement(xml, q);
    WithPathFormat(xml, q);
    WithPathLacksKey(xml, q);
    DoubleFormatRewritten(xml, q);
    KeyStands(xml, q);
    var a, b := FormatCut(WithPath(xml, q), q.format);
    TagStandsIn(xml, q);
    TagInFront(xml, q);
    FormatFound(a, b, q.tag);
  }

  lemma TagInFront(xml: string, q: Parts)
    requires Ordered(xml, q)
    ensures q.tag + |TAG| <= q.format
  {
  }

  /** The result reads as qcow2 with the new path, so another conversion stops at once. */
  lemma DoubleReadsBack(xml: string, q: Parts)
    requires DoubleQuoted(xml, q)
    ensures Ordered(xml, q)
    ensures ExtractAttr(DoubleConverted(xml, q), "nvram", "format") == Some("qcow2")
    ensures ExtractExt(DoubleConverted(xml, q), "nvram") == Some(Qcow2Path(PathIn(xml, q)))
    ensures Convert(DoubleConverted(xml, q)) == AlreadyQcow2
  {
    DoubleSays(xml, q);
    hide *;
    DoubleExtracts(xml, q);
    DoubleFormat(xml, q);
    PathGrows(PathIn(xml, q));
    ConvertsNot(DoubleConverted(xml, q), Qcow2Path(PathIn(xml, q)));
  }

  lemma TagStandsIn(xml: string, q: Parts)
    requires Ordered(xml, q) && Element(WithPath(xml, q), q.tag, q.gt, q.gt + 1 + |Qcow2Path(PathIn(xml, q))|)
    ensures Hits(WithPath(xml, q), TAG, 0, q.tag)
  {
  }

  lemma KeyStands(xml: string, q: Parts)
    requires DoubleQuoted(xml, q)
    ensures Ordered(xml, q) && Hits(WithPath(xml, q), KEY2, q.tag, q.format) && At(WithPath(xml, q), q.format, RAW2)
  {
    hide *;
    DoubleSays(xml, q);
    DoubleOrder(xml, q);
    KeySize();
    FirstRaw2(xml, q.tag, q.format);
    WithPathSame(xml, q);
    HitStays(xml, WithPath(xml, q), q.gt + 1, KEY2, q.tag, q.format);
    HitStays(xml, WithPath(xml, q), q.gt + 1, RAW2, q.tag, q.format);
    HitIsAt(WithPath(xml, q), RAW2, q.tag, q.format);
  }

  lemma KeySize()
    ensures |KEY2| <= |RAW2|
  {
  }

  lemma HitIsAt(s: string, pat: string, from: nat, i: nat)
    requires Hits(s, pat, from, i)
    ensures At(s, i, pat)
  {
  }

  lemma ConvertsNot(xml: string, path: string)
    requires ExtractExt(xml, "nvram") == Some(path) && path != "" && ExtractAttr(xml, "nvram", "format") == Some("qcow2")
    ensures Convert(xml) == AlreadyQcow2
  {
    hide ExtractExt, ExtractAttr;
  }
}