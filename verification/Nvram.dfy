/** lv_convert_nvram (src/libvirt_backend.c). */
module Nvram {
  // The rewrite of a domain XML from a raw to a qcow2 NVRAM.  The path is replaced at its first occurrence in the whole
  // text and the format inside the first NVRAM tag, both in one buffer with 512 spare bytes.
  import opened Buffers
  import opened Strings
  import opened Splice
  import opened Wrappers
  import opened XmlRead

  const PATH_MAX: nat := 4096
  const SLACK: nat := 512

  const TAG := "<nvram "
  const BARE := "<nvram>"
  const END := "</nvram>"
  const KEY := "format='"
  const RAW := "format='raw'"
  const RAW2 := "format=\"raw\""
  const QCOW := "format='qcow2'"
  const QCOW2 := "format=\"qcow2\""
  const EXT := ".qcow2"

  /** What the conversion comes to before the domain is redefined. */
  datatype Outcome = NoNvram | AlreadyQcow2 | Rewritten(xml: string)

  /** strrchr(s, '.'). */
  function LastDot(s: string): (r: Option<nat>)
    ensures r.Some? ==> r.value < |s| && s[r.value] == '.' && forall k :: r.value < k < |s| ==> s[k] != '.'
    ensures r.None? ==> '.' !in s
  {
    if s == "" then None
    else if s[|s| - 1] == '.' then Some(|s| - 1)
    else LastDot(s[..|s| - 1])
  }

  /** The extension is replaced; without a dot it is appended.  The buffer holds PATH_MAX bytes. */
  function Qcow2Path(path: string): (r: string)
    ensures |r| <= |path| + |EXT|
    ensures |path| + |EXT| < PATH_MAX ==> r == (match LastDot(path) case Some(k) => path[..k] case None => path) + EXT
  {
    var stem := match LastDot(path) case Some(k) => path[..k] case None => path;
    var full := stem + EXT;
    if |full| < PATH_MAX then full else full[..PATH_MAX - 1]
  }

  /** The path's first occurrence in the whole text is replaced. */
  function PathRewritten(xml: string, path: string): string {
    match Find(xml, path, 0)
    case None => xml
    case Some(i) => xml[..i] + Qcow2Path(path) + xml[i + |path|..]
  }

  /** Where, inside the first <nvram tag, the raw format attribute stands, and the quoted
      replacement.  A single-quoted attribute anywhere behind the tag hides a double-quoted one. */
  function RawFormat(text: string): (r: Option<(nat, string)>)
    ensures r.Some? ==> r.value.0 + |RAW| <= |text| && |r.value.1| == |QCOW|
  {
    match Find(text, TAG, 0)
    case None => None
    case Some(tag) =>
      match Find(text, ">", tag)
      case None => None
      case Some(end) =>
        var raw, raw2 := Find(text, RAW, tag), Find(text, RAW2, tag);
        if raw.Some? then (if raw.value < end then Some((raw.value, QCOW)) else None)
        else if raw2.Some? && raw2.value < end then Some((raw2.value, QCOW2))
        else None
  }

  function FormatRewritten(text: string): string {
    match RawFormat(text)
    case None => text
    case Some((at, replacement)) => text[..at] + replacement + text[at + |RAW|..]
  }

  function Convert(xml: string): Outcome {
    match ExtractExt(xml, "nvram")
    case None => NoNvram
    case Some(path) =>
      if path == "" then NoNvram
      else if ExtractAttr(xml, "nvram", "format") == Some("qcow2") then AlreadyQcow2
      else Rewritten(FormatRewritten(PathRewritten(xml, path)))
  }

  // ----- the rewrite in a buffer -----

  /** Replaces the raw format in the text of length `len`, moving the rest and its NUL. */
  method RewriteFormat(buf: array<char>, len: nat) returns (len': nat)
    requires len + 3 <= buf.Length && buf[len] == '\0'
    modifies buf
    ensures len' <= len + 2 && buf[..len'] == FormatRewritten(old(buf[..len]))
  {
    hide RawFormat, Find, RAW, QCOW;
    Patterns();
    ghost var text := buf[..len];
    len' := len;
    var pos := RawFormat(buf[..len]);
    if pos.Some? {
      var (at, replacement) := pos.value;
      len' := Exchange(buf, len, at, |RAW|, replacement);
    }
  }

  /** Copies the text with the new path into the buffer, and the NUL behind it. */
  method RewritePath(buf: array<char>, xml: string, path: string, prefix: nat) returns (len: nat)
    requires Find(xml, path, 0) == Some(prefix) && |xml| + |EXT| < buf.Length
    modifies buf
    ensures len <= |xml| + |EXT| && buf[len] == '\0' && buf[..len] == PathRewritten(xml, path)
  {
    hide Qcow2Path, EXT, Find;
    len := PutThree(buf, xml[..prefix], Qcow2Path(path), xml[prefix + |path|..]);
    buf[len] := '\0';
  }

  /** The conversion as it runs: copies into a buffer of `|xml| + 512` bytes and shifts in place.
      That every access is inside the buffer, for every XML text, is what the calls require. */
  method ConvertInBuffer(xml: string) returns (r: Outcome)
    ensures r == Convert(xml)
  {
    hide ExtractExt, ExtractAttr, PathRewritten, FormatRewritten;
    var found := ExtractExt(xml, "nvram");
    if found.None? || found.value == "" {
      return NoNvram;
    }
    var path := found.value;
    if ExtractAttr(xml, "nvram", "format") == Some("qcow2") {
      return AlreadyQcow2;
    }
    var buf := new char[|xml| + SLACK](_ => '\0');
    var start := Find(xml, path, 0);
    PathOccurs(xml, "nvram", path);
    var len := RewritePath(buf, xml, path, start.value);
    len := RewriteFormat(buf, len);
    r := Rewritten(buf[..len]);
  }

  /** lv_convert_nvram around the rewrite: `shutOff` is the state of the VM, `converts` the success of qemu-img and
      `defines` that of libvirt.  The result is the return code and the persistent XML afterwards. */
  method ConvertDomain(xml: string, shutOff: bool, converts: bool, defines: bool) returns (rc: int, now: string)
    ensures rc == if !shutOff then -1
                  else match Convert(xml)
                       case NoNvram => -1
                       case AlreadyQcow2 => 1
                       case Rewritten(_) => if converts && defines then 0 else -1
    ensures now == if rc == 0 then Convert(xml).xml else xml
  {
    now := xml;
    if !shutOff {
      return -1, xml;
    }
    var r := ConvertInBuffer(xml);
    match r
    case NoNvram => rc := -1;
    case AlreadyQcow2 => rc := 1;
    case Rewritten(text) =>
      rc := -1;
      if converts && defines {
        rc, now := 0, text;
      }
  }

  /** What was extracted does occur in the text. */
  lemma PathOccurs(xml: string, tag: string, path: string)
    requires ExtractExt(xml, tag) == Some(path)
    ensures Occurs(xml, path)
  {
    if i, j :| 0 <= i <= j <= |xml| && xml[i..j] == path {
      assert At(xml, i, path);
    }
  }

  /** Whatever the text, it grows by at most 8 bytes: 6 for the path and 2 for the format. */
  lemma GrowsByAtMost8(xml: string)
    ensures Convert(xml).Rewritten? ==> |Convert(xml).xml| <= |xml| + 8
  {
    hide ExtractExt, ExtractAttr, RawFormat, Qcow2Path, Find;
  }

  // ----- a domain with one raw NVRAM -----

  /** Where the parts of `<nvram ... format='raw' ...>path</nvram>` stand in the text. */
  datatype Parts = Parts(tag: nat, format: nat, gt: nat, end: nat)

  predicate Ordered(xml: string, q: Parts) {
    q.tag + |TAG| <= q.format && q.format + |RAW| <= q.gt && q.gt + 1 < q.end <= |xml|
  }

  function PathIn(xml: string, q: Parts): string
    requires Ordered(xml, q)
  {
    xml[q.gt + 1..q.end]
  }

  /** One NVRAM element whose first single-quoted format is raw, and whose path holds no '<'. */
  ghost predicate RawElement(xml: string, q: Parts) {
    && !Occurs(xml, BARE)
    && Find(xml, TAG, 0) == Some(q.tag)
    && Find(xml, ">", q.tag) == Some(q.gt)
    && Find(xml, KEY, q.tag) == Some(q.format) && At(xml, q.format, RAW)
    && Ordered(xml, q) && Find(xml, END, q.gt + 1) == Some(q.end)
    && '<' !in PathIn(xml, q) && |PathIn(xml, q)| + |EXT| < PATH_MAX
  }

  /** The path occurs nowhere earlier in the text. */
  ghost predicate RawNvram(xml: string, q: Parts) {
    RawElement(xml, q) && Find(xml, PathIn(xml, q), 0) == Some(q.gt + 1)
  }

  function Front(xml: string, q: Parts): string
    requires Ordered(xml, q)
  {
    xml[..q.format]
  }

  function Middle(xml: string, q: Parts): string
    requires Ordered(xml, q)
  {
    xml[q.format + |RAW|..q.gt + 1]
  }

  function Back(xml: string, q: Parts): string
    requires Ordered(xml, q)
  {
    xml[q.end..]
  }

  /** The text with the two replacements and nothing else changed. */
  function Converted(xml: string, q: Parts): string
    requires Ordered(xml, q)
  {
    Front(xml, q) + QCOW + Middle(xml, q) + Qcow2Path(PathIn(xml, q)) + Back(xml, q)
  }

  lemma Patterns()
    ensures OpenTag("nvram") == BARE && CloseTag("nvram") == END && "<" + "nvram" + " " == TAG
    ensures "format" + "='" == KEY && KEY + ("raw" + "'") == RAW && KEY + ("qcow2" + "'") == QCOW
    ensures |KEY| == 8 && |TAG| == 7 && |BARE| == 7 && |RAW| == 12 && |QCOW| == 14
  {
  }

  lemma ReadsRaw(xml: string, q: Parts)
    requires RawElement(xml, q)
    ensures ExtractExt(xml, "nvram") == Some(PathIn(xml, q))
    ensures ExtractAttr(xml, "nvram", "format") == Some("raw")
  {
    hide ElementText, AttrText, Occurs, Find;
    Patterns();
    ElementTextIs(xml, BARE, TAG, END, q.tag, q.gt, q.end);
    AttrTextIs(xml, TAG, KEY, "format" + "=\"", q.tag, q.format, "raw");
  }

  lemma RawIsFirst(xml: string, q: Parts)
    requires RawNvram(xml, q)
    ensures Find(xml, RAW, q.tag) == Some(q.format)
  {
    hide RawNvram, Occurs;
    Patterns();
    assert RawNvram(xml, q);
    RawNvramSays(xml, q);
    forall i: nat | q.tag <= i < q.format ensures !At(xml, i, RAW) {
      AtConcat(xml, i, KEY, "raw" + "'");
    }
    FindIs(xml, RAW, q.tag, q.format);
  }

  lemma RawNvramSays(xml: string, q: Parts)
    requires RawNvram(xml, q)
    ensures Find(xml, TAG, 0) == Some(q.tag) && Find(xml, ">", q.tag) == Some(q.gt)
    ensures Find(xml, KEY, q.tag) == Some(q.format) && At(xml, q.format, RAW)
    ensures Ordered(xml, q) && q.tag + |TAG| <= q.format && q.format + |RAW| <= q.gt && q.gt + 1 < q.end <= |xml|
    ensures RawElement(xml, q)
  {
  }

  /** Replacing behind `f` after replacing between `g` and `e`. */
  lemma TwoReplacements(s: string, f: nat, r: nat, g: nat, e: nat, middle: string, insert: string)
    requires f + r <= g <= e <= |s|
    ensures var t := s[..g] + middle + s[e..];
            t[..f] + insert + t[f + r..] == s[..f] + insert + s[f + r..g] + middle + s[e..]
  {
    var t := s[..g] + middle + s[e..];
    assert t[..f] == s[..f];
    assert t[f + r..] == s[f + r..g] + middle + s[e..];
  }

  lemma RawFormatIs(text: string, tag: nat, gt: nat, f: nat)
    requires Find(text, TAG, 0) == Some(tag) && Find(text, ">", tag) == Some(gt)
    requires Find(text, RAW, tag) == Some(f) && f < gt
    ensures RawFormat(text) == Some((f, QCOW))
  {
  }

  /** The tag is untouched by whatever replaces the text behind its '>'. */
  lemma TagStays(xml: string, text: string, q: Parts)
    requires RawNvram(xml, q) && q.gt < |text| && text[..q.gt + 1] == xml[..q.gt + 1]
    ensures RawFormat(text) == Some((q.format, QCOW))
  {
    RawIsFirst(xml, q);
    RawNvramSays(xml, q);
    hide RawNvram, RawFormat;
    var n := q.gt + 1;
    PrefixSame(xml, text, n, TAG, 0);
    PrefixSame(xml, text, n, ">", q.tag);
    PrefixSame(xml, text, n, RAW, q.tag);
    RawFormatIs(text, q.tag, q.gt, q.format);
  }

  lemma PathStands(xml: string, q: Parts)
    requires RawNvram(xml, q)
    ensures PathIn(xml, q) != "" && Find(xml, PathIn(xml, q), 0) == Some(q.gt + 1)
  {
  }

  function WithPath(xml: string, q: Parts): string
    requires Ordered(xml, q)
  {
    xml[..q.gt + 1] + Qcow2Path(PathIn(xml, q)) + xml[q.end..]
  }

  lemma PathRewrittenIs(xml: string, q: Parts)
    requires RawNvram(xml, q)
    ensures PathRewritten(xml, PathIn(xml, q)) == WithPath(xml, q)
  {
    hide RawNvram, Qcow2Path, PathIn, Find;
    PathStands(xml, q);
    RawNvramSays(xml, q);
    PathLength(xml, q);
  }

  lemma PathLength(xml: string, q: Parts)
    requires Ordered(xml, q)
    ensures q.gt + 1 + |PathIn(xml, q)| == q.end
  {
  }

  lemma WithPathStarts(xml: string, q: Parts)
    requires Ordered(xml, q)
    ensures |WithPath(xml, q)| > q.gt && WithPath(xml, q)[..q.gt + 1] == xml[..q.gt + 1]
  {
    hide Qcow2Path, PathIn;
  }

  lemma FormatRewrittenIs(xml: string, q: Parts)
    requires Ordered(xml, q)
    requires RawFormat(WithPath(xml, q)) == Some((q.format, QCOW))
    ensures FormatRewritten(WithPath(xml, q)) == Converted(xml, q)
  {
    hide RawFormat, Qcow2Path, Find, PathIn, RAW, QCOW;
    TwoReplacements(xml, q.format, |RAW|, q.gt + 1, q.end, Qcow2Path(PathIn(xml, q)), QCOW);
  }

  /** The conversion replaces the path and the format, and changes nothing else. */
  lemma ConvertIs(xml: string, q: Parts)
    requires RawNvram(xml, q)
    ensures Convert(xml) == Rewritten(Converted(xml, q))
  {
    hide RawNvram, RawFormat, ExtractExt, ExtractAttr, Qcow2Path;
    hide Find, WithPath, FormatRewritten, PathRewritten, Converted, PathIn;
    RawNvramSays(xml, q);
    ReadsRaw(xml, q);
    PathStands(xml, q);
    RawNvramSays(xml, q);
    PathRewrittenIs(xml, q);
    WithPathStarts(xml, q);
    TagStays(xml, WithPath(xml, q), q);
    FormatRewrittenIs(xml, q);
  }

  // ----- reading the converted text back -----

  /** Five texts without the pattern, joined where it cannot cross. */
  lemma JoinedLacks(a: string, r: string, m: string, n: string, s: string, pat: string)
    requires |pat| > 1 && !Occurs(a, pat) && !Occurs(r, pat) && !Occurs(m, pat) && !Occurs(n, pat) && !Occurs(s, pat)
    requires r != "" && r[0] !in pat && r[|r| - 1] !in pat
    requires m != "" && forall k :: 0 <= k < |pat| - 1 ==> pat[k] != m[|m| - 1]
    requires s != "" && forall k :: 1 <= k < |pat| ==> pat[k] != s[0]
    ensures !Occurs(a + r + m + n + s, pat)
  {
    hide Occurs;
    JoinLacksByHead(a, r, pat);
    JoinLacksByLast(a + r, m, pat);
    JoinLacksByLast(a + r + m, n, pat);
    JoinLacksByHead(a + r + m + n, s, pat);
  }

  lemma BareChars()
    ensures |BARE| == 7 && BARE[0] == '<' && forall k :: 1 <= k < |BARE| ==> BARE[k] != '<'
    ensures forall k :: 0 <= k < |BARE| - 1 ==> BARE[k] != '>'
    ensures 'f' !in BARE && '\'' !in BARE
    ensures |QCOW| == 14 && QCOW[0] == 'f' && QCOW[|QCOW| - 1] == '\'' && '<' !in QCOW && '>' !in QCOW
    ensures HeadOnce(END) && END[0] == '<' && |END| == 8 && '<' !in EXT
  {
  }

  lemma PathKeepsOutTags(path: string)
    requires '<' !in path && |path| + |EXT| < PATH_MAX
    ensures '<' !in Qcow2Path(path)
  {
    BareChars();
  }

  lemma PiecesLackBare(xml: string, q: Parts)
    requires RawNvram(xml, q)
    ensures Ordered(xml, q)
    ensures !Occurs(Front(xml, q), BARE) && !Occurs(Middle(xml, q), BARE) && !Occurs(Back(xml, q), BARE)
  {
    hide Occurs, PathIn, BARE, RAW, TAG, END, KEY;
    HeadLacks(xml, q.format, BARE);
    PartLacks(xml, q.format + |RAW|, q.gt + 1, BARE);
    TailLacks(xml, q.end, BARE);
  }

  lemma PieceEnds(xml: string, q: Parts)
    requires RawNvram(xml, q)
    ensures Ordered(xml, q) && |Front(xml, q)| == q.format && |Middle(xml, q)| == q.gt + 1 - q.format - |RAW|
    ensures Middle(xml, q) != "" && Middle(xml, q)[|Middle(xml, q)| - 1] == '>'
    ensures Back(xml, q) != "" && Back(xml, q)[0] == '<' && '<' !in PathIn(xml, q) && |PathIn(xml, q)| + |EXT| < PATH_MAX
    ensures At(Back(xml, q), 0, END)
  {
    hide Occurs, PathIn, BARE, RAW;
    AtChar(xml, q.gt, ">", 0);
    AtChar(xml, q.end, END, 0);
    DropAt(xml, q.end, END);
  }

  lemma ConvertedLacksBare(xml: string, q: Parts)
    requires RawNvram(xml, q)
    ensures Ordered(xml, q) && !Occurs(Converted(xml, q), BARE)
  {
    hide RawNvram, PathIn, Occurs, Front, Middle, Back, BARE, QCOW, Qcow2Path, Ordered;
    BareChars();
    PiecesLackBare(xml, q);
    PieceEnds(xml, q);
    PathKeepsOutTags(PathIn(xml, q));
    LacksByChar(QCOW, BARE);
    LacksByChar(Qcow2Path(PathIn(xml, q)), BARE);
    JoinedLacks(Front(xml, q), QCOW, Middle(xml, q), Qcow2Path(PathIn(xml, q)), Back(xml, q), BARE);
  }

  /** The first '>' after the tag has moved by the two bytes of the longer format. */
  lemma GtMoves(a: string, r: string, m: string, rest: string, t: nat)
    requires t <= |a| && m != "" && m[|m| - 1] == '>' && '>' !in r && '>' !in m[..|m| - 1] && '>' !in a[t..]
    ensures Find(a + r + m + rest, ">", t) == Some(|a| + |r| + |m| - 1)
  {
    var text := a + r + m + rest;
    var gt := |a| + |r| + |m| - 1;
    assert At(text, gt, ">");
    forall i: nat | t <= i < gt ensures !At(text, i, ">") {
      if i < |a| {
        assert a[t..][i - t] == text[i];
      } else if i < |a| + |r| {
        assert r[i - |a|] == text[i];
      } else {
        assert m[..|m| - 1][i - |a| - |r|] == text[i];
      }
      CharIf(text, i, ">", 0);
    }
    FindIs(text, ">", t, gt);
  }

  lemma NoGtBefore(xml: string, q: Parts)
    requires RawNvram(xml, q)
    ensures Ordered(xml, q) && q.tag <= |Front(xml, q)| && '>' !in Front(xml, q)[q.tag..]
    ensures Middle(xml, q) != "" && '>' !in Middle(xml, q)[..|Middle(xml, q)| - 1]
  {
    hide Occurs, PathIn, BARE;
    forall i | q.tag <= i < q.gt ensures xml[i] != '>' {
      assert !At(xml, i, ">");
      assert xml[i..i + 1] == [xml[i]];
    }
  }

  lemma ConvertedGt(xml: string, q: Parts)
    requires RawNvram(xml, q)
    ensures Ordered(xml, q) && Find(Converted(xml, q), ">", q.tag) == Some(q.gt + 2)
  {
    hide RawNvram, PathIn, Occurs, Front, Middle, Back, BARE, QCOW, Qcow2Path, Ordered, Find;
    BareChars();
    Patterns();
    NoGtBefore(xml, q);
    PieceEnds(xml, q);
    var n, s := Qcow2Path(PathIn(xml, q)), Back(xml, q);
    GtMoves(Front(xml, q), QCOW, Middle(xml, q), n + s, q.tag);
    assert Front(xml, q) + QCOW + Middle(xml, q) + n + s == Front(xml, q) + QCOW + Middle(xml, q) + (n + s);
  }

  /** The converted text has the same tag, its format key in the same place, and reads as qcow2. */
  lemma ConvertedFormat(xml: string, q: Parts)
    requires RawNvram(xml, q)
    ensures Ordered(xml, q)
    ensures Find(Converted(xml, q), TAG, 0) == Some(q.tag)
    ensures ExtractAttr(Converted(xml, q), "nvram", "format") == Some("qcow2")
  {
    hide RawNvram, PathIn, Occurs, BARE, QCOW, RAW, KEY, TAG, Qcow2Path, Find, AttrText, Middle, Back;
    Patterns();
    RawNvramSays(xml, q);
    var text := Converted(xml, q);
    var rest := Middle(xml, q) + Qcow2Path(PathIn(xml, q)) + Back(xml, q);
    assert text == Front(xml, q) + (QCOW + rest);
    AtSuffix(Front(xml, q), QCOW + rest, 0, QCOW);
    assert At(QCOW + rest, 0, QCOW);
    AtConcat(text, q.format, KEY, "qcow2" + "'");
    AtConcat(xml, q.format, KEY, "raw" + "'");
    SamePrefix(xml, text, q.format, KEY);
    PrefixSame(xml, text, q.format + |KEY|, TAG, 0);
    PrefixSame(xml, text, q.format + |KEY|, KEY, q.tag);
    AttrTextIs(text, TAG, KEY, "format" + "=\"", q.tag, q.format, "qcow2");
  }

  lemma SamePrefix(s: string, t: string, n: nat, pat: string)
    requires At(s, n, pat) && At(t, n, pat) && s[..n] == t[..n]
    ensures s[..n + |pat|] == t[..n + |pat|]
  {
    assert s[..n + |pat|] == s[..n] + s[n..n + |pat|];
    assert t[..n + |pat|] == t[..n] + t[n..n + |pat|];
  }

  /** Reading the converted text gives the .qcow2 path and the format qcow2; converting again stops
      at "already qcow2". */
  lemma ConvertedReadsBack(xml: string, q: Parts)
    requires RawNvram(xml, q)
    ensures Ordered(xml, q)
    ensures ExtractExt(Converted(xml, q), "nvram") == Some(Qcow2Path(PathIn(xml, q)))
    ensures Convert(Converted(xml, q)) == AlreadyQcow2
  {
    hide RawNvram, PathIn, Occurs, BARE, QCOW, RAW, KEY, TAG;
    hide END, Find, ElementText, ExtractAttr, Middle, Back, Front, Qcow2Path, Ordered;
    Patterns();
    BareChars();
    RawNvramSays(xml, q);
    PieceEnds(xml, q);
    ConvertedLacksBare(xml, q);
    ConvertedGt(xml, q);
    ConvertedFormat(xml, q);
    PathKeepsOutTags(PathIn(xml, q));
    var p, n, s := Front(xml, q) + QCOW + Middle(xml, q), Qcow2Path(PathIn(xml, q)), Back(xml, q);
    assert |p| == q.gt + 3;
    LacksByChar(n, END);
    EndAfter(p, n, s);
    ElementTextIs(Converted(xml, q), BARE, TAG, END, q.tag, q.gt + 2, q.gt + 3 + |n|);
    assert (p + n + s)[|p|..|p| + |n|] == n;
    PathGrows(PathIn(xml, q));
  }

  lemma EndAfter(p: string, n: string, s: string)
    requires HeadOnce(END) && !Occurs(n, END) && At(s, 0, END)
    ensures Find(p + n + s, END, |p|) == Some(|p| + |n|)
  {
    hide END, Occurs, HeadOnce, Find;
    DropAt(s, 0, END);
    assert s[0..] == s;
    CloseAfter(p, n, s[|END|..], END);
  }

  lemma PathGrows(path: string)
    requires |path| + |EXT| < PATH_MAX
    ensures Qcow2Path(path) != ""
  {
  }

  /** Both results together, for the conversion as the program runs it. */
  lemma ConvertThenRead(xml: string, q: Parts)
    requires RawNvram(xml, q)
    ensures Convert(xml).Rewritten?
    ensures var text := Convert(xml).xml;
            && ExtractExt(text, "nvram") == Some(Qcow2Path(PathIn(xml, q)))
            && ExtractAttr(text, "nvram", "format") == Some("qcow2")
            && Convert(text) == AlreadyQcow2
            && |text| <= |xml| + 8
  {
    hide RawNvram, ExtractExt, ExtractAttr, Find;
    ConvertIs(xml, q);
    ConvertedReadsBack(xml, q);
    ConvertedFormat(xml, q);
    GrowsByAtMost8(xml);
  }
}
