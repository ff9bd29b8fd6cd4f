/** The <filesystem> element of a shared folder: as lv_add_shared_folder prints it, and as
    lv_list_shared_folders reads it.

    The reader tests for words such as "virtiofs" and "<readonly" anywhere in the element, so the
    proof has to show that the fixed text of the element has them only where they are meant. */
module FolderXml {
  import opened Quotes
  import opened Strings
  import opened Wrappers
  import opened XmlRead

  datatype FsType = Virtiofs | NineP

  datatype Folder = Folder(source: string, tag: string, fs: FsType, readOnly: bool)

  const PRINT_BUFFER: nat := 2048

  const FS_OPEN := "<filesystem"
  const FS_CLOSE := "</filesystem>"
  const SOURCE_TAG := "<source "
  const TARGET_TAG := "<target "
  const DIR := "dir='"
  const DIR2 := "dir=\""
  const VIRTIOFS := "virtiofs"
  const READONLY := "readonly"
  const QUOTED_PATH := "'path'"

  // The printed element, cut at its quotes.
  const TYPE_PART := "<filesystem type="
  const MOUNT_PART := "mount"
  const MODE_PART := " accessmode="
  const PASS_PART := "passthrough"
  const MAPPED_PART := "mapped"
  const DRIVER_PART := ">\n  <driver type="
  const PATH_PART := "path"
  const POLICY_PART := " wrpolicy="
  const IMMEDIATE_PART := "immediate"
  const GAP_PART := "/>\n  "
  const SOURCE_PART := "/>\n  <source dir="
  const TARGET_PART := "/>\n  <target dir="
  const END_PART := "/>\n"
  const READONLY_PART := "/>\n  <readonly/>\n"

  function HeadParts(fs: FsType): seq<string> {
    match fs
    case Virtiofs => [TYPE_PART, MOUNT_PART, MODE_PART, PASS_PART, DRIVER_PART, VIRTIOFS]
    case NineP => [TYPE_PART, MOUNT_PART, MODE_PART, MAPPED_PART, DRIVER_PART, PATH_PART, POLICY_PART, IMMEDIATE_PART]
  }

  function LastPart(readOnly: bool): string {
    if readOnly then READONLY_PART else END_PART
  }

  function Parts(f: Folder): seq<string> {
    HeadParts(f.fs) + [SOURCE_PART, f.source, TARGET_PART, f.tag, LastPart(f.readOnly)]
  }

  /** The element up to its close tag. */
  function Body(f: Folder): string {
    Quoted(Parts(f))
  }

  /** The printed element; the buffer holds 2048 bytes. */
  function Block(f: Folder): string {
    var full := Body(f) + FS_CLOSE;
    if |full| < PRINT_BUFFER then full else full[..PRINT_BUFFER - 1]
  }

  /** One block of the listing: its type and attributes, or nothing of interest. */
  function ReadBody(block: string): Option<Folder> {
    var virtiofs := Occurs(block, VIRTIOFS);
    var nineP := Occurs(block, "9p") || Occurs(block, QUOTED_PATH);
    if !virtiofs && !nineP then None
    else
      var source, target := ExtractAttr(block, "source", "dir"), ExtractAttr(block, "target", "dir");
      if source.Some? && target.Some? then
        Some(Folder(source.value, target.value, if virtiofs then Virtiofs else NineP, Occurs(block, READONLY)))
      else None
  }

  /** Values that the substring tests of the reader cannot trip over. */
  predicate CleanValue(s: string) {
    '\'' !in s && '"' !in s && '<' !in s && !Occurs(s, VIRTIOFS) && !Occurs(s, READONLY)
  }

  predicate Clean(f: Folder) {
    CleanValue(f.source) && CleanValue(f.tag) && |Body(f) + FS_CLOSE| < PRINT_BUFFER
  }

  // ----- what the printed parts do not contain -----

  /** Every part misses some character of the pattern. */
  predicate Misses(parts: seq<string>, pat: string, ks: seq<nat>) {
    |ks| == |parts| && forall i :: 0 <= i < |parts| ==> ks[i] < |pat| && pat[ks[i]] !in parts[i]
  }

  lemma MissesLacks(parts: seq<string>, pat: string, ks: seq<nat>)
    requires Misses(parts, pat, ks)
    ensures Lack(parts, pat)
  {
    forall i | 0 <= i < |parts| ensures !Occurs(parts[i], pat) {
      LacksChar(parts[i], pat, ks[i]);
    }
  }

  lemma LackConcat(a: seq<string>, b: seq<string>, pat: string)
    requires Lack(a, pat) && Lack(b, pat)
    ensures Lack(a + b, pat)
  {
  }

  lemma HeadChars()
    ensures '<' !in MOUNT_PART && '<' !in MODE_PART && '<' !in PASS_PART && '<' !in MAPPED_PART
    ensures '<' !in VIRTIOFS && '<' !in PATH_PART && '<' !in POLICY_PART && '<' !in IMMEDIATE_PART
  {
  }

  /** A tag pattern is not in the head when the two parts with a '<' each miss a character of it. */
  lemma HeadLacksTag(fs: FsType, pat: string, t: nat, d: nat)
    requires |pat| > 0 && pat[0] == '<' && t < |pat| && d < |pat| && pat[t] !in TYPE_PART && pat[d] !in DRIVER_PART
    ensures Lack(HeadParts(fs), pat)
  {
    HeadChars();
    hide Lack, Occurs, TYPE_PART, MOUNT_PART, MODE_PART, PASS_PART, MAPPED_PART, DRIVER_PART, PATH_PART;
    hide POLICY_PART, IMMEDIATE_PART, VIRTIOFS;
    match fs
    case Virtiofs => MissesLacks(HeadParts(fs), pat, [t, 0, 0, 0, d, 0]);
    case NineP => MissesLacks(HeadParts(fs), pat, [t, 0, 0, 0, d, 0, 0, 0]);
  }

  lemma HeadLacksClose(fs: FsType)
    ensures Lack(HeadParts(fs), FS_CLOSE)
  {
    HeadLacksTag(fs, FS_CLOSE, 1, 1);
  }

  lemma HeadLacksReadonly(fs: FsType)
    ensures Lack(HeadParts(fs), READONLY)
  {
    hide Lack, Occurs;
    if fs == Virtiofs {
      VirtiofsLacksReadonly();
    } else {
      MissesLacks(HeadParts(NineP), READONLY, [0, 0, 0, 0, 2, 0, 1, 0]);
    }
  }

  lemma VirtiofsLacksReadonly()
    ensures Lack(HeadParts(Virtiofs), READONLY)
  {
    hide Lack, Occurs;
    MissesLacks(HeadParts(Virtiofs), READONLY, [0, 0, 0, 1, 2, 1]);
  }

  lemma HeadLacksVirtiofs()
    ensures Lack(HeadParts(NineP), VIRTIOFS)
  {
    MissesLacks(HeadParts(NineP), VIRTIOFS, [0, 0, 0, 0, 5, 0, 0, 0]);
  }

  lemma HeadLacksSource(fs: FsType)
    ensures Lack(HeadParts(fs), SOURCE_TAG)
  {
    HeadLacksTag(fs, SOURCE_TAG, 2, 2);
  }

  lemma HeadLacksTarget(fs: FsType)
    ensures Lack(HeadParts(fs), TARGET_TAG)
  {
    HeadLacksTag(fs, TARGET_TAG, 3, 2);
  }

  lemma TailLacksClose(f: Folder)
    requires CleanValue(f.source) && CleanValue(f.tag)
    ensures Lack([SOURCE_PART, f.source, TARGET_PART, f.tag, LastPart(f.readOnly)], FS_CLOSE)
  {
    hide CleanValue;
    ValuesLackTags(f);
    MissesLacks([SOURCE_PART, f.source, TARGET_PART, f.tag, LastPart(f.readOnly)], FS_CLOSE, [2, 0, 2, 0, 2]);
  }

  lemma ValuesLackTags(f: Folder)
    requires CleanValue(f.source) && CleanValue(f.tag)
    ensures '<' !in f.source && '<' !in f.tag
  {
  }

  lemma TailLacksReadonly(f: Folder)
    requires CleanValue(f.source) && CleanValue(f.tag) && !f.readOnly
    ensures Lack([SOURCE_PART, f.source, TARGET_PART, f.tag, LastPart(f.readOnly)], READONLY)
  {
    hide Occurs;
    LacksChar(SOURCE_PART, READONLY, 2);
    LacksChar(TARGET_PART, READONLY, 4);
    LacksChar(END_PART, READONLY, 0);
  }

  lemma TailLacksVirtiofs(f: Folder)
    requires CleanValue(f.source) && CleanValue(f.tag)
    ensures Lack([SOURCE_PART, f.source, TARGET_PART, f.tag, LastPart(f.readOnly)], VIRTIOFS)
  {
    hide Occurs;
    LacksChar(SOURCE_PART, VIRTIOFS, 0);
    LacksChar(TARGET_PART, VIRTIOFS, 0);
    LacksChar(LastPart(f.readOnly), VIRTIOFS, 0);
  }

  lemma PatternsQuoteFree()
    ensures '\'' !in FS_CLOSE && '\'' !in READONLY && '\'' !in VIRTIOFS && '\'' !in SOURCE_TAG && '\'' !in TARGET_TAG
    ensures FS_CLOSE != "" && READONLY != "" && VIRTIOFS != "" && SOURCE_TAG != "" && TARGET_TAG != ""
  {
  }

  /** The body holds no close tag, and the words the reader looks for only where they are meant. */
  lemma BodyLacks(f: Folder)
    requires CleanValue(f.source) && CleanValue(f.tag)
    ensures !Occurs(Body(f), FS_CLOSE)
    ensures !f.readOnly ==> !Occurs(Body(f), READONLY)
    ensures f.fs == NineP ==> !Occurs(Body(f), VIRTIOFS)
  {
    hide CleanValue, HeadParts, LastPart, SOURCE_PART, TARGET_PART, FS_CLOSE;
    hide READONLY, VIRTIOFS, SOURCE_TAG, TARGET_TAG, Quoted, Lack, Occurs;
    PatternsQuoteFree();
    HeadLacksClose(f.fs);
    TailLacksClose(f);
    LackConcat(HeadParts(f.fs), [SOURCE_PART, f.source, TARGET_PART, f.tag, LastPart(f.readOnly)], FS_CLOSE);
    JoinLacks(Parts(f), FS_CLOSE);
    if !f.readOnly {
      HeadLacksReadonly(f.fs);
      TailLacksReadonly(f);
      LackConcat(HeadParts(f.fs), [SOURCE_PART, f.source, TARGET_PART, f.tag, LastPart(f.readOnly)], READONLY);
      JoinLacks(Parts(f), READONLY);
    }
    if f.fs == NineP {
      HeadLacksVirtiofs();
      TailLacksVirtiofs(f);
      LackConcat(HeadParts(f.fs), [SOURCE_PART, f.source, TARGET_PART, f.tag, LastPart(f.readOnly)], VIRTIOFS);
      JoinLacks(Parts(f), VIRTIOFS);
    }
  }

  // ----- reading a printed body -----

  /** `x + y` at the end of a row of parts, with more parts behind. */
  lemma JoinAround(a: seq<string>, x: string, y: string, b: seq<string>)
    requires b != []
    ensures Quoted(a + [x + y] + b) == Quoted(a + [x]) + (y + (QUOTE + Quoted(b)))
  {
    JoinSplit(a + [x + y], b);
    JoinEnd(a, x, y);
    var u, v := Quoted(a + [x]), QUOTE + Quoted(b);
    assert (u + y) + v == u + (y + v);
  }

  lemma {:induction false} JoinEnd(a: seq<string>, x: string, y: string)
    ensures Quoted(a + [x + y]) == Quoted(a + [x]) + y
  {
    if a == [] {
      assert a + [x + y] == [x + y] && a + [x] == [x];
    } else {
      JoinSplit(a, [x + y]);
      JoinSplit(a, [x]);
      var u := Quoted(a);
      assert u + (QUOTE + (x + y)) == (u + (QUOTE + x)) + y;
    }
  }

  /** An attribute that follows its tag directly, in front of which the tag does not occur. */
  lemma ReadsAttr(pre: string, tag: string, attr: string, attr2: string, value: string, rest: string)
    requires HeadOnce(tag) && HeadOnce(attr) && !Occurs(pre, tag) && !Occurs(tag, attr) && '\'' !in value
    ensures AttrText(pre + (tag + (attr + ((value + QUOTE) + rest))), tag, attr, attr2) == Some(value)
  {
    hide Occurs, Find, AttrText, At, HeadOnce;
    var tail := (value + QUOTE) + rest;
    FindAfter(pre, tag, attr + tail);
    FindAfter(tag, attr, tail);
    FindShift(pre, tag + (attr + tail), 0, attr);
    AttrStands(pre, tag, attr, value, rest);
    AttrTextIs(pre + (tag + (attr + tail)), tag, attr, attr2, |pre|, |pre| + |tag|, value);
  }

  lemma AttrStands(pre: string, tag: string, attr: string, value: string, rest: string)
    ensures At(pre + (tag + (attr + ((value + QUOTE) + rest))), |pre| + |tag|, attr + (value + QUOTE))
  {
    var whole := attr + (value + QUOTE);
    assert attr + ((value + QUOTE) + rest) == whole + rest;
    AtPrefix(whole, rest, 0, whole);
    AtSuffix(tag, whole + rest, 0, whole);
    AtSuffix(pre, tag + (whole + rest), |tag|, whole);
  }

  lemma PartsCut()
    ensures SOURCE_PART == GAP_PART + (SOURCE_TAG + "dir=") && TARGET_PART == GAP_PART + (TARGET_TAG + "dir=")
    ensures "dir=" + QUOTE == DIR
  {
  }

  lemma AttrPatterns()
    ensures HeadOnce(SOURCE_TAG) && HeadOnce(TARGET_TAG) && HeadOnce(DIR)
    ensures "<" + "source" + " " == SOURCE_TAG && "<" + "target" + " " == TARGET_TAG && "dir" + "='" == DIR
  {
  }

  lemma TagsLackDir()
    ensures !Occurs(SOURCE_TAG, DIR) && !Occurs(TARGET_TAG, DIR)
  {
    hide Occurs;
    LacksChar(SOURCE_TAG, DIR, 0);
    LacksChar(TARGET_TAG, DIR, 0);
  }

  function BeforeSource(f: Folder): string {
    Quoted(HeadParts(f.fs) + [GAP_PART])
  }

  function BeforeTarget(f: Folder): string {
    Quoted(HeadParts(f.fs) + [SOURCE_PART, f.source] + [GAP_PART])
  }

  lemma BodyAtSource(f: Folder)
    ensures Body(f) == BeforeSource(f) + (SOURCE_TAG + (DIR + ((f.source + QUOTE) + Quoted([TARGET_PART, f.tag, LastPart(f.readOnly)]))))
  {
    PartsCut();
    var a, b := HeadParts(f.fs), [f.source, TARGET_PART, f.tag, LastPart(f.readOnly)];
    hide HeadParts, SOURCE_PART, TARGET_PART, GAP_PART, LastPart, SOURCE_TAG, DIR, Quoted, QUOTE;
    assert Parts(f) == a + [SOURCE_PART] + b;
    JoinAround(a, GAP_PART, SOURCE_TAG + "dir=", b);
    JoinSplit([f.source], [TARGET_PART, f.tag, LastPart(f.readOnly)]);
    assert [f.source] + [TARGET_PART, f.tag, LastPart(f.readOnly)] == b;
    JoinOne(f.source);
    var r := Quoted([TARGET_PART, f.tag, LastPart(f.readOnly)]);
    Regroup(SOURCE_TAG, "dir=", QUOTE, f.source, r);
  }

  lemma JoinOne(x: string)
    ensures Quoted([x]) == x
  {
  }

  lemma Regroup(t: string, d: string, q: string, v: string, r: string)
    ensures (t + d) + (q + (v + (q + r))) == t + ((d + q) + ((v + q) + r))
  {
    assert (t + d) + (q + (v + (q + r))) == t + ((d + q) + ((v + q) + r));
  }

  lemma BodyAtTarget(f: Folder)
    ensures Body(f) == BeforeTarget(f) + (TARGET_TAG + (DIR + ((f.tag + QUOTE) + LastPart(f.readOnly))))
  {
    PartsCut();
    var a, b := HeadParts(f.fs) + [SOURCE_PART, f.source], [f.tag, LastPart(f.readOnly)];
    hide HeadParts, SOURCE_PART, TARGET_PART, GAP_PART, LastPart, TARGET_TAG, DIR, Quoted, QUOTE;
    assert Parts(f) == a + [TARGET_PART] + b;
    JoinAround(a, GAP_PART, TARGET_TAG + "dir=", b);
    JoinSplit([f.tag], [LastPart(f.readOnly)]);
    assert [f.tag] + [LastPart(f.readOnly)] == b;
    JoinOne(f.tag);
    JoinOne(LastPart(f.readOnly));
    Regroup(TARGET_TAG, "dir=", QUOTE, f.tag, LastPart(f.readOnly));
  }

  /** A part stands in the text with a quote on either side. */
  lemma PartStands(a: seq<string>, x: string, b: seq<string>)
    requires a != [] && b != []
    ensures Occurs(Quoted(a + [x] + b), x) && Occurs(Quoted(a + [x] + b), QUOTE + x + QUOTE)
  {
    hide Occurs, Quoted, Find;
    JoinSplit(a + [x], b);
    JoinSplit(a, [x]);
    JoinOne(x);
    var u, v := Quoted(a), Quoted(b);
    assert (u + (QUOTE + x)) + (QUOTE + v) == u + ((QUOTE + x + QUOTE) + v);
    AtPrefix(QUOTE + x + QUOTE, v, 0, QUOTE + x + QUOTE);
    AtSuffix(u, (QUOTE + x + QUOTE) + v, 0, QUOTE + x + QUOTE);
    OccursAt(Quoted(a + [x] + b), |u|, QUOTE + x + QUOTE);
    assert QUOTE + x + QUOTE == QUOTE + (x + QUOTE);
    AtConcat(Quoted(a + [x] + b), |u|, QUOTE, x + QUOTE);
    AtConcat(Quoted(a + [x] + b), |u| + 1, x, QUOTE);
    OccursAt(Quoted(a + [x] + b), |u| + 1, x);
  }

  lemma DriverStands(f: Folder)
    ensures f.fs == Virtiofs ==> Occurs(Body(f), VIRTIOFS)
    ensures f.fs == NineP ==> Occurs(Body(f), QUOTED_PATH)
  {
    hide Occurs, Quoted, LastPart;
    assert QUOTE + PATH_PART + QUOTE == QUOTED_PATH;
    hide TYPE_PART, MOUNT_PART, MODE_PART, PASS_PART, MAPPED_PART, DRIVER_PART, PATH_PART;
    hide POLICY_PART, IMMEDIATE_PART, VIRTIOFS, SOURCE_PART, TARGET_PART, QUOTED_PATH, QUOTE;
    var rest := [SOURCE_PART, f.source, TARGET_PART, f.tag, LastPart(f.readOnly)];
    match f.fs
    case Virtiofs =>
      var a := [TYPE_PART, MOUNT_PART, MODE_PART, PASS_PART, DRIVER_PART];
      assert Parts(f) == a + [VIRTIOFS] + rest;
      PartStands(a, VIRTIOFS, rest);
    case NineP =>
      var a := [TYPE_PART, MOUNT_PART, MODE_PART, MAPPED_PART, DRIVER_PART];
      var b := [POLICY_PART, IMMEDIATE_PART] + rest;
      assert Parts(f) == a + [PATH_PART] + b;
      PartStands(a, PATH_PART, b);
  }

  lemma ReadonlyStands(f: Folder)
    requires f.readOnly
    ensures Occurs(Body(f), READONLY)
  {
    assert At(READONLY_PART, 6, READONLY);
    hide Occurs, Quoted, HeadParts, SOURCE_PART, TARGET_PART, READONLY_PART, READONLY;
    var a := HeadParts(f.fs) + [SOURCE_PART, f.source, TARGET_PART, f.tag];
    assert Parts(f) == a + [READONLY_PART];
    JoinSplit(a, [READONLY_PART]);
    JoinOne(READONLY_PART);
    AtSuffix(QUOTE, READONLY_PART, 6, READONLY);
    AtSuffix(Quoted(a), QUOTE + READONLY_PART, 7, READONLY);
    OccursAt(Body(f), |Quoted(a)| + 7, READONLY);
  }

  lemma BeforeLacks(f: Folder)
    requires CleanValue(f.source)
    ensures !Occurs(BeforeSource(f), SOURCE_TAG) && !Occurs(BeforeTarget(f), TARGET_TAG)
  {
    hide CleanValue, HeadParts, Quoted, Lack, Occurs;
    PatternsQuoteFree();
    ValueLacksTarget(f);
    HeadLacksSource(f.fs);
    HeadLacksTarget(f.fs);
    GapLacks();
    LackConcat(HeadParts(f.fs), [GAP_PART], SOURCE_TAG);
    LackConcat(HeadParts(f.fs), [SOURCE_PART, f.source], TARGET_TAG);
    LackConcat(HeadParts(f.fs) + [SOURCE_PART, f.source], [GAP_PART], TARGET_TAG);
    hide SOURCE_PART, GAP_PART, SOURCE_TAG, TARGET_TAG;
    JoinLacks(HeadParts(f.fs) + [GAP_PART], SOURCE_TAG);
    JoinLacks(HeadParts(f.fs) + [SOURCE_PART, f.source] + [GAP_PART], TARGET_TAG);
  }

  lemma GapLacks()
    ensures Lack([GAP_PART], SOURCE_TAG) && Lack([GAP_PART], TARGET_TAG)
  {
    MissesLacks([GAP_PART], SOURCE_TAG, [0]);
    MissesLacks([GAP_PART], TARGET_TAG, [0]);
  }

  lemma ValueLacksTarget(f: Folder)
    requires CleanValue(f.source)
    ensures Lack([SOURCE_PART, f.source], TARGET_TAG)
  {
    hide Occurs;
    MissesLacks([SOURCE_PART, f.source], TARGET_TAG, [4, 0]);
  }

  /** Reading a printed body gives the folder back. */
  lemma ReadPrinted(f: Folder)
    requires CleanValue(f.source) && CleanValue(f.tag)
    ensures ReadBody(Body(f)) == Some(f)
  {
    BodyLacks(f);
    DriverStands(f);
    if f.readOnly {
      ReadonlyStands(f);
    }
    ReadsSource(f);
    ReadsTarget(f);
    hide Body, Occurs, ExtractAttr, CleanValue, VIRTIOFS, QUOTED_PATH, READONLY;
  }

  lemma ReadsSource(f: Folder)
    requires CleanValue(f.source)
    ensures ExtractAttr(Body(f), "source", "dir") == Some(f.source)
  {
    BeforeLacks(f);
    AttrPatterns();
    TagsLackDir();
    BodyAtSource(f);
    assert '\'' !in f.source;
    hide Body, Occurs, AttrText, CleanValue, SOURCE_TAG, DIR, BeforeSource, QUOTE;
    ReadsAttr(BeforeSource(f), SOURCE_TAG, DIR, "dir" + "=\"", f.source, Quoted([TARGET_PART, f.tag, LastPart(f.readOnly)]));
  }

  lemma ReadsTarget(f: Folder)
    requires CleanValue(f.source) && CleanValue(f.tag)
    ensures ExtractAttr(Body(f), "target", "dir") == Some(f.tag)
  {
    BeforeLacks(f);
    AttrPatterns();
    TagsLackDir();
    BodyAtTarget(f);
    assert '\'' !in f.tag;
    hide Body, Occurs, AttrText, CleanValue, TARGET_TAG, DIR, BeforeTarget, QUOTE;
    ReadsAttr(BeforeTarget(f), TARGET_TAG, DIR, "dir" + "=\"", f.tag, LastPart(f.readOnly));
  }
}
