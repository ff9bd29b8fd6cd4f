/** The shared-memory protocol on the domain XML that the code searches.

    A text shows a configuration when it consists of the printed folders of that configuration and of other text.
    The fixed text of a folder has neither the shared access nor the end of the domain in it, so the searches of the
    code find these in the other text only, and an insertion there leaves the folders as they are. */
module SharedText {
  import opened DomainText
  import opened FolderXml
  import opened Quotes
  import opened RestartNeedle
  import opened SharedFolders
  import opened SharedMemory
  import opened Strings
  import opened Wrappers

  /** The text consists of the printed folders of a configuration and of other text, which ends the domain, looks
      nowhere like a folder or an attribute of one, and has the shared access exactly when the configuration has. */
  ghost predicate Represents(xml: string, head: string, items: seq<(Folder, string)>, c: Config) {
    && xml == head + Blocks(items) && GoodItems(items) && !Occurs(head, FS_OPEN)
    && FoldersOf(items) == c.folders
    && OtherHas(head, items, DOMAIN_END) && !OtherHas(head, items, DIR)
    && (OtherHas(head, items, SHARED) <==> c.shared)
  }

  ghost predicate Shows(xml: string, c: Config) {
    exists head, items :: Represents(xml, head, items, c)
  }

  // ----- what the elements do not contain -----

  const ACCESS := "<access mode="

  lemma Patterns()
    ensures Contained(SHARED) && Contained(DOMAIN_END)
    ensures ACCESS <= SHARED && '\'' !in ACCESS && '\'' !in DOMAIN_END
  {
    assert SHARED[..13] == ACCESS;
  }

  lemma HeadLacksBoth(fs: FsType)
    ensures Lack(HeadParts(fs), ACCESS) && Lack(HeadParts(fs), DOMAIN_END)
  {
    hide HeadParts, Lack;
    HeadLacksTag(fs, ACCESS, 1, 1);
    HeadLacksTag(fs, DOMAIN_END, 1, 1);
  }

  lemma TailLacksAccess(f: Folder)
    requires '<' !in f.source && '<' !in f.tag
    ensures Lack([SOURCE_PART, f.source, TARGET_PART, f.tag, LastPart(f.readOnly) + FS_CLOSE], ACCESS)
  {
    hide Lack;
    MissesLacks([SOURCE_PART, f.source, TARGET_PART, f.tag, LastPart(f.readOnly) + FS_CLOSE], ACCESS, [1, 0, 2, 0, 2]);
  }

  lemma TailLacksEnd(f: Folder)
    requires '<' !in f.source && '<' !in f.tag
    ensures Lack([SOURCE_PART, f.source, TARGET_PART, f.tag, LastPart(f.readOnly) + FS_CLOSE], DOMAIN_END)
  {
    hide Occurs;
    LacksChar(SOURCE_PART, DOMAIN_END, 4);
    LacksChar(f.source, DOMAIN_END, 0);
    LacksChar(TARGET_PART, DOMAIN_END, 4);
    LacksChar(f.tag, DOMAIN_END, 0);
    LastLacksEnd(f.readOnly);
    hide SOURCE_PART, TARGET_PART, LastPart, FS_CLOSE, DOMAIN_END;
  }

  lemma LastLacksEnd(readOnly: bool)
    ensures !Occurs(LastPart(readOnly) + FS_CLOSE, DOMAIN_END)
  {
    LacksChar(LastPart(readOnly), DOMAIN_END, 4);
    LacksChar(FS_CLOSE, DOMAIN_END, 2);
    LastChar(readOnly);
    hide LastPart, FS_CLOSE, DOMAIN_END, Occurs;
    JoinLacksByLast(LastPart(readOnly), FS_CLOSE, DOMAIN_END);
  }

  lemma LastChar(readOnly: bool)
    ensures var x := LastPart(readOnly); x != "" && x[|x| - 1] == '\n' && '\n' !in DOMAIN_END && DOMAIN_END != ""
  {
  }

  /** No printed folder has the shared access (its accessmode is none) or the end of the domain. */
  lemma BlockLacksBoth(f: Folder)
    requires Clean(f)
    ensures !Occurs(Block(f), SHARED) && !Occurs(Block(f), DOMAIN_END)
  {
    Patterns();
    BlockIsJoin(f);
    ValuesLackTags(f);
    HeadLacksBoth(f.fs);
    TailLacksAccess(f);
    TailLacksEnd(f);
    NotEmpty();
    hide HeadParts, SOURCE_PART, TARGET_PART, LastPart, FS_CLOSE, Quoted;
    hide Lack, Occurs, Block, ACCESS, SHARED, DOMAIN_END;
    var tail := [SOURCE_PART, f.source, TARGET_PART, f.tag, LastPart(f.readOnly) + FS_CLOSE];
    LackConcat(HeadParts(f.fs), tail, ACCESS);
    LackConcat(HeadParts(f.fs), tail, DOMAIN_END);
    JoinLacks(BlockPartsOf(f), ACCESS);
    JoinLacks(BlockPartsOf(f), DOMAIN_END);
    LongerLacks(Block(f), ACCESS, SHARED);
  }

  lemma NotEmpty()
    ensures ACCESS != "" && DOMAIN_END != "" && FS_OPEN != ""
  {
  }

  lemma BlocksLackBoth(items: seq<(Folder, string)>)
    requires GoodItems(items)
    ensures !SomeBlockHas(items, SHARED) && !SomeBlockHas(items, DOMAIN_END)
  {
    hide Occurs, Block, Clean, FS_OPEN;
    forall i | 0 <= i < |items| ensures !Occurs(Block(items[i].0), SHARED) && !Occurs(Block(items[i].0), DOMAIN_END) {
      BlockLacksBoth(items[i].0);
    }
  }

  // ----- the searches of the code in such a text -----

  /** The test for shared memory tells whether the configuration has it, and the end of the domain is found. */
  lemma SharedTest(xml: string, c: Config)
    requires Shows(xml, c)
    ensures Occurs(xml, SHARED) <==> c.shared
    ensures Occurs(xml, DOMAIN_END)
  {
    var head, items: seq<(Folder, string)> :| Represents(xml, head, items, c);
    Patterns();
    BlocksLackBoth(items);
    hide Occurs, SHARED, DOMAIN_END, Contained;
    FoundIff(head, items, SHARED);
    FoundIff(head, items, DOMAIN_END);
  }

  /** The listing shows the folders of the configuration. */
  lemma ListTest(xml: string, c: Config)
    requires Shows(xml, c)
    ensures ListFrom(xml, 0) == c.folders
    ensures forall f :: f in c.folders ==> Clean(f)
  {
    var head, items: seq<(Folder, string)> :| Represents(xml, head, items, c);
    hide Clean, Occurs;
    ListPrinted(head, items);
  }

  /** A text shows one configuration only: the one that the code's searches find in it. */
  function ConfigOf(xml: string): Config {
    Config(Occurs(xml, SHARED), ListFrom(xml, 0))
  }

  lemma ConfigIs(xml: string, c: Config)
    requires Shows(xml, c)
    ensures c == ConfigOf(xml)
  {
    SharedTest(xml, c);
    ListTest(xml, c);
    hide Shows, Occurs, ListFrom;
  }

  /** needs_restart is raised exactly when no folder of the live configuration is hit. */
  lemma FlagTest(xml: string, c: Config, tag: string)
    requires Shows(xml, c) && Plain(tag)
    ensures Flag(Some(xml), tag) <==> !Hits(c.folders, tag)
  {
    var head, items: seq<(Folder, string)> :| Represents(xml, head, items, c);
    NeedleLonger(tag);
    hide Occurs, Needle, DIR, Plain, Hits;
    if Occurs(head, Needle(tag, "'")) {
      LacksLonger(head, tag);
    }
    forall i | 0 <= i < |items| ensures !Occurs(items[i].1, Needle(tag, "'")) {
      LacksLonger(items[i].1, tag);
    }
    LiveFindsIff(head, items, tag);
  }

  lemma NeedleLonger(tag: string)
    ensures DIR <= Needle(tag, "'")
  {
    NeedleIs(tag);
  }

  lemma LacksLonger(s: string, tag: string)
    requires !Occurs(s, DIR)
    ensures !Occurs(s, Needle(tag, "'"))
  {
    NeedleLonger(tag);
    LongerLacks(s, DIR, Needle(tag, "'"));
  }

  /** The search for a folder to remove. */
  lemma SearchTest(xml: string, c: Config, tag: string)
    requires Shows(xml, c) && '\'' !in tag
    ensures SearchFrom(xml, 0, tag) == match FirstTagged(c.folders, tag) case None => None case Some(f) => Some(Block(f))
  {
    var head, items: seq<(Folder, string)> :| Represents(xml, head, items, c);
    hide Occurs, Clean;
    SearchPrinted(head, items, tag);
  }

  // ----- the edit that enables shared memory -----

  /** What the edit inserts. */
  predicate Harmless(ins: string) {
    && ins != "" && ins[0] == ' ' && ins[|ins| - 1] == '\n' && Occurs(ins, SHARED)
    && !Occurs(ins, FS_OPEN) && !Occurs(ins, DIR)
  }

  /** Other text with the insertion in front of an end of the domain is other text. */
  lemma InsertedText(o: string, k: nat, ins: string)
    requires At(o, k, DOMAIN_END) && Harmless(ins)
    ensures var o' := o[..k] + (ins + o[k..]);
            Occurs(o', SHARED) && Occurs(o', DOMAIN_END)
            && (!Occurs(o, FS_OPEN) ==> !Occurs(o', FS_OPEN)) && (!Occurs(o, DIR) ==> !Occurs(o', DIR))
  {
    EndStarts(o, k);
    BlankFree();
    var a, b := o[..k], o[k..];
    AtSuffix(a, b, 0, DOMAIN_END);
    assert a + b == o;
    hide SHARED, FS_OPEN, DIR, DOMAIN_END;
    OccursAt(b, 0, DOMAIN_END);
    hide Occurs;
    OccursInSuffix(ins, b, DOMAIN_END);
    OccursInSuffix(a, ins + b, DOMAIN_END);
    OccursInPrefix(ins, b, SHARED);
    OccursInSuffix(a, ins + b, SHARED);
    if !Occurs(o, FS_OPEN) {
      HeadLacks(o, k, FS_OPEN);
      TailLacks(o, k, FS_OPEN);
      JoinLacksByHead(ins, b, FS_OPEN);
      JoinLacksByHead(a, ins + b, FS_OPEN);
    }
    if !Occurs(o, DIR) {
      HeadLacks(o, k, DIR);
      TailLacks(o, k, DIR);
      JoinLacksByHead(ins, b, DIR);
      JoinLacksByHead(a, ins + b, DIR);
    }
  }

  lemma EndStarts(o: string, k: nat)
    requires At(o, k, DOMAIN_END)
    ensures k < |o| && o[k] == '<'
  {
    AtChar(o, k, DOMAIN_END, 0);
  }

  lemma BlankFree()
    ensures |FS_OPEN| > 0 && (forall k :: 1 <= k < |FS_OPEN| ==> FS_OPEN[k] != '<' && FS_OPEN[k] != ' ')
    ensures |DIR| > 0 && forall k :: 1 <= k < |DIR| ==> DIR[k] != '<' && DIR[k] != ' '
  {
  }

  /** An end of the domain is wholly in front of an element or behind it. */
  lemma EndBeside(head: string, block: string, rest: string, i: nat)
    requires At(head + (block + rest), i, DOMAIN_END) && Bordered(block) && !Occurs(block, DOMAIN_END)
    ensures At(head, i, DOMAIN_END) || (i >= |head| + |block| && At(rest, i - |head| - |block|, DOMAIN_END))
  {
    EndBorders();
    hide DOMAIN_END;
    var pat := DOMAIN_END;
    if i + |pat| <= |head| {
      AtPrefix(head, block + rest, i, pat);
    } else if i < |head| {
      AtAcross(head, block + rest, i, pat);
    } else {
      AtSuffix(head, block + rest, i - |head|, pat);
      var j := i - |head|;
      if j >= |block| {
        AtSuffix(block, rest, j - |block|, pat);
      } else if j + |pat| <= |block| {
        AtPrefix(block, rest, j, pat);
        OccursAt(block, j, pat);
      } else {
        CharIf(block + rest, j, pat, |block| - 1 - j);
      }
    }
  }

  lemma EndBorders()
    ensures DOMAIN_END != "" && forall k :: 1 <= k < |DOMAIN_END| ==> DOMAIN_END[k] != '<'
    ensures forall k :: 0 <= k < |DOMAIN_END| - 1 ==> DOMAIN_END[k] != '>'
  {
  }

  lemma SpliceHead(head: string, rest: string, i: nat, ins: string)
    requires i <= |head|
    ensures (head[..i] + (ins + head[i..])) + rest == (head + rest)[..i] + ins + (head + rest)[i..]
  {
  }

  lemma SpliceRest(front: string, rest: string, i: nat, ins: string)
    requires i <= |rest|
    ensures front + (rest[..i] + ins + rest[i..]) == (front + rest)[..|front| + i] + ins + (front + rest)[|front| + i..]
  {
  }

  lemma NothingBehind(head: string)
    ensures head + "" == head
  {
  }

  /** The text with the insertion, cut into folders and other text again. */
  lemma {:induction false} Insertion(head: string, items: seq<(Folder, string)>, i: nat, ins: string)
    returns (head': string, items': seq<(Folder, string)>)
    requires GoodItems(items) && At(head + Blocks(items), i, DOMAIN_END) && Harmless(ins)
    ensures var xml := head + Blocks(items); i <= |xml| && head' + Blocks(items') == xml[..i] + ins + xml[i..]
    ensures GoodItems(items') && FoldersOf(items') == FoldersOf(items)
    ensures !Occurs(head, FS_OPEN) ==> !Occurs(head', FS_OPEN)
    ensures !OtherHas(head, items, DIR) ==> !OtherHas(head', items', DIR)
    ensures OtherHas(head', items', SHARED) && OtherHas(head', items', DOMAIN_END)
    decreases |items|
  {
    hide Occurs, Clean, Block, FS_OPEN, DIR, SHARED, DOMAIN_END, Harmless, Bordered, Find;
    NothingBehind(head);
    if At(head, i, DOMAIN_END) {
      InsertedText(head, i, ins);
      head', items' := head[..i] + (ins + head[i..]), items;
      SpliceHead(head, Blocks(items), i, ins);
    } else if items != [] {
      var f, gap, rest := items[0].0, items[0].1, Blocks(items[1..]);
      GoodRest(items);
      BlockBorders(f);
      BlockLacksBoth(f);
      Associate(Block(f), gap, rest);
      EndBeside(head, Block(f), gap + rest, i);
      var front := head + Block(f);
      var gap', more := Insertion(gap, items[1..], i - |front|, ins);
      head', items' := head, [(f, gap')] + more;
      OtherStep(head, items, DIR);
      OtherStep(head, items', DIR);
      OtherStep(head, items', SHARED);
      OtherStep(head, items', DOMAIN_END);
      assert items'[1..] == more && items'[0] == (f, gap');
      assert FoldersOf(items) == [f] + FoldersOf(items[1..]) && FoldersOf(items') == [f] + FoldersOf(more);
      SpliceRest(front, gap + rest, i - |front|, ins);
      Associate(head, Block(f), gap + rest);
      Associate(Block(f), gap', Blocks(more));
      Associate(head, Block(f), gap' + Blocks(more));
    }
  }

  // How a folder element starts.
  const FS_HEAD := "<fi"

  // The insertion, cut at its quotes.
  const START_PART := "  " + "<memoryBacking>\n    <source type="
  const MEMFD_PART := "memfd"
  const ACCESS_PART := "/>\n    " + ACCESS
  const SHARED_PART := "shared"
  const STOP_PART := "/>\n  </memoryBacking>\n"

  function InsertParts(): seq<string> {
    [START_PART, MEMFD_PART, ACCESS_PART, SHARED_PART, STOP_PART]
  }

  lemma InsertionIs()
    ensures "  " + BACKING == Quoted(InsertParts())
  {
    HeadIs();
    SharedIs();
    JoinOfFive(START_PART, MEMFD_PART, ACCESS_PART, SHARED_PART, STOP_PART);
    assert InsertParts() == [START_PART, MEMFD_PART, ACCESS_PART, SHARED_PART, STOP_PART];
    hide *;
    CutAgain("  ", BACKING_HEAD, ACCESS, QUOTE, SHARED_PART, STOP_PART, START_PART, MEMFD_PART, ACCESS_PART);
  }

  lemma JoinOfFive(a: string, b: string, c: string, d: string, e: string)
    ensures Quoted([a, b, c, d, e]) == a + (QUOTE + (b + (QUOTE + (c + (QUOTE + (d + (QUOTE + e)))))))
  {
    assert [a, b, c, d, e][1..] == [b, c, d, e] && [b, c, d, e][1..] == [c, d, e];
    assert [c, d, e][1..] == [d, e] && [d, e][1..] == [e];
    assert Quoted([e]) == e && Quoted([d, e]) == d + (QUOTE + e);
    assert Quoted([c, d, e]) == c + (QUOTE + Quoted([d, e])) && Quoted([b, c, d, e]) == b + (QUOTE + Quoted([c, d, e]));
  }

  lemma CutAgain(blank: string, head: string, access: string, q: string, word: string, stop: string,
                 s: string, m: string, a: string)
    requires blank + head + access == s + (q + (m + (q + a)))
    ensures blank + (head + ((access + (q + (word + q))) + stop))
         == s + (q + (m + (q + (a + (q + (word + (q + stop)))))))
  {
    assert blank + (head + ((access + (q + (word + q))) + stop)) == (blank + head + access) + (q + (word + (q + stop)));
    assert s + (q + (m + (q + (a + (q + (word + (q + stop)))))))
        == (s + (q + (m + (q + a)))) + (q + (word + (q + stop)));
  }

  lemma HeadIs()
    ensures "  " + BACKING_HEAD + ACCESS == START_PART + (QUOTE + (MEMFD_PART + (QUOTE + ACCESS_PART)))
  {
    hide ACCESS;
    HeadCut("  ", "<memoryBacking>\n    <source type=", QUOTE, MEMFD_PART, "/>\n    ", ACCESS);
  }

  lemma HeadCut(blank: string, s: string, q: string, m: string, e: string, access: string)
    ensures blank + (s + (q + (m + (q + e)))) + access == (blank + s) + (q + (m + (q + (e + access))))
  {
  }

  lemma SharedIs()
    ensures SHARED == ACCESS + (QUOTE + (SHARED_PART + QUOTE)) && BACKING == BACKING_HEAD + (SHARED + STOP_PART)
  {
    assert "/>\n  </memoryBacking>\n" == STOP_PART;
  }

  lemma PartsLackKey()
    ensures Lack(InsertParts(), KEY) && '\'' !in KEY && KEY <= DIR && KEY != ""
  {
    KeyIs();
    hide Lack;
    MissesLacks(InsertParts(), KEY, [0, 1, 1, 1, 0]);
  }

  lemma KeyIs()
    ensures KEY <= DIR && '\'' !in KEY
  {
  }

  lemma PartsLackOpen()
    ensures Lack(InsertParts(), FS_HEAD) && FS_HEAD <= FS_OPEN && '\'' !in FS_HEAD && FS_HEAD != ""
  {
    assert FS_OPEN[..3] == FS_HEAD;
    hide Lack;
    MissesLacks(InsertParts(), FS_HEAD, [1, 0, 1, 0, 1]);
  }

  lemma InsertBorders()
    ensures var ins := "  " + BACKING; ins != "" && ins[0] == ' ' && ins[|ins| - 1] == '\n'
  {
    SharedIs();
    assert STOP_PART[|STOP_PART| - 1] == '\n' && |STOP_PART| > 0;
    hide BACKING, BACKING_HEAD, SHARED, STOP_PART;
  }

  lemma BackingIsHarmless()
    ensures Harmless("  " + BACKING)
  {
    InsertBorders();
    BackingShares();
    InsertionIs();
    PartsLackKey();
    PartsLackOpen();
    hide BACKING, BACKING_HEAD, InsertParts, SHARED, FS_OPEN, DIR, KEY, FS_HEAD, Occurs, Quoted;
    JoinLacks(InsertParts(), FS_HEAD);
    LongerLacks("  " + BACKING, FS_HEAD, FS_OPEN);
    JoinLacks(InsertParts(), KEY);
    LongerLacks("  " + BACKING, KEY, DIR);
    OccursAt(BACKING, |BACKING_HEAD|, SHARED);
    OccursInSuffix("  ", BACKING, SHARED);
  }

  /** Enabling finds shared memory exactly when the configuration has it, always finds the end of the domain, and the
      text it defines shows the same folders with shared memory. */
  lemma EnableShows(xml: string, c: Config)
    requires Shows(xml, c)
    ensures match EnableXml(xml)
            case AlreadyEnabled => c.shared
            case Define(text) => !c.shared && Shows(text, c.(shared := true))
            case NoDomainEnd => false
  {
    SharedTest(xml, c);
    hide *;
    if c.shared {
      EnabledAlready(xml);
    } else {
      var i := EnableSplits(xml);
      EnableShowsAt(xml, c, i);
    }
  }

  lemma EnabledAlready(xml: string)
    requires Occurs(xml, SHARED)
    ensures EnableXml(xml) == AlreadyEnabled
  {
  }

  lemma EnableSplits(xml: string) returns (i: nat)
    requires !Occurs(xml, SHARED) && Occurs(xml, DOMAIN_END)
    ensures At(xml, i, DOMAIN_END) && i <= |xml| && EnableXml(xml) == Define(xml[..i] + ("  " + BACKING) + xml[i..])
  {
    i := Find(xml, DOMAIN_END, 0).value;
    hide SHARED, DOMAIN_END, BACKING, Occurs;
    assert xml[..i] + "  " + BACKING + xml[i..] == xml[..i] + ("  " + BACKING) + xml[i..];
  }

  lemma EnableShowsAt(xml: string, c: Config, i: nat)
    requires Shows(xml, c) && At(xml, i, DOMAIN_END) && i <= |xml|
    ensures Shows(xml[..i] + ("  " + BACKING) + xml[i..], c.(shared := true))
  {
    var head, items: seq<(Folder, string)> :| Represents(xml, head, items, c);
    BackingIsHarmless();
    RepresentsSays(xml, head, items, c);
    hide *;
    var head', items' := Insertion(head, items, i, "  " + BACKING);
    RepresentsWith(xml[..i] + ("  " + BACKING) + xml[i..], head', items', c);
  }

  lemma RepresentsSays(xml: string, head: string, items: seq<(Folder, string)>, c: Config)
    requires Represents(xml, head, items, c)
    ensures xml == head + Blocks(items) && GoodItems(items) && !Occurs(head, FS_OPEN)
    ensures FoldersOf(items) == c.folders && !OtherHas(head, items, DIR)
  {
  }

  lemma RepresentsWith(xml: string, head: string, items: seq<(Folder, string)>, c: Config)
    requires xml == head + Blocks(items) && GoodItems(items) && !Occurs(head, FS_OPEN) && FoldersOf(items) == c.folders
    requires !OtherHas(head, items, DIR) && OtherHas(head, items, SHARED) && OtherHas(head, items, DOMAIN_END)
    ensures Shows(xml, c.(shared := true))
  {
    hide Occurs, OtherHas, GoodItems, Blocks, DIR, SHARED, DOMAIN_END, FS_OPEN;
    assert Represents(xml, head, items, c.(shared := true));
  }

  lemma PartsLackEnd()
    ensures Lack(InsertParts(), DOMAIN_END) && '\'' !in DOMAIN_END && DOMAIN_END != "" && HeadOnce(DOMAIN_END)
    ensures ' ' !in DOMAIN_END
  {
    EndChars();
    hide Lack, HeadOnce;
    MissesLacks(InsertParts(), DOMAIN_END, [2, 0, 6, 0, 2]);
  }

  lemma EndChars()
    ensures '\'' !in DOMAIN_END && DOMAIN_END != "" && HeadOnce(DOMAIN_END) && ' ' !in DOMAIN_END
  {
  }

  /** The memory backing goes inside the domain, right in front of its first end tag, which stays the first one; all
      text around it stays. */
  lemma EnableInside(xml: string)
    requires EnableXml(xml).Define?
    ensures var text, ins := EnableXml(xml).xml, "  " + BACKING;
            exists i: nat :: Find(xml, DOMAIN_END, 0) == Some(i) && Find(text, DOMAIN_END, 0) == Some(i + |ins|)
                          && text == xml[..i] + ins + xml[i..]
  {
    var i := Find(xml, DOMAIN_END, 0).value;
    EnableIs(xml, i);
    PartsLackEnd();
    InsertionIs();
    InsertBorders();
    hide InsertParts, Lack, Quoted, BACKING, DOMAIN_END, SHARED, Occurs, HeadOnce, EnableXml;
    JoinLacks(InsertParts(), DOMAIN_END);
    BeforeFirst(xml, DOMAIN_END, i);
    EndStays(xml[..i], "  " + BACKING, xml[i..]);
  }

  lemma EnableIs(xml: string, i: nat)
    requires EnableXml(xml).Define? && Find(xml, DOMAIN_END, 0) == Some(i)
    ensures EnableXml(xml).xml == xml[..i] + ("  " + BACKING) + xml[i..]
  {
    hide BACKING, DOMAIN_END, SHARED;
    assert xml[..i] + "  " + BACKING + xml[i..] == xml[..i] + ("  " + BACKING) + xml[i..];
  }

  lemma BeforeFirst(s: string, pat: string, i: nat)
    requires Find(s, pat, 0) == Some(i) && pat != ""
    ensures i <= |s| && !Occurs(s[..i], pat) && pat <= s[i..]
  {
    assert s[0..i] == s[..i];
    if Occurs(s[..i], pat) {
      AtPart(s, 0, i, Find(s[..i], pat, 0).value, pat);
    }
    assert s[i..][..|pat|] == s[i..i + |pat|];
  }

  lemma EndStays(a: string, ins: string, b: string)
    requires !Occurs(a, DOMAIN_END) && !Occurs(ins, DOMAIN_END) && DOMAIN_END <= b && HeadOnce(DOMAIN_END)
    requires ins != "" && ins[0] == ' ' && ' ' !in DOMAIN_END && DOMAIN_END != ""
    ensures Find(a + ins + b, DOMAIN_END, 0) == Some(|a| + |ins|)
  {
    hide DOMAIN_END, Occurs;
    JoinLacksByHead(a, ins, DOMAIN_END);
    var rest := b[|DOMAIN_END|..];
    assert b == DOMAIN_END + rest;
    FindAfter(a + ins, DOMAIN_END, rest);
  }

  // ----- every configuration has a text -----

  function Bare(folders: seq<Folder>): seq<(Folder, string)> {
    seq(|folders|, i requires 0 <= i < |folders| => (folders[i], ""))
  }

  function BareHead(shared: bool): string {
    (if shared then SHARED else "") + DOMAIN_END
  }

  lemma BareHeadIs(shared: bool)
    ensures var x := BareHead(shared);
            !Occurs(x, FS_OPEN) && !Occurs(x, DIR) && Occurs(x, DOMAIN_END) && (Occurs(x, SHARED) <==> shared)
  {
    BareChars();
    LacksChar(BareHead(shared), FS_OPEN, 3);
    LacksChar(if shared then SHARED else "", DIR, 1);
    LacksChar(DOMAIN_END, DIR, 2);
    hide FS_OPEN, DIR, SHARED, DOMAIN_END;
    JoinLacksByHead(if shared then SHARED else "", DOMAIN_END, DIR);
    assert At(DOMAIN_END, 0, DOMAIN_END) && At(SHARED, 0, SHARED);
    OccursAt(DOMAIN_END, 0, DOMAIN_END);
    OccursInSuffix(if shared then SHARED else "", DOMAIN_END, DOMAIN_END);
    if shared {
      OccursAt(SHARED, 0, SHARED);
      OccursInPrefix(SHARED, DOMAIN_END, SHARED);
    } else {
      assert "" + DOMAIN_END == DOMAIN_END;
      LacksChar(DOMAIN_END, SHARED, 2);
    }
  }

  lemma BareChars()
    ensures |FS_OPEN| > 3 && FS_OPEN[3] == 'l' && |SHARED| > 2 && SHARED[2] == 'c'
    ensures |DIR| == 5 && DIR[1] == 'i' && DIR[2] == 'r' && '<' !in DIR && DOMAIN_END != "" && DOMAIN_END[0] == '<'
    ensures 'l' !in DOMAIN_END && 'c' !in DOMAIN_END && 'r' !in DOMAIN_END && 'l' !in SHARED && 'i' !in SHARED
  {
  }

  lemma BareItems(folders: seq<Folder>)
    requires forall f :: f in folders ==> Clean(f)
    ensures GoodItems(Bare(folders)) && FoldersOf(Bare(folders)) == folders
    ensures forall head, pat :: pat != "" ==> (OtherHas(head, Bare(folders), pat) <==> Occurs(head, pat))
  {
    NotEmpty();
    hide FS_OPEN, Occurs, Clean;
    forall pat | pat != "" ensures !Occurs("", pat) {
      LacksByChar("", pat);
    }
  }

  /** So no condition on the texts of a run can be empty: each configuration of clean folders is shown by some text. */
  lemma SomeTextShows(c: Config) returns (xml: string)
    requires forall f :: f in c.folders ==> Clean(f)
    ensures Shows(xml, c)
  {
    BareHeadIs(c.shared);
    BareItems(c.folders);
    NotEmpty();
    BareChars();
    hide Occurs, Clean, Bare, BareHead, OtherHas, GoodItems, DIR, SHARED, DOMAIN_END, FS_OPEN;
    xml := BareHead(c.shared) + Blocks(Bare(c.folders));
    assert Represents(xml, BareHead(c.shared), Bare(c.folders), c);
  }
}
