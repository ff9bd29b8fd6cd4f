/** The needs_restart test of lv_list_shared_folders. */
module RestartNeedle {
  // dir='tag' is searched in the live domain XML.  A folder element has its source and its tag in the same
  // attribute, so the search hits either.  It hits nothing else: its first quote has to be a quote of the element, and
  // the text in front of that one ends in dir=.

  import opened DomainText
  import opened FolderXml
  import opened Quotes
  import opened SharedFolders
  import opened Strings
  import opened Wrappers

  predicate QuoteFree(parts: seq<string>) {
    forall i :: 0 <= i < |parts| ==> '\'' !in parts[i]
  }

  lemma FirstQuote(a: string, b: string)
    requires '\'' !in a
    ensures var s := a + (QUOTE + b);
            s[|a|] == '\'' && s[..|a|] == a && forall k :: 0 <= k < |a| ==> s[k] != '\''
  {
  }

  /** Two quote-free words in front of the first quote of the same text. */
  lemma SameFirstWord(a: string, b: string, w: string, c: string)
    requires '\'' !in a && '\'' !in w && a + (QUOTE + b) == w + (QUOTE + c)
    ensures a == w
  {
    FirstQuote(a, b);
    FirstQuote(w, c);
  }

  lemma WordIsFirst(parts: seq<string>, word: string)
    requires QuoteFree(parts) && '\'' !in word && At(Quoted(parts), 0, word + QUOTE)
    ensures |parts| > 1 && parts[0] == word
  {
    var s := Quoted(parts);
    WordCut(s, word);
    TwoQuotes(parts);
    hide Quoted, At, QUOTE;
    SameFirstWord(parts[0], Quoted(parts[1..]), word, s[|word| + 1..]);
  }

  lemma WordCut(s: string, word: string)
    requires At(s, 0, word + QUOTE)
    ensures |s| > |word| && s == word + (QUOTE + s[|word| + 1..]) && '\'' in s
  {
    AtConcat(s, 0, word, QUOTE);
    AtChar(s, |word|, QUOTE, 0);
    assert s[0..|word|] == word;
    assert s == s[0..|word|] + (QUOTE + s[|word| + 1..]);
  }

  /** A row with a quote in it has at least two parts. */
  lemma TwoQuotes(parts: seq<string>)
    requires QuoteFree(parts) && '\'' in Quoted(parts)
    ensures |parts| > 1 && Quoted(parts) == parts[0] + (QUOTE + Quoted(parts[1..]))
  {
  }

  /** Every quote of a row of quote-free parts stands between two of them. */
  lemma {:induction false} QuoteIsCut(parts: seq<string>, p: nat) returns (i: nat)
    requires QuoteFree(parts) && p < |Quoted(parts)| && Quoted(parts)[p] == '\''
    ensures 0 < i < |parts| && p == |Quoted(parts[..i])|
    decreases |parts|
  {
    TwoQuotes(parts);
    hide Quoted;
    var a, more := parts[0], parts[1..];
    if p == |a| {
      i := 1;
      OnePart(parts);
    } else {
      assert p > |a| && Quoted(parts)[p] == Quoted(more)[p - |a| - 1];
      i := QuoteIsCut(more, p - |a| - 1);
      FirstParts(parts, i);
      i := i + 1;
    }
  }

  lemma OnePart(parts: seq<string>)
    requires parts != []
    ensures Quoted(parts[..1]) == parts[0]
  {
  }

  lemma FirstParts(parts: seq<string>, i: nat)
    requires 0 < i < |parts|
    ensures |Quoted(parts[..i + 1])| == |parts[0]| + 1 + |Quoted(parts[1..][..i])|
  {
    assert parts[..i + 1] == [parts[0]] + parts[1..][..i];
    JoinSplit([parts[0]], parts[1..][..i]);
  }

  /** What stands behind a quote that itself stands behind `key`: the text starts a part, and the part in front of
      it ends with the key. */
  lemma KeyedStartsPart(parts: seq<string>, p: nat, key: string, text: string) returns (i: nat)
    requires QuoteFree(parts) && '\'' !in key && At(Quoted(parts), p, key + (QUOTE + text))
    ensures 0 < i < |parts| && At(Quoted(parts[i..]), 0, text)
    ensures |key| <= |parts[i - 1]| && parts[i - 1][|parts[i - 1]| - |key|..] == key
  {
    var s := Quoted(parts);
    AtConcat(s, p, key, QUOTE + text);
    AtConcat(s, p + |key|, QUOTE, text);
    AtChar(s, p + |key|, QUOTE, 0);
    hide Quoted, At, QuoteFree;
    i := QuoteIsCut(parts, p + |key|);
    EndsWith(parts, i, p, key);
    SplitAt(parts, i);
    hide *;
    QuoteLength();
    BehindQuote(Quoted(parts[..i]), Quoted(parts[i..]), text);
  }

  lemma QuoteLength()
    ensures |QUOTE| == 1
  {
  }

  lemma BehindQuote(a: string, b: string, text: string)
    requires At(a + (QUOTE + b), |a| + 1, text)
    ensures At(b, 0, text)
  {
    AtSuffix(a + QUOTE, b, 0, text);
    assert (a + QUOTE) + b == a + (QUOTE + b);
  }

  lemma EndsWith(parts: seq<string>, i: nat, p: nat, key: string)
    requires 0 < i < |parts| && QuoteFree(parts) && '\'' !in key
    requires At(Quoted(parts), p, key) && p + |key| == |Quoted(parts[..i])|
    ensures |key| <= |parts[i - 1]| && parts[i - 1][|parts[i - 1]| - |key|..] == key
  {
    var last := parts[i - 1];
    SplitAt(parts, i);
    if i == 1 {
      OnePart(parts);
      AtPrefix(last, QUOTE + Quoted(parts[i..]), p, key);
    } else {
      var front := parts[..i - 1];
      assert parts[..i] == front + [last];
      JoinSplit(front, [last]);
      JoinOne(last);
      AtPrefix(Quoted(parts[..i]), QUOTE + Quoted(parts[i..]), p, key);
      KeyAtEnd(Quoted(front), last, p, key);
    }
  }

  lemma SplitAt(parts: seq<string>, i: nat)
    requires 0 < i < |parts|
    ensures Quoted(parts) == Quoted(parts[..i]) + (QUOTE + Quoted(parts[i..]))
  {
    assert parts == parts[..i] + parts[i..];
    JoinSplit(parts[..i], parts[i..]);
  }

  lemma KeyAtEnd(front: string, last: string, p: nat, key: string)
    requires '\'' !in key && At(front + (QUOTE + last), p, key) && p + |key| == |front| + 1 + |last|
    ensures |key| <= |last| && last[|last| - |key|..] == key
  {
    var s := front + (QUOTE + last);
    CharIf(s, p, key, if |front| >= p then |front| - p else 0);
    assert s[|front|] == '\'';
    assert s[p..p + |key|] == key;
    assert p > |front| ==> s[p..p + |key|] == last[p - |front| - 1..];
  }

  // ----- one printed block -----

  const KEY := "dir="

  /** A tag as a listing shows it: without the quote and the bracket that end a value. */
  predicate Plain(tag: string) {
    '\'' !in tag && '<' !in tag
  }

  /** The needle behind its first quote: the tag and a quote, or the first 250 characters of a longer tag. */
  function Asked(tag: string): string {
    if Fits(tag) then tag + QUOTE else tag[..STEM]
  }

  lemma WantedIs(tag: string)
    ensures Needle(tag, "'") == KEY + (QUOTE + Asked(tag)) && DIR + Asked(tag) == KEY + (QUOTE + Asked(tag))
    ensures '\'' !in KEY && |KEY| == 4
  {
    NeedleIs(tag);
    assert DIR == KEY + QUOTE;
    assert (KEY + QUOTE) + Asked(tag) == KEY + (QUOTE + Asked(tag));
  }

  /** The block cut at its quotes; its close tag belongs to the last part. */
  function BlockPartsOf(f: Folder): seq<string> {
    HeadParts(f.fs) + [SOURCE_PART, f.source, TARGET_PART, f.tag, LastPart(f.readOnly) + FS_CLOSE]
  }

  lemma BlockIsJoin(f: Folder)
    requires Clean(f)
    ensures Block(f) == Quoted(BlockPartsOf(f)) && QuoteFree(BlockPartsOf(f))
  {
    BlockParts(f);
    HeadQuoteFree(f.fs);
    assert '\'' !in f.source && '\'' !in f.tag;
    hide HeadParts, SOURCE_PART, TARGET_PART, LastPart, FS_CLOSE, Quoted, Clean, CleanValue, Occurs;
    var a := HeadParts(f.fs) + [SOURCE_PART, f.source, TARGET_PART, f.tag];
    assert Parts(f) == a + [LastPart(f.readOnly)];
    assert BlockPartsOf(f) == a + [LastPart(f.readOnly) + FS_CLOSE];
    JoinEnd(a, LastPart(f.readOnly), FS_CLOSE);
  }

  lemma PartsQuoteFree()
    ensures '\'' !in TYPE_PART && '\'' !in MOUNT_PART && '\'' !in MODE_PART && '\'' !in PASS_PART && '\'' !in MAPPED_PART
    ensures '\'' !in DRIVER_PART && '\'' !in VIRTIOFS && '\'' !in PATH_PART && '\'' !in POLICY_PART
    ensures '\'' !in IMMEDIATE_PART && '\'' !in FS_CLOSE
  {
  }

  lemma HeadQuoteFree(fs: FsType)
    ensures QuoteFree(HeadParts(fs)) && '\'' !in SOURCE_PART && '\'' !in TARGET_PART
    ensures forall readOnly :: '\'' !in LastPart(readOnly) + FS_CLOSE
    ensures '<' in SOURCE_PART && '<' in TARGET_PART
  {
    PartsQuoteFree();
    assert SOURCE_PART[5] == '<' && TARGET_PART[5] == '<';
    hide TYPE_PART, MOUNT_PART, MODE_PART, PASS_PART, MAPPED_PART, DRIVER_PART, VIRTIOFS, PATH_PART, POLICY_PART;
    hide IMMEDIATE_PART, FS_CLOSE;
  }

  /** No part in front of the source ends with the key. */
  lemma HeadEnds(fs: FsType, j: nat)
    requires j < |HeadParts(fs)|
    ensures var x := HeadParts(fs)[j]; |x| >= 4 && (x[|x| - 1] != '=' || x[|x| - 2] != 'r')
  {
  }

  lemma FindsOnly(f: Folder, tag: string)
    requires Clean(f) && Plain(tag) && Occurs(Block(f), Needle(tag, "'"))
    ensures Hit(f.tag, tag) || Hit(f.source, tag)
  {
    WantedIs(tag);
    BlockIsJoin(f);
    var parts, n := BlockPartsOf(f), |HeadParts(f.fs)|;
    PartsAt(f);
    hide *;
    var i := KeyedStartsPart(parts, FoundAt(Block(f), Needle(tag, "'")), KEY, Asked(tag));
    KeyEnds(f, i);
    AskedIsPart(parts, i, tag);
    NotMarkup(f, i, tag);
  }

  lemma PartsAt(f: Folder)
    ensures var parts, n := BlockPartsOf(f), |HeadParts(f.fs)|;
            |parts| == n + 5 && parts[n + 1] == f.source && parts[n + 3] == f.tag
            && parts[n] == SOURCE_PART && parts[n + 2] == TARGET_PART && parts[n + 4] == LastPart(f.readOnly) + FS_CLOSE
            && forall j :: 0 <= j < n ==> parts[j] == HeadParts(f.fs)[j]
  {
    hide HeadParts, SOURCE_PART, TARGET_PART, LastPart, FS_CLOSE;
  }

  /** The key ends a part only in front of the source, of the target, or of what follows one of the values. */
  lemma KeyEnds(f: Folder, i: nat)
    requires 0 < i < |BlockPartsOf(f)|
    requires var part := BlockPartsOf(f)[i - 1]; |KEY| <= |part| && part[|part| - |KEY|..] == KEY
    ensures i > |HeadParts(f.fs)|
  {
    PartsAt(f);
    EndChars2(BlockPartsOf(f)[i - 1], KEY);
    hide BlockPartsOf, HeadParts;
    if i - 1 < |HeadParts(f.fs)| {
      HeadEnds(f.fs, i - 1);
    }
  }

  lemma AskedIsPart(parts: seq<string>, i: nat, tag: string)
    requires QuoteFree(parts) && i < |parts| && At(Quoted(parts[i..]), 0, Asked(tag)) && '\'' !in tag
    ensures if Fits(tag) then i + 1 < |parts| && parts[i] == tag else tag[..STEM] <= parts[i]
  {
    if Fits(tag) {
      WordIsFirst(parts[i..], tag);
    } else {
      StemIsFirst(parts[i..], tag[..STEM]);
    }
  }

  lemma StemIsFirst(parts: seq<string>, stem: string)
    requires QuoteFree(parts) && parts != [] && '\'' !in stem && At(Quoted(parts), 0, stem)
    ensures stem <= parts[0]
  {
    var s := Quoted(parts);
    assert s[..|stem|] == stem;
    assert forall k :: 0 <= k < |stem| ==> s[k] == stem[k];
    assert |parts| > 1 ==> s[|parts[0]|] == '\'';
  }

  /** The fixed text behind the values is no tag: it has a '<' too early, and is too short for a cut one. */
  lemma NotMarkup(f: Folder, i: nat, tag: string)
    requires var parts := BlockPartsOf(f);
             |HeadParts(f.fs)| < i < |parts|
             && if Fits(tag) then i + 1 < |parts| && parts[i] == tag else tag[..STEM] <= parts[i]
    requires Plain(tag)
    ensures Hit(f.tag, tag) || Hit(f.source, tag)
  {
    PartsAt(f);
    HeadQuoteFree(f.fs);
    MarkupShort(f.readOnly);
    hide BlockPartsOf, HeadParts, SOURCE_PART, TARGET_PART, LastPart, FS_CLOSE;
  }

  lemma MarkupShort(readOnly: bool)
    ensures |TARGET_PART| < STEM && |LastPart(readOnly) + FS_CLOSE| < STEM
  {
  }

  function FoundAt(s: string, pat: string): (i: nat)
    requires Occurs(s, pat)
    ensures At(s, i, pat)
  {
    Find(s, pat, 0).value
  }

  lemma EndChars2(x: string, key: string)
    requires |key| == 4 && |key| <= |x| && x[|x| - |key|..] == key
    ensures x[|x| - 1] == key[3] && x[|x| - 2] == key[2]
  {
    assert x[|x| - 4..][3] == x[|x| - 1] && x[|x| - 4..][2] == x[|x| - 2];
  }

  /** In a printed block the test finds the tag and the host path, and what the cut needle takes for them. */
  lemma BlockFindsIff(f: Folder, tag: string)
    requires Clean(f) && Plain(tag)
    ensures Occurs(Block(f), Needle(tag, "'")) <==> Hit(f.tag, tag) || Hit(f.source, tag)
  {
    if Hit(f.tag, tag) {
      NeedleIff(f, tag);
      BlockAtTarget(f);
      hide *;
      OccursInSuffix(BeforeTarget(f), FromTarget(f), Needle(tag, "'"));
    } else if Hit(f.source, tag) {
      SourceFound(f, tag);
    } else if Occurs(Block(f), Needle(tag, "'")) {
      FindsOnly(f, tag);
    }
  }

  lemma SourceFound(f: Folder, tag: string)
    requires Clean(f) && Hit(f.source, tag)
    ensures Occurs(Block(f), Needle(tag, "'"))
  {
    WantedIs(tag);
    BodyAtSource(f);
    BlockParts(f);
    SourceStarts(f.source, tag);
    hide *;
    var rest := Quoted([TARGET_PART, f.tag, LastPart(f.readOnly)]);
    var i := |BeforeSource(f)| + |SOURCE_TAG|;
    AttrStands(BeforeSource(f), SOURCE_TAG, DIR, f.source, rest);
    ShorterStands(Body(f), i, DIR, f.source + QUOTE, Asked(tag));
    OccursAt(Body(f), i, Needle(tag, "'"));
    OccursInPrefix(Body(f), FS_CLOSE, Needle(tag, "'"));
  }

  lemma ShorterStands(s: string, i: nat, a: string, b: string, c: string)
    requires At(s, i, a + b) && c <= b
    ensures At(s, i, a + c)
  {
    AtConcat(s, i, a + c, b[|c|..]);
    assert (a + c) + b[|c|..] == a + b;
  }

  lemma SourceStarts(source: string, tag: string)
    requires Hit(source, tag)
    ensures Asked(tag) <= source + QUOTE
  {
  }

  // ----- the live XML and the loop over the listed folders -----

  lemma NeedleContained(tag: string)
    requires Plain(tag)
    ensures Contained(Needle(tag, "'"))
  {
    WantedIs(tag);
    assert KEY[0] == 'd' && '<' !in KEY && '<' !in QUOTE;
  }

  /** Some live folder has a tag or a host path that the needle takes for this tag. */
  predicate Hits(live: seq<Folder>, tag: string) {
    exists i :: 0 <= i < |live| && (Hit(live[i].tag, tag) || Hit(live[i].source, tag))
  }

  predicate TagLive(live: seq<Folder>, tag: string) {
    exists i :: 0 <= i < |live| && live[i].tag == tag
  }

  lemma BlocksHitIff(items: seq<(Folder, string)>, tag: string)
    requires GoodItems(items) && Plain(tag)
    ensures SomeBlockHas(items, Needle(tag, "'")) <==> Hits(FoldersOf(items), tag)
  {
    hide Occurs, Hit, Needle, Clean, Block, Plain, FS_OPEN;
    var folders := FoldersOf(items);
    forall i | 0 <= i < |items|
      ensures Occurs(Block(items[i].0), Needle(tag, "'")) <==> Hit(folders[i].tag, tag) || Hit(folders[i].source, tag)
    {
      BlockFindsIff(items[i].0, tag);
    }
  }

  /** The test succeeds on a live domain XML of printed blocks if and only if some live folder is hit. */
  lemma LiveFindsIff(head: string, items: seq<(Folder, string)>, tag: string)
    requires GoodItems(items) && Plain(tag) && !OtherHas(head, items, Needle(tag, "'"))
    ensures Occurs(head + Blocks(items), Needle(tag, "'")) <==> Hits(FoldersOf(items), tag)
  {
    hide *;
    NeedleContained(tag);
    FoundIff(head, items, Needle(tag, "'"));
    BlocksHitIff(items, tag);
  }

  /** needs_restart: there is a live text, and it does not have the needle. */
  predicate Flag(live: Option<string>, tag: string) {
    live.Some? && !Occurs(live.value, Needle(tag, "'"))
  }

  datatype Listed = Listed(folder: Folder, needsRestart: bool)

  /** lv_list_shared_folders: the persistent folders, each looked up in the live text of an active domain. */
  method ListShared(xml: string, live: Option<string>) returns (listed: seq<Listed>)
    ensures |listed| == |ListFrom(xml, 0)|
    ensures forall i :: 0 <= i < |listed| ==>
              listed[i] == Listed(ListFrom(xml, 0)[i], Flag(live, ListFrom(xml, 0)[i].tag))
  {
    hide ListFrom, Flag;
    var folders := List(xml);
    var out := new Listed[|folders|](i requires 0 <= i < |folders| => Listed(folders[i], false));
    if live.Some? {
      for i := 0 to |folders|
        invariant forall k :: 0 <= k < i ==> out[k] == Listed(folders[k], Flag(live, folders[k].tag))
        invariant forall k :: i <= k < |folders| ==> out[k] == Listed(folders[k], false)
      {
        FlagIs(live, folders[i].tag);
        if !Occurs(live.value, Needle(folders[i].tag, "'")) {
          out[i] := Listed(folders[i], true);
        }
      }
    } else {
      forall i | 0 <= i < |folders| ensures !Flag(live, folders[i].tag) {
        FlagIs(live, folders[i].tag);
      }
    }
    listed := out[..];
  }

  lemma FlagIs(live: Option<string>, tag: string)
    ensures Flag(live, tag) <==> live.Some? && !Occurs(live.value, Needle(tag, "'"))
  {
  }

  /** The flag of a tag is right, that is raised exactly when no live folder has the tag, if and only if the tag is
      live or no live tag or host path is taken for it: none equals it, or, for a tag of 250 characters and more,
      none starts with its first 250. */
  lemma FlagIsRightIff(head: string, items: seq<(Folder, string)>, tag: string)
    requires GoodItems(items) && Plain(tag) && !OtherHas(head, items, Needle(tag, "'"))
    ensures (Flag(Some(head + Blocks(items)), tag) <==> !TagLive(FoldersOf(items), tag))
       <==> TagLive(FoldersOf(items), tag) || !Hits(FoldersOf(items), tag)
  {
    LiveFindsIff(head, items, tag);
    hide Occurs, Needle, Clean, Block, FS_OPEN;
    if i :| 0 <= i < |FoldersOf(items)| && FoldersOf(items)[i].tag == tag {
      assert Hit(FoldersOf(items)[i].tag, tag);
    }
  }

  /** The flags of a whole listing. */
  lemma ListingIsRightIff(head: string, items: seq<(Folder, string)>, liveHead: string, live: seq<(Folder, string)>)
    requires GoodItems(items) && !Occurs(head, FS_OPEN) && GoodItems(live)
    requires forall i :: 0 <= i < |items| ==> !OtherHas(liveHead, live, Needle(items[i].0.tag, "'"))
    ensures ListFrom(head + Blocks(items), 0) == FoldersOf(items)
    ensures (forall i :: 0 <= i < |items| ==>
               (Flag(Some(liveHead + Blocks(live)), items[i].0.tag) <==> !TagLive(FoldersOf(live), items[i].0.tag)))
       <==> (forall i :: 0 <= i < |items| ==>
               TagLive(FoldersOf(live), items[i].0.tag) || !Hits(FoldersOf(live), items[i].0.tag))
  {
    ListPrinted(head, items);
    forall i | 0 <= i < |items|
      ensures (Flag(Some(liveHead + Blocks(live)), items[i].0.tag) <==> !TagLive(FoldersOf(live), items[i].0.tag))
         <==> TagLive(FoldersOf(live), items[i].0.tag) || !Hits(FoldersOf(live), items[i].0.tag)
    {
      CleanIsPlain(items[i].0);
      FlagIsRightIff(liveHead, live, items[i].0.tag);
    }
  }

  lemma CleanIsPlain(f: Folder)
    requires Clean(f)
    ensures Plain(f.tag)
  {
  }

  // ----- two inputs with a wrong flag -----

  lemma {:induction false} JoinLength(parts: seq<string>, m: nat)
    requires forall i :: 0 <= i < |parts| ==> |parts[i]| <= m
    ensures |Quoted(parts)| <= |parts| * (m + 1)
  {
    if |parts| > 1 {
      JoinLength(parts[1..], m);
    }
  }

  lemma JoinFive(a: string, b: string, c: string, d: string, e: string)
    ensures |Quoted([a, b, c, d, e])| == |a| + |b| + |c| + |d| + |e| + 4
  {
    assert [a, b, c, d, e][1..] == [b, c, d, e] && [b, c, d, e][1..] == [c, d, e];
    assert [c, d, e][1..] == [d, e] && [d, e][1..] == [e];
    assert |Quoted([e])| == |e| && |Quoted([d, e])| == |d| + |e| + 1 && |Quoted([c, d, e])| == |c| + |d| + |e| + 2;
    assert |Quoted([b, c, d, e])| == |b| + |c| + |d| + |e| + 3;
  }

  lemma PartLengths(fs: FsType, readOnly: bool)
    ensures 0 < |HeadParts(fs)| <= 8 && forall i :: 0 <= i < |HeadParts(fs)| ==> |HeadParts(fs)[i]| <= 20
    ensures |SOURCE_PART| <= 20 && |TARGET_PART| <= 20 && |LastPart(readOnly)| <= 30 && |FS_CLOSE| == 13
  {
  }

  /** Values without markup, of moderate length, make a clean folder. */
  lemma ShortIsClean(f: Folder)
    requires CleanValue(f.source) && CleanValue(f.tag) && |f.source| + |f.tag| <= 1000
    ensures Clean(f)
  {
    PartLengths(f.fs, f.readOnly);
    hide HeadParts, SOURCE_PART, TARGET_PART, LastPart, FS_CLOSE, CleanValue, Quoted;
    JoinLength(HeadParts(f.fs), 20);
    JoinFive(SOURCE_PART, f.source, TARGET_PART, f.tag, LastPart(f.readOnly));
    JoinSplit(HeadParts(f.fs), [SOURCE_PART, f.source, TARGET_PART, f.tag, LastPart(f.readOnly)]);
  }

  /** One live folder with nothing around it: a tag that is not live is hit, and its flag stays down. */
  lemma WrongFlag(f: Folder, tag: string)
    requires Clean(f) && Plain(tag) && f.tag != tag && (Hit(f.tag, tag) || Hit(f.source, tag))
    ensures var items := [(f, "")]; !TagLive(FoldersOf(items), tag) && !Flag(Some("" + Blocks(items)), tag)
  {
    var items := [(f, "")];
    NeedleContained(tag);
    LacksByChar("", Needle(tag, "'"));
    TagsOccurNot();
    hide Occurs, Needle, Clean, Block, FS_OPEN, Contained, Plain, Hit;
    assert GoodItems(items) && !OtherHas("", items, Needle(tag, "'"));
    assert FoldersOf(items)[0] == f;
    assert Hits(FoldersOf(items), tag);
    FlagIsRightIff("", items, tag);
  }

  lemma TagsOccurNot()
    ensures !Occurs("", FS_OPEN)
  {
    LacksByChar("", FS_OPEN);
  }

  const SRV := Folder("/srv", "data", Virtiofs, false)

  lemma SrvIsClean()
    ensures Clean(SRV) && Plain(SRV.source) && SRV.tag != SRV.source && SRV.source == "/srv"
  {
    SrvValues();
    hide CleanValue, Clean;
    ShortIsClean(SRV);
  }

  lemma SrvValues()
    ensures CleanValue("/srv") && CleanValue("data")
  {
    LacksChar("/srv", VIRTIOFS, 1);
    LacksChar("/srv", READONLY, 1);
    LacksChar("data", VIRTIOFS, 0);
    LacksChar("data", READONLY, 0);
    hide Occurs, VIRTIOFS, READONLY;
  }

  /** The host path of a live folder is the tag of one that still waits for a restart. */
  lemma PathHidesTag()
    ensures var items := [(SRV, "")];
            Clean(SRV) && !TagLive(FoldersOf(items), "/srv") && !Flag(Some("" + Blocks(items)), "/srv")
  {
    SrvIsClean();
    hide *;
    SameIsHit(SRV.source);
    WrongFlag(SRV, SRV.source);
  }

  lemma SameIsHit(tag: string)
    ensures Hit(tag, tag)
  {
  }

  function Letters(n: nat): (s: string)
    ensures |s| == n && forall i :: 0 <= i < n ==> s[i] == 'a'
  {
    seq(n, i => 'a')
  }

  lemma LongIsClean()
    ensures Clean(Folder("", Letters(STEM) + "b", Virtiofs, false)) && Plain(Letters(STEM + 1))
  {
    var tag := Letters(STEM) + "b";
    LacksChar("", VIRTIOFS, 0);
    LacksChar("", READONLY, 0);
    LacksChar(tag, VIRTIOFS, 0);
    LacksChar(tag, READONLY, 0);
    hide Occurs;
    ShortIsClean(Folder("", tag, Virtiofs, false));
  }

  /** A live tag of 251 characters hides another one that differs in its last character only. */
  lemma CutHidesTag()
    ensures var items := [(Folder("", Letters(STEM) + "b", Virtiofs, false), "")]; var tag := Letters(STEM + 1);
            !TagLive(FoldersOf(items), tag) && !Flag(Some("" + Blocks(items)), tag)
  {
    LongIsClean();
    LongIsHit();
    hide *;
    WrongFlag(Folder("", Letters(STEM) + "b", Virtiofs, false), Letters(STEM + 1));
  }

  lemma LongIsHit()
    ensures Hit(Letters(STEM) + "b", Letters(STEM + 1)) && Letters(STEM) + "b" != Letters(STEM + 1)
  {
    assert Letters(STEM + 1)[..STEM] == Letters(STEM);
    assert (Letters(STEM) + "b")[STEM] == 'b' && Letters(STEM + 1)[STEM] == 'a';
  }
}
