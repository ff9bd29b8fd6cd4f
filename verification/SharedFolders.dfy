/** Listing and searching the shared folders of a domain XML. */
module SharedFolders {
  import opened FolderXml
  import opened Quotes
  import opened Strings
  import opened Wrappers
  import opened XmlRead

  /** The next block at or after `pos`: where it starts, and where its close tag starts. */
  function NextBlock(xml: string, pos: nat): (r: Option<(nat, nat)>)
    requires pos <= |xml|
    ensures r.Some? ==> pos <= r.value.0 <= r.value.1 < |xml|
    ensures r.Some? ==> At(xml, r.value.1, FS_CLOSE)
  {
    match Find(xml, FS_OPEN, pos)
    case None => None
    case Some(i) =>
      match Find(xml, FS_CLOSE, i)
      case None => None
      case Some(e) => Some((i, e))
  }

  function ListFrom(xml: string, pos: nat): seq<Folder>
    requires pos <= |xml|
    decreases |xml| - pos
  {
    match NextBlock(xml, pos)
    case None => []
    case Some((i, e)) =>
      (match ReadBody(xml[i..e]) case Some(f) => [f] case None => []) + ListFrom(xml, e + 1)
  }

  const INITIAL_CAPACITY: nat := 4

  /** One round of the listing, in front of what was listed before. */
  lemma ListStep(listed: seq<Folder>, xml: string, pos: nat)
    requires pos <= |xml|
    ensures match NextBlock(xml, pos)
            case None => listed + ListFrom(xml, pos) == listed
            case Some((i, e)) =>
              listed + ListFrom(xml, pos) ==
              match ReadBody(xml[i..e]) case Some(f) => (listed + [f]) + ListFrom(xml, e + 1) case None => listed + ListFrom(xml, e + 1)
  {
    hide NextBlock, ReadBody;
    match NextBlock(xml, pos)
    case None =>
    case Some((i, e)) =>
      match ReadBody(xml[i..e])
      case Some(f) => PlusOne(listed, [f], ListFrom(xml, e + 1));
      case None => PlusOne(listed, [], ListFrom(xml, e + 1));
  }

  lemma PlusOne(a: seq<Folder>, b: seq<Folder>, c: seq<Folder>)
    ensures a + (b + c) == (a + b) + c && a + [] == a
  {
  }

  /** The listing loop with its array that doubles when full. */
  method List(xml: string) returns (folders: seq<Folder>)
    ensures folders == ListFrom(xml, 0)
  {
    hide NextBlock, ReadBody, ListFrom;
    var buf := new Folder[INITIAL_CAPACITY](_ => Folder("", "", NineP, false));
    var n := 0;
    var pos := 0;
    assert [] + ListFrom(xml, 0) == ListFrom(xml, 0);
    while true
      invariant fresh(buf) && n <= buf.Length && 0 < buf.Length && pos <= |xml|
      invariant buf[..n] + ListFrom(xml, pos) == ListFrom(xml, 0)
      decreases |xml| - pos
    {
      ListStep(buf[..n], xml, pos);
      var next := NextBlock(xml, pos);
      if next.None? {
        break;
      }
      var (i, e) := next.value;
      var f := ReadBody(xml[i..e]);
      if f.Some? {
        buf := Push(buf, n, f.value);
        n := n + 1;
      }
      pos := e + 1;
    }
    folders := buf[..n];
  }

  method Push(buf: array<Folder>, n: nat, f: Folder) returns (buf': array<Folder>)
    requires n <= buf.Length && 0 < buf.Length
    modifies buf
    ensures buf' == buf || fresh(buf')
    ensures n + 1 <= buf'.Length && buf'[..n + 1] == old(buf[..n]) + [f]
  {
    buf' := buf;
    if n >= buf.Length {
      buf' := Grow(buf, n, buf.Length * 2);
    }
    buf'[n] := f;
    assert buf'[..n + 1] == buf'[..n] + [f];
  }

  method Grow(buf: array<Folder>, n: nat, capacity: nat) returns (tmp: array<Folder>)
    requires n <= buf.Length && n <= capacity
    ensures fresh(tmp) && tmp.Length == capacity && tmp[..n] == buf[..n]
  {
    tmp := new Folder[capacity](_ => Folder("", "", NineP, false));
    for k := 0 to n
      invariant tmp[..k] == buf[..k]
    {
      tmp[k] := buf[k];
    }
  }

  // ----- printed blocks -----

  /** The blocks, each followed by other text. */
  function Blocks(items: seq<(Folder, string)>): string {
    if items == [] then "" else Block(items[0].0) + items[0].1 + Blocks(items[1..])
  }

  function FoldersOf(items: seq<(Folder, string)>): seq<Folder> {
    seq(|items|, i requires 0 <= i < |items| => items[i].0)
  }

  ghost predicate GoodItems(items: seq<(Folder, string)>) {
    forall i :: 0 <= i < |items| ==> Clean(items[i].0) && !Occurs(items[i].1, FS_OPEN)
  }

  lemma Tags()
    ensures HeadOnce(FS_OPEN) && HeadOnce(FS_CLOSE) && |FS_OPEN| == 11 && |FS_CLOSE| == 13
    ensures FS_CLOSE == "<" + FS_CLOSE[1..] && FS_OPEN[0] == '<' && '<' !in FS_CLOSE[1..]
    ensures TYPE_PART == FS_OPEN + " type="
  {
  }

  /** A block starts with its open tag, and its first close tag ends it. */
  lemma BlockParts(f: Folder)
    requires Clean(f)
    ensures Block(f) == Body(f) + FS_CLOSE && FS_OPEN <= Body(f) && !Occurs(Body(f), FS_CLOSE)
  {
    hide CleanValue, Occurs, Quoted, FS_CLOSE;
    Tags();
    BodyLacks(f);
    StartsWithType(f);
  }

  lemma StartsWithType(f: Folder)
    ensures TYPE_PART <= Body(f)
  {
    hide LastPart, SOURCE_PART, TARGET_PART, TYPE_PART, MOUNT_PART, MODE_PART;
    hide PASS_PART, MAPPED_PART, DRIVER_PART, PATH_PART, POLICY_PART, IMMEDIATE_PART, VIRTIOFS;
    assert Parts(f)[0] == TYPE_PART && |Parts(f)| > 1;
  }

  lemma StartsWith(s: string, pat: string, rest: string)
    requires pat <= s
    ensures s + rest == pat + (s[|pat|..] + rest)
  {
  }

  lemma Associate(a: string, b: string, c: string)
    ensures a + (b + c) == (a + b) + c
  {
  }

  lemma MiddlePart(a: string, b: string, c: string)
    ensures (a + (b + c))[|a|..|a| + |b|] == b
  {
  }

  lemma NoMoreBlocks(p: string, g: string)
    requires !Occurs(g, FS_OPEN)
    ensures NextBlock(p + g, |p|) == None
  {
    FindShift(p, g, 0, FS_OPEN);
  }

  lemma CleanReads(f: Folder)
    requires Clean(f)
    ensures ReadBody(Body(f)) == Some(f)
  {
    ReadPrinted(f);
  }

  lemma GoodRest(items: seq<(Folder, string)>)
    requires GoodItems(items) && items != []
    ensures Clean(items[0].0) && !Occurs(items[0].1, FS_OPEN) && GoodItems(items[1..])
  {
  }

  // ----- the search of lv_remove_shared_folder -----

  const NEEDLE_BUFFER: nat := 256

  function Needle(tag: string, quote: string): string {
    var full := "dir=" + quote + tag + quote;
    if |full| < NEEDLE_BUFFER then full else full[..NEEDLE_BUFFER - 1]
  }

  /** The block has the tag, in either kind of quotes, somewhere behind its <target. */
  predicate Matches(block: string, tag: string) {
    match Find(block, TARGET_TAG, 0)
    case None => false
    case Some(t) => Find(block, Needle(tag, "'"), t).Some? || Find(block, Needle(tag, "\""), t).Some?
  }

  function SearchFrom(xml: string, pos: nat, tag: string): Option<string>
    requires pos <= |xml|
    decreases |xml| - pos
  {
    match NextBlock(xml, pos)
    case None => None
    case Some((i, e)) =>
      var block := xml[i..e + |FS_CLOSE|];
      if Matches(block, tag) then Some(block) else SearchFrom(xml, e + 1, tag)
  }

  method Search(xml: string, tag: string) returns (found: Option<string>)
    ensures found == SearchFrom(xml, 0, tag)
  {
    hide NextBlock, Matches, FS_CLOSE;
    var pos := 0;
    while true
      invariant pos <= |xml| && SearchFrom(xml, pos, tag) == SearchFrom(xml, 0, tag)
      decreases |xml| - pos
    {
      var next := NextBlock(xml, pos);
      if next.None? {
        return None;
      }
      var (i, e) := next.value;
      var block := xml[i..e + |FS_CLOSE|];
      if Matches(block, tag) {
        return Some(block);
      }
      pos := e + 1;
    }
  }

  /** A printed block from its <target on. */
  function FromTarget(f: Folder): string {
    TARGET_TAG + (DIR + ((f.tag + QUOTE) + LastPart(f.readOnly))) + FS_CLOSE
  }

  lemma TargetChars(f: Folder)
    ensures var x := FromTarget(f);
            && 14 + |f.tag| <= |x| < 14 + |f.tag| + STEM
            && x[13..13 + |f.tag|] == f.tag && At(x, 8, DIR) && x[13 + |f.tag|] == '\''
            && ('\'' !in f.tag ==> forall k :: 0 <= k < |x| && x[k] == '\'' ==> k == 12 || k == 13 + |f.tag|)
            && ('"' !in f.tag ==> '"' !in x)
  {
    var start, end := TARGET_TAG + DIR, LastPart(f.readOnly) + FS_CLOSE;
    StartChars();
    EndChars(f.readOnly);
    hide TARGET_TAG, DIR, LastPart, FS_CLOSE;
    var x := FromTarget(f);
    assert x == start + (f.tag + (QUOTE + end));
    assert x[8..13] == start[8..13];
    assert x[13..13 + |f.tag|] == f.tag;
  }

  lemma StartChars()
    ensures |TARGET_TAG + DIR| == 13 && (TARGET_TAG + DIR)[8..13] == DIR && (TARGET_TAG + DIR)[12] == '\''
    ensures '\'' !in (TARGET_TAG + DIR)[..12] && '"' !in TARGET_TAG + DIR && |DIR| == 5
  {
  }

  lemma EndChars(readOnly: bool)
    ensures '\'' !in LastPart(readOnly) + FS_CLOSE && '"' !in LastPart(readOnly) + FS_CLOSE
    ensures |LastPart(readOnly) + FS_CLOSE| < 100
  {
  }

  /** How much of a long tag fits the needle buffer behind dir=' and in front of the NUL. */
  const STEM: nat := 250

  /** The needle's tag: whole, with its closing quote, or cut, without one. */
  predicate Fits(tag: string) {
    |tag| + 6 < NEEDLE_BUFFER
  }

  /** The values that the needle cannot tell from the tag: a tag that fits has only itself, a longer one has
      every value with the same first 250 characters. */
  predicate Hit(value: string, tag: string) {
    if Fits(tag) then value == tag else tag[..STEM] <= value
  }

  lemma NeedleIs(tag: string)
    ensures |DIR| == 5 && DIR[4] == '\''
    ensures Needle(tag, "'") == if Fits(tag) then DIR + (tag + QUOTE) else DIR + tag[..STEM]
    ensures |Needle(tag, "\"")| > 4 && Needle(tag, "\"")[4] == '"'
  {
    assert "dir=" + "'" == DIR;
    assert "dir=" + "'" + tag + "'" == DIR + (tag + QUOTE);
    assert ("dir=" + "\"" + tag + "\"")[4] == '"';
    if !Fits(tag) {
      assert (DIR + (tag + QUOTE))[..255] == DIR + tag[..STEM];
    }
  }

  /** The needle is in the rest of the block if and only if it cannot be told from the block's tag. */
  lemma NeedleIff(f: Folder, tag: string)
    requires CleanValue(f.tag) && '\'' !in tag
    ensures Occurs(FromTarget(f), Needle(tag, "'")) <==> Hit(f.tag, tag)
    ensures !Occurs(FromTarget(f), Needle(tag, "\""))
  {
    NeedleIs(tag);
    TargetChars(f);
    assert '\'' !in f.tag && '"' !in f.tag;
    hide FromTarget, Needle, DIR, QUOTE, CleanValue, Find;
    var x := FromTarget(f);
    LacksChar(x, Needle(tag, "\""), 4);
    if Fits(tag) {
      WholeIff(x, f.tag, tag);
    } else {
      CutIff(x, f.tag, tag[..STEM]);
    }
  }

  /** The shape of a block from its <target on: the tag stands between its only two quotes. */
  predicate Shape(x: string, tag: string) {
    && 14 + |tag| <= |x| < 14 + |tag| + STEM
    && x[13..13 + |tag|] == tag && At(x, 8, DIR) && x[13 + |tag|] == '\''
    && forall k :: 0 <= k < |x| && x[k] == '\'' ==> k == 12 || k == 13 + |tag|
  }

  lemma WholeIff(x: string, tag: string, asked: string)
    requires Shape(x, tag) && |DIR| == 5 && DIR[4] == '\''
    ensures Occurs(x, DIR + (asked + QUOTE)) <==> tag == asked
  {
    var needle := DIR + (asked + QUOTE);
    hide DIR, Find;
    if tag == asked {
      QuoteStands(x, 13 + |tag|);
      AtConcat(x, 13, tag, QUOTE);
      AtConcat(x, 8, DIR, tag + QUOTE);
      OccursAt(x, 8, needle);
    } else if Occurs(x, needle) {
      NeedleStands(x, Find(x, needle, 0).value, asked, tag);
    }
  }

  lemma CutIff(x: string, tag: string, stem: string)
    requires Shape(x, tag) && '\'' !in stem && |stem| == STEM && |DIR| == 5 && DIR[4] == '\''
    ensures Occurs(x, DIR + stem) <==> stem <= tag
  {
    hide DIR, Find;
    if stem <= tag {
      StemStands(x, tag, stem);
      AtConcat(x, 8, DIR, stem);
      OccursAt(x, 8, DIR + stem);
    } else if Occurs(x, DIR + stem) {
      CutStands(x, Find(x, DIR + stem, 0).value, stem, tag);
    }
  }

  lemma StemStands(x: string, tag: string, stem: string)
    requires 13 + |tag| <= |x| && x[13..13 + |tag|] == tag && stem <= tag
    ensures At(x, 13, stem)
  {
    assert x[13..13 + |stem|] == tag[..|stem|];
  }

  lemma QuoteStands(x: string, k: nat)
    requires k < |x| && x[k] == '\''
    ensures At(x, k, QUOTE)
  {
  }

  /** Its two quotes must be the two quotes of the block, so what is between them is the tag. */
  lemma NeedleStands(x: string, p: nat, asked: string, tag: string)
    requires At(x, p, DIR + (asked + QUOTE)) && |DIR| == 5 && DIR[4] == '\''
    requires |x| >= 14 + |tag| && x[13..13 + |tag|] == tag
    requires forall k :: 0 <= k < |x| && x[k] == '\'' ==> k == 12 || k == 13 + |tag|
    ensures asked == tag
  {
    hide DIR;
    var needle := DIR + (asked + QUOTE);
    assert needle[4] == '\'' && needle[5 + |asked|] == '\'';
    AtChar(x, p, needle, 4);
    AtChar(x, p, needle, 5 + |asked|);
    AtConcat(x, p, DIR, asked + QUOTE);
    AtConcat(x, p + 5, asked, QUOTE);
  }

  /** A cut needle has one quote, which must be the first one, for behind the second one too little is left. */
  lemma CutStands(x: string, p: nat, stem: string, tag: string)
    requires At(x, p, DIR + stem) && Shape(x, tag) && '\'' !in stem && |stem| == STEM
    requires |DIR| == 5 && DIR[4] == '\''
    ensures stem <= tag
  {
    hide DIR;
    AtChar(x, p, DIR + stem, 4);
    AtConcat(x, p, DIR, stem);
    assert p == 8 && x[13..13 + STEM] == stem;
    assert forall k :: 0 <= k < STEM ==> x[13 + k] == stem[k];
    assert stem == tag[..STEM];
  }

  lemma BlockAtTarget(f: Folder)
    requires Clean(f)
    ensures Block(f) == BeforeTarget(f) + FromTarget(f)
    ensures Find(Block(f), TARGET_TAG, 0) == Some(|BeforeTarget(f)|)
  {
    BlockParts(f);
    BeforeLacks(f);
    BodyAtTarget(f);
    AttrPatterns();
    hide BeforeTarget, TARGET_TAG, DIR, QUOTE, LastPart, FS_CLOSE;
    hide Body, Block, Clean, CleanValue, Occurs, Find, HeadOnce;
    var rest := DIR + ((f.tag + QUOTE) + LastPart(f.readOnly));
    Associate(BeforeTarget(f), TARGET_TAG + rest, FS_CLOSE);
    Associate(TARGET_TAG, rest, FS_CLOSE);
    FindAfter(BeforeTarget(f), TARGET_TAG, rest + FS_CLOSE);
  }

  /** A printed block matches if and only if the needle cannot tell its tag from the asked one.  For an asked tag
      that fits the needle this is the whole tag: a tag that merely begins with the asked one does not match. */
  lemma MatchesIff(f: Folder, tag: string)
    requires Clean(f) && '\'' !in tag
    ensures Matches(Block(f), tag) <==> Hit(f.tag, tag)
  {
    BlockAtTarget(f);
    NeedleIff(f, tag);
    hide BeforeTarget, FromTarget, TARGET_TAG, Needle, Block, Clean, CleanValue, Find, Hit;
    FindShift(BeforeTarget(f), FromTarget(f), 0, Needle(tag, "'"));
    FindShift(BeforeTarget(f), FromTarget(f), 0, Needle(tag, "\""));
  }

  /** The first folder of the list whose tag the needle takes for this one. */
  function FirstTagged(folders: seq<Folder>, tag: string): Option<Folder> {
    if folders == [] then None
    else if Hit(folders[0].tag, tag) then Some(folders[0])
    else FirstTagged(folders[1..], tag)
  }

  /** The first folder whose printed element matches. */
  function FirstMatching(folders: seq<Folder>, tag: string): (r: Option<Folder>)
    ensures r.Some? ==> r.value in folders
  {
    if folders == [] then None
    else if Matches(Block(folders[0]), tag) then Some(folders[0])
    else FirstMatching(folders[1..], tag)
  }

  lemma {:induction false} MatchingIsTagged(folders: seq<Folder>, tag: string)
    requires '\'' !in tag && forall i :: 0 <= i < |folders| ==> Clean(folders[i])
    ensures FirstMatching(folders, tag) == FirstTagged(folders, tag)
  {
    hide Clean, Matches, Block, Hit;
    if folders != [] {
      MatchesIff(folders[0], tag);
      MatchingIsTagged(folders[1..], tag);
    }
  }

  // ----- filesystem elements of any kind -----

  /** An element up to its close tag, which is the first one behind its open tag. */
  ghost predicate ElementBody(body: string) {
    FS_OPEN <= body && !Occurs(body, FS_CLOSE)
  }

  /** The elements, each followed by other text. */
  function Elements(items: seq<(string, string)>): string {
    if items == [] then "" else items[0].0 + (FS_CLOSE + (items[0].1 + Elements(items[1..])))
  }

  ghost predicate GoodElements(items: seq<(string, string)>) {
    forall i :: 0 <= i < |items| ==> ElementBody(items[i].0) && !Occurs(items[i].1, FS_OPEN)
  }

  /** The folders among them, in order. */
  function Readable(items: seq<(string, string)>): seq<Folder> {
    if items == [] then []
    else (match ReadBody(items[0].0) case Some(f) => [f] case None => []) + Readable(items[1..])
  }

  /** The first one that has the tag in its target. */
  function FirstWithTag(items: seq<(string, string)>, tag: string): Option<string> {
    if items == [] then None
    else if Matches(items[0].0 + FS_CLOSE, tag) then Some(items[0].0 + FS_CLOSE)
    else FirstWithTag(items[1..], tag)
  }

  /** The first element behind `p + g`, where `g` has no open tag. */
  lemma FirstElement(p: string, g: string, body: string, rest: string)
    requires ElementBody(body) && !Occurs(g, FS_OPEN)
    ensures NextBlock(p + (g + (body + (FS_CLOSE + rest))), |p|) == Some((|p| + |g|, |p| + |g| + |body|))
  {
    hide Occurs, FS_OPEN, FS_CLOSE, Find, HeadOnce;
    Tags();
    StartsWith(body, FS_OPEN, FS_CLOSE + rest);
    FindAfter(g, FS_OPEN, body[|FS_OPEN|..] + (FS_CLOSE + rest));
    FindShift(p, g + (body + (FS_CLOSE + rest)), 0, FS_OPEN);
    FindAfter(body, FS_CLOSE, rest);
    FindShift(p + g, body + (FS_CLOSE + rest), 0, FS_CLOSE);
    Associate(p, g, body + (FS_CLOSE + rest));
  }

  lemma Cuts(p: string, g: string, body: string, rest: string)
    ensures var xml := p + (g + (body + (FS_CLOSE + rest))); var i, e := |p| + |g|, |p| + |g| + |body|;
            xml[i..e] == body && xml[i..e + |FS_CLOSE|] == body + FS_CLOSE && e < |xml|
  {
    hide FS_CLOSE;
    Tags();
    var xml := p + (g + (body + (FS_CLOSE + rest)));
    Associate(p, g, body + (FS_CLOSE + rest));
    MiddlePart(p + g, body, FS_CLOSE + rest);
    Associate(body, FS_CLOSE, rest);
    MiddlePart(p + g, body + FS_CLOSE, rest);
  }

  /** Past an element the text goes on with the rest of its close tag and the gap. */
  lemma AfterElement(p: string, g: string, body: string, gap: string, rest: string)
    requires !Occurs(gap, FS_OPEN)
    ensures var p', g' := p + g + body + "<", FS_CLOSE[1..] + gap;
            && p + (g + (body + (FS_CLOSE + (gap + rest)))) == p' + (g' + rest)
            && |p'| == |p| + |g| + |body| + 1 && !Occurs(g', FS_OPEN)
  {
    Tags();
    JoinLacksByFirst(FS_CLOSE[1..], gap, FS_OPEN);
    hide Occurs, FS_OPEN, FS_CLOSE;
    Regroup(p, g, body, FS_CLOSE[1..], gap, rest);
  }

  lemma Regroup(p: string, g: string, body: string, close: string, gap: string, rest: string)
    ensures p + (g + (body + (("<" + close) + (gap + rest)))) == (p + g + body + "<") + ((close + gap) + rest)
  {
  }

  lemma GoodTail(items: seq<(string, string)>)
    requires GoodElements(items) && items != []
    ensures ElementBody(items[0].0) && !Occurs(items[0].1, FS_OPEN) && GoodElements(items[1..])
  {
  }

  lemma NoElements(p: string, g: string, tag: string)
    requires !Occurs(g, FS_OPEN)
    ensures ListFrom(p + (g + ""), |p|) == [] && SearchFrom(p + (g + ""), |p|, tag) == None
  {
    assert g + "" == g;
    NoMoreBlocks(p, g);
  }

  /** One round of the listing and of the search. */
  lemma Round(xml: string, pos: nat, i: nat, e: nat, body: string, tag: string)
    requires pos <= |xml| && NextBlock(xml, pos) == Some((i, e)) && i <= e < |xml|
    requires xml[i..e] == body && e + |FS_CLOSE| <= |xml| && xml[i..e + |FS_CLOSE|] == body + FS_CLOSE
    ensures ListFrom(xml, pos) == (match ReadBody(body) case Some(f) => [f] case None => []) + ListFrom(xml, e + 1)
    ensures SearchFrom(xml, pos, tag)
         == if Matches(body + FS_CLOSE, tag) then Some(body + FS_CLOSE) else SearchFrom(xml, e + 1, tag)
  {
    hide FS_CLOSE, ReadBody, Matches, NextBlock;
  }

  lemma {:induction false} ReadsElements(p: string, g: string, items: seq<(string, string)>, tag: string)
    requires GoodElements(items) && !Occurs(g, FS_OPEN)
    ensures ListFrom(p + (g + Elements(items)), |p|) == Readable(items)
    ensures SearchFrom(p + (g + Elements(items)), |p|, tag) == FirstWithTag(items, tag)
    decreases |items|
  {
    hide Occurs, ElementBody, GoodElements, FS_OPEN, FS_CLOSE, NextBlock, ReadBody, Matches, ListFrom, SearchFrom;
    if items == [] {
      NoElements(p, g, tag);
    } else {
      GoodTail(items);
      Tags();
      var body, gap, rest := items[0].0, items[0].1, Elements(items[1..]);
      var xml := p + (g + (body + (FS_CLOSE + (gap + rest))));
      FirstElement(p, g, body, gap + rest);
      Cuts(p, g, body, gap + rest);
      Round(xml, |p|, |p| + |g|, |p| + |g| + |body|, body, tag);
      AfterElement(p, g, body, gap, rest);
      ReadsElements(p + g + body + "<", FS_CLOSE[1..] + gap, items[1..], tag);
    }
  }

  /** The listing is the folders among the elements, in order; the removal finds the first element with the tag. */
  lemma ListsReadable(head: string, items: seq<(string, string)>, tag: string)
    requires GoodElements(items) && !Occurs(head, FS_OPEN)
    ensures ListFrom(head + Elements(items), 0) == Readable(items)
    ensures SearchFrom(head + Elements(items), 0, tag) == FirstWithTag(items, tag)
  {
    ReadsElements("", head, items, tag);
    assert "" + (head + Elements(items)) == head + Elements(items);
  }

  /** So an element that is no shared folder makes no difference to what is listed behind it. */
  lemma ForeignIsSkipped(head: string, foreign: string, gap: string, items: seq<(string, string)>)
    requires GoodElements([(foreign, gap)] + items) && !Occurs(head, FS_OPEN) && ReadBody(foreign) == None
    ensures ListFrom(head + (foreign + (FS_CLOSE + (gap + Elements(items)))), 0) == Readable(items)
  {
    hide Occurs, ElementBody, GoodElements, FS_OPEN, FS_CLOSE, ReadBody, ListFrom;
    var all := [(foreign, gap)] + items;
    assert all[0] == (foreign, gap) && all[1..] == items;
    ListsReadable(head, all, "");
    assert [] + Readable(items) == Readable(items);
  }

  // ----- a domain made of printed blocks -----

  function AsElements(items: seq<(Folder, string)>): seq<(string, string)> {
    if items == [] then [] else [(Body(items[0].0), items[0].1)] + AsElements(items[1..])
  }

  /** Printed blocks are elements, each read as its folder. */
  lemma {:induction false} PrintedElements(items: seq<(Folder, string)>, tag: string)
    requires GoodItems(items)
    ensures GoodElements(AsElements(items)) && Elements(AsElements(items)) == Blocks(items)
    ensures Readable(AsElements(items)) == FoldersOf(items)
    ensures FirstWithTag(AsElements(items), tag)
         == match FirstMatching(FoldersOf(items), tag) case None => None case Some(f) => Some(Block(f))
  {
    hide Occurs, Clean, Block, Body, FS_OPEN, FS_CLOSE, ReadBody, CleanValue, Matches, ElementBody;
    if items != [] {
      var f, gap := items[0].0, items[0].1;
      GoodRest(items);
      PrintedElements(items[1..], tag);
      PrintedElement(f);
      CleanReads(f);
      Associate(Body(f), FS_CLOSE, gap + Blocks(items[1..]));
      Associate(Block(f), gap, Blocks(items[1..]));
      assert FoldersOf(items) == [f] + FoldersOf(items[1..]);
      assert AsElements(items)[1..] == AsElements(items[1..]);
    }
  }

  lemma PrintedElement(f: Folder)
    requires Clean(f)
    ensures ElementBody(Body(f)) && Block(f) == Body(f) + FS_CLOSE
  {
    BlockParts(f);
  }

  /** Listing a domain XML built from printed blocks returns the folders in order. */
  lemma ListPrinted(head: string, items: seq<(Folder, string)>)
    requires GoodItems(items) && !Occurs(head, FS_OPEN)
    ensures ListFrom(head + Blocks(items), 0) == FoldersOf(items)
  {
    PrintedElements(items, "");
    hide GoodItems, Occurs, GoodElements, ListFrom, SearchFrom;
    ListsReadable(head, AsElements(items), "");
  }

  /** Removing finds the first printed block that matches, whatever the tag. */
  lemma SearchMatches(head: string, items: seq<(Folder, string)>, tag: string)
    requires GoodItems(items) && !Occurs(head, FS_OPEN)
    ensures SearchFrom(head + Blocks(items), 0, tag) ==
            match FirstMatching(FoldersOf(items), tag) case None => None case Some(f) => Some(Block(f))
  {
    PrintedElements(items, tag);
    hide GoodItems, Occurs, GoodElements, ListFrom, SearchFrom;
    ListsReadable(head, AsElements(items), tag);
  }

  /** For a tag without a quote this is the first folder whose tag the needle takes for the asked one. */
  lemma SearchPrinted(head: string, items: seq<(Folder, string)>, tag: string)
    requires GoodItems(items) && !Occurs(head, FS_OPEN) && '\'' !in tag
    ensures SearchFrom(head + Blocks(items), 0, tag) ==
            match FirstTagged(FoldersOf(items), tag) case None => None case Some(f) => Some(Block(f))
  {
    SearchMatches(head, items, tag);
    MatchingIsTagged(FoldersOf(items), tag);
  }
}
