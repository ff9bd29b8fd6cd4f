/** Escaping and printing the XML of a new snapshot (lv_create_snapshot), and reading it back the way
    lv_list_snapshots does. */
module SnapshotXml {
  import opened Counting
  import opened ParentForest
  import opened Pieces
  import opened Strings
  import opened Wrappers
  import opened XmlRead

  function EscapeChar(c: char): string {
    match c
    case '&' => "&amp;"
    case '<' => "&lt;"
    case '>' => "&gt;"
    case '"' => "&quot;"
    case '\'' => "&apos;"
    case _ => [c]
  }

  function Escape(s: string): string {
    if s == "" then "" else EscapeChar(s[0]) + Escape(s[1..])
  }

  lemma {:induction false} EscapeSnoc(s: string, i: nat)
    requires i < |s|
    ensures Escape(s[..i + 1]) == Escape(s[..i]) + EscapeChar(s[i])
  {
    hide EscapeChar;
    EscapeCons(s, i + 1);
    if i == 0 {
      assert s[1..][..0] == "" && s[..0] == "";
    } else {
      EscapeCons(s, i);
      EscapeSnoc(s[1..], i - 1);
    }
  }

  lemma EscapeCons(s: string, n: nat)
    requires 0 < n <= |s|
    ensures Escape(s[..n]) == EscapeChar(s[0]) + Escape(s[1..][..n - 1])
  {
    hide EscapeChar;
    assert s[..n][1..] == s[1..][..n - 1];
  }

  /** The first pass of xml_escape_text. */
  method EscapedLength(src: string) returns (len: nat)
    ensures len == |Escape(src)|
  {
    hide Escape;
    len := 0;
    EscapeNothing();
    assert src[..0] == "";
    for i := 0 to |src|
      invariant len == |Escape(src[..i])|
    {
      EscapeSnoc(src, i);
      match src[i] {
        case '&' => len := len + 5;
        case '<' => len := len + 4;
        case '>' => len := len + 4;
        case '"' => len := len + 6;
        case '\'' => len := len + 6;
        case _ => len := len + 1;
      }
    }
    assert src[..|src|] == src;
  }

  lemma EscapeNothing()
    ensures Escape("") == ""
  {
  }

  method Put(buf: array<char>, at: nat, e: string)
    requires at + |e| <= buf.Length
    modifies buf
    ensures buf[..at + |e|] == old(buf[..at]) + e
  {
    for k := 0 to |e|
      invariant buf[..at] == old(buf[..at]) && buf[at..at + k] == e[..k]
    {
      buf[at + k] := e[k];
    }
    assert buf[..at + |e|] == buf[..at] + buf[at..at + |e|];
  }

  /** xml_escape_text: the first pass counts, the second fills a buffer of exactly that size (and
      one byte for the NUL). */
  method EscapeText(src: string) returns (out: string)
    ensures out == Escape(src)
  {
    hide Escape, EscapeChar;
    var len := EscapedLength(src);
    var buf := new char[len + 1](_ => '\0');
    var dst := 0;
    EscapeNothing();
    assert src[..0] == "";
    for i := 0 to |src|
      invariant dst == |Escape(src[..i])| <= len
      invariant buf[..dst] == Escape(src[..i])
    {
      EscapeSnoc(src, i);
      EscapeGrows(src, i + 1);
      Put(buf, dst, EscapeChar(src[i]));
      dst := dst + |EscapeChar(src[i])|;
    }
    assert src[..|src|] == src;
    buf[dst] := '\0';
    out := buf[..dst];
  }

  lemma {:induction false} EscapeGrows(s: string, i: nat)
    requires i <= |s|
    ensures |Escape(s[..i])| <= |Escape(s)|
    decreases |s| - i
  {
    if i == |s| {
      assert s[..i] == s;
    } else {
      EscapeSnoc(s, i);
      EscapeGrows(s, i + 1);
    }
  }

  /** Reading one escaped character: the character and how much of the text it took. */
  function UnescapeHead(t: string): (char, nat)
    requires t != ""
  {
    if "&amp;" <= t then ('&', 5)
    else if "&lt;" <= t then ('<', 4)
    else if "&gt;" <= t then ('>', 4)
    else if "&quot;" <= t then ('"', 6)
    else if "&apos;" <= t then ('\'', 6)
    else (t[0], 1)
  }

  function Unescape(t: string): string {
    if t == "" then "" else
      var (c, n) := UnescapeHead(t);
      [c] + Unescape(t[n..])
  }

  lemma UnescapeEscapedChar(c: char, rest: string)
    ensures EscapeChar(c) + rest != ""
    ensures UnescapeHead(EscapeChar(c) + rest) == (c, |EscapeChar(c)|)
  {
    var t := EscapeChar(c) + rest;
    assert EscapeChar(c) <= t;
    assert t[0] == EscapeChar(c)[0];
    if EscapeChar(c)[0] == '&' {
      assert t[1] == EscapeChar(c)[1];
      assert t[2] == EscapeChar(c)[2];
    }
  }

  /** Standard XML unescaping undoes the escaping. */
  lemma {:induction false} UnescapeEscape(s: string)
    ensures Unescape(Escape(s)) == s
  {
    if s != "" {
      var e, rest := EscapeChar(s[0]), Escape(s[1..]);
      UnescapeEscapedChar(s[0], rest);
      UnescapeEscape(s[1..]);
      assert (e + rest)[|e|..] == rest;
    }
  }

  /** Hence no two texts are escaped alike. */
  lemma EscapeInjective(a: string, b: string)
    requires Escape(a) == Escape(b)
    ensures a == b
  {
    UnescapeEscape(a);
    UnescapeEscape(b);
  }

  lemma CharHasNoTag(c: char)
    ensures var e := EscapeChar(c); '<' !in e && '>' !in e && '"' !in e && '\'' !in e
  {
  }

  lemma {:induction false} EscapeHasNoTag(s: string)
    ensures '<' !in Escape(s) && '>' !in Escape(s) && '"' !in Escape(s) && '\'' !in Escape(s)
  {
    if s != "" {
      hide EscapeChar;
      EscapeHasNoTag(s[1..]);
      CharHasNoTag(s[0]);
    }
  }

  /** None of the five characters that section 4.6 of XML 1.0 gives entities to. */
  predicate Plain(s: string) {
    forall i :: 0 <= i < |s| ==> s[i] !in {'&', '<', '>', '"', '\''}
  }

  lemma {:induction false} EscapeLength(s: string)
    ensures |Escape(s)| >= |s| && (|Escape(s)| == |s| ==> Plain(s))
  {
    if s != "" {
      EscapeLength(s[1..]);
      if |Escape(s)| == |s| {
        forall i | 0 <= i < |s| ensures s[i] !in {'&', '<', '>', '"', '\''} {
          if i > 0 {
            assert s[i] == s[1..][i - 1];
          }
        }
      }
    }
  }

  lemma {:induction false} PlainStays(s: string)
    requires Plain(s)
    ensures Escape(s) == s
  {
    if s != "" {
      assert forall i :: 0 <= i < |s[1..]| ==> s[1..][i] == s[i + 1];
      PlainStays(s[1..]);
      assert EscapeChar(s[0]) == [s[0]];
    }
  }

  lemma EscapeFixedIff(s: string)
    ensures Escape(s) == s <==> Plain(s)
  {
    EscapeLength(s);
    if Plain(s) {
      PlainStays(s);
    }
  }

  // ----- the snapshot XML -----

  const ROOT_OPEN := "<domainsnapshot>"
  const ROOT_CLOSE := "</domainsnapshot>"
  const NAME_OPEN := "<name>"
  const NAME_CLOSE := "</name>"
  const DESC_OPEN := "<description>"
  const DESC_CLOSE := "</description>"
  const PARENT_OPEN := "<parent>"
  const PARENT_TAG := "<parent "
  const PARENT_CLOSE := "</parent>"

  function ParentPieces(parent: Option<string>): seq<string> {
    match parent
    case None => []
    case Some(p) => [PARENT_OPEN, NAME_OPEN + p, NAME_CLOSE, PARENT_CLOSE]
  }

  function DiskPieces(external: bool): seq<string> {
    if external then ["<disks>", "<disk name='vda' snapshot='external'/>", "</disks>"] else []
  }

  /** The format string of lv_create_snapshot, cut in front of every '<'. */
  function Printed(name: string, desc: string, parent: Option<string>, external: bool): seq<string> {
    [ROOT_OPEN, NAME_OPEN + name, NAME_CLOSE, DESC_OPEN + desc, DESC_CLOSE]
    + (ParentPieces(parent) + (DiskPieces(external) + [ROOT_CLOSE]))
  }

  /** The XML handed to libvirt.  A current snapshot of another name becomes the parent. */
  function CreateXml(name: string, desc: string, current: Option<string>, external: bool): string {
    Flatten(Printed(Escape(name), Escape(desc), ParentOf(name, current), external))
  }

  function ParentOf(name: string, current: Option<string>): Option<string> {
    if current.Some? && current.value != name then Some(Escape(current.value)) else None
  }

  predicate TagFree(s: string) {
    '<' !in s
  }

  lemma TagsDiffer()
    ensures Piece(NAME_OPEN) && Piece(NAME_CLOSE) && Piece(DESC_OPEN) && Piece(DESC_CLOSE)
    ensures Piece(PARENT_OPEN) && Piece(PARENT_TAG) && Piece(PARENT_CLOSE) && Piece(ROOT_OPEN) && Piece(ROOT_CLOSE)
    ensures OpenTag("name") == NAME_OPEN && CloseTag("name") == NAME_CLOSE
    ensures OpenTag("description") == DESC_OPEN && CloseTag("description") == DESC_CLOSE
    ensures OpenTag("parent") == PARENT_OPEN && CloseTag("parent") == PARENT_CLOSE && "<" + "parent" + " " == PARENT_TAG
  {
  }

  lemma TaggedPiece(tag: string, text: string)
    requires Piece(tag) && TagFree(text)
    ensures Piece(tag + text)
  {
  }

  lemma PrintedPieces(name: string, desc: string, parent: Option<string>, external: bool)
    requires TagFree(name) && TagFree(desc) && (parent.Some? ==> TagFree(parent.value))
    ensures AllPieces(Printed(name, desc, parent, external))
  {
    TagsDiffer();
    TaggedPiece(NAME_OPEN, name);
    TaggedPiece(DESC_OPEN, desc);
    if parent.Some? {
      TaggedPiece(NAME_OPEN, parent.value);
    }
    DisksArePieces(external);
    hide NAME_OPEN, NAME_CLOSE, DESC_OPEN, DESC_CLOSE, PARENT_OPEN;
    hide PARENT_CLOSE, ROOT_OPEN, ROOT_CLOSE, Piece, DiskPieces;
  }

  lemma DisksArePieces(external: bool)
    ensures AllPieces(DiskPieces(external))
  {
  }

  lemma NotPrefix(pat: string, tag: string, text: string, k: nat)
    requires k < |pat| && k < |tag| && pat[k] != tag[k]
    ensures !(pat <= tag + text)
  {
    assert (tag + text)[k] == tag[k];
  }

  lemma NotPrefix0(pat: string, tag: string, k: nat)
    requires k < |pat| && k < |tag| && pat[k] != tag[k]
    ensures !(pat <= tag)
  {
  }

  /** Which pieces no tag pattern of a reader can be mistaken for. */
  lemma Unmistakable(text: string)
    ensures !(NAME_OPEN <= ROOT_OPEN) && !(DESC_OPEN <= ROOT_OPEN) && !(PARENT_OPEN <= ROOT_OPEN) && !(PARENT_TAG <= ROOT_OPEN)
    ensures !(DESC_OPEN <= NAME_OPEN + text) && !(PARENT_OPEN <= NAME_OPEN + text) && !(PARENT_TAG <= NAME_OPEN + text)
    ensures !(PARENT_CLOSE <= NAME_OPEN + text)
    ensures !(DESC_OPEN <= NAME_CLOSE) && !(PARENT_OPEN <= NAME_CLOSE) && !(PARENT_TAG <= NAME_CLOSE) && !(PARENT_CLOSE <= NAME_CLOSE)
    ensures !(PARENT_OPEN <= DESC_OPEN + text) && !(PARENT_TAG <= DESC_OPEN + text)
    ensures !(PARENT_OPEN <= DESC_CLOSE) && !(PARENT_TAG <= DESC_CLOSE)
    ensures !(PARENT_OPEN <= ROOT_CLOSE) && !(PARENT_TAG <= ROOT_CLOSE)
  {
    NotPrefix(DESC_OPEN, NAME_OPEN, text, 1);
    NotPrefix(PARENT_OPEN, NAME_OPEN, text, 1);
    NotPrefix(PARENT_TAG, NAME_OPEN, text, 1);
    NotPrefix(PARENT_CLOSE, NAME_OPEN, text, 1);
    NotPrefix(PARENT_OPEN, DESC_OPEN, text, 1);
    NotPrefix(PARENT_TAG, DESC_OPEN, text, 1);
    UnmistakableTags();
  }

  lemma UnmistakableTags()
    ensures !(NAME_OPEN <= ROOT_OPEN) && !(DESC_OPEN <= ROOT_OPEN) && !(PARENT_OPEN <= ROOT_OPEN) && !(PARENT_TAG <= ROOT_OPEN)
    ensures !(DESC_OPEN <= NAME_CLOSE) && !(PARENT_OPEN <= NAME_CLOSE) && !(PARENT_TAG <= NAME_CLOSE) && !(PARENT_CLOSE <= NAME_CLOSE)
    ensures !(PARENT_OPEN <= DESC_CLOSE) && !(PARENT_TAG <= DESC_CLOSE)
    ensures !(PARENT_OPEN <= ROOT_CLOSE) && !(PARENT_TAG <= ROOT_CLOSE)
  {
    NotPrefix0(NAME_OPEN, ROOT_OPEN, 1);
    NotPrefix0(DESC_OPEN, ROOT_OPEN, 2);
    NotPrefix0(PARENT_OPEN, ROOT_OPEN, 1);
    NotPrefix0(PARENT_TAG, ROOT_OPEN, 1);
    NotPrefix0(DESC_OPEN, NAME_CLOSE, 1);
    NotPrefix0(PARENT_OPEN, NAME_CLOSE, 1);
    NotPrefix0(PARENT_TAG, NAME_CLOSE, 1);
    NotPrefix0(PARENT_CLOSE, NAME_CLOSE, 2);
    NotPrefix0(PARENT_OPEN, DESC_CLOSE, 1);
    NotPrefix0(PARENT_TAG, DESC_CLOSE, 1);
    NotPrefix0(PARENT_OPEN, ROOT_CLOSE, 1);
    NotPrefix0(PARENT_TAG, ROOT_CLOSE, 1);
  }

  lemma DisksUnmistakable(external: bool, i: nat)
    requires i < |DiskPieces(external)|
    ensures !(PARENT_OPEN <= DiskPieces(external)[i]) && !(PARENT_TAG <= DiskPieces(external)[i])
  {
    NotPrefix0(PARENT_OPEN, DiskPieces(external)[i], 1);
    NotPrefix0(PARENT_TAG, DiskPieces(external)[i], 1);
  }

  lemma PrintedAt(name: string, desc: string, parent: Option<string>, external: bool)
    ensures var ps := Printed(name, desc, parent, external);
            && |ps| >= 5 && ps[0] == ROOT_OPEN && ps[1] == NAME_OPEN + name && ps[2] == NAME_CLOSE
            && ps[3] == DESC_OPEN + desc && ps[4] == DESC_CLOSE
            && (parent.Some? ==>
                  && |ps| >= 9 && ps[5] == PARENT_OPEN && ps[6] == NAME_OPEN + parent.value && ps[7] == NAME_CLOSE
                  && ps[8] == PARENT_CLOSE && ps[6..8] == [NAME_OPEN + parent.value, NAME_CLOSE])
  {
    hide NAME_OPEN, NAME_CLOSE, DESC_OPEN, DESC_CLOSE, PARENT_OPEN, PARENT_CLOSE, ROOT_OPEN, ROOT_CLOSE, DiskPieces;
  }

  /** Name and description read back as they were printed. */
  lemma ReadsName(name: string, desc: string, parent: Option<string>, external: bool)
    requires TagFree(name) && TagFree(desc) && (parent.Some? ==> TagFree(parent.value))
    ensures Extract(Flatten(Printed(name, desc, parent, external)), "name") == Some(name)
  {
    hide Between, Flatten, Printed, Piece, AllPieces, NAME_OPEN, NAME_CLOSE, DESC_OPEN, DESC_CLOSE, ROOT_OPEN;
    TagsDiffer();
    Unmistakable(name);
    PrintedPieces(name, desc, parent, external);
    PrintedAt(name, desc, parent, external);
    LeafPieces(Printed(name, desc, parent, external), 1, NAME_OPEN, NAME_CLOSE, name);
  }

  lemma ReadsDescription(name: string, desc: string, parent: Option<string>, external: bool)
    requires TagFree(name) && TagFree(desc) && (parent.Some? ==> TagFree(parent.value))
    ensures Extract(Flatten(Printed(name, desc, parent, external)), "description") == Some(desc)
  {
    hide Between, Flatten, Printed, Piece, AllPieces, NAME_OPEN, NAME_CLOSE, DESC_OPEN, DESC_CLOSE, ROOT_OPEN;
    TagsDiffer();
    Unmistakable(name);
    PrintedPieces(name, desc, parent, external);
    PrintedAt(name, desc, parent, external);
    LeafPieces(Printed(name, desc, parent, external), 3, DESC_OPEN, DESC_CLOSE, desc);
  }

  /** The content of the parent element. */
  function Inner(parent: string): string {
    Flatten([NAME_OPEN + parent, NAME_CLOSE])
  }

  lemma ReadsParentElement(name: string, desc: string, parent: string, external: bool)
    requires TagFree(name) && TagFree(desc) && TagFree(parent)
    ensures Extract(Flatten(Printed(name, desc, Some(parent), external)), "parent") == Some(Inner(parent))
  {
    hide Between, Flatten, Printed, Piece, AllPieces, NAME_OPEN;
    hide NAME_CLOSE, DESC_OPEN, DESC_CLOSE, ROOT_OPEN, PARENT_OPEN, PARENT_CLOSE;
    TagsDiffer();
    Unmistakable(name);
    Unmistakable(desc);
    Unmistakable(parent);
    PrintedPieces(name, desc, Some(parent), external);
    PrintedAt(name, desc, Some(parent), external);
    var ps := Printed(name, desc, Some(parent), external);
    assert ps[5] == PARENT_OPEN + "";
    BetweenPieces(ps, 5, 8, PARENT_OPEN, PARENT_CLOSE, "");
    assert "" + Inner(parent) == Inner(parent);
  }

  lemma ReadsParent(name: string, desc: string, parent: string, external: bool)
    requires TagFree(name) && TagFree(desc) && TagFree(parent)
    ensures ParentName(Some(Flatten(Printed(name, desc, Some(parent), external)))) == Some(parent)
  {
    hide Between, Flatten, Printed, Piece, AllPieces, NAME_OPEN, NAME_CLOSE;
    ReadsParentElement(name, desc, parent, external);
    TagsDiffer();
    TaggedPiece(NAME_OPEN, parent);
    PiecePair(NAME_OPEN + parent, NAME_CLOSE);
    LeafPieces([NAME_OPEN + parent, NAME_CLOSE], 0, NAME_OPEN, NAME_CLOSE, parent);
  }

  lemma PiecePair(a: string, b: string)
    requires Piece(a) && Piece(b)
    ensures AllPieces([a, b])
  {
  }

  lemma PrintedNoneAt(name: string, desc: string, external: bool, j: nat)
    requires j < |Printed(name, desc, None, external)|
    ensures var ps, disks := Printed(name, desc, None, external), DiskPieces(external);
            && |ps| == |disks| + 6
            && ps[j] == if j == 0 then ROOT_OPEN else if j == 1 then NAME_OPEN + name else if j == 2 then NAME_CLOSE
                        else if j == 3 then DESC_OPEN + desc else if j == 4 then DESC_CLOSE
                        else if j < |disks| + 5 then disks[j - 5] else ROOT_CLOSE
  {
    hide NAME_OPEN, NAME_CLOSE, DESC_OPEN, DESC_CLOSE, PARENT_OPEN, PARENT_CLOSE, ROOT_OPEN, ROOT_CLOSE, DiskPieces;
  }

  lemma NoParentPiece(name: string, desc: string, external: bool, j: nat)
    requires j < |Printed(name, desc, None, external)|
    ensures var p := Printed(name, desc, None, external)[j]; !(PARENT_OPEN <= p) && !(PARENT_TAG <= p)
  {
    hide *;
    PrintedNoneAt(name, desc, external, j);
    Unmistakable(name);
    Unmistakable(desc);
    if 5 <= j < |DiskPieces(external)| + 5 {
      DisksUnmistakable(external, j - 5);
    }
  }

  lemma ReadsNoParent(name: string, desc: string, external: bool)
    requires TagFree(name) && TagFree(desc)
    ensures ParentName(Some(Flatten(Printed(name, desc, None, external)))) == None
  {
    hide Flatten, Printed, Piece, AllPieces, PARENT_OPEN, PARENT_TAG, PARENT_CLOSE, Find;
    TagsDiffer();
    PrintedPieces(name, desc, None, external);
    var ps := Printed(name, desc, None, external);
    forall j | 0 <= j < |ps| ensures !(PARENT_OPEN <= ps[j]) && !(PARENT_TAG <= ps[j]) {
      NoParentPiece(name, desc, external, j);
    }
    FindNoPiece(ps, PARENT_OPEN);
    FindNoPiece(ps, PARENT_TAG);
  }

  /** Listing after creating: the reader sees the escaped name and description, and the escaped name
      of the snapshot that was current, unless that one has the new name. */
  lemma CreateThenList(name: string, desc: string, current: Option<string>, external: bool)
    ensures var xml := CreateXml(name, desc, current, external);
            && Extract(xml, "name") == Some(Escape(name))
            && Extract(xml, "description") == Some(Escape(desc))
            && ParentName(Some(xml)) == (if current.None? || current.value == name then None else Some(Escape(current.value)))
  {
    EscapeHasNoTag(name);
    EscapeHasNoTag(desc);
    var parent := ParentOf(name, current);
    if parent.Some? {
      EscapeHasNoTag(current.value);
    }
    ReadsName(Escape(name), Escape(desc), parent, external);
    ReadsDescription(Escape(name), Escape(desc), parent, external);
    if parent.Some? {
      ReadsParent(Escape(name), Escape(desc), parent.value, external);
    } else {
      ReadsNoParent(Escape(name), Escape(desc), external);
    }
  }

  lemma ResolvesTo(ids: seq<string>, i: nat, j: nat)
    requires i < |ids| && j < |ids| && i != j && Distinct(ids)
    ensures ResolveFrom(ids, Some(ids[j]), i, 0) == j
  {
  }

  /** The new node is hung under the snapshot that was current if and only if that name needs no
      escaping: the reader does not unescape what the writer escaped. */
  lemma HangsUnderCurrentIff(ids: seq<string>, i: nat, j: nat, name: string, desc: string, external: bool)
    requires i < |ids| && j < |ids| && i != j && Distinct(ids) && ids[i] == name
    ensures var xml := CreateXml(name, desc, Some(ids[j]), external);
            ResolveFrom(ids, ParentName(Some(xml)), i, 0) == j <==> Plain(ids[j])
  {
    CreateThenList(name, desc, Some(ids[j]), external);
    EscapeFixedIff(ids[j]);
    if Plain(ids[j]) {
      ResolvesTo(ids, i, j);
    }
  }

  /** A current snapshot with an ampersand in its name does not become the parent. */
  lemma AmpersandLosesParent()
    ensures var xml := CreateXml("new", "", Some("a&b"), false);
            ResolveFrom(["new", "a&b"], ParentName(Some(xml)), 0, 0) != 1
  {
    HangsUnderCurrentIff(["new", "a&b"], 0, 1, "new", "", false);
    assert "a&b"[1] == '&';
  }
}
