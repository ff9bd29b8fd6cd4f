/** The type that lv_list_snapshots reads from a snapshot's XML, for the XML that lv_create_snapshot prints. */
module SnapshotType {
  import opened Pieces
  import opened SnapshotXml
  import opened Strings
  import opened Wrappers

  const SINGLE := "snapshot='external'"
  const DOUBLE := "snapshot=\"external\""
  const DISK_ONLY := "disk-only"

  /** An external snapshot by the three searches in its XML; internal when there is none. */
  predicate ReadsExternal(xml: Option<string>) {
    xml.Some? && (Occurs(xml.value, SINGLE) || Occurs(xml.value, DOUBLE) || Occurs(xml.value, DISK_ONLY))
  }

  // ----- words in a row of pieces -----

  /** A word without '<' never crosses from one piece into the next. */
  lemma {:induction false} WordInPiece(ps: seq<string>, pat: string)
    requires AllPieces(ps) && pat != "" && '<' !in pat
    ensures Occurs(Flatten(ps), pat) <==> exists i :: 0 <= i < |ps| && Occurs(ps[i], pat)
  {
    hide Occurs, Piece;
    if ps == [] {
      LacksByChar("", pat);
    } else {
      WordInPiece(ps[1..], pat);
      FlattenStarts(ps[1..]);
      WordInTwo(ps[0], Flatten(ps[1..]), pat);
      assert forall i :: 0 <= i < |ps[1..]| ==> ps[1..][i] == ps[i + 1];
    }
  }

  lemma WordInTwo(a: string, b: string, pat: string)
    requires pat != "" && '<' !in pat && (b == "" || b[0] == '<')
    ensures Occurs(a + b, pat) <==> Occurs(a, pat) || Occurs(b, pat)
  {
    hide Occurs;
    if Occurs(a, pat) {
      OccursInPrefix(a, b, pat);
    } else if Occurs(b, pat) {
      OccursInSuffix(a, b, pat);
    } else {
      JoinLacksByHead(a, b, pat);
    }
  }

  /** A word without '>' that is not in a tag is in the text behind it. */
  lemma WordBehindTag(tag: string, text: string, pat: string)
    requires tag != "" && tag[|tag| - 1] == '>' && '>' !in pat && pat != "" && !Occurs(tag, pat)
    ensures Occurs(tag + text, pat) <==> Occurs(text, pat)
  {
    hide Occurs;
    if Occurs(text, pat) {
      OccursInSuffix(tag, text, pat);
    } else {
      JoinLacksByLast(tag, text, pat);
    }
  }

  // ----- words in escaped text -----

  /** Letters and the like that no entity holds as a whole. */
  predicate Word(pat: string) {
    |pat| > 6 && Plain(pat) && ';' !in pat
  }

  lemma {:induction false} PrefixEscaped(s: string, pat: string)
    requires Plain(pat)
    ensures pat <= Escape(s) <==> pat <= s
  {
    if pat != "" && s != "" {
      var e, rest := EscapeChar(s[0]), Escape(s[1..]);
      assert (e + rest)[0] == e[0];
      if s[0] == pat[0] {
        assert e == [s[0]];
        PrefixEscaped(s[1..], pat[1..]);
        assert pat <= s <==> pat[1..] <= s[1..];
        assert pat <= [s[0]] + rest <==> pat[1..] <= rest;
      }
    }
  }

  lemma OccursHere(s: string, pat: string)
    requires s != "" && pat != ""
    ensures Occurs(s, pat) <==> pat <= s || Occurs(s[1..], pat)
  {
    assert s == [s[0]] + s[1..];
    if pat <= s {
      OccursAt(s, 0, pat);
    } else {
      FindSkip([s[0]], s[1..], pat);
      FindShift([s[0]], s[1..], 0, pat);
    }
  }

  lemma EntityLacks(c: char, pat: string)
    requires Word(pat) && EscapeChar(c) != [c]
    ensures !Occurs(EscapeChar(c), pat) && EscapeChar(c)[|EscapeChar(c)| - 1] == ';' && c !in pat && |EscapeChar(c)| > 1
  {
  }

  /** Escaping neither makes nor breaks a word. */
  lemma {:induction false} WordEscaped(s: string, pat: string)
    requires Word(pat)
    ensures Occurs(Escape(s), pat) <==> Occurs(s, pat)
  {
    hide Occurs, EscapeChar;
    if s != "" {
      var e, rest := EscapeChar(s[0]), Escape(s[1..]);
      WordEscaped(s[1..], pat);
      OccursHere(s, pat);
      if e == [s[0]] {
        PrefixEscaped(s, pat);
        OccursHere(e + rest, pat);
        assert (e + rest)[1..] == rest;
      } else {
        EntityLacks(s[0], pat);
        if Occurs(rest, pat) {
          OccursInSuffix(e, rest, pat);
        } else {
          JoinLacksByLast(e, rest, pat);
        }
      }
    }
  }

  lemma NoQuotedWord(s: string)
    ensures !Occurs(Escape(s), SINGLE) && !Occurs(Escape(s), DOUBLE)
  {
    EscapeHasNoTag(s);
    var e := Escape(s);
    assert SINGLE[9] == '\'' && DOUBLE[9] == '"';
    if Occurs(e, SINGLE) {
      AtChar(e, Find(e, SINGLE, 0).value, SINGLE, 9);
    }
    if Occurs(e, DOUBLE) {
      AtChar(e, Find(e, DOUBLE, 0).value, DOUBLE, 9);
    }
  }

  // ----- the printed XML -----

  /** A word with one of the characters that no tag of the printed XML has. */
  predicate Marked(pat: string, k: nat) {
    k < |pat| && pat[k] in {'-', '\'', '"'} && '<' !in pat && '>' !in pat
  }

  predicate Unmarked(s: string) {
    '-' !in s && '\'' !in s && '"' !in s
  }

  lemma TagsUnmarked()
    ensures Unmarked(ROOT_OPEN) && Unmarked(ROOT_CLOSE) && Unmarked(NAME_OPEN) && Unmarked(NAME_CLOSE)
    ensures NAME_OPEN != "" && NAME_OPEN[|NAME_OPEN| - 1] == '>'
  {
  }

  lemma MoreUnmarked()
    ensures Unmarked(DESC_OPEN) && Unmarked(DESC_CLOSE) && DESC_OPEN != "" && DESC_OPEN[|DESC_OPEN| - 1] == '>'
  {
  }

  lemma RestUnmarked()
    ensures Unmarked(PARENT_OPEN) && Unmarked(PARENT_CLOSE) && Unmarked("<disks>") && Unmarked("</disks>")
  {
  }

  lemma LacksMark(s: string, pat: string, k: nat)
    requires Marked(pat, k) && (Unmarked(s) || pat[k] !in s)
    ensures !Occurs(s, pat)
  {
    if Occurs(s, pat) {
      AtChar(s, Find(s, pat, 0).value, pat, k);
    }
  }

  predicate Has(ps: seq<string>, pat: string) {
    exists i :: 0 <= i < |ps| && Occurs(ps[i], pat)
  }

  lemma HasConcat(a: seq<string>, b: seq<string>, pat: string)
    ensures Has(a + b, pat) <==> Has(a, pat) || Has(b, pat)
  {
    hide Occurs;
    var s := a + b;
    if i :| 0 <= i < |s| && Occurs(s[i], pat) {
      assert if i < |a| then s[i] == a[i] else s[i] == b[i - |a|];
    }
    if i :| 0 <= i < |a| && Occurs(a[i], pat) {
      assert s[i] == a[i];
    }
    if i :| 0 <= i < |b| && Occurs(b[i], pat) {
      assert s[i + |a|] == b[i];
    }
  }

  lemma HasTags(name: string, desc: string, pat: string, k: nat)
    requires Marked(pat, k)
    ensures Has([ROOT_OPEN, NAME_OPEN + name, NAME_CLOSE, DESC_OPEN + desc, DESC_CLOSE], pat)
            <==> Occurs(name, pat) || Occurs(desc, pat)
  {
    TagsUnmarked();
    MoreUnmarked();
    var ps := [ROOT_OPEN, NAME_OPEN + name, NAME_CLOSE, DESC_OPEN + desc, DESC_CLOSE];
    hide ROOT_OPEN, NAME_OPEN, NAME_CLOSE, DESC_OPEN, DESC_CLOSE, Occurs;
    LacksMark(ROOT_OPEN, pat, k);
    LacksMark(NAME_OPEN, pat, k);
    LacksMark(NAME_CLOSE, pat, k);
    LacksMark(DESC_OPEN, pat, k);
    LacksMark(DESC_CLOSE, pat, k);
    WordBehindTag(NAME_OPEN, name, pat);
    WordBehindTag(DESC_OPEN, desc, pat);
    assert Occurs(ps[1], pat) == Occurs(name, pat) && Occurs(ps[3], pat) == Occurs(desc, pat);
  }

  lemma HasParent(parent: Option<string>, pat: string, k: nat)
    requires Marked(pat, k)
    ensures Has(ParentPieces(parent), pat) <==> parent.Some? && Occurs(parent.value, pat)
  {
    if parent.Some? {
      TagsUnmarked();
      RestUnmarked();
      var ps := ParentPieces(parent);
      hide PARENT_OPEN, NAME_OPEN, NAME_CLOSE, PARENT_CLOSE, Occurs;
      LacksMark(PARENT_OPEN, pat, k);
      LacksMark(NAME_OPEN, pat, k);
      LacksMark(NAME_CLOSE, pat, k);
      LacksMark(PARENT_CLOSE, pat, k);
      WordBehindTag(NAME_OPEN, parent.value, pat);
      assert Occurs(ps[1], pat) == Occurs(parent.value, pat);
    }
  }

  const DISK := "<disk name='vda' snapshot='external'/>"

  lemma HasDisks(external: bool, pat: string, k: nat)
    requires Marked(pat, k)
    ensures Has(DiskPieces(external) + [ROOT_CLOSE], pat) <==> external && Occurs(DISK, pat)
  {
    TagsUnmarked();
    RestUnmarked();
    hide ROOT_CLOSE, Occurs, DISK;
    assert DISK == "<disk name='vda' snapshot='external'/>" by {
      DiskIs();
    }
    LacksMark(ROOT_CLOSE, pat, k);
    LacksMark("<disks>", pat, k);
    LacksMark("</disks>", pat, k);
    var ps := DiskPieces(external) + [ROOT_CLOSE];
    if external {
      assert ps == ["<disks>", DISK, "</disks>", ROOT_CLOSE];
      assert Occurs(ps[1], pat) == Occurs(DISK, pat);
    }
  }

  lemma DiskIs()
    ensures DISK == "<disk name='vda' snapshot='external'/>"
  {
  }

  lemma HasPrinted(name: string, desc: string, parent: Option<string>, external: bool, pat: string, k: nat)
    requires Marked(pat, k) && TagFree(name) && TagFree(desc) && (parent.Some? ==> TagFree(parent.value))
    ensures Occurs(Flatten(Printed(name, desc, parent, external)), pat)
            <==> Occurs(name, pat) || Occurs(desc, pat) || (parent.Some? && Occurs(parent.value, pat))
                 || (external && Occurs(DISK, pat))
  {
    PrintedPieces(name, desc, parent, external);
    var head := [ROOT_OPEN, NAME_OPEN + name, NAME_CLOSE, DESC_OPEN + desc, DESC_CLOSE];
    var tail := DiskPieces(external) + [ROOT_CLOSE];
    assert Printed(name, desc, parent, external) == head + (ParentPieces(parent) + tail);
    HasTags(name, desc, pat, k);
    HasParent(parent, pat, k);
    HasDisks(external, pat, k);
    hide *;
    HasConcat(ParentPieces(parent), tail, pat);
    HasConcat(head, ParentPieces(parent) + tail, pat);
    HasFlat(Printed(name, desc, parent, external), pat, k);
  }

  lemma HasFlat(ps: seq<string>, pat: string, k: nat)
    requires AllPieces(ps) && Marked(pat, k)
    ensures Occurs(Flatten(ps), pat) <==> Has(ps, pat)
  {
    hide Occurs, AllPieces, Flatten;
    WordInPiece(ps, pat);
  }

  lemma Words()
    ensures Marked(SINGLE, 9) && Marked(DOUBLE, 9) && Marked(DISK_ONLY, 4) && Word(DISK_ONLY)
    ensures SINGLE[9] == '\'' && DOUBLE[9] == '"' && DISK_ONLY[4] == '-'
  {
  }

  lemma OccursHead(pat: string, tail: string)
    ensures Occurs(pat + tail, pat)
  {
    assert (pat + tail)[0..|pat|] == pat;
    OccursAt(pat + tail, 0, pat);
  }

  lemma DiskHasSingle()
    ensures Occurs(DISK, SINGLE)
  {
    var head, tail := "<disk name='vda' ", "/>";
    assert DISK == head + (SINGLE + tail);
    hide DISK, SINGLE;
    OccursHead(SINGLE, tail);
    OccursInSuffix(head, SINGLE + tail, SINGLE);
  }

  lemma DiskHasOnlySingle()
    ensures !Occurs(DISK, DISK_ONLY) && !Occurs(DISK, DOUBLE)
  {
    Words();
    DiskChars();
    hide DISK, DISK_ONLY, DOUBLE;
    LacksMark(DISK, DISK_ONLY, 4);
    LacksMark(DISK, DOUBLE, 9);
  }

  lemma DiskChars()
    ensures '-' !in DISK && '"' !in DISK
  {
  }

  predicate MentionsDiskOnly(s: string) {
    Occurs(s, DISK_ONLY)
  }

  /** A created snapshot is listed as external if and only if it was created so, or its name, its description or the
      name of the current snapshot it gets as its parent holds the word "disk-only". */
  lemma ListedExternalIff(name: string, desc: string, current: Option<string>, external: bool)
    ensures ReadsExternal(Some(CreateXml(name, desc, current, external)))
            <==> external || MentionsDiskOnly(name) || MentionsDiskOnly(desc)
                 || (current.Some? && current.value != name && MentionsDiskOnly(current.value))
  {
    Words();
    DiskHasSingle();
    DiskHasOnlySingle();
    var parent := ParentOf(name, current);
    EscapeHasNoTag(name);
    EscapeHasNoTag(desc);
    NoQuotedWord(name);
    NoQuotedWord(desc);
    WordEscaped(name, DISK_ONLY);
    WordEscaped(desc, DISK_ONLY);
    if parent.Some? {
      EscapeHasNoTag(current.value);
      NoQuotedWord(current.value);
      WordEscaped(current.value, DISK_ONLY);
    }
    hide Occurs, Escape, Flatten, Printed, SINGLE, DOUBLE, DISK_ONLY, DISK, Marked, Word;
    HasPrinted(Escape(name), Escape(desc), parent, external, SINGLE, 9);
    HasPrinted(Escape(name), Escape(desc), parent, external, DOUBLE, 9);
    HasPrinted(Escape(name), Escape(desc), parent, external, DISK_ONLY, 4);
  }

  /** For example, an internal snapshot of this name. */
  lemma NamedDiskOnly()
    ensures ReadsExternal(Some(CreateXml("disk-only", "", None, false)))
  {
    hide CreateXml, ReadsExternal;
    assert MentionsDiskOnly("disk-only") by {
      OccursAt("disk-only", 0, DISK_ONLY);
    }
    ListedExternalIff("disk-only", "", None, false);
  }
}
