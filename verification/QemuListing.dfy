/** A printed snapshot listing and what src/libvirt_backend.c reads from it.

    The scan cuts a line into numbers from left to right.  No number reaches across a blank, so the size column is met
    as a number whatever the tag in front of it looks like, and it is the last size unless the columns behind it hold
    another one. */
module QemuListing {
  import opened Wrappers
  import opened Strings
  import opened Splitting
  import opened QemuImg

  predicate AllDigits(s: string) {
    forall k :: 0 <= k < |s| ==> Digit(s[k])
  }

  function Spaces(n: nat): (s: string)
    ensures |s| == n && forall k :: 0 <= k < n ==> s[k] == ' '
  {
    seq(n, i => ' ')
  }

  /** One line of the listing: id, tag, VM size (with or without a fraction) and the columns behind it. */
  datatype Row = Row(lead: nat, id: string, gap: nat, tag: string, gap2: nat, whole: string,
                     fraction: Option<string>, unit: string, tail: string)

  predicate Shaped(r: Row) {
    r.id != "" && AllDigits(r.id) && r.gap > 0 && r.gap2 > 0 && r.whole != "" && AllDigits(r.whole)
    && (r.fraction.Some? ==> AllDigits(r.fraction.value))
  }

  /** The units that the program knows. */
  predicate Unit(u: string) {
    u in ["B", "KiB", "MiB", "GiB"]
  }

  predicate WellFormed(r: Row) {
    Shaped(r) && Unit(r.unit)
  }

  function Number(r: Row): string {
    r.whole + if r.fraction.Some? then "." + r.fraction.value else ""
  }

  function Column(r: Row): string {
    " " + (r.unit + " ")
  }

  /** The size column and what follows it. */
  function SizeOn(r: Row): string {
    Number(r) + (Column(r) + r.tail)
  }

  function Print(r: Row): string {
    Spaces(r.lead) + (r.id + (Spaces(r.gap) + ((r.tag + Spaces(r.gap2)) + SizeOn(r))))
  }

  /** The text without the spaces around it. */
  function Trim(s: string): string {
    TrimEnd(s[SpaceRun(s)..])
  }

  lemma DigitRunPast(p: string, r: string)
    requires p != "" && p[|p| - 1] == ' '
    ensures DigitRun(p + r) == DigitRun(p) < |p|
  {
    var n := DigitRun(p);
    assert n < |p| by {
      assert n == |p| ==> Digit(p[|p| - 1]);
    }
    DigitRunIs(p + r, n);
  }

  lemma NumberRunPast(p: string, r: string)
    requires p != "" && p[|p| - 1] == ' ' && Digit(p[0])
    ensures NumberRun(p + r) == NumberRun(p) < |p|
  {
    DigitRunPast(p, r);
    var n := DigitRun(p);
    if p[n] == '.' {
      assert (p + r)[n + 1..] == p[n + 1..] + r;
      DigitRunPast(p[n + 1..], r);
    }
  }

  lemma SizeStep(s: string, n: nat, rest: string)
    requires s != "" && n == (if Digit(s[0]) then NumberRun(s) else 1) && rest == s[n..] && LastSize(rest).Some?
    ensures LastSize(s) == Some(n + LastSize(rest).value)
  {
    hide UnitNext, NumberRun;
  }

  /** A size behind a space is found whatever stands before it. */
  lemma {:induction false} SizeBehind(p: string, r: string)
    requires (p == "" || p[|p| - 1] == ' ') && LastSize(r).Some?
    ensures LastSize(p + r) == Some(|p| + LastSize(r).value)
  {
    hide LastSize, NumberRun;
    if p == "" {
      assert p + r == r;
    } else {
      var n := if Digit(p[0]) then NumberRun(p) else 1;
      if Digit(p[0]) {
        NumberRunPast(p, r);
      }
      assert (p + r)[n..] == p[n..] + r;
      SizeBehind(p[n..], r);
      SizeStep(p + r, n, p[n..] + r);
    }
  }

  lemma {:induction false} SkipText(x: string, r: string)
    requires forall k :: 0 <= k < |x| ==> !Digit(x[k])
    ensures LastSize(x + r) == Plus(LastSize(r), |x|)
  {
    if x == "" {
      assert x + r == r;
    } else {
      assert (x + r)[1..] == x[1..] + r;
      SkipText(x[1..], r);
    }
  }

  /** There is no size in the unit column. */
  lemma SkipColumn(unit: string, tail: string)
    requires Unit(unit)
    ensures LastSize(" " + (unit + " ") + tail) == Plus(LastSize(tail), |unit| + 2)
  {
    SkipText(" " + (unit + " "), tail);
  }

  lemma NumberRunIs(r: Row, after: string)
    requires Shaped(r) && after != "" && after[0] == ' '
    ensures var s := Number(r) + after; Digit(s[0]) && NumberRun(s) == |Number(r)| && s[|Number(r)|..] == after
  {
    var s := Number(r) + after;
    var n := |r.whole|;
    DigitRunIs(s, n);
    if r.fraction.Some? {
      assert s[n + 1..] == r.fraction.value + after;
      DigitRunIs(s[n + 1..], |r.fraction.value|);
    }
  }

  lemma UnitColumn(unit: string, tail: string)
    requires Unit(unit)
    ensures UnitNext(" " + (unit + " ") + tail)
  {
    var s := " " + (unit + " ") + tail;
    assert s == (" " + unit + " ") + tail;
    assert " " + unit + " " <= s;
  }

  /** The size column is the last size exactly when the columns behind it hold none. */
  lemma SizeColumn(r: Row)
    requires WellFormed(r)
    ensures LastSize(SizeOn(r)) == match LastSize(r.tail)
                                   case None => Some(0)
                                   case Some(i) => Some(|Number(r)| + |Column(r)| + i)
  {
    NumberRunIs(r, Column(r) + r.tail);
    SkipColumn(r.unit, r.tail);
    UnitColumn(r.unit, r.tail);
  }

  lemma {:induction false} TrimPadded(tag: string, gap: nat)
    ensures TrimEnd(tag + Spaces(gap)) == TrimEnd(tag)
  {
    if gap == 0 {
      assert tag + Spaces(0) == tag;
    } else {
      assert (tag + Spaces(gap))[..|tag| + gap - 1] == tag + Spaces(gap - 1);
      TrimPadded(tag, gap - 1);
    }
  }

  lemma TagBeforeIs(head: string, rest: string)
    ensures TagBefore(head + rest, |head|) == if TrimEnd(head) == "" then None else Some(TrimEnd(head))
  {
    assert (head + rest)[..|head|] == head;
  }

  lemma ColumnBehind(p: string, rest: string)
    requires p != "" && p[|p| - 1] == ' ' && LastSize(rest) == Some(0)
    ensures TagColumn(p + rest) == if TrimEnd(p) == "" then None else Some(TrimEnd(p))
  {
    SizeBehind(p, rest);
    TagBeforeIs(p, rest);
    hide LastSize, TrimEnd, TagBefore;
  }

  lemma PaddedEnds(tag: string, gap: nat)
    requires gap > 0
    ensures tag + Spaces(gap) != "" && (tag + Spaces(gap))[|tag| + gap - 1] == ' '
  {
  }

  /** The tag column, once the spaces in front of it are gone. */
  lemma TagColumnReads(r: Row, tag: string)
    requires WellFormed(r) && LastSize(r.tail) == None
    ensures TagColumn((tag + Spaces(r.gap2)) + SizeOn(r)) == if TrimEnd(tag) == "" then None else Some(TrimEnd(tag))
  {
    PaddedEnds(tag, r.gap2);
    SizeColumn(r);
    hide *;
    TrimPadded(tag, r.gap2);
    ColumnBehind(tag + Spaces(r.gap2), SizeOn(r));
  }

  lemma ColumnOf(s: string, i: nat)
    requires LastSize(s) == Some(i) && i <= |s|
    ensures TagColumn(s) == TagBefore(s, i)
  {
  }

  /** A line from its id on. */
  lemma AfterLead(lead: nat, id: string, gap: nat, x: string)
    requires id != "" && AllDigits(id) && gap > 0
    ensures TagOf(Spaces(lead) + (id + (Spaces(gap) + x))) == AfterId(Spaces(gap) + x)
  {
    var line := Spaces(lead) + (id + (Spaces(gap) + x));
    SpaceRunIs(line, lead);
    var t := line[lead..];
    assert t == id + (Spaces(gap) + x);
    DigitRunIs(t, |id|);
    assert t[|id|..] == Spaces(gap) + x;
    hide AfterId;
  }

  lemma {:induction false} SpacesGone(n: nat, x: string)
    ensures (Spaces(n) + x)[SpaceRun(Spaces(n) + x)..] == x[SpaceRun(x)..]
  {
    var s := Spaces(n) + x;
    SpaceRunIs(s, n + SpaceRun(x));
  }

  lemma RowIs(r: Row)
    requires Shaped(r)
    ensures var x := (r.tag + Spaces(r.gap2)) + SizeOn(r);
            TagOf(Print(r)) == TagColumn(x[SpaceRun(x)..])
  {
    hide *;
    IdFacts(r);
    PrintIs(r);
    var x := (r.tag + Spaces(r.gap2)) + SizeOn(r);
    AfterLead(r.lead, r.id, r.gap, x);
    SpacesGone(r.gap, x);
    AfterIdIs(Spaces(r.gap) + x);
  }

  lemma IdFacts(r: Row)
    requires Shaped(r)
    ensures r.id != "" && AllDigits(r.id) && r.gap > 0 && r.gap2 > 0
  {
  }

  lemma PrintIs(r: Row)
    ensures Print(r) == Spaces(r.lead) + (r.id + (Spaces(r.gap) + ((r.tag + Spaces(r.gap2)) + SizeOn(r))))
  {
  }

  lemma AfterIdIs(u: string)
    ensures AfterId(u) == TagColumn(u[SpaceRun(u)..])
  {
  }

  lemma SizeStarts(r: Row)
    requires Shaped(r)
    ensures SizeOn(r) != "" && Digit(SizeOn(r)[0])
  {
    assert SizeOn(r)[0] == r.whole[0];
  }

  lemma RunPast(a: string, b: string)
    requires forall k :: 0 <= k < |a| ==> a[k] == ' '
    ensures SpaceRun(a + b) == |a| + SpaceRun(b)
  {
    SpaceRunIs(a + b, |a| + SpaceRun(b));
  }

  lemma RunWithin(a: string, b: string)
    requires SpaceRun(a) < |a|
    ensures SpaceRun(a + b) == SpaceRun(a)
  {
    SpaceRunIs(a + b, SpaceRun(a));
  }

  lemma AllSpaces(tag: string, gap: nat)
    requires SpaceRun(tag) == |tag|
    ensures forall k :: 0 <= k < |tag + Spaces(gap)| ==> (tag + Spaces(gap))[k] == ' '
  {
  }

  lemma BlankTag(tag: string, gap: nat, size: string)
    requires SpaceRun(tag) == |tag| && SpaceRun(size) == 0
    ensures var x := (tag + Spaces(gap)) + size; x[SpaceRun(x)..] == size
  {
    hide *;
    AllSpaces(tag, gap);
    RunPast(tag + Spaces(gap), size);
    DropBoth(tag, Spaces(gap), size);
  }

  lemma FullTag(tag: string, gap: nat, size: string)
    requires SpaceRun(tag) < |tag|
    ensures var x := (tag + Spaces(gap)) + size; x[SpaceRun(x)..] == (tag[SpaceRun(tag)..] + Spaces(gap)) + size
  {
    hide *;
    RunWithin(tag, Spaces(gap));
    RunWithin(tag + Spaces(gap), size);
    DropSome(tag, SpaceRun(tag), Spaces(gap), size);
  }

  lemma DropBoth(a: string, b: string, c: string)
    ensures ((a + b) + c)[|a| + |b|..] == c
  {
  }

  lemma DropSome(a: string, k: nat, b: string, c: string)
    requires k <= |a|
    ensures ((a + b) + c)[k..] == (a[k..] + b) + c
  {
  }

  /** The line of a row gives its tag without outer spaces, and nothing if that is empty. */
  lemma RowReads(r: Row)
    requires WellFormed(r) && LastSize(r.tail) == None
    ensures TagOf(Print(r)) == if Trim(r.tag) == "" then None else Some(Trim(r.tag))
  {
    RowIs(r);
    SizeStarts(r);
    SizeColumn(r);
    SpaceRunIs(SizeOn(r), 0);
    var k := SpaceRun(r.tag);
    hide LastSize, SizeOn, WellFormed, SpaceRun, Print, TagOf;
    if k == |r.tag| {
      BlankTag(r.tag, r.gap2, SizeOn(r));
      ColumnOf(SizeOn(r), 0);
    } else {
      hide *;
      FullTag(r.tag, r.gap2, SizeOn(r));
      TagColumnReads(r, r.tag[k..]);
      TrimIs(r.tag);
    }
  }

  lemma TrimIs(s: string)
    ensures Trim(s) == TrimEnd(s[SpaceRun(s)..])
  {
  }

  predicate NoOuterSpaces(s: string) {
    s != "" && s[0] != ' ' && s[|s| - 1] != ' '
  }

  lemma TrimKeeps(s: string)
    requires NoOuterSpaces(s)
    ensures Trim(s) == s && SpaceRun(s) == 0
  {
    SpaceRunIs(s, 0);
    assert s[0..] == s;
    TrimEndIs(s, |s|);
    assert s[..|s|] == s;
  }

  lemma LaterSize(p: string, size: string)
    requires p != "" && p[|p| - 1] == ' ' && size != "" && Digit(size[0])
    requires LastSize(size).Some? && LastSize(size).value > 0
    ensures TagColumn(p + size).Some? && |TagColumn(p + size).value| > |p|
  {
    hide LastSize, TagColumn, TagBefore;
    SizeBehind(p, size);
    LaterSizeIs(p, size, LastSize(size).value);
  }

  lemma LaterSizeIs(p: string, size: string, n: nat)
    requires 0 < n <= |size| && size[0] != ' ' && LastSize(p + size) == Some(|p| + n)
    ensures TagColumn(p + size).Some? && |TagColumn(p + size).value| > |p|
  {
    hide *;
    LongerTag(p, size, |p| + n);
    ColumnOf(p + size, |p| + n);
  }

  lemma LaterSizeAt(r: Row)
    requires WellFormed(r) && LastSize(r.tail).Some?
    ensures LastSize(SizeOn(r)).Some? && LastSize(SizeOn(r)).value > 0
  {
    SizeColumn(r);
    assert |Number(r)| > 0;
  }

  /** A size in the columns behind the real one makes the tag longer. */
  lemma LaterSizeSpoils(r: Row)
    requires WellFormed(r) && NoOuterSpaces(r.tag) && LastSize(r.tail).Some?
    ensures TagOf(Print(r)) != Some(r.tag)
  {
    IdFacts(r);
    TrimKeeps(r.tag);
    assert r.tag[0..] == r.tag && r.tag != "";
    hide *;
    RowIs(r);
    SizeStarts(r);
    LaterSizeAt(r);
    FullTag(r.tag, r.gap2, SizeOn(r));
    PaddedEnds(r.tag, r.gap2);
    LaterSize(r.tag + Spaces(r.gap2), SizeOn(r));
  }

  lemma LongerTag(p: string, size: string, i: nat)
    requires |p| < i <= |p + size| && size[0] != ' '
    ensures TagBefore(p + size, i).Some? && |TagBefore(p + size, i).value| > |p|
  {
    var s := (p + size)[..i];
    assert s[|p|] == size[0];
  }

  /** A printed row gives exactly its tag, however much that looks like a size, if and only if the tag has no
      outer spaces and no size stands in the columns behind the VM size. */
  lemma RowReadsIff(r: Row)
    requires WellFormed(r)
    ensures TagOf(Print(r)) == Some(r.tag) <==> NoOuterSpaces(r.tag) && LastSize(r.tail) == None
  {
    hide LastSize, WellFormed, TagOf, Print;
    if NoOuterSpaces(r.tag) {
      if LastSize(r.tail) == None {
        RowReads(r);
        TrimKeeps(r.tag);
      } else {
        LaterSizeSpoils(r);
      }
    }
  }

  // ----- rows whose other columns hold no 'B' -----

  lemma UnitHasB(s: string)
    requires UnitNext(s)
    ensures 'B' in s
  {
    assert s[1] == 'B' || s[3] == 'B';
  }

  lemma {:induction false} NoSizeWithoutB(s: string)
    requires 'B' !in s
    ensures LastSize(s) == None
    decreases |s|
  {
    if s != "" {
      var n := if Digit(s[0]) then NumberRun(s) else 1;
      NoSizeWithoutB(s[n..]);
      if UnitNext(s[n..]) {
        UnitHasB(s[n..]);
      }
    }
  }

  /** No unit goes across a blank that a digit follows. */
  lemma NoneAcross(u: string, p: string, r: string)
    requires p != "" && p[|p| - 1] == ' ' && 'B' !in p && r != "" && Digit(r[0])
    requires |u| > 2 && u[|u| - 2] == 'B' && forall k :: 0 < k < |u| - 1 ==> u[k] != ' ' && !Digit(u[k])
    ensures !(u <= p + r)
  {
    var s, n := p + r, |p|;
    assert s[n - 1] == ' ' && s[n] == r[0];
    if |u| <= |s| {
      if |u| - 2 < n {
        assert s[|u| - 2] == p[|u| - 2];
      } else if n > 1 {
        assert u[n - 1] != s[n - 1];
      } else {
        assert u[1] != s[1];
      }
    }
  }

  lemma NoUnitAcross(p: string, r: string)
    requires p != "" && p[|p| - 1] == ' ' && 'B' !in p && r != "" && Digit(r[0])
    ensures !UnitNext(p + r)
  {
    NoneAcross(" B ", p, r);
    NoneAcross(" KiB ", p, r);
    NoneAcross(" MiB ", p, r);
    NoneAcross(" GiB ", p, r);
  }

  lemma {:induction false} NoSizeInFront(p: string, r: string)
    requires (p == "" || p[|p| - 1] == ' ') && 'B' !in p && r != "" && Digit(r[0]) && LastSize(r) == None
    ensures LastSize(p + r) == None
    decreases |p|
  {
    hide UnitNext;
    if p == "" {
      assert p + r == r;
    } else {
      var n := if Digit(p[0]) then NumberRun(p) else 1;
      if Digit(p[0]) {
        NumberRunPast(p, r);
        NoUnitAcross(p[n..], r);
      }
      assert (p + r)[n..] == p[n..] + r;
      NoSizeInFront(p[n..], r);
    }
  }

  lemma SameWord(u: string, v: string, rest: string)
    requires ' ' !in u && ' ' !in v && " " + (u + " ") <= " " + (v + " ") + rest
    ensures u == v
  {
    var s := " " + (v + " ") + rest;
    CutIs(s, ' ', 1, |v| + 1);
    assert s[|u| + 1] == (" " + (u + " "))[|u| + 1];
    forall k | 1 <= k < |u| + 1 ensures s[k] != ' ' {
      assert s[k] == (" " + (u + " "))[k] == u[k - 1];
    }
    CutIs(s, ' ', 1, |u| + 1);
    assert u == (" " + (u + " "))[1..|u| + 1] == s[1..|u| + 1] == v;
  }

  lemma UnitNextIs(unit: string, tail: string)
    requires ' ' !in unit
    ensures UnitNext(" " + (unit + " ") + tail) <==> Unit(unit)
  {
    var s := " " + (unit + " ") + tail;
    assert " " + ("B" + " ") == " B " && " " + ("KiB" + " ") == " KiB " && " " + ("MiB" + " ") == " MiB " && " " + ("GiB" + " ") == " GiB ";
    if Unit(unit) {
      UnitColumn(unit, tail);
    } else if " B " <= s {
      SameWord("B", unit, tail);
    } else if " KiB " <= s {
      SameWord("KiB", unit, tail);
    } else if " MiB " <= s {
      SameWord("MiB", unit, tail);
    } else if " GiB " <= s {
      SameWord("GiB", unit, tail);
    }
  }

  lemma UnknownSize(r: Row)
    requires Shaped(r) && ' ' !in r.unit && !Unit(r.unit) && 'B' !in r.tail
    requires forall k :: 0 <= k < |r.unit| ==> !Digit(r.unit[k])
    ensures LastSize(SizeOn(r)) == None
  {
    NumberRunIs(r, Column(r) + r.tail);
    NoSizeWithoutB(r.tail);
    SkipText(" " + (r.unit + " "), r.tail);
    UnitNextIs(r.unit, r.tail);
    hide UnitNext, NumberRun;
  }

  /** In a listing whose other columns hold no 'B', a snapshot is listed if and only if its size is in bytes or a
      unit up to GiB, and then with its tag. */
  lemma RowListedIff(r: Row)
    requires Shaped(r) && ' ' !in r.unit && (forall k :: 0 <= k < |r.unit| ==> !Digit(r.unit[k]))
    requires NoOuterSpaces(r.tag) && 'B' !in r.tag && 'B' !in r.tail
    ensures TagOf(Print(r)) == if r.unit in ["B", "KiB", "MiB", "GiB"] then Some(r.tag) else None
  {
    NoSizeWithoutB(r.tail);
    if Unit(r.unit) {
      RowReads(r);
      TrimKeeps(r.tag);
    } else {
      RowIs(r);
      TrimKeeps(r.tag);
      SizeStarts(r);
      UnknownSize(r);
      FullTag(r.tag, r.gap2, SizeOn(r));
      assert r.tag[0..] == r.tag;
      hide LastSize, Shaped, SizeOn, Print, TagOf, SpaceRun;
      NoSizeInFront(r.tag + Spaces(r.gap2), SizeOn(r));
    }
  }

  /** So a snapshot with more than a terabyte of memory is not listed. */
  lemma TebibyteIsLost()
    ensures TagOf("1 s 1.5 TiB now") == None
  {
    TebibyteRow();
    hide *;
    RowListedIff(TEBIBYTE);
  }

  const TEBIBYTE := Row(0, "1", 1, "s", 1, "1", Some("5"), "TiB", "now")

  lemma TebibyteRow()
    ensures Shaped(TEBIBYTE) && NoOuterSpaces(TEBIBYTE.tag) && ' ' !in TEBIBYTE.unit
    ensures 'B' !in TEBIBYTE.tag && 'B' !in TEBIBYTE.tail && TEBIBYTE.unit !in ["B", "KiB", "MiB", "GiB"]
    ensures forall k :: 0 <= k < |TEBIBYTE.unit| ==> !Digit(TEBIBYTE.unit[k])
    ensures Print(TEBIBYTE) == "1 s 1.5 TiB now"
  {
    assert TEBIBYTE.unit[0] == 'T' && |TEBIBYTE.unit| == 3;
    assert Spaces(0) == "" && Spaces(1) == " ";
  }

  const LINE := 1023

  /** fgets with a buffer of 1024: a line with its newline, but at most 1023 characters. */
  function NextChunk(text: string): (n: nat)
    requires text != ""
    ensures 0 < n <= |text|
  {
    var n := Cut(text, '\n', 0);
    var line := if n < |text| then n + 1 else n;
    if line <= LINE then line else LINE
  }

  /** The tags in the command's output. */
  function Listing(text: string): seq<string> {
    if text == "" then []
    else
      var n := NextChunk(text);
      (match TagOf(text[..n]) case None => [] case Some(tag) => [tag]) + Listing(text[n..])
  }

  /** qcow2_snapshot_names, once the command's output is there. */
  method SnapshotNames(text: string) returns (names: seq<string>)
    ensures names == Listing(text)
  {
    names := [];
    var pos := 0;
    StillToRead(text);
    hide *;
    while pos < |text|
      invariant pos <= |text| && ReadSoFar(text, pos, names)
    {
      var n := NextChunk(text[pos..]);
      var tag := ParseLine(text[pos..][..n]);
      ReadOne(text, pos, names, n, tag);
      pos := pos + n;
      if tag.Some? {
        names := names + [tag.value];
      }
    }
    AllRead(text, names);
  }

  /** The names so far and those still to come are all names. */
  ghost predicate ReadSoFar(text: string, pos: nat, names: seq<string>) {
    pos <= |text| && names + Listing(text[pos..]) == Listing(text)
  }

  lemma StillToRead(text: string)
    ensures ReadSoFar(text, 0, [])
  {
    assert text[0..] == text;
    assert [] + Listing(text) == Listing(text);
  }

  lemma AllRead(text: string, names: seq<string>)
    requires ReadSoFar(text, |text|, names)
    ensures names == Listing(text)
  {
    assert text[|text|..] == "";
    assert Listing("") == [];
  }

  lemma ReadOne(text: string, pos: nat, names: seq<string>, n: nat, tag: Option<string>)
    requires ReadSoFar(text, pos, names) && pos < |text|
    requires n == NextChunk(text[pos..]) && tag == TagOf(text[pos..][..n])
    ensures pos + n <= |text| && ReadSoFar(text, pos + n, if tag.Some? then names + [tag.value] else names)
  {
    Behind(text, pos, n);
    hide Listing, TagOf, NextChunk;
    ListingStep(names, text[pos..], n, tag);
  }

  lemma Behind(text: string, pos: nat, n: nat)
    requires pos + n <= |text|
    ensures text[pos..][n..] == text[pos + n..]
  {
  }

  lemma ListingStep(names: seq<string>, text: string, n: nat, tag: Option<string>)
    requires text != "" && n == NextChunk(text) && tag == TagOf(text[..n])
    ensures names + Listing(text) == (if tag.Some? then names + [tag.value] else names) + Listing(text[n..])
  {
    hide TagOf, NextChunk;
    var rest := Listing(text[n..]);
    match tag
    case None => assert [] + rest == rest;
    case Some(name) => assert names + ([name] + rest) == (names + [name]) + rest;
  }

  /** A line of the output: a row, or text that does not start with a number. */
  datatype Line = Header(text: string) | Data(row: Row)

  function PrintLine(l: Line): string {
    match l
    case Header(text) => text
    case Data(row) => Print(row)
  }

  predicate PlainLine(l: Line) {
    '\n' !in PrintLine(l) && |PrintLine(l)| < LINE
    && match l
       case Header(text) => SpaceRun(text) == |text| || !Digit(text[SpaceRun(text)])
       case Data(row) => WellFormed(row) && NoOuterSpaces(row.tag) && LastSize(row.tail + "\n") == None
  }

  function PrintLines(lines: seq<Line>): string {
    if lines == [] then "" else (PrintLine(lines[0]) + "\n") + PrintLines(lines[1..])
  }

  function Tags(lines: seq<Line>): seq<string> {
    if lines == [] then []
    else if lines[0].Header? then Tags(lines[1..])
    else [lines[0].row.tag] + Tags(lines[1..])
  }

  lemma LineTag(l: Line)
    requires PlainLine(l)
    ensures TagOf(PrintLine(l) + "\n") == if l.Header? then None else Some(l.row.tag)
  {
    match l
    case Header(text) =>
      SpaceRunIs(text + "\n", SpaceRun(text));
      NoTag(text + "\n", SpaceRun(text));
    case Data(row) =>
      var whole := row.(tail := row.tail + "\n");
      LastColumn(row);
      RowReadsIff(whole);
  }

  /** The newline belongs to the last columns. */
  lemma LastColumn(row: Row)
    ensures Print(row) + "\n" == Print(row.(tail := row.tail + "\n"))
    ensures WellFormed(row) ==> WellFormed(row.(tail := row.tail + "\n"))
  {
    var whole := row.(tail := row.tail + "\n");
    assert SizeOn(row) + "\n" == SizeOn(whole);
    hide SizeOn, Spaces;
    var size := SizeOn(row);
    LastOf5(Spaces(row.lead), row.id, Spaces(row.gap), row.tag + Spaces(row.gap2), size);
  }

  lemma LastOf5(a: string, b: string, c: string, d: string, e: string)
    ensures (a + (b + (c + (d + e)))) + "\n" == a + (b + (c + (d + (e + "\n"))))
  {
  }

  lemma ChunkIs(line: string, rest: string)
    requires '\n' !in line && |line| < LINE
    ensures var text := (line + "\n") + rest;
            NextChunk(text) == |line| + 1 && text[..|line| + 1] == line + "\n" && text[|line| + 1..] == rest
  {
    var text := (line + "\n") + rest;
    CutIs(text, '\n', 0, |line|);
  }

  /** Reading a printed listing returns the tags of its rows, in order. */
  lemma {:induction false} ListingReads(lines: seq<Line>)
    requires forall k :: 0 <= k < |lines| ==> PlainLine(lines[k])
    ensures Listing(PrintLines(lines)) == Tags(lines)
  {
    if lines != [] {
      ListingReads(lines[1..]);
      LineTag(lines[0]);
      ChunkIs(PrintLine(lines[0]), PrintLines(lines[1..]));
      hide TagOf, NextChunk, PlainLine, PrintLine;
    }
  }
}
