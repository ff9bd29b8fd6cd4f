/** A printed configuration and what the reader of src/config.c makes of it. */
module ConfigPrint {
  import opened Wrappers
  import opened Splitting
  import opened ConfigText
  import opened Decimal
  import opened Config

  function PrintLines(lines: seq<Assignment>): string {
    if lines == [] then ""
    else (lines[0].key + ("=" + lines[0].value)) + ("\n" + PrintLines(lines[1..]))
  }

  function Lines(c: Settings): seq<Assignment> {
    [Assignment("port", PrintInt(c.port)), Assignment("idle_timeout", PrintInt(c.idleTimeout)),
     Assignment("uri", c.uri), Assignment("static_dir", c.staticDir),
     Assignment("dirty_state_path", c.dirtyStatePath)]
  }

  function Print(c: Settings): string {
    "[general]" + ("\n" + PrintLines(Lines(c)))
  }

  /** A key that the reader takes as it stands. */
  predicate PlainKey(k: string) {
    k != "" && StartsClean(k) && EndsClean(k) && !Comment(k[0]) && '=' !in k && '\n' !in k && |k| <= 255
  }

  /** What a text setting always looks like after parsing. */
  predicate Stored(v: string) {
    '\n' !in v && StartsClean(v) && |v| <= FIELD
  }

  predicate StoredAll(c: Settings) {
    Stored(c.uri) && Stored(c.staticDir) && Stored(c.dirtyStatePath)
  }

  /** A text setting that survives printing and reading. */
  predicate Survives(v: string) {
    Stored(v) && EndsClean(v)
  }

  lemma LineReads(k: string, v: string)
    requires PlainKey(k) && StartsClean(v)
    ensures LineAssignment(k + ("=" + v)) == [Assignment(k, TrimRight(v))]
  {
    var line := k + ("=" + v);
    TrimLeftIs(line);
    TrimLeftIs(v);
    TrimRightIs(k);
    KeyEnds(k, v);
    hide TrimLeft, TrimRight;
  }

  lemma KeyEnds(k: string, v: string)
    requires '=' !in k
    ensures var line := k + ("=" + v);
            Cut(line, '=', 0) == |k| && line[..|k|] == k && line[|k| + 1..] == v
  {
    CutIs(k + ("=" + v), '=', 0, |k|);
  }

  function TrimmedLines(lines: seq<Assignment>): seq<Assignment> {
    if lines == [] then []
    else [Assignment(lines[0].key, TrimRight(lines[0].value))] + TrimmedLines(lines[1..])
  }

  predicate PlainLine(a: Assignment) {
    PlainKey(a.key) && Stored(a.value)
  }

  /** Reading printed lines returns them, with the ends of the values trimmed. */
  lemma {:induction false} PrintedReads(lines: seq<Assignment>)
    requires forall k :: 0 <= k < |lines| ==> PlainLine(lines[k])
    ensures Assignments(PrintLines(lines)) == TrimmedLines(lines)
  {
    if lines != [] {
      PrintedReads(lines[1..]);
      FirstLineReads(lines[0], PrintLines(lines[1..]));
    }
  }

  lemma FirstLineReads(a: Assignment, rest: string)
    requires PlainLine(a)
    ensures Assignments((a.key + ("=" + a.value)) + ("\n" + rest))
         == [Assignment(a.key, TrimRight(a.value))] + Assignments(rest)
  {
    var line := a.key + ("=" + a.value);
    LineReads(a.key, a.value);
    assert '\n' !in line && |line| <= LINE;
    hide LineAssignment, Assignments, TrimRight;
    FinishedLine(line, rest);
  }

  lemma HeaderReads(rest: string)
    ensures Assignments("[general]" + ("\n" + rest)) == Assignments(rest)
  {
    var line := "[general]";
    assert line[0] == '[' && TrimLeft(line) == line;
    FinishedLine(line, rest);
    assert LineAssignment(line) == [];
  }

  lemma KeysArePlain()
    ensures PlainKey("port") && PlainKey("idle_timeout") && PlainKey("uri")
            && PlainKey("static_dir") && PlainKey("dirty_state_path")
  {
  }

  /** The same list with five entries, applied. */
  lemma AppliedFive(d: Settings, p: string, i: string, u: string, s: string, t: string)
    ensures Apply(d, [Assignment("port", p), Assignment("idle_timeout", i), Assignment("uri", u),
                      Assignment("static_dir", s), Assignment("dirty_state_path", t)])
         == Settings(Atoi(p), Atoi(i), Clipped(u, FIELD), Clipped(s, FIELD), Clipped(t, FIELD))
  {
    var a := [Assignment("port", p), Assignment("idle_timeout", i), Assignment("uri", u),
              Assignment("static_dir", s), Assignment("dirty_state_path", t)];
    hide Atoi, Clipped;
    assert a[1..][0] == a[1] && a[1..][1..] == a[2..];
    assert a[2..][0] == a[2] && a[2..][1..] == a[3..];
    assert a[3..][0] == a[3] && a[3..][1..] == a[4..];
    assert a[4..][0] == a[4] && a[4..][1..] == [];
    assert Apply(d, a) == Apply(Assign(d, a[0]), a[1..]);
    var d1 := Assign(d, a[0]);
    assert Apply(d1, a[1..]) == Apply(Assign(d1, a[1]), a[2..]);
    var d2 := Assign(d1, a[1]);
    assert Apply(d2, a[2..]) == Apply(Assign(d2, a[2]), a[3..]);
    var d3 := Assign(d2, a[2]);
    assert Apply(d3, a[3..]) == Apply(Assign(d3, a[3]), a[4..]);
    var d4 := Assign(d3, a[3]);
    assert Apply(d4, a[4..]) == Apply(Assign(d4, a[4]), []);
  }

  predicate InRange(c: Settings) {
    CInt(c.port) && CInt(c.idleTimeout)
  }

  lemma LinesTrimmed(c: Settings)
    requires InRange(c)
    ensures TrimmedLines(Lines(c))
         == [Assignment("port", PrintInt(c.port)), Assignment("idle_timeout", PrintInt(c.idleTimeout)),
             Assignment("uri", TrimRight(c.uri)), Assignment("static_dir", TrimRight(c.staticDir)),
             Assignment("dirty_state_path", TrimRight(c.dirtyStatePath))]
  {
    PrintIntIsShort(c.port);
    PrintIntIsShort(c.idleTimeout);
    TrimRightIs(PrintInt(c.port));
    TrimRightIs(PrintInt(c.idleTimeout));
    var l := Lines(c);
    hide TrimRight, PrintInt;
    assert l[1..][0] == l[1] && l[1..][1..] == l[2..];
    assert l[2..][0] == l[2] && l[2..][1..] == l[3..];
    assert l[3..][0] == l[3] && l[3..][1..] == l[4..];
    assert l[4..][0] == l[4] && l[4..][1..] == [];
    assert TrimmedLines([]) == [];
    assert TrimmedLines(l[4..]) == [Assignment(l[4].key, TrimRight(l[4].value))];
    assert TrimmedLines(l[3..]) == [Assignment(l[3].key, TrimRight(l[3].value))] + TrimmedLines(l[4..]);
    assert TrimmedLines(l[2..]) == [Assignment(l[2].key, TrimRight(l[2].value))] + TrimmedLines(l[3..]);
    assert TrimmedLines(l[1..]) == [Assignment(l[1].key, TrimRight(l[1].value))] + TrimmedLines(l[2..]);
  }

  lemma LinesArePlain(c: Settings)
    requires InRange(c) && StoredAll(c)
    ensures forall k :: 0 <= k < |Lines(c)| ==> PlainLine(Lines(c)[k])
  {
    KeysArePlain();
    PrintIntIsShort(c.port);
    PrintIntIsShort(c.idleTimeout);
    hide PlainKey;
  }

  /** Reading a printed configuration over any other one. */
  lemma ReadPrinted(d: Settings, c: Settings)
    requires InRange(c) && StoredAll(c)
    ensures Parsed(d, Print(c)) == c.(uri := TrimRight(c.uri), staticDir := TrimRight(c.staticDir),
                                      dirtyStatePath := TrimRight(c.dirtyStatePath))
  {
    HeaderReads(PrintLines(Lines(c)));
    LinesArePlain(c);
    PrintedReads(Lines(c));
    LinesTrimmed(c);
    AppliedFive(d, PrintInt(c.port), PrintInt(c.idleTimeout), TrimRight(c.uri), TrimRight(c.staticDir),
                TrimRight(c.dirtyStatePath));
    AtoiPrint(c.port);
    AtoiPrint(c.idleTimeout);
    hide Assignments, Lines, PrintLines, TrimRight, PrintInt, Atoi;
  }

  lemma LineIsStored(line: string)
    requires '\n' !in line
    ensures forall a :: a in LineAssignment(line) ==> '\n' !in a.value && StartsClean(a.value)
  {
    var s := TrimLeft(line);
    TrimLeftIs(line);
    if s != "" {
      AtEqualsIsStored(s, Cut(s, '=', 0));
    }
    hide TrimLeft, AtEquals;
  }

  lemma AtEqualsIsStored(s: string, eq: nat)
    requires '\n' !in s && eq <= |s|
    ensures forall a :: a in AtEquals(s, eq) ==> '\n' !in a.value && StartsClean(a.value)
  {
    if eq < |s| {
      TrimLeftIs(s[eq + 1..]);
      TrimRightIs(TrimLeft(s[eq + 1..]));
      hide TrimLeft, TrimRight;
    }
  }

  lemma {:induction false} AllAreStored(text: string)
    ensures forall a :: a in Assignments(text) ==> '\n' !in a.value && StartsClean(a.value)
    decreases |text|
  {
    if text != "" {
      var (line, n) := NextLine(text);
      LineIsStored(line);
      AllAreStored(text[n..]);
    }
  }

  lemma {:induction false} ApplyKeepsStored(d: Settings, found: seq<Assignment>)
    requires StoredAll(d) && forall a :: a in found ==> '\n' !in a.value && StartsClean(a.value)
    ensures StoredAll(Apply(d, found))
    decreases |found|
  {
    if found != [] {
      var a := found[0];
      assert Stored(Clipped(a.value, FIELD));
      ApplyKeepsStored(Assign(d, a), found[1..]);
    }
  }

  /** Whatever text is read, the text settings keep the stored form. */
  lemma ParsedIsStored(d: Settings, text: string)
    requires StoredAll(d)
    ensures StoredAll(Parsed(d, text))
  {
    AllAreStored(text);
    ApplyKeepsStored(d, Assignments(text));
  }

  /** A printed configuration is read back exactly when its text settings have no newline, no white
      space around them and at most 255 characters. */
  lemma RoundTripIff(d: Settings, c: Settings)
    requires InRange(c) && StoredAll(d)
    ensures Parsed(d, Print(c)) == c <==> Survives(c.uri) && Survives(c.staticDir) && Survives(c.dirtyStatePath)
  {
    ParsedIsStored(d, Print(c));
    TrimRightIs(c.uri);
    TrimRightIs(c.staticDir);
    TrimRightIs(c.dirtyStatePath);
    hide Parsed, Print, TrimRight;
    if StoredAll(c) {
      ReadPrinted(d, c);
    }
  }
}
