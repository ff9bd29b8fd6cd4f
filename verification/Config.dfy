/** src/config.c: the settings, the parser that fills them in, and a printed configuration. */
module Config {
  import opened Wrappers
  import opened Splitting
  import opened UrlCodec
  import opened ConfigText
  import opened Decimal

  datatype Settings = Settings(port: int, idleTimeout: int, uri: string, staticDir: string,
                               dirtyStatePath: string)

  /** What snprintf leaves in a buffer of 256. */
  const FIELD := 255

  /** config_parse_line: unknown keys are ignored. */
  function Assign(c: Settings, a: Assignment): Settings {
    if a.key == "port" then c.(port := Atoi(a.value))
    else if a.key == "idle_timeout" then c.(idleTimeout := Atoi(a.value))
    else if a.key == "uri" then c.(uri := Clipped(a.value, FIELD))
    else if a.key == "static_dir" then c.(staticDir := Clipped(a.value, FIELD))
    else if a.key == "dirty_state_path" then c.(dirtyStatePath := Clipped(a.value, FIELD))
    else c
  }

  function Apply(c: Settings, found: seq<Assignment>): Settings
    decreases |found|
  {
    if found == [] then c else Apply(Assign(c, found[0]), found[1..])
  }

  function Parsed(c: Settings, text: string): Settings {
    Apply(c, Assignments(text))
  }

  /** The last value a list of assignments gives a key. */
  function LastOf(found: seq<Assignment>, key: string): Option<string> {
    if found == [] then None
    else if found[|found| - 1].key == key then Some(found[|found| - 1].value)
    else LastOf(found[..|found| - 1], key)
  }

  function Text(last: Option<string>, oldValue: string): string {
    match last
    case None => oldValue
    case Some(v) => Clipped(v, FIELD)
  }

  function Number(last: Option<string>, oldValue: int): int {
    match last
    case None => oldValue
    case Some(v) => Atoi(v)
  }

  /** qswm_config_t. */
  class QswmConfig {
    var port: int
    var idleTimeout: int
    var uri: string
    var staticDir: string
    var dirtyStatePath: string

    function Value(): Settings
      reads this
    {
      Settings(port, idleTimeout, uri, staticDir, dirtyStatePath)
    }

    method ParseLine(key: string, value: string)
      modifies this
      ensures Value() == Assign(old(Value()), Assignment(key, value))
    {
      if key == "port" {
        port := Atoi(value);
      } else if key == "idle_timeout" {
        idleTimeout := Atoi(value);
      } else if key == "uri" {
        uri := Clipped(value, FIELD);
      } else if key == "static_dir" {
        staticDir := Clipped(value, FIELD);
      } else if key == "dirty_state_path" {
        dirtyStatePath := Clipped(value, FIELD);
      }
    }

    /** One round of config_parse_buffer: a line is copied, read in place and assigned. */
    method ParseNext(buf: string, p: nat, line: array<char>) returns (next: nat)
      requires NUL !in buf && p < |buf| && line.Length == 512
      modifies this, line
      ensures p < next <= |buf| && Parsed(Value(), buf[next..]) == Parsed(old(Value()), buf[p..])
    {
      hide *;
      var len;
      len, next := CopyLine(buf, p, line);
      NoNulIn(buf, p, p + len);
      var found := ReadLine(line, len);
      ParseStep(Value(), buf, p, next, found);
      if found != [] {
        ParseLine(found[0].key, found[0].value);
      }
    }

    /** config_parse_buffer: line by line through a buffer of 512. */
    method ParseBuffer(buf: string)
      requires NUL !in buf
      modifies this
      ensures Value() == Parsed(old(Value()), buf)
    {
      var line := new char[512];
      var p := 0;
      assert buf[0..] == buf;
      hide *;
      while p < |buf|
        invariant p <= |buf| && Parsed(Value(), buf[p..]) == Parsed(old(Value()), buf)
      {
        p := ParseNext(buf, p, line);
      }
      ParsedNothing(Value());
      assert buf[p..] == "";
    }
  }

  /** The copy into the line buffer, cut at its size, with a NUL behind it. */
  method CopyLine(buf: string, p: nat, line: array<char>) returns (len: nat, next: nat)
    requires p < |buf| && line.Length == 512
    modifies line
    ensures len < 512 && p + len <= |buf| && p < next <= |buf|
    ensures NextLine(buf[p..]) == (buf[p..p + len], next - p)
    ensures line[..len] == buf[p..p + len] && line[len] == NUL
  {
    var eol := Cut(buf, '\n', p);
    len := if eol - p >= line.Length then line.Length - 1 else eol - p;
    forall i | 0 <= i < len {
      line[i] := buf[p + i];
    }
    line[len] := NUL;
    next := if eol < |buf| then eol + 1 else p + len;
    ReadsNext(buf, p, len, next);
    hide *;
    assert line[..len] == buf[p..p + len];
  }

  lemma NoNulIn(s: string, i: nat, j: nat)
    requires i <= j <= |s| && NUL !in s
    ensures NUL !in s[i..j]
  {
  }

  lemma ParsedNothing(c: Settings)
    ensures Parsed(c, "") == c
  {
  }

  /** What one round of the parser copies and where it goes on. */
  lemma ReadsNext(buf: string, p: nat, len: nat, next: nat)
    requires p < |buf|
    requires var eol := Cut(buf, '\n', p);
             len == (if eol - p >= 512 then 511 else eol - p) && next == if eol < |buf| then eol + 1 else p + len
    ensures p + len <= |buf| && p < next <= |buf|
    ensures NextLine(buf[p..]) == (buf[p..p + len], next - p)
  {
    var text := buf[p..];
    var eol := Cut(buf, '\n', p);
    CutTail(buf, '\n', p, |buf|);
    hide Cut;
    LineParts(buf, p, eol, len);
  }

  lemma LineParts(buf: string, p: nat, eol: nat, len: nat)
    requires p <= eol <= |buf| && len <= eol - p
    ensures buf[p..][..eol - p] == buf[p..eol] && buf[p..eol][..len] == buf[p..p + len]
    ensures eol == |buf| ==> buf[p..] == buf[p..eol]
  {
  }

  lemma AtMostOne(line: string)
    ensures |LineAssignment(line)| <= 1
  {
  }

  lemma ParseStep(c: Settings, buf: string, p: nat, next: nat, found: seq<Assignment>)
    requires p < next <= |buf|
    requires NextLine(buf[p..]).1 == next - p && found == LineAssignment(NextLine(buf[p..]).0)
    ensures |found| <= 1
    ensures Parsed(c, buf[p..]) == Parsed(if found == [] then c else Assign(c, found[0]), buf[next..])
    ensures found != [] ==> Assignment(found[0].key, found[0].value) == found[0]
  {
    assert buf[p..][next - p..] == buf[next..];
    var rest := Assignments(buf[next..]);
    assert Assignments(buf[p..]) == found + rest;
    AtMostOne(NextLine(buf[p..]).0);
    if found != [] {
      assert (found + rest)[1..] == rest;
    } else {
      assert found + rest == rest;
    }
  }

  lemma {:induction false} ApplyConcat(c: Settings, a: seq<Assignment>, b: seq<Assignment>)
    ensures Apply(c, a + b) == Apply(Apply(c, a), b)
    decreases |a|
  {
    if a == [] {
      assert a + b == b;
    } else {
      assert (a + b)[1..] == a[1..] + b;
      ApplyConcat(Assign(c, a[0]), a[1..], b);
    }
  }

  /** Each setting ends up with the last value its key was given, or keeps the old one. */
  lemma {:induction false} LastWins(c: Settings, found: seq<Assignment>)
    ensures Apply(c, found) == Settings(Number(LastOf(found, "port"), c.port),
                                        Number(LastOf(found, "idle_timeout"), c.idleTimeout),
                                        Text(LastOf(found, "uri"), c.uri),
                                        Text(LastOf(found, "static_dir"), c.staticDir),
                                        Text(LastOf(found, "dirty_state_path"), c.dirtyStatePath))
  {
    if found != [] {
      var init, last := found[..|found| - 1], found[|found| - 1];
      LastWins(c, init);
      assert found == init + [last];
      ApplyConcat(c, init, [last]);
      var before := Apply(c, init);
      assert Apply(before, [last]) == Apply(Assign(before, last), [last][1..]);
    }
  }

  /** The assignments to keys that `later` does not assign. */
  function Without(found: seq<Assignment>, later: seq<Assignment>): seq<Assignment> {
    if found == [] then []
    else
      Without(found[..|found| - 1], later)
      + if LastOf(later, found[|found| - 1].key).None? then [found[|found| - 1]] else []
  }

  lemma {:induction false} LastOfWithout(found: seq<Assignment>, later: seq<Assignment>, key: string)
    ensures LastOf(Without(found, later), key) == if LastOf(later, key).None? then LastOf(found, key) else None
  {
    if found != [] {
      var init, last := found[..|found| - 1], found[|found| - 1];
      LastOfWithout(init, later, key);
      if LastOf(later, last.key).None? {
        var w := Without(found, later);
        assert w == Without(init, later) + [last] && w[..|w| - 1] == Without(init, later);
      } else {
        assert Without(found, later) == Without(init, later);
      }
    }
  }

  /** Assignments that are followed by others make no difference exactly when those of them that are not
      overwritten make none. */
  lemma InsertedIff(c: Settings, extra: seq<Assignment>, later: seq<Assignment>)
    ensures Apply(Apply(c, extra), later) == Apply(c, later) <==> Apply(c, Without(extra, later)) == c
  {
    LastWins(c, extra);
    LastWins(Apply(c, extra), later);
    LastWins(c, later);
    LastWins(c, Without(extra, later));
    LastOfWithout(extra, later, "port");
    LastOfWithout(extra, later, "idle_timeout");
    LastOfWithout(extra, later, "uri");
    LastOfWithout(extra, later, "static_dir");
    LastOfWithout(extra, later, "dirty_state_path");
  }

  /** Parsing two texts joined by a newline is parsing one after the other exactly when the overflow of the
      first one's last line changes no setting that the second one leaves alone. */
  lemma ParseJoinedIff(c: Settings, a: string, b: string)
    ensures Parsed(c, a + ("\n" + b)) == Parsed(Parsed(c, a), b)
       <==> var led := Apply(c, Lead(a));
            Apply(led, Without(Assignments(Overflow(a)), Assignments(b))) == led
  {
    AppendText(a, b);
    var lead, over, later := Lead(a), Assignments(Overflow(a)), Assignments(b);
    hide *;
    ParsedIs(c, a);
    ParsedIs(c, a + ("\n" + b));
    ParsedIs(Parsed(c, a), b);
    ApplyConcat(c, lead, over);
    ApplyConcat(c, lead, later);
    InsertedIff(Apply(c, lead), over, later);
  }

  lemma ParsedIs(c: Settings, text: string)
    ensures Parsed(c, text) == Apply(c, Assignments(text))
  {
  }

  /** In particular when the last line fits the line buffer. */
  lemma ParseJoined(c: Settings, a: string, b: string)
    requires |LastLine(a)| <= LINE
    ensures Parsed(c, a + ("\n" + b)) == Parsed(Parsed(c, a), b)
  {
    ParseJoinedIff(c, a, b);
  }

  /** A comment of 511 characters that goes on with an assignment. */
  lemma JoinedDiffers(c: Settings)
    requires c.port != 1
    ensures var a := seq(511, i => '#') + "port=1";
            Parsed(c, a + ("\n" + "")) == c && Parsed(Parsed(c, a), "").port == 1
  {
    var over := "port=1";
    var a := seq(511, i => '#') + over;
    assert '\n' !in a;
    UnfinishedLine(a);
    FinishedLine(a, "");
    var line := Clipped(a, LINE);
    assert line[0] == '#' && TrimLeft(line) == line;
    assert a[LINE..] == over;
    CutIs(a, '\n', 0, |a|);
    assert LastLine(a) == a && Overflow(a) == over;
    ReadsPort();
    assert Assignments(a) == [Assignment("port", "1")] && Assignments(a + ("\n" + "")) == [];
    assert [Assignment("port", "1")][1..] == [];
    AtoiPrint(1);
  }

  lemma ReadsPort()
    ensures Assignments("port=1") == [Assignment("port", "1")]
  {
    var text := "port=1";
    CutIs(text, '\n', 0, 6);
    CutIs(text, '=', 0, 4);
    assert text[..6] == text && text[..4] == "port" && text[5..] == "1";
    assert NextLine(text) == (text, 6);
    assert LineAssignment(text) == [Assignment("port", "1")];
    assert text[6..] == "" && Assignments("") == [];
  }
}
