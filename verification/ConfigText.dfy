/** The line reader of src/config.c: which key/value pairs a configuration text holds. */
module ConfigText {
  import opened Wrappers
  import opened Splitting
  import opened UrlCodec

  /** isspace in the C locale. */
  predicate Space(c: char) {
    c == ' ' || '\t' <= c <= '\r'
  }

  function TrimLeft(s: string): string {
    if s != "" && Space(s[0]) then TrimLeft(s[1..]) else s
  }

  function TrimRight(s: string): (r: string)
    ensures r <= s
  {
    if s != "" && Space(s[|s| - 1]) then TrimRight(s[..|s| - 1]) else s
  }

  predicate StartsClean(s: string) {
    s == "" || !Space(s[0])
  }

  predicate EndsClean(s: string) {
    s == "" || !Space(s[|s| - 1])
  }

  predicate Comment(c: char) {
    c == '#' || c == ';' || c == '['
  }

  datatype Assignment = Assignment(key: string, value: string)

  /** The characters a line buffer of 512 holds. */
  const LINE: nat := 511

  /** What one line assigns: nothing for an empty line, a comment, a section header or a line without '='. */
  function LineAssignment(line: string): seq<Assignment> {
    var s := TrimLeft(line);
    if s == "" || Comment(s[0]) then [] else AtEquals(s, Cut(s, '=', 0))
  }

  function AtEquals(s: string, eq: nat): seq<Assignment>
    requires eq <= |s|
  {
    if eq == |s| then [] else [Assignment(TrimRight(s[..eq]), TrimRight(TrimLeft(s[eq + 1..])))]
  }

  function Clipped(s: string, n: nat): (r: string)
    ensures r <= s && |r| <= n && (r == s || |r| == n)
  {
    if |s| <= n then s else s[..n]
  }

  /** One round of the reader: the line it looks at and where it goes on.  A line that ends in a newline
      is cut at 511 characters; one that does not goes on as a new line after 511 characters. */
  function NextLine(text: string): (r: (string, nat))
    requires text != ""
    ensures 0 < r.1 <= |text| && r.0 == Clipped(text[..Cut(text, '\n', 0)], LINE)
  {
    var n := Cut(text, '\n', 0);
    if n < |text| then (Clipped(text[..n], LINE), n + 1)
    else (assert text[..n] == text; Clipped(text, LINE), |Clipped(text, LINE)|)
  }

  /** All assignments of a text, in order. */
  function Assignments(text: string): seq<Assignment> {
    if text == "" then []
    else
      var (line, n) := NextLine(text);
      LineAssignment(line) + Assignments(text[n..])
  }

  lemma {:induction false} TrimLeftIs(s: string)
    ensures StartsClean(TrimLeft(s)) && |TrimLeft(s)| <= |s| && TrimLeft(s) == s[|s| - |TrimLeft(s)|..]
    ensures StartsClean(s) ==> TrimLeft(s) == s
  {
    if s != "" && Space(s[0]) {
      TrimLeftIs(s[1..]);
    }
  }

  lemma {:induction false} TrimRightIs(s: string)
    ensures EndsClean(TrimRight(s)) && (EndsClean(s) <==> TrimRight(s) == s)
    ensures StartsClean(s) ==> StartsClean(TrimRight(s))
  {
    if s != "" && Space(s[|s| - 1]) {
      TrimRightIs(s[..|s| - 1]);
    }
  }

  lemma CStringIs(buf: string, n: nat)
    requires n < |buf| && buf[n] == NUL && NUL !in buf[..n]
    ensures CString(buf) == buf[..n]
    decreases n
  {
    if n > 0 {
      CStringIs(buf[1..], n - 1);
      assert buf[..n] == [buf[0]] + buf[1..][..n - 1];
    }
  }

  lemma {:induction false} TrimRightCut(s: string, m: nat)
    requires m <= |s| && EndsClean(s[..m])
    requires forall i :: m <= i < |s| ==> Space(s[i])
    ensures TrimRight(s) == s[..m]
  {
    if m < |s| {
      assert s[..|s| - 1][..m] == s[..m];
      TrimRightCut(s[..|s| - 1], m);
    } else {
      assert s[..m] == s;
    }
  }

  lemma {:induction false} TrimLeftCut(s: string, m: nat)
    requires m <= |s| && StartsClean(s[m..])
    requires forall i :: 0 <= i < m ==> Space(s[i])
    ensures TrimLeft(s) == s[m..]
  {
    if m > 0 {
      assert s[1..][m - 1..] == s[m..];
      TrimLeftCut(s[1..], m - 1);
    }
  }

  /** The trimming loop that overwrites trailing white space with NULs. */
  method TrimEnd(line: array<char>, from: nat, n: nat, ghost text0: string) returns (text: string)
    requires from <= n < line.Length && line[n] == NUL && NUL !in text0
    requires line[from..n] == text0 && StartsClean(text0)
    modifies line
    ensures text == TrimRight(text0)
    ensures forall i :: 0 <= i < line.Length && !(from <= i < n) ==> line[i] == old(line[i])
  {
    assert forall k :: 0 <= k < |text0| ==> line[from + k] == text0[k];
    hide TrimRight, CString;
    var end := n - 1;
    while end > from && Space(line[end])
      invariant from - 1 <= end < n && (from < n ==> from <= end) && line[end + 1] == NUL
      invariant forall k :: 0 <= k < end + 1 - from ==> line[from + k] == text0[k]
      invariant forall k :: end + 1 - from <= k < |text0| ==> Space(text0[k])
      invariant forall i :: 0 <= i < line.Length && !(from <= i < n) ==> line[i] == old(line[i])
    {
      assert line[from + (end - from)] == text0[end - from];
      line[end] := NUL;
      end := end - 1;
    }
    ghost var m := end + 1 - from;
    assert m > 0 ==> line[from + (m - 1)] == text0[m - 1];
    TrimRightCut(text0, m);
    assert line[from..][..m] == text0[..m];
    CStringIs(line[from..], m);
    text := CString(line[from..]);
  }

  /** The loop over leading white space. */
  method SkipSpace(line: array<char>, from: nat, n: nat, ghost text0: string) returns (i: nat)
    requires from <= n < line.Length && line[n] == NUL && line[from..n] == text0
    ensures from <= i <= n && text0[i - from..] == TrimLeft(text0) && (i < n ==> !Space(line[i]))
    ensures line[i..n] == TrimLeft(text0) && StartsClean(TrimLeft(text0))
  {
    assert forall k :: 0 <= k < |text0| ==> line[from + k] == text0[k];
    i := from;
    while Space(line[i])
      invariant from <= i <= n && forall k :: 0 <= k < i - from ==> Space(text0[k])
      decreases n - i
    {
      assert line[from + (i - from)] == text0[i - from];
      i := i + 1;
    }
    assert i < n ==> line[from + (i - from)] == text0[i - from];
    TrimLeftCut(text0, i - from);
    assert line[i..n] == text0[i - from..];
  }

  lemma LineIs(line: string, s: nat, eq: nat)
    requires s < |line| && TrimLeft(line) == line[s..] && !Comment(line[s]) && eq == Cut(line, '=', s)
    ensures LineAssignment(line)
         == if eq == |line| then [] else [Assignment(TrimRight(line[s..eq]), TrimRight(TrimLeft(line[eq + 1..])))]
  {
    CutTail(line, '=', s, |line|);
    hide *;
    FirstOf(line, s);
    LineFrom(line, line[s..], eq - s);
    EqualsBehind(line, s, eq);
  }

  lemma LineFrom(line: string, t: string, eq: nat)
    requires t == TrimLeft(line) && t != "" && !Comment(t[0]) && eq == Cut(t, '=', 0)
    ensures LineAssignment(line) == AtEquals(t, eq)
  {
    hide TrimLeft, AtEquals, Cut, Comment;
  }

  lemma FirstOf(line: string, s: nat)
    requires s < |line|
    ensures line[s..] != "" && line[s..][0] == line[s]
  {
  }

  lemma EqualsBehind(line: string, s: nat, eq: nat)
    requires s <= eq <= |line|
    ensures AtEquals(line[s..], eq - s)
         == if eq == |line| then [] else [Assignment(TrimRight(line[s..eq]), TrimRight(TrimLeft(line[eq + 1..])))]
  {
    hide TrimLeft, TrimRight;
    if eq < |line| {
      Slices(line, s, eq);
    }
  }

  lemma Slices(line: string, s: nat, eq: nat)
    requires s <= eq < |line|
    ensures line[s..][..eq - s] == line[s..eq] && line[s..][eq - s + 1..] == line[eq + 1..]
  {
  }

  lemma NoLine(line: string, s: nat)
    requires s <= |line| && TrimLeft(line) == line[s..] && (s == |line| || Comment(line[s]))
    ensures LineAssignment(line) == []
  {
  }

  /** The body of the reader's loop, in place in the line buffer. */
  method ReadLine(line: array<char>, n: nat) returns (found: seq<Assignment>)
    requires n < line.Length && line[n] == NUL && NUL !in line[..n]
    modifies line
    ensures found == LineAssignment(old(line[..n]))
  {
    ghost var was := line[..n];
    assert line[0..n] == was;
    hide LineAssignment, TrimLeft, TrimRight;
    var s := SkipSpace(line, 0, n, was);
    assert s < n ==> was[s] == line[s];
    if line[s] == NUL || line[s] == '#' || line[s] == ';' || line[s] == '[' {
      NoLine(was, s);
      return [];
    }
    var eq := Cut(line[..n], '=', s);
    LineIs(was, s, eq);
    if eq == n {
      return [];
    }
    found := SplitLine(line, s, eq, n, was);
  }

  /** The part behind the search for '='. */
  method SplitLine(line: array<char>, s: nat, eq: nat, n: nat, ghost was: string) returns (found: seq<Assignment>)
    requires s <= eq < n < line.Length && line[n] == NUL && line[..n] == was && NUL !in was && !Space(line[s])
    modifies line
    ensures found == [Assignment(TrimRight(was[s..eq]), TrimRight(TrimLeft(was[eq + 1..])))]
  {
    hide TrimLeft, TrimRight;
    assert forall k :: 0 <= k < n ==> line[k] == was[k];
    assert s < eq ==> was[s..eq][0] == line[s];
    line[eq] := NUL;
    assert line[s..eq] == was[s..eq];
    var key := TrimEnd(line, s, eq, was[s..eq]);
    assert line[eq + 1..n] == was[eq + 1..];
    var value := TrimBoth(line, eq + 1, n, was[eq + 1..]);
    found := [Assignment(key, value)];
  }

  /** The value is trimmed on both sides. */
  method TrimBoth(line: array<char>, from: nat, n: nat, ghost text0: string) returns (text: string)
    requires from <= n < line.Length && line[n] == NUL && line[from..n] == text0 && NUL !in text0
    modifies line
    ensures text == TrimRight(TrimLeft(text0))
  {
    hide TrimLeft, TrimRight;
    var val := SkipSpace(line, from, n, text0);
    text := TrimEnd(line, val, n, TrimLeft(text0));
  }

  lemma CutTail(s: string, c: char, from: nat, n: nat)
    requires from <= n == |s|
    ensures Cut(s[from..], c, 0) == Cut(s, c, from) - from
  {
    CutIs(s[from..], c, 0, Cut(s, c, from) - from);
  }

  /** What follows the last newline. */
  function LastLine(text: string): (r: string)
    ensures |r| <= |text|
    ensures '\n' !in r
  {
    var n := Cut(text, '\n', 0);
    if n == |text| then text else LastLine(text[n + 1..])
  }

  /** The part of an unfinished last line that the reader takes for further lines. */
  function Overflow(text: string): string {
    var last := LastLine(text);
    if |last| <= LINE then "" else last[LINE..]
  }

  /** An unfinished last line. */
  lemma UnfinishedLine(a: string)
    requires '\n' !in a
    ensures Assignments(a) == LineAssignment(Clipped(a, LINE)) + Assignments(Overflow(a))
  {
    CutIs(a, '\n', 0, |a|);
    assert a[..|a|] == a;
    if a != "" {
      assert a[|Clipped(a, LINE)|..] == Overflow(a);
    }
  }

  /** A finished line. */
  lemma FinishedLine(a: string, b: string)
    requires '\n' !in a
    ensures Assignments(a + ("\n" + b)) == LineAssignment(Clipped(a, LINE)) + Assignments(b)
  {
    var text := a + ("\n" + b);
    CutIs(text, '\n', 0, |a|);
    assert text[..|a|] == a && text[|a| + 1..] == b;
  }

  /** The assignments of the lines up to and with the last one, without its overflow. */
  function Lead(text: string): seq<Assignment> {
    var n := Cut(text, '\n', 0);
    if n == |text| then LineAssignment(Clipped(text, LINE))
    else LineAssignment(Clipped(text[..n], LINE)) + Lead(text[n + 1..])
  }

  lemma {:induction false} AppendText(a: string, b: string)
    ensures Assignments(a) == Lead(a) + Assignments(Overflow(a))
    ensures Assignments(a + ("\n" + b)) == Lead(a) + Assignments(b)
  {
    var n := Cut(a, '\n', 0);
    if n == |a| {
      UnfinishedLine(a);
      FinishedLine(a, b);
    } else {
      var rest := a[n + 1..];
      AppendText(rest, b);
      AppendStep(a, n, b);
    }
  }

  lemma AppendStep(a: string, n: nat, b: string)
    requires n < |a| && n == Cut(a, '\n', 0)
    requires var rest := a[n + 1..];
             Assignments(rest) == Lead(rest) + Assignments(Overflow(rest))
             && Assignments(rest + ("\n" + b)) == Lead(rest) + Assignments(b)
    ensures Assignments(a) == Lead(a) + Assignments(Overflow(a))
    ensures Assignments(a + ("\n" + b)) == Lead(a) + Assignments(b)
  {
    hide *;
    var rest := a[n + 1..];
    var line := LineAssignment(Clipped(a[..n], LINE));
    LeadStep(a, n);
    CutHead(a, n);
    FinishedLine(a[..n], rest);
    FinishedLine(a[..n], rest + ("\n" + b));
    Parts(a, n);
    Regroup(a[..n], rest, b);
    Assoc(line, Lead(rest), Assignments(Overflow(rest)));
    Assoc(line, Lead(rest), Assignments(b));
  }

  lemma LeadStep(a: string, n: nat)
    requires n < |a| && n == Cut(a, '\n', 0)
    ensures Lead(a) == LineAssignment(Clipped(a[..n], LINE)) + Lead(a[n + 1..]) && Overflow(a) == Overflow(a[n + 1..])
  {
  }

  lemma CutHead(a: string, n: nat)
    requires n < |a| && n == Cut(a, '\n', 0)
    ensures a[n] == '\n' && '\n' !in a[..n]
  {
  }

  lemma Parts(a: string, n: nat)
    requires n < |a| && a[n] == '\n'
    ensures a == a[..n] + ("\n" + a[n + 1..])
  {
  }

  lemma Regroup(p: string, rest: string, b: string)
    ensures (p + ("\n" + rest)) + ("\n" + b) == p + ("\n" + (rest + ("\n" + b)))
  {
  }

  lemma Assoc(x: seq<Assignment>, y: seq<Assignment>, z: seq<Assignment>)
    ensures (x + y) + z == x + (y + z)
  {
  }

  /** Parsing a text that continues on a new line is parsing the two in turn exactly when the part of an
      unfinished last line beyond 511 characters assigns nothing. */
  lemma AppendIff(a: string, b: string)
    ensures Assignments(a + ("\n" + b)) == Assignments(a) + Assignments(b) <==> Assignments(Overflow(a)) == []
  {
    AppendText(a, b);
    hide *;
    Inserted(Lead(a), Assignments(Overflow(a)), Assignments(b));
  }

  lemma Inserted(x: seq<Assignment>, y: seq<Assignment>, z: seq<Assignment>)
    ensures x + z == (x + y) + z <==> y == []
  {
    if y != [] {
      assert |x + z| < |(x + y) + z|;
    }
  }
}
