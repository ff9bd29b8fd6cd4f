/** Which lines of a configuration assign something, and that blanks around key and value make no difference. */
module ConfigLines {
  import opened ConfigPrint
  import opened ConfigText
  import opened Splitting

  /** Nothing but the six characters of isspace. */
  predicate Blank(s: string) {
    forall i :: 0 <= i < |s| ==> s[i] in {' ', '\t', '\n', '\U{0B}', '\U{0C}', '\r'}
  }

  lemma BlankIsSpace(c: char)
    ensures Space(c) <==> c in {' ', '\t', '\n', '\U{0B}', '\U{0C}', '\r'}
  {
    var n := c as int;
    assert Space(c) <==> n == 32 || 9 <= n <= 13;
    assert c == '\t' <==> n == 9;
    assert c == '\n' <==> n == 10;
    assert c == '\U{0B}' <==> n == 11;
    assert c == '\U{0C}' <==> n == 12;
    assert c == '\r' <==> n == 13;
  }

  /** The first other character of the line, at `p`, starts no comment and no section, and at `e` stands a '='. */
  predicate KeyAt(line: string, p: nat, e: nat) {
    p <= e < |line| && line[e] == '=' && Blank(line[..p]) && line[p] !in "#;[ \t\n\U{0B}\U{0C}\r"
  }

  /** A line assigns if and only if its first other character starts no comment and no section, and a '=' follows
      or is that character. */
  lemma AssignsIff(line: string)
    ensures LineAssignment(line) != [] <==> exists p: nat, e: nat :: KeyAt(line, p, e)
  {
    hide *;
    if LineAssignment(line) != [] {
      var p, e := AssignsAt(line);
    }
    if p: nat, e: nat :| KeyAt(line, p, e) {
      KeyAssigns(line, p, e);
    }
  }

  lemma AssignsAt(line: string) returns (p: nat, e: nat)
    requires LineAssignment(line) != []
    ensures KeyAt(line, p, e)
  {
    TrimLeftIs(line);
    TrimmedIsBlank(line);
    var t := TrimLeft(line);
    KeyStarts(t[0]);
    hide TrimLeft, Blank, Space, Comment;
    p := |line| - |t|;
    e := p + Cut(t, '=', 0);
    assert t[0] == line[p] && t[e - p] == line[e];
  }

  lemma KeyStarts(c: char)
    requires !Space(c) && !Comment(c)
    ensures c !in "#;[ \t\n\U{0B}\U{0C}\r"
  {
    BlankIsSpace(c);
  }

  lemma KeyAssigns(line: string, p: nat, e: nat)
    requires KeyAt(line, p, e)
    ensures LineAssignment(line) != []
  {
    TrimLeftIs(line);
    TrimmedIsBlank(line);
    var t := TrimLeft(line);
    hide TrimLeft;
    if t != "" {
      BlankIsSpace(t[0]);
    }
    FirstOther(line, |line| - |t|, p);
    assert t[e - p] == '=' && t[0] == line[p];
  }

  lemma {:induction false} TrimmedIsBlank(s: string)
    ensures |TrimLeft(s)| <= |s| && Blank(s[..|s| - |TrimLeft(s)|])
  {
    if s != "" && Space(s[0]) {
      BlankIsSpace(s[0]);
      TrimmedIsBlank(s[1..]);
      var n := |s| - |TrimLeft(s)|;
      assert s[..n] == [s[0]] + s[1..][..n - 1];
    }
  }

  lemma FirstOther(line: string, p: nat, q: nat)
    requires p <= |line| && Blank(line[..p]) && (p == |line| || !Space(line[p]))
    requires q < |line| && Blank(line[..q]) && line[q] !in {' ', '\t', '\n', '\U{0B}', '\U{0C}', '\r'}
    ensures p == q
  {
    if p < q {
      assert line[..q][p] == line[p];
      BlankIsSpace(line[p]);
    }
  }

  lemma BlankLeft(b: string, s: string)
    requires Blank(b) && StartsClean(s)
    ensures TrimLeft(b + s) == s
  {
    forall i | 0 <= i < |b| ensures Space((b + s)[i]) {
      BlankIsSpace(b[i]);
    }
    assert (b + s)[|b|..] == s;
    TrimLeftCut(b + s, |b|);
  }

  lemma BlankRight(s: string, b: string)
    requires Blank(b) && EndsClean(s)
    ensures TrimRight(s + b) == s
  {
    forall i | |s| <= i < |s + b| ensures Space((s + b)[i]) {
      assert (s + b)[i] == b[i - |s|];
      BlankIsSpace(b[i - |s|]);
    }
    assert (s + b)[..|s|] == s;
    TrimRightCut(s + b, |s|);
  }

  lemma BlankValue(c: string, v: string, d: string)
    requires Blank(c) && Blank(d) && StartsClean(v) && EndsClean(v)
    ensures TrimRight(TrimLeft(c + (v + d))) == v
  {
    hide TrimLeft, TrimRight;
    if v == "" {
      assert c + (v + d) == (c + d) + "";
      BlankLeft(c + d, "");
      BlankRight("", "");
      assert "" + "" == "";
    } else {
      BlankLeft(c, v + d);
      BlankRight(v, d);
    }
  }

  /** Blanks in front of the key, around the '=' and behind the value are not part of the assignment. */
  lemma PaddedLine(a: string, k: string, b: string, c: string, v: string, d: string)
    requires Blank(a) && Blank(b) && Blank(c) && Blank(d) && PlainKey(k) && StartsClean(v) && EndsClean(v)
    ensures LineAssignment(a + (k + b + ("=" + (c + (v + d))))) == [Assignment(k, v)]
  {
    var key, value := k + b, c + (v + d);
    var s := key + ("=" + value);
    assert s[0] == k[0];
    BlankLeft(a, s);
    assert '=' !in b;
    KeyEnds(key, value);
    BlankRight(k, b);
    BlankValue(c, v, d);
    hide TrimLeft, TrimRight;
  }
}
