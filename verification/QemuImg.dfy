/** qcow2_snapshot_names of src/libvirt_backend.c: the line parser for `qemu-img snapshot -l`.

    A line that starts with an id has a tag behind it, which ends where the last size begins: a number, perhaps with a
    fraction, and a unit. */
module QemuImg {
  import opened Wrappers
  import opened Strings
  import opened Splitting

  /** How many digits (spaces) stand in front. */
  function DigitRun(s: string): (n: nat)
    ensures n <= |s| && (n < |s| ==> !Digit(s[n]))
    ensures forall k :: 0 <= k < n ==> Digit(s[k])
  {
    if s != "" && Digit(s[0]) then 1 + DigitRun(s[1..]) else 0
  }

  function SpaceRun(s: string): (n: nat)
    ensures n <= |s| && (n < |s| ==> s[n] != ' ')
    ensures forall k :: 0 <= k < n ==> s[k] == ' '
  {
    if s != "" && s[0] == ' ' then 1 + SpaceRun(s[1..]) else 0
  }

  /** The length of a number: digits, and a fraction that may be empty. */
  function NumberRun(s: string): (n: nat)
    requires s != "" && Digit(s[0])
    ensures 0 < n <= |s|
  {
    var n := DigitRun(s);
    if n < |s| && s[n] == '.' then n + 1 + DigitRun(s[n + 1..]) else n
  }

  /** A space, a unit and a space. */
  predicate UnitNext(s: string) {
    " B " <= s || " KiB " <= s || " MiB " <= s || " GiB " <= s
  }

  /** The position of the last size: a number, as the scan cuts the text into numbers, with a unit. */
  function LastSize(s: string): (at: Option<nat>)
    ensures at.Some? ==> at.value < |s| && Digit(s[at.value])
  {
    if s == "" then None
    else if Digit(s[0]) then
      var n := NumberRun(s);
      match LastSize(s[n..])
      case Some(i) => Some(n + i)
      case None => if UnitNext(s[n..]) then Some(0) else None
    else
      Plus(LastSize(s[1..]), 1)
  }

  function TrimEnd(s: string): (r: string)
    ensures r <= s && (r == "" || r[|r| - 1] != ' ')
    ensures forall k :: |r| <= k < |s| ==> s[k] == ' '
  {
    if s != "" && s[|s| - 1] == ' ' then TrimEnd(s[..|s| - 1]) else s
  }

  /** The text before position `i`, without trailing spaces. */
  function TagBefore(rest: string, i: nat): (tag: Option<string>)
    requires i <= |rest|
    ensures tag.Some? ==> tag.value != "" && tag.value <= rest && tag.value[|tag.value| - 1] != ' '
  {
    var tag := TrimEnd(rest[..i]);
    if tag == "" then None else Some(tag)
  }

  /** From the start of the tag column. */
  function TagColumn(rest: string): Option<string> {
    match LastSize(rest)
    case None => None
    case Some(i) => TagBefore(rest, i)
  }

  function AfterId(u: string): (tag: Option<string>)
    ensures tag.Some? ==> tag.value != "" && tag.value[0] != ' ' && tag.value[|tag.value| - 1] != ' '
  {
    TagColumn(u[SpaceRun(u)..])
  }

  /** The tag in a line: only a line that starts with a number has one. */
  function TagOf(line: string): (tag: Option<string>)
    ensures tag.Some? ==> tag.value != "" && tag.value[0] != ' ' && tag.value[|tag.value| - 1] != ' '
  {
    var t := line[SpaceRun(line)..];
    if t == "" || !Digit(t[0]) then None else AfterId(t[DigitRun(t)..])
  }

  lemma DigitRunIs(s: string, n: nat)
    requires n <= |s| && (n < |s| ==> !Digit(s[n])) && forall k :: 0 <= k < n ==> Digit(s[k])
    ensures DigitRun(s) == n
  {
  }

  lemma SpaceRunIs(s: string, n: nat)
    requires n <= |s| && (n < |s| ==> s[n] != ' ') && forall k :: 0 <= k < n ==> s[k] == ' '
    ensures SpaceRun(s) == n
  {
  }

  lemma {:induction false} TrimEndIs(s: string, n: nat)
    requires n <= |s| && (n == 0 || s[n - 1] != ' ') && forall k :: n <= k < |s| ==> s[k] == ' '
    ensures TrimEnd(s) == s[..n]
  {
    if n < |s| {
      assert s[..|s| - 1][..n] == s[..n];
      TrimEndIs(s[..|s| - 1], n);
    } else {
      assert s[..n] == s;
    }
  }

  method SkipDigits(line: string, from: nat) returns (p: nat)
    requires from <= |line|
    ensures p == from + DigitRun(line[from..])
    ensures from <= p <= |line|
  {
    p := from;
    while p < |line| && Digit(line[p])
      invariant from <= p <= |line| && forall k :: from <= k < p ==> Digit(line[k])
    {
      p := p + 1;
    }
    DigitRunIs(line[from..], p - from);
  }

  method SkipSpaces(line: string, from: nat) returns (p: nat)
    requires from <= |line|
    ensures p == from + SpaceRun(line[from..])
    ensures from <= p <= |line|
  {
    p := from;
    while p < |line| && line[p] == ' '
      invariant from <= p <= |line| && forall k :: from <= k < p ==> line[k] == ' '
    {
      p := p + 1;
    }
    SpaceRunIs(line[from..], p - from);
  }

  /** What the scan will have found at its end, when it stands at `q` and has found `found` so far. */
  function Found(line: string, q: nat, found: Option<nat>): Option<nat>
    requires q <= |line|
  {
    match LastSize(line[q..])
    case Some(i) => Some(q + i)
    case None => found
  }

  lemma FoundNumber(line: string, q: nat, e: nat, found: Option<nat>)
    requires q < |line| && Digit(line[q]) && e == q + NumberRun(line[q..])
    ensures q < e <= |line|
    ensures Found(line, q, found) == Found(line, e, if UnitNext(line[e..]) then Some(q) else found)
  {
    Tail(line, q, e);
    hide *;
    SizeFrom(line[q..], line[e..], e - q);
    FoundFrom(line, q, e, found);
  }

  lemma FoundFrom(line: string, q: nat, e: nat, found: Option<nat>)
    requires q < e <= |line|
    requires LastSize(line[q..]) == match LastSize(line[e..])
                                    case Some(i) => Some(e - q + i)
                                    case None => if UnitNext(line[e..]) then Some(0) else None
    ensures Found(line, q, found) == Found(line, e, if UnitNext(line[e..]) then Some(q) else found)
  {
    hide LastSize, UnitNext;
  }

  lemma SizeFrom(s: string, rest: string, n: nat)
    requires s != "" && Digit(s[0]) && n == NumberRun(s) && rest == s[n..]
    ensures LastSize(s) == match LastSize(rest)
                           case Some(i) => Some(n + i)
                           case None => if UnitNext(rest) then Some(0) else None
  {
    hide UnitNext, NumberRun;
  }

  lemma FoundOther(line: string, q: nat, found: Option<nat>)
    requires q < |line| && !Digit(line[q])
    ensures Found(line, q, found) == Found(line, q + 1, found)
  {
    assert line[q..][1..] == line[q + 1..];
  }

  lemma NumberIs(line: string, q: nat, d: nat, e: nat)
    requires q < |line| && Digit(line[q]) && d == q + DigitRun(line[q..])
    requires d <= |line| && e == if d < |line| && line[d] == '.' then d + 1 + DigitRun(line[d + 1..]) else d
    ensures e == q + NumberRun(line[q..])
  {
    assert d < |line| ==> line[q..][d - q] == line[d] && line[q..][d - q + 1..] == line[d + 1..];
  }

  /** The scan for the last size. */
  method ScanSizes(line: string, start: nat) returns (sizePtr: Option<nat>)
    requires start <= |line|
    ensures sizePtr == Found(line, start, None)
    ensures sizePtr.Some? ==> start <= sizePtr.value <= |line|
  {
    sizePtr := None;
    var q := start;
    hide *;
    while q < |line|
      invariant start <= q <= |line| && Found(line, q, sizePtr) == Found(line, start, None)
      invariant sizePtr.Some? ==> start <= sizePtr.value <= |line|
    {
      if Digit(line[q]) {
        var numStart := q;
        q := SkipDigits(line, q);
        var d := q;
        if q < |line| && line[q] == '.' {
          q := SkipDigits(line, q + 1);
        }
        NumberIs(line, numStart, d, q);
        FoundNumber(line, numStart, q, sizePtr);
        if UnitNext(line[q..]) {
          sizePtr := Some(numStart);
        }
      } else {
        FoundOther(line, q, sizePtr);
        q := q + 1;
      }
    }
    FoundAtEnd(line, sizePtr);
  }

  lemma FoundAtEnd(line: string, found: Option<nat>)
    ensures Found(line, |line|, found) == found
  {
  }

  lemma TagIs(line: string, p: nat, d: nat, start: nat)
    requires p == SpaceRun(line) && p < |line| && Digit(line[p])
    requires d == p + DigitRun(line[p..]) && d <= |line| && start == d + SpaceRun(line[d..]) && start <= |line|
    ensures TagOf(line) == TagColumn(line[start..])
  {
    hide *;
    Tail(line, p, d);
    AfterIdIs(line, line[p..], line[d..]);
    ColumnStarts(line, d, start);
  }

  lemma AfterIdIs(line: string, t: string, u: string)
    requires SpaceRun(line) <= |line| && t == line[SpaceRun(line)..] && t != "" && Digit(t[0])
    requires DigitRun(t) <= |t| && u == t[DigitRun(t)..]
    ensures TagOf(line) == AfterId(u)
  {
    hide SpaceRun, DigitRun, AfterId, Digit;
  }

  lemma ColumnStarts(line: string, d: nat, start: nat)
    requires d <= |line| && start == d + SpaceRun(line[d..]) && start <= |line|
    ensures AfterId(line[d..]) == TagColumn(line[start..])
  {
    Tail(line, d, start);
    hide SpaceRun, TagColumn;
  }

  lemma Tail(line: string, p: nat, d: nat)
    requires p <= d <= |line|
    ensures line[p..][d - p..] == line[d..] && (p < |line| ==> line[p..] != "" && line[p..][0] == line[p])
  {
  }

  lemma ColumnIs(line: string, start: nat, at: Option<nat>)
    requires start <= |line| && at == Found(line, start, None)
    ensures at.None? ==> TagColumn(line[start..]) == None
    ensures at.Some? ==> start <= at.value <= |line| && TagColumn(line[start..]) == TagBefore(line[start..], at.value - start)
  {
    hide LastSize, TagBefore;
  }

  lemma NoTag(line: string, p: nat)
    requires p == SpaceRun(line) && (p == |line| || !Digit(line[p]))
    ensures TagOf(line) == None
  {
  }

  /** The body of the reading loop. */
  method ParseLine(line: string) returns (tag: Option<string>)
    ensures tag == TagOf(line)
  {
    assert line[0..] == line;
    hide *;
    var p := SkipSpaces(line, 0);
    if p == |line| || !Digit(line[p]) {
      NoTag(line, p);
      return None;
    }
    var d := SkipDigits(line, p);
    var tagStart := SkipSpaces(line, d);
    TagIs(line, p, d, tagStart);
    var sizePtr := ScanSizes(line, tagStart);
    ColumnIs(line, tagStart, sizePtr);
    if sizePtr.None? {
      return None;
    }
    tag := CutTag(line, tagStart, sizePtr.value);
  }

  method CutTag(line: string, start: nat, i: nat) returns (tag: Option<string>)
    requires start <= i <= |line|
    ensures tag == TagBefore(line[start..], i - start)
  {
    var tagLen := i - start;
    while tagLen > 0 && line[start + tagLen - 1] == ' '
      invariant 0 <= tagLen <= i - start && forall k :: start + tagLen <= k < i ==> line[k] == ' '
    {
      tagLen := tagLen - 1;
    }
    assert line[start..][..i - start] == line[start..i];
    TrimEndIs(line[start..i], tagLen);
    assert line[start..i][..tagLen] == line[start..start + tagLen];
    tag := if tagLen == 0 then None else Some(line[start..start + tagLen]);
  }
}
