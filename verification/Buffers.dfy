/** memcpy, strcpy and memmove on the buffers in which the program puts XML together.

    Each method copies a text to a place in an array of characters.  The precondition says that the text fits, so every
    call is a proof that the program stays inside its buffer; the postcondition gives the whole array or the part up to
    the end of the copy. */
module Buffers {

  method Copy(buf: array<char>, at: nat, s: string)
    requires at + |s| <= buf.Length
    modifies buf
    ensures buf[..] == old(buf[..at]) + s + old(buf[at + |s|..])
  {
    for i := 0 to |s|
      invariant buf[..at] == old(buf[..at]) && buf[at..at + i] == s[..i] && buf[at + i..] == old(buf[at + i..])
    {
      buf[at + i] := s[i];
    }
    assert buf[..] == buf[..at] + buf[at..at + |s|] + buf[at + |s|..];
  }

  /** Writes `s` at the end of the text of length `len`. */
  method Append(buf: array<char>, len: nat, s: string) returns (len': nat)
    requires len + |s| <= buf.Length
    modifies buf
    ensures len' == len + |s| && buf[..len'] == old(buf[..len]) + s
  {
    Copy(buf, len, s);
    len' := len + |s|;
    assert buf[..len'] == buf[..][..len'];
  }

  /** memmove(buf + to, buf + from, n) with overlapping ranges. */
  method Move(buf: array<char>, to: nat, from: nat, n: nat)
    requires from + n <= buf.Length && to + n <= buf.Length
    modifies buf
    ensures buf[..] == old(buf[..to]) + old(buf[from..from + n]) + old(buf[to + n..])
  {
    var block := buf[from..from + n];
    Copy(buf, to, block);
  }

  /** Puts `s` in the place of `n` characters of a text of length `len`, moving the rest and its NUL. */
  method Exchange(buf: array<char>, len: nat, at: nat, n: nat, s: string) returns (len': nat)
    requires at + n <= len && len + |s| - n < buf.Length && n <= |s|
    modifies buf
    ensures len' == len + |s| - n && buf[..len'] == old(buf[..len])[..at] + s + old(buf[..len])[at + n..]
  {
    ghost var was := buf[..];
    assert was[..len] == buf[..len];
    var to, from, rest := at + |s|, at + n, len + 1 - (at + n);
    Move(buf, to, from, rest);
    ghost var moved := buf[..];
    Copy(buf, at, s);
    len' := len + |s| - n;
    ghost var now := buf[..];
    hide *;
    Exchanged(was, len, at, s, to, from, rest, moved, now);
    assert buf[..len'] == now[..len'];
  }

  lemma Exchanged(was: string, len: nat, at: nat, s: string, to: nat, from: nat, rest: nat, moved: string, now: string)
    requires to == at + |s| && at <= from <= to && from <= len && from + rest == len + 1 <= |was| && to + rest <= |was|
    requires moved == was[..to] + was[from..from + rest] + was[to + rest..]
    requires now == moved[..at] + s + moved[at + |s|..]
    ensures |now| >= to + rest - 1 && now[..to + rest - 1] == was[..len][..at] + s + was[..len][from..]
  {
    assert moved[..at] == was[..len][..at];
    assert moved[to..][..rest - 1] == was[..len][from..];
  }

  /** Writes three texts one behind the other. */
  method PutThree(buf: array<char>, a: string, b: string, c: string) returns (len: nat)
    requires |a| + |b| + |c| <= buf.Length
    modifies buf
    ensures len == |a| + |b| + |c| && buf[..len] == a + b + c
  {
    len := Append(buf, 0, a);
    assert buf[..len] == a;
    len := Append(buf, len, b);
    len := Append(buf, len, c);
  }
}
