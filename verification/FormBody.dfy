/** Chunks of a form body, and the look-up of a key in it (src/routes.c). */
module FormBody {
  import opened Wrappers
  import opened Strings
  import opened Splitting
  import opened UrlCodec

  /** request_context_t. */
  class RequestContext {
    var body: array?<char>
    var bodySize: nat
    var bodyAlloc: nat

    ghost predicate Valid()
      reads this, body
    {
      if body == null then bodySize == 0 && bodyAlloc == 0
      else body.Length == bodyAlloc && bodySize < bodyAlloc && body[bodySize] == NUL
    }

    ghost function Contents(): string
      reads this, body
      requires Valid()
    {
      if body == null then "" else body[..bodySize]
    }

    constructor ()
      ensures Valid() && Contents() == "" && body == null
    {
      body, bodySize, bodyAlloc := null, 0, 0;
    }

    /** The realloc of request_context_append. */
    method Reserve(needed: nat)
      requires Valid() && bodySize < needed
      modifies this
      ensures Valid() && Contents() == old(Contents()) && bodySize == old(bodySize)
      ensures body != null && needed <= bodyAlloc && (body == old(body) || fresh(body))
    {
      if needed > bodyAlloc {
        var newAlloc := if needed < 1024 then 1024 else needed * 2;
        var tmp := new char[newAlloc](_ => NUL);
        if body != null {
          var used: array<char>, n := body, bodySize;
          for i := 0 to n
            modifies tmp
            invariant tmp[..i] == used[..i] && tmp[n] == NUL
          {
            tmp[i] := used[i];
          }
        }
        body, bodyAlloc := tmp, newAlloc;
      }
    }

    /** request_context_append: the buffer is doubled beyond what is needed, and the new text is
        always followed by a NUL that fits. */
    method Append(data: string)
      requires Valid()
      modifies this, body
      ensures Valid() && Contents() == old(Contents()) + data
      ensures body == old(body) || fresh(body)
      ensures data != "" ==> body != null
    {
      if data == "" {
        return;
      }
      Reserve(bodySize + |data| + 1);
      ghost var before := body[..bodySize];
      forall i | 0 <= i < |data| {
        body[bodySize + i] := data[i];
      }
      assert body[..bodySize + |data|] == before + data;
      bodySize := bodySize + |data|;
      body[bodySize] := NUL;
    }

    /** What the handlers pass on: NULL when nothing was uploaded, else the buffer as a C string. */
    method Text() returns (text: Option<string>)
      requires Valid()
      ensures text == if body == null then None else Some(CString(Contents()))
    {
      if body == null {
        return None;
      }
      CStringAt(body[..], bodySize);
      text := Some(CString(body[..bodySize]));
    }
  }

  /** A NUL ends the string, whatever the rest of the buffer holds. */
  lemma {:induction false} CStringAt(buf: string, n: nat)
    requires n < |buf| && buf[n] == NUL
    ensures CString(buf) == CString(buf[..n])
  {
    if n > 0 {
      CStringAt(buf[1..], n - 1);
      assert buf[..n][1..] == buf[1..][..n - 1];
    }
  }

  /** The uploaded text, whatever its pieces were. */
  function Gathered(chunks: seq<string>): string {
    if chunks == [] then "" else Gathered(chunks[..|chunks| - 1]) + chunks[|chunks| - 1]
  }

  /** The accumulation phase of route_dispatch. */
  method Receive(chunks: seq<string>) returns (ctx: RequestContext)
    ensures ctx.Valid() && fresh(ctx) && ctx.Contents() == Gathered(chunks)
    ensures ctx.body == null ==> Gathered(chunks) == ""
  {
    ctx := new RequestContext();
    for i := 0 to |chunks|
      invariant ctx.Valid() && fresh(ctx) && (ctx.body != null ==> fresh(ctx.body))
      invariant ctx.Contents() == Gathered(chunks[..i])
    {
      assert chunks[..i + 1][..i] == chunks[..i];
      ctx.Append(chunks[i]);
    }
    assert chunks[..|chunks|] == chunks;
  }

  /** "key=" stands at `p`, at the start of the body or behind an ampersand. */
  predicate Field(body: string, p: nat, key: string) {
    At(body, p, key + "=") && (p == 0 || body[p - 1] == '&')
  }

  /** The raw text behind "key=". */
  function RawAt(body: string, start: nat): string
    requires start <= |body|
  {
    body[start..Cut(body, '&', start)]
  }

  /** The value of the field that stands at `p`. */
  function ValueAt(body: string, p: nat, key: string): string
    requires p + |key| + 1 <= |body|
  {
    CString(Decode(RawAt(body, p + |key| + 1)))
  }

  /** What the form means: its parts are separated by ampersands, and a key has the value of the first
      part that starts with "key=". */
  function Lookup(parts: seq<string>, key: string): Option<string> {
    if parts == [] then None
    else if key + "=" <= parts[0] then Some(CString(Decode(parts[0][|key| + 1..])))
    else Lookup(parts[1..], key)
  }

  function FormLookup(body: Option<string>, key: string): Option<string> {
    match body
    case None => None
    case Some(text) => Lookup(Split(text, '&'), key)
  }

  /** The first part, when the field stands in front. */
  lemma FrontField(body: string, key: string)
    requires '&' !in key && Field(body, 0, key)
    ensures Lookup(Split(body, '&'), key) == Some(ValueAt(body, 0, key))
  {
    var n := Cut(body, '&', 0);
    var pat := key + "=";
    assert body[..|pat|] == pat;
    assert forall k :: 0 <= k < |pat| ==> body[k] == pat[k];
    CutIs(body, '&', |pat|, n);
    var part := body[..n];
    assert Split(body, '&')[0] == part && part[..|pat|] == pat;
    assert part[|pat|..] == body[|pat|..n];
  }

  /** Moving past the first part. */
  lemma FieldBehind(body: string, n: nat, key: string, q: nat)
    requires n < |body| && body[n] == '&'
    ensures Field(body[n + 1..], q, key) == Field(body, n + 1 + q, key)
  {
    AtSuffix(body[..n + 1], body[n + 1..], q, key + "=");
    assert body == body[..n + 1] + body[n + 1..];
  }

  lemma InFront(body: string, key: string, n: nat)
    requires n <= |body|
    ensures key + "=" <= body[..n] ==> Field(body, 0, key)
  {
    if key + "=" <= body[..n] {
      AtPrefix(body[..n], body[n..], 0, key + "=");
      assert body[..n] + body[n..] == body;
    }
  }

  lemma FieldBounds(body: string, p: nat, key: string)
    requires FirstAt(body, p, key)
    ensures p + |key| + 1 <= |body| && Field(body, p, key) && (p > 0 ==> !Field(body, 0, key))
    ensures p > 0 ==> Cut(body, '&', 0) < p
  {
  }

  /** A part in front that is no field is passed over. */
  lemma LookupStep(body: string, key: string, n: nat)
    requires n == Cut(body, '&', 0) && !Field(body, 0, key)
    ensures Lookup(Split(body, '&'), key) == if n == |body| then None else Lookup(Split(body[n + 1..], '&'), key)
  {
    InFront(body, key, n);
    hide Field, Decode, CString, Cut;
    if n == |body| {
      assert body[..n] == body;
      assert Split(body, '&')[1..] == [];
    } else {
      assert Split(body, '&')[1..] == Split(body[n + 1..], '&');
    }
  }

  ghost predicate NoneBefore(body: string, p: nat, key: string) {
    forall q: nat :: q < p ==> !Field(body, q, key)
  }

  /** The first field by position. */
  ghost predicate FirstAt(body: string, p: nat, key: string) {
    Field(body, p, key) && NoneBefore(body, p, key)
  }

  lemma FirstBehind(body: string, n: nat, key: string, p: nat)
    requires n < p && n < |body| && body[n] == '&' && FirstAt(body, p, key)
    ensures FirstAt(body[n + 1..], p - n - 1, key)
  {
    var rest := body[n + 1..];
    FieldBehind(body, n, key, p - n - 1);
    forall q: nat | q < p - n - 1 ensures !Field(rest, q, key) {
      FieldBehind(body, n, key, q);
    }
  }

  /** The first field by position is the first part with that key. */
  lemma {:induction false} FirstField(body: string, key: string, p: nat)
    requires '&' !in key && FirstAt(body, p, key)
    ensures p + |key| + 1 <= |body|
    ensures Lookup(Split(body, '&'), key) == Some(ValueAt(body, p, key))
    decreases |body|
  {
    FieldBounds(body, p, key);
    hide *;
    if p == 0 {
      FrontField(body, key);
    } else {
      var n := Cut(body, '&', 0);
      LookupStep(body, key, n);
      FirstBehind(body, n, key, p);
      ValueBehind(body, n, key, p);
      FirstField(body[n + 1..], key, p - n - 1);
    }
  }

  lemma ValueBehind(body: string, n: nat, key: string, p: nat)
    requires n < p && p + |key| + 1 <= |body|
    ensures ValueAt(body[n + 1..], p - n - 1, key) == ValueAt(body, p, key)
  {
    var start := p + |key| + 1;
    var rest := body[n + 1..];
    CutIs(rest, '&', start - n - 1, Cut(body, '&', start) - n - 1);
    assert RawAt(rest, start - n - 1) == RawAt(body, start);
  }

  /** No field by position, no part with that key. */
  lemma {:induction false} NoField(body: string, key: string)
    requires NoneBefore(body, |body|, key)
    ensures Lookup(Split(body, '&'), key) == None
    decreases |body|
  {
    var n := Cut(body, '&', 0);
    assert !Field(body, 0, key);
    LookupStep(body, key, n);
    hide Split, Lookup, At;
    if n < |body| {
      var rest := body[n + 1..];
      forall q: nat | q < |rest| ensures !Field(rest, q, key) {
        FieldBehind(body, n, key, q);
      }
      NoField(rest, key);
    }
  }

  /** form_value: the search goes on behind a rejected match, a whole key length further.  Nothing is
      missed on the way, because no field starts inside a match of a key without an ampersand. */
  method FormValue(body: Option<string>, key: string) returns (value: Option<string>)
    requires key != "" && '&' !in key
    ensures value == FormLookup(body, key)
  {
    if body.None? {
      return None;
    }
    var text := body.value;
    var klen := |key|;
    var p := 0;
    assert NoneBefore(text, 0, key);
    hide *;
    while true
      invariant p <= |text| && NoneBefore(text, p, key)
      decreases |text| - p
    {
      var next := Find(text, key, p);
      SkipToMatch(text, key, p, next);
      if next.None? {
        NoField(text, key);
        value := None;
        break;
      }
      p := next.value;
      if p != 0 && text[p - 1] != '&' {
        SkipMatch(text, key, p);
        p := p + klen;
        continue;
      }
      if p + klen == |text| || text[p + klen] != '=' {
        SkipMatch(text, key, p);
        p := p + klen;
        continue;
      }
      MatchIsField(text, key, p);
      FirstField(text, key, p);
      var decoded := DecodeField(text, p, key);
      value := Some(decoded);
      break;
    }
    LookupIs(text, key);
  }

  /** The branch that has found its field. */
  method DecodeField(text: string, p: nat, key: string) returns (value: string)
    requires p + |key| + 1 <= |text|
    ensures value == ValueAt(text, p, key)
  {
    var val := p + |key| + 1;
    var decoded := UrlDecode(text[val..Cut(text, '&', val)]);
    value := CString(decoded);
  }

  lemma LookupIs(text: string, key: string)
    ensures FormLookup(Some(text), key) == Lookup(Split(text, '&'), key)
  {
  }

  lemma SkipToMatch(text: string, key: string, p: nat, next: Option<nat>)
    requires p <= |text| && next == Find(text, key, p) && NoneBefore(text, p, key)
    ensures NoneBefore(text, if next.Some? then next.value else |text|, key)
    ensures next.Some? ==> p <= next.value && At(text, next.value, key) && next.value + |key| <= |text|
  {
    forall q: nat | p <= q && Field(text, q, key) ensures At(text, q, key) {
      AtConcat(text, q, key, "=");
    }
  }

  lemma MatchIsField(text: string, key: string, p: nat)
    requires At(text, p, key) && (p == 0 || text[p - 1] == '&') && NoneBefore(text, p, key)
    requires p + |key| < |text| && text[p + |key|] == '='
    ensures FirstAt(text, p, key)
  {
    AtConcat(text, p, key, "=");
  }

  /** A rejected match hides no field in its whole length. */
  lemma SkipMatch(text: string, key: string, p: nat)
    requires At(text, p, key) && '&' !in key && key != "" && NoneBefore(text, p, key)
    requires (p != 0 && text[p - 1] != '&') || p + |key| == |text| || text[p + |key|] != '='
    ensures NoneBefore(text, p + |key|, key)
  {
    forall q: nat | p <= q < p + |key| ensures !Field(text, q, key) {
      if q == p {
        AtConcat(text, p, key, "=");
        CharIf(text, p + |key|, "=", 0);
      } else {
        AtChar(text, p, key, q - 1 - p);
      }
    }
  }

  /** One form field as a browser prints it. */
  datatype Pair = Pair(key: string, value: seq<Byte>)

  /** A form as its keys and the encodings of its values. */
  function PrintPairs(fields: seq<Pair>, texts: seq<string>): (parts: seq<string>)
    requires |texts| == |fields|
    ensures |parts| == |fields|
  {
    if fields == [] then [] else [fields[0].key + "=" + texts[0]] + PrintPairs(fields[1..], texts[1..])
  }

  function PrintForm(fields: seq<Pair>, texts: seq<string>): string
    requires |texts| == |fields|
  {
    if fields == [] then "" else Join(PrintPairs(fields, texts), '&')
  }

  /** Every text is an encoding of its field's value, however the browser chooses between the encodings. */
  ghost predicate Printed(fields: seq<Pair>, texts: seq<string>) {
    |texts| == |fields| && forall k :: 0 <= k < |fields| ==> Prints(texts[k], fields[k].value)
  }

  /** The value that the form gives the key: the first one, up to its first NUL. */
  function ValueOf(fields: seq<Pair>, key: string): Option<string> {
    if fields == [] then None
    else if fields[0].key == key then Some(CString(fields[0].value))
    else ValueOf(fields[1..], key)
  }

  predicate PlainKey(key: string) {
    key != "" && '&' !in key && '=' !in key && NUL !in key
  }

  predicate PlainForm(fields: seq<Pair>) {
    forall k :: 0 <= k < |fields| ==> PlainKey(fields[k].key)
  }

  lemma PrefixOfSum(a: string, b: string)
    ensures a <= a + b
  {
  }

  lemma PairPrefix(own: string, text: string, key: string)
    requires '=' !in key && '=' !in own
    ensures key + "=" <= own + "=" + text <==> key == own
    ensures (own + "=" + text)[|own| + 1..] == text
  {
    var all := own + "=" + text;
    assert all == own + ("=" + text);
    assert all[..|own|] == own && all[|own|] == '=';
    CutIs(all, '=', 0, |own|);
    if key + "=" <= all {
      var pat := key + "=";
      assert all[..|pat|] == pat;
      assert forall k :: 0 <= k < |pat| ==> all[k] == pat[k];
      CutIs(all, '=', 0, |key|);
      assert all[..|key|] == pat[..|key|];
    } else if key == own {
      PrefixOfSum(key + "=", text);
    }
  }

  lemma PrintedRest(fields: seq<Pair>, texts: seq<string>)
    requires Printed(fields, texts) && PlainForm(fields) && fields != []
    ensures Prints(texts[0], fields[0].value) && Printed(fields[1..], texts[1..]) && PlainForm(fields[1..])
    ensures PlainKey(fields[0].key)
  {
    hide Prints, PlainKey;
  }

  lemma {:induction false} LookupPrinted(fields: seq<Pair>, texts: seq<string>, key: string)
    requires Printed(fields, texts) && PlainForm(fields) && PlainKey(key)
    ensures Lookup(PrintPairs(fields, texts), key) == ValueOf(fields, key)
  {
    if fields != [] {
      PrintedRest(fields, texts);
      PairPrefix(fields[0].key, texts[0], key);
      DecodePrints(texts[0], fields[0].value);
      hide Prints, Decode, CString, Printed, PlainForm;
      LookupPrinted(fields[1..], texts[1..], key);
    }
  }

  lemma {:induction false} PartsArePlain(fields: seq<Pair>, texts: seq<string>)
    requires Printed(fields, texts) && PlainForm(fields)
    ensures forall k :: 0 <= k < |fields| ==>
              '&' !in PrintPairs(fields, texts)[k] && NUL !in PrintPairs(fields, texts)[k]
  {
    if fields != [] {
      PrintedRest(fields, texts);
      PrintsIsSafe(texts[0], fields[0].value);
      hide Prints, Printed, PlainForm;
      PartsArePlain(fields[1..], texts[1..]);
    }
  }

  lemma {:induction false} JoinIsPlain(parts: seq<string>, c: char)
    requires |parts| > 0 && c != NUL && forall k :: 0 <= k < |parts| ==> NUL !in parts[k]
    ensures NUL !in Join(parts, c)
  {
    if |parts| > 1 {
      JoinIsPlain(parts[1..], c);
    }
  }

  lemma NoFields(key: string)
    ensures FormLookup(Some(""), key) == None
  {
    SplitWhole("", '&');
    assert Lookup([""][1..], key) == None;
  }

  /** However a browser encodes the values, every key of a printed form is looked up with its value, and all others are
      absent. */
  lemma FormRoundTrip(fields: seq<Pair>, texts: seq<string>, key: string)
    requires Printed(fields, texts) && PlainForm(fields) && PlainKey(key)
    ensures FormLookup(Some(CString(PrintForm(fields, texts))), key) == ValueOf(fields, key)
  {
    if fields == [] {
      NoFields(key);
    } else {
      PartsArePlain(fields, texts);
      JoinIsPlain(PrintPairs(fields, texts), '&');
      CStringWhole(PrintForm(fields, texts));
      SplitJoin(PrintPairs(fields, texts), '&');
      LookupPrinted(fields, texts, key);
    }
  }

  function Encoded(fields: seq<Pair>): (texts: seq<string>)
    ensures |texts| == |fields|
  {
    seq(|fields|, i requires 0 <= i < |fields| => Encode(fields[i].value))
  }

  /** In particular for url_encode. */
  lemma EncodedIsPrinted(fields: seq<Pair>)
    ensures Printed(fields, Encoded(fields))
  {
    forall k | 0 <= k < |fields| ensures Prints(Encoded(fields)[k], fields[k].value) {
      EncodePrints(fields[k].value);
    }
  }

  /** Text without a character that has a meaning in forms. */
  predicate Literal(s: seq<Byte>) {
    forall i :: 0 <= i < |s| ==> s[i] !in {'%', '+', '&', NUL}
  }

  /** A blank arrives as a plus sign. */
  lemma BlankByPlus(before: seq<Byte>, after: seq<Byte>)
    requires Literal(before) && Literal(after)
    ensures Prints(before + "+" + after, before + " " + after)
  {
    hide Prints, Literal;
    PrintsItself(after);
    PlusPrints(after);
    PrintsPrefix(before, "+" + after, " " + after);
    assert before + ("+" + after) == before + "+" + after && before + (" " + after) == before + " " + after;
  }

  lemma PlusPrints(s: seq<Byte>)
    requires Prints(s, s)
    ensures Prints("+" + s, " " + s)
  {
    hide TripleFor;
    assert ("+" + s)[1..] == s && (" " + s)[1..] == s;
  }

  lemma {:induction false} PrintsItself(s: seq<Byte>)
    requires Literal(s)
    ensures Prints(s, s)
  {
    if s != [] {
      PrintsItself(s[1..]);
    }
  }

  lemma {:induction false} PrintsPrefix(p: seq<Byte>, text: string, value: seq<Byte>)
    requires Prints(text, value) && Literal(p)
    ensures Prints(p + text, p + value)
  {
    if p == [] {
      assert p + text == text && p + value == value;
    } else {
      PrintsPrefix(p[1..], text, value);
      assert (p + text)[1..] == p[1..] + text && (p + value)[1..] == p[1..] + value;
    }
  }

  /** The whole path of one form value, for every encoding and every way the body is cut into chunks. */
  method ReceiveValue(chunks: seq<string>, key: string, ghost fields: seq<Pair>, ghost texts: seq<string>)
    returns (value: Option<string>)
    requires Printed(fields, texts) && PlainForm(fields) && PlainKey(key)
    requires Gathered(chunks) == PrintForm(fields, texts)
    ensures value == ValueOf(fields, key)
  {
    var ctx := Receive(chunks);
    var text := ctx.Text();
    FormRoundTrip(fields, texts, key);
    NoFields(key);
    value := FormValue(text, key);
  }
}
