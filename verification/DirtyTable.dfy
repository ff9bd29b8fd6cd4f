/** src/dirty_state.c as a value: the bounded first-match table, and the documents it is saved to
    and loaded from. */
module DirtyTable {
  import opened Counting
  import opened Wrappers

  const MAX_TRACKED_VMS: nat := 128
  const NAME_BUFFER: nat := 256

  datatype VmState = Running | Paused | Shutoff | Other

  datatype Entry = Entry(name: string, isClean: bool)

  /** snprintf into a name buffer. */
  function ClipName(name: string): (r: string)
    ensures |r| < NAME_BUFFER && (|name| < NAME_BUFFER ==> r == name)
  {
    if |name| < NAME_BUFFER then name else name[..NAME_BUFFER - 1]
  }

  /** The first entry with this name. */
  function FindFrom(es: seq<Entry>, name: string, i: nat): (r: Option<nat>)
    requires i <= |es|
    ensures r.Some? ==> i <= r.value < |es| && es[r.value].name == name
                        && forall k :: i <= k < r.value ==> es[k].name != name
    ensures r.None? ==> forall k :: i <= k < |es| ==> es[k].name != name
    decreases |es| - i
  {
    if i == |es| then None else if es[i].name == name then Some(i) else FindFrom(es, name, i + 1)
  }

  /** The table read as a map: tracked clean, tracked dirty, or not tracked. */
  function Lookup(es: seq<Entry>, name: string): Option<bool> {
    match FindFrom(es, name, 0)
    case Some(i) => Some(es[i].isClean)
    case None => None
  }

  /** The table after dirty_state_set, whether or not it is saved. */
  function Updated(es: seq<Entry>, name: string, isClean: bool): seq<Entry> {
    if name == "" then es
    else match FindFrom(es, name, 0)
      case Some(i) => es[i := Entry(es[i].name, isClean)]
      case None => if |es| >= MAX_TRACKED_VMS then es else es + [Entry(ClipName(name), isClean)]
  }

  /** dirty_state_set goes on to save: the name is new and fits, or its flag changes. */
  predicate Changes(es: seq<Entry>, name: string, isClean: bool) {
    name != "" && match FindFrom(es, name, 0)
      case Some(i) => es[i].isClean != isClean
      case None => |es| < MAX_TRACKED_VMS
  }

  /** dirty_state_set reports failure before it gets to saving. */
  predicate Refused(es: seq<Entry>, name: string) {
    name == "" || (FindFrom(es, name, 0).None? && |es| >= MAX_TRACKED_VMS)
  }

  lemma {:induction false} FindSnoc(es: seq<Entry>, e: Entry, name: string, from: nat)
    requires from <= |es|
    ensures FindFrom(es + [e], name, from) ==
            if FindFrom(es, name, from).Some? then FindFrom(es, name, from)
            else if e.name == name then Some(|es|) else None
    decreases |es| - from
  {
    if from < |es| {
      FindSnoc(es, e, name, from + 1);
    }
  }

  lemma {:induction false} FindSet(es: seq<Entry>, i: nat, isClean: bool, name: string, from: nat)
    requires i < |es| && from <= |es|
    ensures FindFrom(es[i := Entry(es[i].name, isClean)], name, from) == FindFrom(es, name, from)
    decreases |es| - from
  {
    if from < |es| {
      FindSet(es, i, isClean, name, from + 1);
    }
  }

  /** Setting an accepted name of less than 256 bytes is updating the map at that name. */
  lemma SetIsMapUpdate(es: seq<Entry>, name: string, isClean: bool, other: string)
    requires !Refused(es, name) && |name| < NAME_BUFFER
    ensures Lookup(Updated(es, name, isClean), other) == if other == name then Some(isClean) else Lookup(es, other)
  {
    match FindFrom(es, name, 0)
    case Some(i) => FindSet(es, i, isClean, other, 0);
    case None => FindSnoc(es, Entry(ClipName(name), isClean), other, 0);
  }

  ghost predicate ActsAsMap(es: seq<Entry>, name: string, isClean: bool) {
    forall other :: Lookup(Updated(es, name, isClean), other) ==
                    if other == name then Some(isClean) else Lookup(es, other)
  }

  /** For a name that is not tracked yet the length limit is exact: a longer name is stored cut,
      never found again, and the cut name is tracked in its place. */
  lemma SetIsMapUpdateIff(es: seq<Entry>, name: string, isClean: bool)
    requires !Refused(es, name) && FindFrom(es, name, 0).None?
    ensures ActsAsMap(es, name, isClean) <==> |name| < NAME_BUFFER
  {
    if |name| < NAME_BUFFER {
      forall other
        ensures Lookup(Updated(es, name, isClean), other) == if other == name then Some(isClean) else Lookup(es, other)
      {
        SetIsMapUpdate(es, name, isClean, other);
      }
    } else {
      FindSnoc(es, Entry(ClipName(name), isClean), name, 0);
      assert Lookup(Updated(es, name, isClean), name) == None;
    }
  }

  /** A name of 256 letters: marked clean, and then not found. */
  lemma LongNameIsLost()
    ensures var name := seq(NAME_BUFFER, i => 'a'); Lookup(Updated([], name, true), name) == None
  {
    var name := seq(NAME_BUFFER, i => 'a');
    assert name != "" && FindFrom([], name, 0) == None;
    FindSnoc([], Entry(ClipName(name), true), name, 0);
    assert [] + [Entry(ClipName(name), true)] == [Entry(ClipName(name), true)];
  }

  lemma UnchangedKeeps(es: seq<Entry>, name: string, isClean: bool)
    requires !Changes(es, name, isClean)
    ensures Updated(es, name, isClean) == es
  {
    match FindFrom(es, name, 0)
    case Some(i) => assert es[i := Entry(es[i].name, es[i].isClean)] == es;
    case None =>
  }

  // ----- the answer to "is this VM dirty" -----

  function Answer(es: seq<Entry>, name: string, state: VmState): bool {
    state == Running || match Lookup(es, name)
                        case Some(clean) => !clean
                        case None => state == Paused
  }

  /** When the answer is "clean": the VM does not run, and its first entry says so, or it has none and is not paused. */
  lemma CleanIff(es: seq<Entry>, name: string, state: VmState)
    ensures !Answer(es, name, state)
       <==> state != Running
            && ((exists i :: 0 <= i < |es| && es[i] == Entry(name, true) && forall k :: 0 <= k < i ==> es[k].name != name)
                || (state != Paused && forall k :: 0 <= k < |es| ==> es[k].name != name))
  {
    var r := FindFrom(es, name, 0);
    if i :| 0 <= i < |es| && es[i] == Entry(name, true) && forall k :: 0 <= k < i ==> es[k].name != name {
      assert r == Some(i);
    }
    if r.Some? && es[r.value].isClean {
      assert es[r.value] == Entry(name, true);
    }
  }

  /** The query itself marks a running VM, and a paused one that is not tracked, as dirty. */
  function AfterQuery(es: seq<Entry>, name: string, state: VmState): seq<Entry> {
    if state == Running || (state == Paused && Lookup(es, name).None?) then Updated(es, name, false) else es
  }

  // ----- the saved document -----

  /** An array item: something without a string "name" and a boolean "is_clean", or a record. */
  datatype Item = Invalid | Record(name: string, isClean: bool)

  datatype Document = Unparsable | NotAnArray | Array(items: seq<Item>)

  function Dump(es: seq<Entry>): Document {
    Array(seq(|es|, i requires 0 <= i < |es| => Record(es[i].name, es[i].isClean)))
  }

  /** What is kept of the first `n` items: records with a name, as long as there is room. */
  function Loaded(items: seq<Item>, n: nat): (es: seq<Entry>)
    requires n <= |items|
    ensures |es| <= MAX_TRACKED_VMS
  {
    if n == 0 then []
    else
      var es := Loaded(items, n - 1);
      match items[n - 1]
      case Invalid => es
      case Record(name, isClean) =>
        if name == "" || |es| >= MAX_TRACKED_VMS then es else es + [Entry(ClipName(name), isClean)]
  }

  /** The table dirty_state_init ends with, and whether it reports success. */
  function LoadedDocument(d: Option<Document>): (r: (seq<Entry>, bool)) {
    match d
    case None => ([], true)
    case Some(Array(items)) => (Loaded(items, |items|), true)
    case Some(_) => ([], false)
  }

  predicate Storable(es: seq<Entry>) {
    |es| <= MAX_TRACKED_VMS && forall i :: 0 <= i < |es| ==> 0 < |es[i].name| < NAME_BUFFER
  }

  lemma {:induction false} LoadedDump(es: seq<Entry>, n: nat)
    requires Storable(es) && n <= |es|
    ensures Loaded(Dump(es).items, n) == es[..n]
  {
    if n > 0 {
      LoadedDump(es, n - 1);
      assert es[..n] == es[..n - 1] + [es[n - 1]];
    }
  }

  /** Loading what was saved gives the table back. */
  lemma LoadAfterDump(es: seq<Entry>)
    requires Storable(es)
    ensures LoadedDocument(Some(Dump(es))) == (es, true)
  {
    LoadedDump(es, |es|);
    assert es[..|es|] == es;
  }

  /** The records with a name, in order. */
  function Named(items: seq<Item>): seq<Entry> {
    if items == [] then []
    else
      Named(items[..|items| - 1])
      + match items[|items| - 1]
        case Invalid => []
        case Record(name, isClean) => if name == "" then [] else [Entry(ClipName(name), isClean)]
  }

  /** Whatever else the array holds, its first 128 records with a name are kept. */
  lemma {:induction false} LoadedIs(items: seq<Item>, n: nat)
    requires n <= |items|
    ensures var named := Named(items[..n]);
            Loaded(items, n) == if |named| <= 128 then named else named[..128]
  {
    if n > 0 {
      LoadedIs(items, n - 1);
      assert items[..n][..n - 1] == items[..n - 1];
    }
  }

  lemma UpdatedStorable(es: seq<Entry>, name: string, isClean: bool)
    requires Storable(es)
    ensures Storable(Updated(es, name, isClean))
  {
    var es' := Updated(es, name, isClean);
    forall i | 0 <= i < |es'| ensures 0 < |es'[i].name| < NAME_BUFFER {
      if i < |es| {
        assert es'[i].name == es[i].name;
      }
    }
  }

  lemma {:induction false} LoadedStorable(items: seq<Item>, n: nat)
    requires n <= |items|
    ensures Storable(Loaded(items, n))
  {
    if n > 0 {
      LoadedStorable(items, n - 1);
    }
  }
}
