/** Whole runs of the shared-folder requests, on domain XML. */
module SharedRuns {
  import opened DomainText
  import opened FolderXml
  import opened RestartNeedle
  import opened SharedFolders
  import opened SharedMemory
  import opened SharedText
  import opened Strings
  import opened Wrappers

  /** What libvirt prints: the persistent XML, and the live one of an active domain. */
  datatype Texts = Texts(config: string, live: Option<string>)

  ghost predicate Stands(t: Texts, d: Domain) {
    && Shows(t.config, d.config)
    && match t.live
       case None => d.live.None?
       case Some(x) => d.live.Some? && Shows(x, d.live.value)
  }

  function LiveTest(t: Texts): Option<bool> {
    match t.live case None => None case Some(x) => Some(Occurs(x, SHARED))
  }

  /** The return code of lv_add_shared_folder, from the searches in the texts. */
  function CodeOf(t: Texts, f: Folder, ok: bool): int {
    AddCode(Occurs(t.config, SHARED), LiveTest(t), f, ok)
  }

  // What libvirt prints after it has done something to a domain.

  ghost predicate Same(x: string, x': string) {
    Shows(x', ConfigOf(x))
  }

  ghost predicate Attaches(x: string, f: Folder, x': string) {
    Shows(x', With(ConfigOf(x), f))
  }

  ghost predicate Detaches(x: string, tag: string, x': string) {
    Shows(x', Without(ConfigOf(x), tag))
  }

  /** The result of the search in lv_remove_shared_folder, as a folder. */
  ghost predicate Finds(x: string, tag: string, found: Option<Folder>) {
    match found
    case None => SearchFrom(x, 0, tag) == None
    case Some(f) => Clean(f) && SearchFrom(x, 0, tag) == Some(Block(f))
  }

  function Current(t: Texts): string {
    if t.live.Some? then t.live.value else t.config
  }

  /** One request, or a start or stop, on the texts.  The code decides by its searches; libvirt changes the texts. */
  ghost predicate Step(t: Texts, e: Event, t': Texts) {
    match e
    case Enable(ok) =>
      (match EnableXml(t.config)
       case Define(text) => t' == if ok then t.(config := text) else t
       case _ => t' == t)
    case Add(f, ok) =>
      var code := CodeOf(t, f, ok);
      if code < 0 then t' == t
      else if code == 1 || t.live.None? then Attaches(t.config, f, t'.config) && t'.live == t.live
      else Attaches(t.config, f, t'.config) && t'.live.Some? && Attaches(t.live.value, f, t'.live.value)
    case Remove(tag, found, ok) =>
      Finds(Current(t), tag, found)
      && if found.None? || !ok then t' == t
         else Detaches(t.config, found.value.tag, t'.config)
              && t'.live.Some? == t.live.Some?
              && (t.live.Some? ==> Detaches(t.live.value, found.value.tag, t'.live.value))
    case Start =>
      t'.config == t.config
      && if t.live.Some? then t'.live == t.live else t'.live.Some? && Same(t.config, t'.live.value)
    case Stop => t' == t.(live := None)
  }

  /** The search for a folder to remove always ends in a way the step allows. */
  lemma FindsSomething(x: string, c: Config, tag: string) returns (found: Option<Folder>)
    requires Shows(x, c)
    ensures Finds(x, tag, found) && (found.Some? ==> found.value in c.folders)
    ensures '\'' !in tag ==> found == FirstTagged(c.folders, tag)
  {
    ListTest(x, c);
    var head, items: seq<(Folder, string)> :| Represents(x, head, items, c);
    hide Occurs, Clean, Matches, Hit;
    found := FirstMatching(c.folders, tag);
    SearchMatches(head, items, tag);
    if '\'' !in tag {
      MatchingIsTagged(c.folders, tag);
    }
  }

  lemma CodeAgrees(t: Texts, d: Domain, f: Folder, ok: bool)
    requires Stands(t, d)
    ensures CodeOf(t, f, ok) == CodeFor(d, f, ok)
  {
    hide Shows, Occurs;
    SharedTest(t.config, d.config);
    if t.live.Some? {
      SharedTest(t.live.value, d.live.value);
    }
  }

  /** The code's step on the texts is the protocol's step on the configurations they show. */
  lemma StepStands(t: Texts, d: Domain, e: Event, t': Texts)
    requires Stands(t, d) && Step(t, e, t')
    ensures Stands(t', Next(d, e))
  {
    hide Shows, Occurs, EnableXml, ConfigOf;
    ConfigIs(t.config, d.config);
    if t.live.Some? {
      ConfigIs(t.live.value, d.live.value);
    }
    match e
    case Enable(ok) =>
      EnableShows(t.config, d.config);
    case Add(f, ok) =>
      CodeAgrees(t, d, f, ok);
    case Remove(_, _, _) =>
    case Start =>
    case Stop =>
  }

  /** The folder goes into the live XML of an active VM: always for 9p, for virtiofs only when that XML has shared
      memory. */
  predicate GoesLive(live: string, f: Folder) {
    f.fs == NineP || Occurs(live, SHARED)
  }

  /** The answers of an add: -2 for virtiofs without shared memory in the persistent XML, -1 when libvirt fails, 1 when
      the folder has to wait for a restart of the active VM, and 0 in all other cases. */
  lemma AddAnswers(t: Texts, f: Folder, ok: bool)
    ensures var code := CodeOf(t, f, ok);
            && (code == -2 <==> f.fs == Virtiofs && !Occurs(t.config, SHARED))
            && (code == -1 <==> !ok && (f.fs == NineP || Occurs(t.config, SHARED)))
            && (code == 1 <==> ok && f.fs == Virtiofs && Occurs(t.config, SHARED)
                               && t.live.Some? && !Occurs(t.live.value, SHARED))
            && (code == 0 <==> ok && (f.fs == NineP || Occurs(t.config, SHARED))
                               && (t.live.None? || GoesLive(t.live.value, f)))
  {
    hide Occurs;
  }

  /** An add that is refused or fails changes nothing.  Any other appends the folder to the persistent XML's list, and
      to the live one's exactly when the folder can go live. */
  lemma AddReaches(t: Texts, d: Domain, f: Folder, ok: bool, t': Texts)
    requires Stands(t, d) && Step(t, Add(f, ok), t')
    ensures !ok || (f.fs == Virtiofs && !Occurs(t.config, SHARED)) ==> t' == t
    ensures ok && (f.fs == NineP || Occurs(t.config, SHARED)) ==> ListFrom(t'.config, 0) == ListFrom(t.config, 0) + [f]
    ensures t.live.None? <==> t'.live.None?
    ensures ok && (f.fs == NineP || Occurs(t.config, SHARED)) && t.live.Some? ==>
              ListFrom(t'.live.value, 0) == ListFrom(t.live.value, 0) + if GoesLive(t.live.value, f) then [f] else []
  {
    AddAnswers(t, f, ok);
    hide Shows, Occurs, ListFrom, EnableXml;
    var done := ok && (f.fs == NineP || Occurs(t.config, SHARED));
    if done {
      ListTest(t'.config, With(ConfigOf(t.config), f));
      if t.live.Some? && GoesLive(t.live.value, f) {
        ListTest(t'.live.value, With(ConfigOf(t.live.value), f));
      }
    }
  }

  predicate FirstWith(folders: seq<Folder>, tag: string, i: nat) {
    i < |folders| && folders[i].tag == tag && forall k :: 0 <= k < i ==> folders[k].tag != tag
  }

  /** What the list without a folder is: the first folder of that tag is missing, all others are there. */
  lemma {:induction false} DroppedAt(folders: seq<Folder>, tag: string, i: nat)
    requires FirstWith(folders, tag, i)
    ensures Dropped(folders, tag) == folders[..i] + folders[i + 1..]
  {
    if i > 0 {
      var rest := folders[1..];
      assert forall k :: 0 <= k < |rest| ==> rest[k] == folders[k + 1];
      DroppedAt(rest, tag, i - 1);
      assert folders[..i] + folders[i + 1..] == [folders[0]] + (rest[..i - 1] + rest[i..]);
    }
  }

  lemma {:induction false} DroppedNone(folders: seq<Folder>, tag: string)
    requires forall k :: 0 <= k < |folders| ==> folders[k].tag != tag
    ensures Dropped(folders, tag) == folders
  {
    if folders != [] {
      DroppedNone(folders[1..], tag);
    }
  }

  /** A remove that finds a folder takes the first one of its tag, and no other, out of the persistent XML and out of
      the live one. */
  lemma RemoveTakesOut(t: Texts, d: Domain, tag: string, f: Folder, t': Texts)
    requires Stands(t, d) && Step(t, Remove(tag, Some(f), true), t')
    ensures t.live.None? <==> t'.live.None?
    ensures TakenOut(ListFrom(t.config, 0), f.tag, ListFrom(t'.config, 0))
    ensures t.live.Some? ==> TakenOut(ListFrom(t.live.value, 0), f.tag, ListFrom(t'.live.value, 0))
  {
    hide Shows, Occurs, ListFrom, Finds, EnableXml, TakenOut;
    ListTest(t'.config, Without(ConfigOf(t.config), f.tag));
    DroppedIs(ListFrom(t.config, 0), f.tag);
    if t.live.Some? {
      ListTest(t'.live.value, Without(ConfigOf(t.live.value), f.tag));
      DroppedIs(ListFrom(t.live.value, 0), f.tag);
    }
  }

  /** The first folder of the tag is gone; without one nothing is. */
  ghost predicate TakenOut(folders: seq<Folder>, tag: string, now: seq<Folder>) {
    (now == folders && forall k :: 0 <= k < |folders| ==> folders[k].tag != tag)
    || exists i: nat :: FirstWith(folders, tag, i) && now == folders[..i] + folders[i + 1..]
  }

  lemma FirstExists(folders: seq<Folder>, tag: string) returns (i: nat)
    requires exists k :: 0 <= k < |folders| && folders[k].tag == tag
    ensures FirstWith(folders, tag, i)
  {
    i := 0;
    while folders[i].tag != tag
      invariant i < |folders| && forall k :: 0 <= k < i ==> folders[k].tag != tag
      decreases |folders| - i
    {
      i := i + 1;
    }
  }

  lemma DroppedIs(folders: seq<Folder>, tag: string)
    ensures TakenOut(folders, tag, Dropped(folders, tag))
  {
    if exists k :: 0 <= k < |folders| && folders[k].tag == tag {
      var i := FirstExists(folders, tag);
      DroppedAt(folders, tag, i);
    } else {
      DroppedNone(folders, tag);
    }
  }

  ghost predicate TextRun(ts: seq<Texts>, es: seq<Event>) {
    |ts| == |es| + 1 && forall i :: 0 <= i < |es| ==> Step(ts[i], es[i], ts[i + 1])
  }

  lemma {:induction false} RunStands(ts: seq<Texts>, es: seq<Event>, d: Domain)
    requires TextRun(ts, es) && Stands(ts[0], d)
    ensures |ts| == |es| + 1 && Stands(ts[|es|], Run(d, es))
    decreases |es|
  {
    if es == [] {
      RunNothing(ts, d);
    } else {
      RunTail(ts, es);
      hide *;
      StepStands(ts[0], d, es[0], ts[1]);
      RunStands(ts[1..], es[1..], Next(d, es[0]));
      RunIs(d, es);
    }
  }

  lemma RunTail(ts: seq<Texts>, es: seq<Event>)
    requires TextRun(ts, es) && es != []
    ensures |ts| == |es| + 1 && Step(ts[0], es[0], ts[1]) && TextRun(ts[1..], es[1..])
  {
    hide Step;
  }

  lemma RunIs(d: Domain, es: seq<Event>)
    requires es != []
    ensures Run(d, es) == Run(Next(d, es[0]), es[1..])
  {
    hide Next;
  }

  lemma RunNothing(ts: seq<Texts>, d: Domain)
    requires TextRun(ts, [])
    ensures |ts| == 1 && Run(d, []) == d
  {
  }

  /** Every virtiofs folder that the text lists is backed by shared memory in the same text. */
  ghost predicate TextBacked(x: string) {
    forall f :: f in ListFrom(x, 0) && f.fs == Virtiofs ==> Occurs(x, SHARED)
  }

  ghost predicate AllBacked(t: Texts) {
    TextBacked(t.config) && (t.live.Some? ==> TextBacked(t.live.value))
  }

  lemma BackedIff(x: string, c: Config)
    requires Shows(x, c)
    ensures TextBacked(x) <==> Backed(c)
  {
    ListTest(x, c);
    SharedTest(x, c);
    hide Shows, Occurs, ListFrom;
    if Backed(c) {
      forall f | f in c.folders && f.fs == Virtiofs ensures c.shared {
        var i :| 0 <= i < |c.folders| && c.folders[i] == f;
      }
    } else {
      var i :| 0 <= i < |c.folders| && c.folders[i].fs == Virtiofs && !c.shared;
      assert c.folders[i] in c.folders;
    }
  }

  lemma AllBackedIff(t: Texts, d: Domain)
    requires Stands(t, d)
    ensures AllBacked(t) <==> WellFormed(d)
  {
    hide Shows, TextBacked, Backed;
    BackedIff(t.config, d.config);
    if t.live.Some? {
      BackedIff(t.live.value, d.live.value);
    }
  }

  /** In every run every virtiofs folder listed in the persistent or the live XML has shared memory there. */
  lemma RunKeepsBacked(ts: seq<Texts>, es: seq<Event>, d: Domain)
    requires TextRun(ts, es) && Stands(ts[0], d) && AllBacked(ts[0])
    ensures AllBacked(ts[|es|])
  {
    hide Stands, AllBacked, Step;
    AllBackedIff(ts[0], d);
    RunBacked(d, es);
    RunStands(ts, es, d);
    AllBackedIff(ts[|es|], Run(d, es));
  }

  /** After an enable that libvirt carried out, no add asks for shared memory again, whatever happens in between. */
  lemma NeverAskedAgain(ts: seq<Texts>, es: seq<Event>, d: Domain, f: Folder, ok: bool)
    requires TextRun(ts, es) && Stands(ts[0], d) && AllBacked(ts[0]) && es != [] && es[0] == Enable(true)
    ensures CodeOf(ts[|es|], f, ok) != -2
  {
    hide Stands, AllBacked, Step;
    AllBackedIff(ts[0], d);
    RunStands(ts, es, d);
    NextBacked(d, es[0]);
    RunBacked(Next(d, es[0]), es[1..]);
    CodeAgrees(ts[|es|], Run(d, es), f, ok);
  }

  /** Without an enable, a persistent XML without shared memory answers every virtiofs add with -2. */
  lemma AlwaysAskedBefore(ts: seq<Texts>, es: seq<Event>, d: Domain, f: Folder, ok: bool)
    requires TextRun(ts, es) && Stands(ts[0], d) && !Occurs(ts[0].config, SHARED) && f.fs == Virtiofs
    requires forall i :: 0 <= i < |es| ==> es[i] != Enable(true)
    ensures CodeOf(ts[|es|], f, ok) == -2
  {
    CodeAgrees(ts[0], d, f, ok);
    hide Stands, Step, Occurs;
    RunStands(ts, es, d);
    OnlyEnableShares(d, es);
    CodeAgrees(ts[|es|], Run(d, es), f, ok);
  }

  /** A folder that add answers with "restart" is flagged in the listing, unless it is hit by a live one; after a stop
      and a start it is live and not flagged. */
  lemma RestartClears(ts: seq<Texts>, d: Domain, f: Folder)
    requires TextRun(ts, [Add(f, true), Stop, Start]) && Stands(ts[0], d) && Plain(f.tag)
    requires CodeOf(ts[0], f, true) == 1 && !Hits(d.live.value.folders, f.tag)
    ensures f in ListFrom(ts[1].config, 0) && Flag(ts[1].live, f.tag)
    ensures ts[3].live.Some? && f in ListFrom(ts[3].live.value, 0) && !Flag(ts[3].live, f.tag)
  {
    hide Shows, Occurs, ListFrom, Flag, Hit, EnableXml;
    var d1 := Next(d, Add(f, true));
    var d2 := Next(d1, Stop);
    var d3 := Next(d2, Start);
    var es := [Add(f, true), Stop, Start];
    assert es[0] == Add(f, true) && es[1] == Stop && es[2] == Start;
    assert Step(ts[0], es[0], ts[1]) && Step(ts[1], es[1], ts[2]) && Step(ts[2], es[2], ts[3]);
    StepStands(ts[0], d, es[0], ts[1]);
    StepStands(ts[1], d1, es[1], ts[2]);
    StepStands(ts[2], d2, es[2], ts[3]);
    CodeAgrees(ts[0], d, f, true);
    assert d1.config.folders[|d.config.folders|] == f && d1.live == d.live && d3.live == Some(d1.config);
    ListTest(ts[1].config, d1.config);
    FlagTest(ts[1].live.value, d1.live.value, f.tag);
    ListTest(ts[3].live.value, d3.live.value);
    FlagTest(ts[3].live.value, d3.live.value, f.tag);
    SelfHit(d1.config.folders, |d.config.folders|);
  }

  lemma SelfHit(folders: seq<Folder>, i: nat)
    requires i < |folders|
    ensures Hits(folders, folders[i].tag)
  {
    assert Hit(folders[i].tag, folders[i].tag);
  }
}
