/** Shared memory and shared folders over whole runs. */
module SharedMemory {
  import opened Buffers
  import opened FolderXml
  import opened Strings
  import opened Wrappers

  // ----- the XML edit -----

  const SHARED := "<access mode='shared'"
  const DOMAIN_END := "</domain>"
  const BACKING_HEAD := "<memoryBacking>\n    <source type=" + ("'" + ("memfd" + ("'" + "/>\n    ")))
  const BACKING := BACKING_HEAD + (SHARED + "/>\n  </memoryBacking>\n")

  datatype EnableResult = AlreadyEnabled | Define(xml: string) | NoDomainEnd

  function EnableXml(xml: string): EnableResult {
    if Occurs(xml, SHARED) then AlreadyEnabled
    else
      match Find(xml, DOMAIN_END, 0)
      case None => NoDomainEnd
      case Some(i) => Define(xml[..i] + "  " + BACKING + xml[i..])
  }

  /** The edit as it runs, in a buffer. */
  method EnableInBuffer(xml: string) returns (r: EnableResult)
    ensures r == EnableXml(xml)
  {
    hide SHARED, DOMAIN_END, BACKING, Find, Occurs;
    if Occurs(xml, SHARED) {
      return AlreadyEnabled;
    }
    var insertPoint := Find(xml, DOMAIN_END, 0);
    if insertPoint.None? {
      return NoDomainEnd;
    }
    var newxml := Inserted(xml[..insertPoint.value], BACKING, xml[insertPoint.value..]);
    r := Define(newxml);
  }

  /** Two blanks go in front of the insertion; the buffer has room for four, and for the NUL. */
  method Inserted(prefix: string, backing: string, suffix: string) returns (text: string)
    ensures text == prefix + "  " + backing + suffix
  {
    var buf := new char[|prefix| + |backing| + 4 + |suffix| + 1](_ => '\0');
    var len := Append(buf, 0, prefix);
    len := Append(buf, len, "  ");
    len := Append(buf, len, backing);
    len := Append(buf, len, suffix);
    buf[len] := '\0';
    text := buf[..len];
  }

  lemma BackingShares()
    ensures At(BACKING, |BACKING_HEAD|, SHARED)
  {
    hide BACKING_HEAD, SHARED;
    var tail := "/>\n  </memoryBacking>\n";
    AtPrefix(SHARED, tail, 0, SHARED);
    AtSuffix(BACKING_HEAD, SHARED + tail, 0, SHARED);
  }

  /** The text that is defined has shared memory, so enabling once more changes nothing; all the rest
      of the text is kept, and it fits the buffer of four spare bytes. */
  lemma EnableOnce(xml: string)
    requires EnableXml(xml).Define?
    ensures var text := EnableXml(xml).xml;
            && EnableXml(text) == AlreadyEnabled
            && |text| + 1 <= |xml| + |BACKING| + 4 + 1
            && exists i :: 0 <= i <= |xml| && text[..i] == xml[..i] && text[i + 2 + |BACKING|..] == xml[i..]
  {
    BackingShares();
    hide SHARED, DOMAIN_END, BACKING, BACKING_HEAD, Occurs;
    var i := Find(xml, DOMAIN_END, 0).value;
    var text := xml[..i] + "  " + BACKING + xml[i..];
    assert text == (xml[..i] + "  ") + (BACKING + xml[i..]);
    AtPrefix(BACKING, xml[i..], |BACKING_HEAD|, SHARED);
    AtSuffix(xml[..i] + "  ", BACKING + xml[i..], |BACKING_HEAD|, SHARED);
    OccursAt(text, i + 2 + |BACKING_HEAD|, SHARED);
    assert text[..i] == xml[..i] && text[i + 2 + |BACKING|..] == xml[i..];
  }

  // ----- the two configurations of a domain -----

  datatype Config = Config(shared: bool, folders: seq<Folder>)

  /** The persistent configuration, and the live one of an active domain. */
  datatype Domain = Domain(config: Config, live: Option<Config>)

  /** `ok`: libvirt carries out the request.  `found`: the folder that the search for the tag comes up with. */
  datatype Event =
    | Enable(ok: bool)
    | Add(folder: Folder, ok: bool)
    | Remove(tag: string, found: Option<Folder>, ok: bool)
    | Start
    | Stop

  function With(c: Config, f: Folder): Config {
    c.(folders := c.folders + [f])
  }

  /** Without the first folder of that tag. */
  function Dropped(folders: seq<Folder>, tag: string): seq<Folder> {
    if folders == [] then []
    else if folders[0].tag == tag then folders[1..]
    else [folders[0]] + Dropped(folders[1..], tag)
  }

  function Without(c: Config, tag: string): Config {
    c.(folders := Dropped(c.folders, tag))
  }

  /** The return code of lv_add_shared_folder: -2 asks for shared memory, 1 for a restart.  `shared` and `live`
      are the answers of the two searches for the shared access. */
  function AddCode(shared: bool, live: Option<bool>, f: Folder, ok: bool): int {
    if f.fs == Virtiofs && !shared then -2
    else if !ok then -1
    else if live == Some(false) && f.fs == Virtiofs then 1
    else 0
  }

  function LiveShared(d: Domain): Option<bool> {
    match d.live case None => None case Some(c) => Some(c.shared)
  }

  function CodeFor(d: Domain, f: Folder, ok: bool): int {
    AddCode(d.config.shared, LiveShared(d), f, ok)
  }

  function Next(d: Domain, e: Event): Domain {
    match e
    case Enable(ok) => if ok then d.(config := d.config.(shared := true)) else d
    case Add(f, ok) =>
      var code := CodeFor(d, f, ok);
      if code < 0 then d
      else if code == 1 || d.live.None? then d.(config := With(d.config, f))
      else Domain(With(d.config, f), Some(With(d.live.value, f)))
    case Remove(_, found, ok) =>
      // detached from both configurations of an active domain
      if found.None? || !ok then d
      else Domain(Without(d.config, found.value.tag),
                  match d.live case None => None case Some(l) => Some(Without(l, found.value.tag)))
    case Start => if d.live.Some? then d else d.(live := Some(d.config))
    case Stop => d.(live := None)
  }

  function Run(d: Domain, es: seq<Event>): Domain
    decreases |es|
  {
    if es == [] then d else Run(Next(d, es[0]), es[1..])
  }

  /** A virtiofs folder implies shared memory in the same configuration. */
  predicate Backed(c: Config) {
    forall i :: 0 <= i < |c.folders| ==> c.folders[i].fs == Virtiofs ==> c.shared
  }

  predicate WellFormed(d: Domain) {
    Backed(d.config) && (d.live.Some? ==> Backed(d.live.value))
  }

  lemma {:induction false} DroppedFrom(folders: seq<Folder>, tag: string)
    ensures forall f :: f in Dropped(folders, tag) ==> f in folders
  {
    if folders != [] && folders[0].tag != tag {
      DroppedFrom(folders[1..], tag);
    }
  }

  lemma WithoutBacked(c: Config, tag: string)
    requires Backed(c)
    ensures Backed(Without(c, tag))
  {
    DroppedFrom(c.folders, tag);
    var w := Dropped(c.folders, tag);
    forall i | 0 <= i < |w| ensures w[i].fs == Virtiofs ==> c.shared {
      assert w[i] in c.folders;
    }
  }

  lemma NextBacked(d: Domain, e: Event)
    requires WellFormed(d)
    ensures WellFormed(Next(d, e))
    ensures d.config.shared ==> Next(d, e).config.shared
  {
    if e.Remove? && e.found.Some? {
      WithoutBacked(d.config, e.found.value.tag);
      if d.live.Some? {
        WithoutBacked(d.live.value, e.found.value.tag);
      }
    }
  }

  /** In every run, from every well-formed domain. */
  lemma {:induction false} RunBacked(d: Domain, es: seq<Event>)
    requires WellFormed(d)
    ensures WellFormed(Run(d, es))
    ensures d.config.shared ==> Run(d, es).config.shared
    decreases |es|
  {
    if es != [] {
      NextBacked(d, es[0]);
      RunBacked(Next(d, es[0]), es[1..]);
    }
  }

  /** Only an enable brings shared memory. */
  lemma {:induction false} OnlyEnableShares(d: Domain, es: seq<Event>)
    requires !d.config.shared && forall i :: 0 <= i < |es| ==> es[i] != Enable(true)
    ensures !Run(d, es).config.shared
    decreases |es|
  {
    if es != [] {
      assert forall i :: 0 <= i < |es[1..]| ==> es[1..][i] == es[i + 1];
      OnlyEnableShares(Next(d, es[0]), es[1..]);
    }
  }
}
