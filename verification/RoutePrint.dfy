/** Printing the URL of a route and dispatching it again. */
module RoutePrint {
  import opened Wrappers
  import opened Splitting
  import opened Routes

  function ActionWord(a: Action): string {
    match a
    case Start => START
    case Stop => STOP
    case Pause => PAUSE
    case Resume => RESUME
    case ForceStop => FORCE_STOP
    case ConvertNvram => CONVERT
    case OrphanCheck => CHECK
    case OrphanCleanup => CLEANUP
  }

  /** The request method of a route. */
  function Verb(r: Route): string {
    match r
    case CreateSnapshot(_) => POST
    case Snapshot(_, Edit, _) => PUT
    case Snapshot(_, Delete, _) => DELETE
    case Snapshot(_, Revert, _) => POST
    case Snapshot(_, Merge, _) => POST
    case AddFolder(_) => POST
    case Folder(_, Remove, _) => DELETE
    case Folder(_, _, _) => POST
    case AutomountSetup(_) => POST
    case VmAction(_, OrphanCheck) => GET
    case VmAction(_, _) => POST
    case _ => GET
  }

  /** What follows the name of the snapshot in its URL. */
  function SnapshotWord(w: OnSnapshot): seq<string> {
    match w
    case EditForm => [EDIT]
    case Revert => [REVERT]
    case RevertConfirm => [CONFIRM]
    case Merge => [MERGE]
    case _ => []
  }

  function FolderWord(h: OnFolder): seq<string> {
    match h
    case Mount => [MOUNT]
    case Unmount => [UNMOUNT]
    case Remove => []
  }

  /** The parts of a route's URL behind /api. */
  function Parts(r: Route): seq<string> {
    match r
    case Browse => [BROWSE]
    case ListVms => [VMS]
    case SnapshotTree(vm) => [VMS, vm, SNAPSHOTS]
    case CreateSnapshot(vm) => [VMS, vm, SNAPSHOTS]
    case SnapshotForm(vm) => [VMS, vm, SNAPSHOTS, FORM]
    case Snapshot(vm, what, snap) => [VMS, vm, SNAPSHOTS, snap] + SnapshotWord(what)
    case SharedFolders(vm) => [VMS, vm, FOLDERS]
    case AddFolder(vm) => [VMS, vm, FOLDERS]
    case FolderForm(vm) => [VMS, vm, FOLDERS, FORM]
    case Folder(vm, how, tag) => [VMS, vm, FOLDERS, tag] + FolderWord(how)
    case AutomountSetup(vm) => [VMS, vm, FOLDERS, AUTOMOUNT]
    case VmAction(vm, action) => [VMS, vm, ActionWord(action)]
    case _ => []
  }

  function Url(r: Route): string {
    "/" + Join(["api"] + Parts(r), '/')
  }

  predicate PlainName(name: string) {
    name != "" && '/' !in name
  }

  /** The names that a URL can carry: not empty, no slash, and no snapshot called "form". */
  predicate Addressable(r: Route) {
    match r
    case NotFound => false
    case NotAllowed => false
    case Browse => true
    case ListVms => true
    case Snapshot(vm, _, snap) => PlainName(vm) && PlainName(snap) && snap != FORM
    case Folder(vm, _, tag) => PlainName(vm) && PlainName(tag)
    case _ => PlainName(r.vm)
  }

  lemma SegmentIs(url: string, index: nat)
    ensures Segment(url, index).Some? ==> PlainName(Segment(url, index).value)
  {
    JoinSplit(Path(url), '/');
  }

  /** The segments of a printed URL are its parts. */
  lemma PrintedSegment(first: string, parts: seq<string>, i: nat)
    requires '/' !in first && forall k :: 0 <= k < |parts| ==> '/' !in parts[k]
    ensures Segment("/" + Join([first] + parts, '/'), i + 1) == PartAt(parts, i)
  {
    var all := [first] + parts;
    hide Segment, Join;
    forall k | 0 <= k < |all| ensures '/' !in all[k] {
      assert k > 0 ==> all[k] == parts[k - 1];
    }
    JoinedSegment(all, i + 1);
    assert i < |parts| ==> all[i + 1] == parts[i];
  }

  lemma JoinedSegment(all: seq<string>, i: nat)
    requires |all| > 0 && forall k :: 0 <= k < |all| ==> '/' !in all[k]
    ensures Segment("/" + Join(all, '/'), i) == if i < |all| && all[i] != "" then Some(all[i]) else None
  {
    assert Path("/" + Join(all, '/')) == Join(all, '/');
    SplitJoin(all, '/');
  }

  lemma VerbsDiffer()
    ensures GET != POST && GET != PUT && GET != DELETE && POST != PUT && POST != DELETE && PUT != DELETE
  {
  }

  lemma TopWords()
    ensures BROWSE != VMS && PlainName(BROWSE) && PlainName(VMS)
  {
  }

  lemma SnapshotWords()
    ensures PlainName(SNAPSHOTS) && PlainName(FORM) && PlainName(EDIT) && PlainName(REVERT) && PlainName(CONFIRM)
            && PlainName(MERGE)
  {
  }

  lemma SnapshotWordsDiffer()
    ensures EDIT != REVERT && EDIT != CONFIRM && EDIT != MERGE && REVERT != CONFIRM && REVERT != MERGE && CONFIRM != MERGE
  {
    assert |EDIT| == 4 && |REVERT| == 6 && |CONFIRM| == 14 && |MERGE| == 5;
  }

  lemma FolderWords()
    ensures PlainName(FOLDERS) && PlainName(AUTOMOUNT) && PlainName(MOUNT) && PlainName(UNMOUNT)
    ensures FORM != AUTOMOUNT && MOUNT != UNMOUNT
  {
    assert |FORM| == 4 && |AUTOMOUNT| == 9 && |MOUNT| == 5 && |UNMOUNT| == 7;
  }

  lemma FoldersAreNoSnapshots()
    ensures SNAPSHOTS != FOLDERS
  {
    assert SNAPSHOTS[1] == 'n' && FOLDERS[1] == 'h';
  }

  lemma StartAndStop()
    ensures START[0] == 's' && START[1] == 't' && |START| == 5 && STOP[0] == 's' && STOP[1] == 't' && |STOP| == 4
  {
  }

  lemma OtherActions()
    ensures PAUSE[0] == 'p' && RESUME[0] == 'r' && FORCE_STOP[0] == 'f' && CONVERT[0] == 'c'
    ensures CHECK[0] == 'o' && |CHECK| == 12 && CLEANUP[0] == 'o' && |CLEANUP| == 14
    ensures SNAPSHOTS[0] == 's' && SNAPSHOTS[1] == 'n' && FOLDERS[0] == 's' && FOLDERS[1] == 'h'
  {
  }

  lemma ActionsArePlain()
    ensures PlainName(START) && PlainName(STOP) && PlainName(PAUSE) && PlainName(RESUME)
    ensures PlainName(FORCE_STOP) && PlainName(CONVERT) && PlainName(CHECK) && PlainName(CLEANUP)
  {
  }

  /** Each action's word selects that action. */
  lemma ActionDecides(vm: string, a: Action)
    ensures DecideAction(Verb(VmAction(vm, a)), vm, ActionWord(a)) == VmAction(vm, a)
    ensures ActionWord(a) != SNAPSHOTS && ActionWord(a) != FOLDERS && PlainName(ActionWord(a))
  {
    StartAndStop();
    OtherActions();
    ActionsArePlain();
    hide START, STOP, PAUSE, RESUME, FORCE_STOP, CONVERT, CHECK, CLEANUP, SNAPSHOTS, FOLDERS, GET, POST;
  }

  function PartAt(parts: seq<string>, i: nat): Option<string> {
    if i < |parts| && parts[i] != "" then Some(parts[i]) else None
  }

  function DecideParts(verb: string, parts: seq<string>): Route {
    Decide(verb, PartAt(parts, 0), PartAt(parts, 1), PartAt(parts, 2), PartAt(parts, 3), PartAt(parts, 4))
  }

  lemma SnapshotDecides(r: Route)
    requires Addressable(r) && (r.SnapshotTree? || r.CreateSnapshot? || r.SnapshotForm? || r.Snapshot?)
    ensures DecideParts(Verb(r), Parts(r)) == r && forall k :: 0 <= k < |Parts(r)| ==> '/' !in Parts(r)[k]
  {
    VerbsDiffer();
    TopWords();
    SnapshotWords();
    SnapshotWordsDiffer();
    hide VMS, BROWSE, SNAPSHOTS, FORM, EDIT, REVERT, CONFIRM, MERGE, GET, POST, PUT, DELETE, FOLDERS;
  }

  lemma FolderDecides(r: Route)
    requires Addressable(r) && (r.SharedFolders? || r.AddFolder? || r.FolderForm? || r.Folder? || r.AutomountSetup?)
    ensures DecideParts(Verb(r), Parts(r)) == r && forall k :: 0 <= k < |Parts(r)| ==> '/' !in Parts(r)[k]
  {
    VerbsDiffer();
    TopWords();
    SnapshotWords();
    FolderWords();
    FoldersAreNoSnapshots();
    hide VMS, BROWSE, SNAPSHOTS, FORM, AUTOMOUNT, MOUNT, UNMOUNT, GET, POST, PUT, DELETE, FOLDERS;
  }

  lemma OtherDecides(r: Route)
    requires Addressable(r) && (r.Browse? || r.ListVms? || r.VmAction?)
    ensures DecideParts(Verb(r), Parts(r)) == r && forall k :: 0 <= k < |Parts(r)| ==> '/' !in Parts(r)[k]
  {
    VerbsDiffer();
    TopWords();
    if r.VmAction? {
      ActionDecides(r.vm, r.action);
    }
    hide VMS, BROWSE, SNAPSHOTS, FOLDERS, GET, POST, PUT, DELETE, ActionWord, DecideAction;
  }

  lemma PartsDecide(r: Route)
    requires Addressable(r)
    ensures DecideParts(Verb(r), Parts(r)) == r && forall k :: 0 <= k < |Parts(r)| ==> '/' !in Parts(r)[k]
  {
    hide Addressable, Parts, Verb, DecideParts;
    match r
    case Browse => OtherDecides(r);
    case ListVms => OtherDecides(r);
    case VmAction(_, _) => OtherDecides(r);
    case SnapshotTree(_) => SnapshotDecides(r);
    case CreateSnapshot(_) => SnapshotDecides(r);
    case SnapshotForm(_) => SnapshotDecides(r);
    case Snapshot(_, _, _) => SnapshotDecides(r);
    case SharedFolders(_) => FolderDecides(r);
    case AddFolder(_) => FolderDecides(r);
    case FolderForm(_) => FolderDecides(r);
    case Folder(_, _, _) => FolderDecides(r);
    case AutomountSetup(_) => FolderDecides(r);
    case _ => NoUrl(r);
  }

  lemma NoUrl(r: Route)
    requires r.NotFound? || r.NotAllowed?
    ensures !Addressable(r)
  {
  }

  /** Whatever is asked, the names that reach a handler are plain. */
  lemma DispatchedIsAddressable(verb: string, url: string)
    ensures var r := Dispatch(verb, url); r.NotFound? || r.NotAllowed? || Addressable(r)
  {
    SegmentIs(url, 2);
    SegmentIs(url, 4);
    hide Segment, VMS, BROWSE, SNAPSHOTS, FORM, AUTOMOUNT, MOUNT, UNMOUNT, GET, POST, PUT, DELETE, FOLDERS;
    hide START, STOP, PAUSE, RESUME, FORCE_STOP, CONVERT, CHECK, CLEANUP, EDIT, REVERT, CONFIRM, MERGE, PlainName;
  }

  /** A request reaches a handler only by that handler's own method. */
  lemma DispatchedVerb(verb: string, url: string)
    ensures var r := Dispatch(verb, url); r.NotFound? || r.NotAllowed? || verb == Verb(r)
  {
    hide Segment, VMS, BROWSE, SNAPSHOTS, FORM, AUTOMOUNT, MOUNT, UNMOUNT, GET, POST, PUT, DELETE, FOLDERS;
    hide START, STOP, PAUSE, RESUME, FORCE_STOP, CONVERT, CHECK, CLEANUP, EDIT, REVERT, CONFIRM, MERGE;
  }

  /** The URL's segments up to the length of the handler's own URL are the parts of that. */
  ghost predicate Leads(url: string, parts: seq<string>) {
    forall i :: 0 <= i < |parts| ==> Segment(url, i + 1) == Some(parts[i])
  }

  lemma FiveLead(url: string, parts: seq<string>)
    requires |parts| <= 5
    requires |parts| > 0 ==> Segment(url, 1) == Some(parts[0])
    requires |parts| > 1 ==> Segment(url, 2) == Some(parts[1])
    requires |parts| > 2 ==> Segment(url, 3) == Some(parts[2])
    requires |parts| > 3 ==> Segment(url, 4) == Some(parts[3])
    requires |parts| > 4 ==> Segment(url, 5) == Some(parts[4])
    ensures Leads(url, parts)
  {
    hide Segment;
  }

  lemma DispatchedParts(verb: string, url: string)
    ensures var r := Dispatch(verb, url); r.NotFound? || r.NotAllowed? || Leads(url, Parts(r))
  {
    hide Segment, VMS, BROWSE, SNAPSHOTS, FORM, AUTOMOUNT, MOUNT, UNMOUNT, GET, POST, PUT, DELETE, FOLDERS, Leads;
    hide START, STOP, PAUSE, RESUME, FORCE_STOP, CONVERT, CHECK, CLEANUP, EDIT, REVERT, CONFIRM, MERGE;
    var r := Dispatch(verb, url);
    if !r.NotFound? && !r.NotAllowed? {
      FiveLead(url, Parts(r));
    }
  }

  // ----- the two error answers -----

  /** The requests on a snapshot's own URLs, and on a VM, that have a handler. */
  predicate OnSnapshotUrl(verb: string, word: string) {
    (verb == GET && (word == EDIT || word == CONFIRM)) || (verb == POST && (word == REVERT || word == MERGE))
  }

  predicate OnVmUrl(verb: string, word: string) {
    (verb == GET && word == CHECK)
    || (verb == POST && (word == START || word == STOP || word == PAUSE || word == RESUME || word == FORCE_STOP
                         || word == CONVERT || word == CLEANUP))
  }

  /** 404: nothing under that name.  Another first word than vms (and browse, for GET), a VM without a word behind it,
      a word on a snapshot or on a VM that is unknown or asked for with another method. */
  lemma NotFoundIff(verb: string, url: string)
    ensures var s := i requires i >= 0 => Segment(url, i);
            Dispatch(verb, url) == NotFound
            <==> !(s(1) == Some(BROWSE) && verb == GET)
                 && (s(1) != Some(VMS)
                     || (s(2).Some? && s(3).None?)
                     || (s(2).Some? && s(3) == Some(SNAPSHOTS) && s(4).Some? && s(4) != Some(FORM) && s(5).Some?
                         && !OnSnapshotUrl(verb, s(5).value))
                     || (s(2).Some? && s(3).Some? && s(3) != Some(SNAPSHOTS) && s(3) != Some(FOLDERS)
                         && !OnVmUrl(verb, s(3).value)))
  {
    TopWords();
    VerbsDiffer();
    hide Segment, VMS, BROWSE, SNAPSHOTS, FORM, AUTOMOUNT, MOUNT, UNMOUNT, GET, POST, PUT, DELETE, FOLDERS;
    hide START, STOP, PAUSE, RESUME, FORCE_STOP, CONVERT, CHECK, CLEANUP, EDIT, REVERT, CONFIRM, MERGE;
  }

  /** The requests on a list of shared folders and on one of its entries that have a handler. */
  predicate OnFolderUrl(verb: string, seg4: Option<string>, seg5: Option<string>) {
    if seg4.None? then verb == GET || verb == POST
    else
      verb == DELETE || (verb == GET && seg4.value == FORM)
      || (verb == POST && (seg4.value == AUTOMOUNT || seg5 == Some(MOUNT) || seg5 == Some(UNMOUNT)))
  }

  /** The requests on a list of snapshots, on its form, and on one of its entries. */
  predicate OnListUrl(verb: string, seg4: Option<string>) {
    if seg4.None? then verb == GET || verb == POST
    else verb == GET || (seg4.value != FORM && (verb == PUT || verb == DELETE))
  }

  /** 405: a list of VMs, snapshots or folders, or an entry of one, asked for with a method it has not. */
  lemma NotAllowedIff(verb: string, url: string)
    ensures var s := i requires i >= 0 => Segment(url, i);
            Dispatch(verb, url) == NotAllowed
            <==> s(1) == Some(VMS)
                 && ((s(2).None? && verb != GET)
                     || (s(2).Some? && s(3) == Some(SNAPSHOTS) && !OnListUrl(verb, s(4))
                         && (s(4).None? || s(4) == Some(FORM) || s(5).None?))
                     || (s(2).Some? && s(3) == Some(FOLDERS) && !OnFolderUrl(verb, s(4), s(5))))
  {
    TopWords();
    VerbsDiffer();
    FoldersAreNoSnapshots();
    hide Segment, VMS, BROWSE, SNAPSHOTS, FORM, AUTOMOUNT, MOUNT, UNMOUNT, GET, POST, PUT, DELETE, FOLDERS;
    hide START, STOP, PAUSE, RESUME, FORCE_STOP, CONVERT, CHECK, CLEANUP, EDIT, REVERT, CONFIRM, MERGE;
  }

  lemma UrlParts(r: Route)
    requires forall k :: 0 <= k < |Parts(r)| ==> '/' !in Parts(r)[k]
    ensures Dispatch(Verb(r), Url(r)) == DecideParts(Verb(r), Parts(r))
  {
    hide *;
    PrintedPart(r, 0);
    PrintedPart(r, 1);
    PrintedPart(r, 2);
    PrintedPart(r, 3);
    PrintedPart(r, 4);
    SameSegments(Verb(r), Url(r), Parts(r));
  }

  lemma PrintedPart(r: Route, i: nat)
    requires forall k :: 0 <= k < |Parts(r)| ==> '/' !in Parts(r)[k]
    ensures Segment(Url(r), i + 1) == PartAt(Parts(r), i)
  {
    hide Parts, Segment, Join, PartAt;
    PrintedSegment("api", Parts(r), i);
  }

  lemma SameSegments(verb: string, url: string, parts: seq<string>)
    requires Segment(url, 1) == PartAt(parts, 0) && Segment(url, 2) == PartAt(parts, 1)
    requires Segment(url, 3) == PartAt(parts, 2) && Segment(url, 4) == PartAt(parts, 3)
    requires Segment(url, 5) == PartAt(parts, 4)
    ensures Dispatch(verb, url) == DecideParts(verb, parts)
  {
    hide Segment, PartAt, Decide;
  }

  /** Dispatching a printed route selects that route, with its names, exactly when the names are not empty,
      have no slash, and the snapshot is not called "form". */
  lemma DispatchPrintIff(r: Route)
    requires !r.NotFound? && !r.NotAllowed?
    ensures Dispatch(Verb(r), Url(r)) == r <==> Addressable(r)
  {
    DispatchedIsAddressable(Verb(r), Url(r));
    if Addressable(r) {
      PartsDecide(r);
      UrlParts(r);
    }
    hide *;
  }

  /** The handlers that any request can reach, with the names they get, are those of the printed URLs. */
  lemma ReachableIff(r: Route)
    requires !r.NotFound? && !r.NotAllowed?
    ensures (exists verb, url :: Dispatch(verb, url) == r) <==> Addressable(r)
  {
    if verb, url :| Dispatch(verb, url) == r {
      DispatchedIsAddressable(verb, url);
    }
    if Addressable(r) {
      DispatchPrintIff(r);
    }
    hide *;
  }

  /** The first segment is not looked at. */
  lemma FirstSegmentIgnored(verb: string, x: string, y: string, rest: string)
    requires '/' !in x && '/' !in y
    ensures Dispatch(verb, "/" + (x + ("/" + rest))) == Dispatch(verb, "/" + (y + ("/" + rest)))
  {
    forall i: nat | i > 0
      ensures Segment("/" + (x + ("/" + rest)), i) == Segment("/" + (y + ("/" + rest)), i)
    {
      Behind(x, rest, i);
      Behind(y, rest, i);
    }
    hide Segment, Decide;
  }

  lemma Behind(x: string, rest: string, i: nat)
    requires '/' !in x && i > 0
    ensures Segment("/" + (x + ("/" + rest)), i) == PartFrom(rest, i - 1)
  {
    SplitHead(x, '/', rest);
    PathOf(x + ("/" + rest));
    hide Split, Path;
    assert i <= |Split(rest, '/')| ==> ([x] + Split(rest, '/'))[i] == Split(rest, '/')[i - 1];
  }

  lemma PathOf(p: string)
    ensures Path("/" + p) == p
  {
  }
}
