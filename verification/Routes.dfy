/** URLs: path_segment of src/util.c and the decision of route_dispatch in src/routes.c. */
module Routes {
  import opened Wrappers
  import opened Splitting

  /** The path without one leading slash. */
  function Path(url: string): string {
    if url != "" && url[0] == '/' then url[1..] else url
  }

  /** Part number `index` of the path; an empty part counts as absent. */
  function Segment(url: string, index: nat): Option<string> {
    var parts := Split(Path(url), '/');
    if index < |parts| && parts[index] != "" then Some(parts[index]) else None
  }

  /** path_segment, for the indices the dispatcher uses. */
  method PathSegment(url: string, index: nat) returns (segment: Option<string>)
    ensures segment == Segment(url, index)
  {
    var p := if url != "" && url[0] == '/' then 1 else 0;
    var seg := 0;
    StartsAt(url, p, index);
    hide *;
    while p < |url|
      invariant p <= |url| && seg <= index && PartFrom(url[p..], index - seg) == Segment(url, index)
    {
      var end := Cut(url, '/', p);
      PartStep(url, p, end, index - seg);
      if seg == index {
        return if end == p then None else Some(url[p..end]);
      }
      seg := seg + 1;
      p := if end < |url| then end + 1 else end;
    }
    NothingLeft(url, index - seg);
    segment := None;
  }

  /** Part number `index` of a text, counted from where the loop stands. */
  function PartFrom(text: string, index: nat): Option<string> {
    var parts := Split(text, '/');
    if index < |parts| && parts[index] != "" then Some(parts[index]) else None
  }

  lemma NothingLeft(url: string, index: nat)
    ensures PartFrom(url[|url|..], index) == None
  {
    assert url[|url|..] == "";
    NoPart(index);
  }

  lemma StartsAt(url: string, p: nat, index: nat)
    requires p == if url != "" && url[0] == '/' then 1 else 0
    ensures PartFrom(url[p..], index) == Segment(url, index)
  {
    assert url[p..] == Path(url);
  }

  lemma NoPart(index: nat)
    ensures PartFrom("", index) == None
  {
    SplitWhole("", '/');
  }

  lemma PartStep(url: string, p: nat, end: nat, index: nat)
    requires p < |url| && end == Cut(url, '/', p)
    ensures PartFrom(url[p..], index)
         == if index == 0 then (if end == p then None else Some(url[p..end]))
            else PartFrom(url[if end < |url| then end + 1 else end..], index - 1)
  {
    var text := url[p..];
    CutIs(text, '/', 0, end - p);
    if end < |url| {
      assert text[..end - p] == url[p..end] && text[end - p + 1..] == url[end + 1..];
    } else {
      assert text == url[p..end] && url[end..] == "";
      NoPart(if index == 0 then 0 else index - 1);
    }
  }

  const GET := "GET"
  const POST := "POST"
  const PUT := "PUT"
  const DELETE := "DELETE"

  const BROWSE := "browse"
  const VMS := "vms"

  const SNAPSHOTS := "snapshots"
  const FOLDERS := "shared-folders"
  const START := "start"
  const STOP := "stop"
  const PAUSE := "pause"
  const RESUME := "resume"
  const FORCE_STOP := "force-stop"
  const CONVERT := "convert-nvram"
  const CHECK := "orphan-check"
  const CLEANUP := "orphan-cleanup"

  const FORM := "form"
  const AUTOMOUNT := "automount"

  const EDIT := "edit"
  const REVERT := "revert"
  const CONFIRM := "revert-confirm"
  const MERGE := "merge"
  const MOUNT := "mount"
  const UNMOUNT := "unmount"

  datatype Action = Start | Stop | Pause | Resume | ForceStop | ConvertNvram | OrphanCheck | OrphanCleanup

  datatype OnSnapshot = Detail | Edit | Delete | EditForm | Revert | RevertConfirm | Merge

  datatype OnFolder = Mount | Unmount | Remove

  /** The handlers, and the two error answers. */
  datatype Route =
    | Browse
    | ListVms
    | SnapshotTree(vm: string)
    | CreateSnapshot(vm: string)
    | SnapshotForm(vm: string)
    | Snapshot(vm: string, what: OnSnapshot, snap: string)
    | SharedFolders(vm: string)
    | AddFolder(vm: string)
    | FolderForm(vm: string)
    | Folder(vm: string, how: OnFolder, tag: string)
    | AutomountSetup(vm: string)
    | VmAction(vm: string, action: Action)
    | NotFound
    | NotAllowed

  /** The decision of route_dispatch on the segments. */
  function Decide(verb: string, seg1: Option<string>, seg2: Option<string>, seg3: Option<string>,
                  seg4: Option<string>, seg5: Option<string>): Route {
    if seg1 == Some(BROWSE) && verb == GET then Browse
    else if seg1 != Some(VMS) then NotFound
    else if seg2.None? then (if verb == GET then ListVms else NotAllowed)
    else if seg3.None? then NotFound
    else if seg3.value == SNAPSHOTS then DecideSnapshots(verb, seg2.value, seg4, seg5)
    else if seg3.value == FOLDERS then DecideFolders(verb, seg2.value, seg4, seg5)
    else DecideAction(verb, seg2.value, seg3.value)
  }

  function DecideSnapshots(verb: string, vm: string, seg4: Option<string>, seg5: Option<string>): Route {
    if seg4.None? then
      if verb == GET then SnapshotTree(vm) else if verb == POST then CreateSnapshot(vm) else NotAllowed
    else if seg4.value == FORM then
      if verb == GET then SnapshotForm(vm) else NotAllowed
    else if seg5.None? then
      if verb == GET then Snapshot(vm, Detail, seg4.value)
      else if verb == PUT then Snapshot(vm, Edit, seg4.value)
      else if verb == DELETE then Snapshot(vm, Delete, seg4.value)
      else NotAllowed
    else if seg5.value == EDIT && verb == GET then Snapshot(vm, EditForm, seg4.value)
    else if seg5.value == REVERT && verb == POST then Snapshot(vm, Revert, seg4.value)
    else if seg5.value == CONFIRM && verb == GET then Snapshot(vm, RevertConfirm, seg4.value)
    else if seg5.value == MERGE && verb == POST then Snapshot(vm, Merge, seg4.value)
    else NotFound
  }

  function DecideFolders(verb: string, vm: string, seg4: Option<string>, seg5: Option<string>): Route {
    if seg4.None? && verb == GET then SharedFolders(vm)
    else if seg4.None? && verb == POST then AddFolder(vm)
    else if seg4 == Some(FORM) && verb == GET then FolderForm(vm)
    else if seg4.Some? && seg5 == Some(MOUNT) && verb == POST then Folder(vm, Mount, seg4.value)
    else if seg4.Some? && seg5 == Some(UNMOUNT) && verb == POST then Folder(vm, Unmount, seg4.value)
    else if seg4 == Some(AUTOMOUNT) && verb == POST then AutomountSetup(vm)
    else if seg4.Some? && verb == DELETE then Folder(vm, Remove, seg4.value)
    else NotAllowed
  }

  function DecideAction(verb: string, vm: string, seg3: string): Route {
    if seg3 == START && verb == POST then VmAction(vm, Start)
    else if seg3 == STOP && verb == POST then VmAction(vm, Stop)
    else if seg3 == PAUSE && verb == POST then VmAction(vm, Pause)
    else if seg3 == RESUME && verb == POST then VmAction(vm, Resume)
    else if seg3 == FORCE_STOP && verb == POST then VmAction(vm, ForceStop)
    else if seg3 == CONVERT && verb == POST then VmAction(vm, ConvertNvram)
    else if seg3 == CHECK && verb == GET then VmAction(vm, OrphanCheck)
    else if seg3 == CLEANUP && verb == POST then VmAction(vm, OrphanCleanup)
    else NotFound
  }

  function Dispatch(verb: string, url: string): Route {
    Decide(verb, Segment(url, 1), Segment(url, 2), Segment(url, 3), Segment(url, 4), Segment(url, 5))
  }

  /** route_dispatch, without the body. */
  method RouteDispatch(verb: string, url: string) returns (route: Route)
    ensures route == Dispatch(verb, url)
  {
    var seg1 := PathSegment(url, 1);
    var seg2 := PathSegment(url, 2);
    var seg3 := PathSegment(url, 3);
    var seg4 := PathSegment(url, 4);
    var seg5 := PathSegment(url, 5);
    route := Decide(verb, seg1, seg2, seg3, seg4, seg5);
  }
}
