/** The dirty-state table in use, over whole runs. */
module DirtyProtocol {
  // VMs run, pause and stop on their own; requests query, create and revert (src/routes.c); saves
  // fail; the process restarts.  Requests are atomic with respect to each other, because one thread
  // polls for them (src/server.c), but a crash may still hit a request after the backend has acted
  // and before the table is saved.
  import opened Counting
  import opened DirtyTable
  import opened Wrappers

  /** `base` is the content that the last successful create captured or the last successful revert
      restored (at first: the initial content).  `observed`: while running, the VM has been queried
      since it was last marked clean or last began to run.
      `captured`: the contents that creates have captured, oldest first. */
  datatype Vm = Vm(state: VmState, content: int, base: int, observed: bool, captured: seq<int>)

  /** `mem` is the table of the process, `disk` the table in the target file. */
  datatype World = World(vms: map<string, Vm>, mem: seq<Entry>, disk: seq<Entry>)

  /** How the table update at the end of a request fares. */
  datatype Mode = Saved | NotSaved | Crashed

  datatype Event =
    | Writes(v: string, content: int)                 // the guest writes
    | Moves(v: string, state: VmState)                // started, paused, stopped, by whoever
    | Looks(v: string, mode: Mode)                    // snapshot tree, revert confirmation
    | Creates(v: string, ok: bool, mode: Mode)
    // refused for a VM that the backend lists as running; may save the current content first
    | Reverts(v: string, listed: bool, save: bool, saveOk: bool, ok: bool, content: int, state: VmState, mode: Mode)
    | Deletes(v: string)                              // does not touch the table
    | Restarts

  predicate Enabled(w: World, e: Event) {
    match e
    case Writes(v, _) => v in w.vms && w.vms[v].state == Running
    case Moves(v, state) => v in w.vms && state != w.vms[v].state
    case Looks(v, _) => v in w.vms
    case Creates(v, _, _) => v in w.vms
    case Reverts(v, _, _, _, _, _, _, _) => v in w.vms
    case Deletes(v) => v in w.vms
    case Restarts => true
  }

  /** What a successful create does to the VM. */
  function Captured(vm: Vm): Vm {
    vm.(base := vm.content, captured := vm.captured + [vm.content])
  }

  /** What a successful revert does to it: it is running or not, with the content of the snapshot. */
  function Restored(vm: Vm, state: VmState, content: int): Vm {
    Vm(state, content, content, false, vm.captured)
  }

  function Put(w: World, v: string, vm: Vm): World {
    w.(vms := w.vms[v := vm])
  }

  function Marked(w: World, v: string, isClean: bool, mode: Mode): World {
    var mem := Updated(w.mem, v, isClean);
    match mode
    case Saved => w.(mem := mem, disk := if mem != w.mem then mem else w.disk)
    case NotSaved => w.(mem := mem)
    case Crashed => w.(mem := w.disk)
  }

  function Next(w: World, e: Event): World
    requires Enabled(w, e)
  {
    match e
    case Writes(v, content) => Put(w, v, w.vms[v].(content := content))
    case Moves(v, state) => Put(w, v, w.vms[v].(state := state, observed := false))
    case Looks(v, mode) =>
      var vm := w.vms[v];
      if vm.state == Running then
        Marked(Put(w, v, vm.(observed := vm.observed || mode != Crashed)), v, false, mode)
      else if vm.state == Paused && Lookup(w.mem, v).None? then Marked(w, v, false, mode)
      else w
    case Creates(v, ok, mode) =>
      var vm := w.vms[v];
      if !ok then w
      else Marked(Put(w, v, Captured(vm).(observed := vm.observed && mode == Crashed)), v, true, mode)
    case Reverts(v, listed, save, saveOk, ok, content, state, mode) =>
      var vm := w.vms[v];
      if (listed && vm.state == Running) || (save && !saveOk) then w
      else
        var w1 := if save then Put(w, v, Captured(vm)) else w;
        if !ok then w1 else Marked(Put(w1, v, Restored(w1.vms[v], state, content)), v, true, mode)
    case Deletes(_) => w
    case Restarts => w.(mem := w.disk)
  }

  function ModeOf(e: Event): Option<Mode> {
    match e
    case Looks(_, mode) => Some(mode)
    case Creates(_, _, mode) => Some(mode)
    case Reverts(_, _, _, _, _, _, _, mode) => Some(mode)
    case _ => None
  }

  /** A VM leaves RUNNING only after it was observed; the process dies only while the file holds
      its table (so: not between a failed save and the next successful one). */
  predicate Disciplined(w: World, e: Event)
    requires Enabled(w, e)
  {
    && (e.Moves? && w.vms[e.v].state == Running ==> w.vms[e.v].observed)
    && (e.Restarts? || ModeOf(e) == Some(Crashed) ==> w.disk == w.mem)
  }

  ghost predicate DisciplinedRun(w: World, es: seq<Event>)
    decreases |es|
  {
    es == [] || (Enabled(w, es[0]) && Disciplined(w, es[0]) && DisciplinedRun(Next(w, es[0]), es[1..]))
  }

  ghost function Run(w: World, es: seq<Event>): World
    requires DisciplinedRun(w, es)
    decreases |es|
  {
    if es == [] then w else Run(Next(w, es[0]), es[1..])
  }

  /** Up to 128 VMs with names the table can hold. */
  predicate Trackable(vms: map<string, Vm>) {
    |vms.Keys| <= MAX_TRACKED_VMS && forall v :: v in vms ==> 0 < |v| < NAME_BUFFER
  }

  function Names(es: seq<Entry>): seq<string> {
    seq(|es|, i requires 0 <= i < |es| => es[i].name)
  }

  /** One entry per VM at most, and for VMs only. */
  predicate Tracks(es: seq<Entry>, keys: set<string>) {
    Distinct(Names(es)) && forall i :: 0 <= i < |es| ==> es[i].name in keys
  }

  /** What the table says about a VM is right. */
  predicate Right(es: seq<Entry>, v: string, vm: Vm) {
    if vm.state == Running then vm.observed ==> Lookup(es, v) == Some(false)
    else Lookup(es, v) != Some(false) ==> vm.content == vm.base
  }

  ghost predicate Invariant(w: World) {
    && Trackable(w.vms) && Tracks(w.mem, w.vms.Keys) && Tracks(w.disk, w.vms.Keys)
    && forall v :: v in w.vms ==> Right(w.mem, v, w.vms[v])
  }

  /** No file, no entry, and every VM as its last snapshot has it. */
  predicate Initial(w: World) {
    && Trackable(w.vms) && w.mem == [] && w.disk == []
    && forall v :: v in w.vms ==> w.vms[v].content == w.vms[v].base && !w.vms[v].observed
  }

  /** There is always room for one more VM. */
  lemma NotRefused(es: seq<Entry>, v: string, keys: set<string>)
    requires Tracks(es, keys) && v in keys && |keys| <= MAX_TRACKED_VMS && v != ""
    ensures !Refused(es, v)
  {
    if FindFrom(es, v, 0).None? {
      var names := Names(es);
      DistinctConcat(names, [v]);
      DistinctWithin(names + [v], keys);
    }
  }

  lemma UpdatedTracks(es: seq<Entry>, v: string, isClean: bool, keys: set<string>)
    requires Tracks(es, keys) && v in keys && |v| < NAME_BUFFER
    ensures Tracks(Updated(es, v, isClean), keys)
  {
    var es' := Updated(es, v, isClean);
    if v != "" {
      match FindFrom(es, v, 0)
      case Some(i) =>
        assert Names(es') == Names(es);
        assert forall k :: 0 <= k < |es| ==> es'[k].name == es[k].name;
      case None =>
        DistinctConcat(Names(es), [v]);
        assert |es| < MAX_TRACKED_VMS ==> Names(es') == Names(es) + [v];
    }
  }

  /** Marking a VM keeps what the table says about all others. */
  lemma MarkedKeeps(w: World, v: string, isClean: bool, mode: Mode)
    requires Trackable(w.vms) && Tracks(w.mem, w.vms.Keys) && Tracks(w.disk, w.vms.Keys) && v in w.vms
    requires forall u :: u in w.vms && u != v ==> Right(w.mem, u, w.vms[u])
    requires mode == Crashed ==> w.disk == w.mem && Right(w.mem, v, w.vms[v])
    requires mode != Crashed && w.vms[v].state == Running ==> (isClean ==> !w.vms[v].observed)
    requires mode != Crashed && w.vms[v].state != Running ==> (isClean ==> w.vms[v].content == w.vms[v].base)
    ensures Invariant(Marked(w, v, isClean, mode))
  {
    UpdatedTracks(w.mem, v, isClean, w.vms.Keys);
    NotRefused(w.mem, v, w.vms.Keys);
    if mode != Crashed {
      forall u | u in w.vms ensures Right(Updated(w.mem, v, isClean), u, w.vms[u]) {
        SetIsMapUpdate(w.mem, v, isClean, u);
      }
    }
  }

  lemma NextKeeps(w: World, e: Event)
    requires Invariant(w) && Enabled(w, e) && Disciplined(w, e)
    ensures Invariant(Next(w, e))
  {
    match e
    case Writes(v, content) => PutKeeps(w, v, w.vms[v].(content := content));
    case Moves(v, state) => PutKeeps(w, v, w.vms[v].(state := state, observed := false));
    case Looks(v, mode) =>
      var vm := w.vms[v];
      if vm.state == Running {
        var w' := Put(w, v, vm.(observed := vm.observed || mode != Crashed));
        SameKeys(w, v, w'.vms[v]);
        MarkedKeeps(w', v, false, mode);
      } else if vm.state == Paused && Lookup(w.mem, v).None? {
        MarkedKeeps(w, v, false, mode);
      }
    case Creates(v, ok, mode) =>
      var vm := w.vms[v];
      if ok {
        var w' := Put(w, v, Captured(vm).(observed := vm.observed && mode == Crashed));
        SameKeys(w, v, w'.vms[v]);
        MarkedKeeps(w', v, true, mode);
      }
    case Reverts(v, listed, save, saveOk, ok, content, state, mode) =>
      var vm := w.vms[v];
      if !(listed && vm.state == Running) && (save ==> saveOk) {
        var w1 := if save then Put(w, v, Captured(vm)) else w;
        if save {
          PutKeeps(w, v, Captured(vm));
        }
        if ok {
          var w' := Put(w1, v, Restored(w1.vms[v], state, content));
          SameKeys(w1, v, w'.vms[v]);
          MarkedKeeps(w', v, true, mode);
        }
      }
    case Deletes(_) =>
    case Restarts =>
  }

  lemma SameKeys(w: World, v: string, vm: Vm)
    requires v in w.vms
    ensures Put(w, v, vm).vms.Keys == w.vms.Keys
    ensures Trackable(w.vms) ==> Trackable(Put(w, v, vm).vms)
  {
    assert Put(w, v, vm).vms.Keys == w.vms.Keys;
  }

  lemma PutKeeps(w: World, v: string, vm: Vm)
    requires Invariant(w) && v in w.vms && Right(w.mem, v, vm)
    ensures Invariant(Put(w, v, vm))
  {
    SameKeys(w, v, vm);
  }

  lemma {:induction false} RunKeeps(w: World, es: seq<Event>)
    requires Invariant(w) && DisciplinedRun(w, es)
    ensures Invariant(Run(w, es))
    decreases |es|
  {
    if es != [] {
      NextKeeps(w, es[0]);
      RunKeeps(Next(w, es[0]), es[1..]);
    }
  }

  /** The event succeeds for the VM and leaves it not running: its content is then the one captured or restored. */
  predicate Settles(w: World, e: Event, v: string)
    requires Enabled(w, e)
  {
    match e
    case Creates(u, ok, mode) => u == v && ok && mode != Crashed && w.vms[v].state != Running
    case Reverts(u, listed, save, saveOk, ok, _, state, mode) =>
      u == v && ok && mode != Crashed && state != Running && (save ==> saveOk)
      && !(listed && w.vms[v].state == Running)
    case _ => false
  }

  /** The VM stands still with a clean mark. */
  predicate RestsClean(w: World, v: string) {
    v in w.vms && w.vms[v].state != Running && Lookup(w.mem, v) == Some(true)
  }

  /** A successful create of a VM that does not run, and a revert that leaves it not running, mark it clean. */
  lemma SettledIsClean(w: World, e: Event, v: string)
    requires Invariant(w) && Enabled(w, e) && Settles(w, e, v)
    ensures RestsClean(Next(w, e), v) && !Answer(Next(w, e).mem, v, Next(w, e).vms[v].state)
  {
    NotRefused(w.mem, v, w.vms.Keys);
    SetIsMapUpdate(w.mem, v, true, v);
  }

  /** A create that fails and a revert that is refused or fails change no mark and no content. */
  lemma FailureChangesNothing(w: World, e: Event)
    requires Enabled(w, e)
    requires (e.Creates? && !e.ok)
             || (e.Reverts? && (!e.ok || (e.save && !e.saveOk) || (e.listed && w.vms[e.v].state == Running)))
    ensures var w' := Next(w, e); w'.mem == w.mem && w'.disk == w.disk && w'.vms.Keys == w.vms.Keys
    ensures forall v :: v in w.vms ==> Next(w, e).vms[v].content == w.vms[v].content
    ensures forall v :: v in w.vms ==> Next(w, e).vms[v].state == w.vms[v].state
  {
    if e.v in w.vms {
      SameKeys(w, e.v, Captured(w.vms[e.v]));
    }
  }

  /** A create that succeeds, and the save in front of a revert that is not refused. */
  predicate Captures(w: World, e: Event, v: string)
    requires Enabled(w, e)
  {
    match e
    case Creates(u, ok, _) => u == v && ok
    case Reverts(u, listed, save, saveOk, _, _, _, _) => u == v && save && saveOk && !(listed && w.vms[v].state == Running)
    case _ => false
  }

  /** A content is captured in exactly these cases, and whenever a revert that was asked to save goes on to restore. */
  lemma CapturesIff(w: World, e: Event, v: string)
    requires Enabled(w, e) && v in w.vms
    ensures v in Next(w, e).vms
    ensures Next(w, e).vms[v].captured == w.vms[v].captured + if Captures(w, e, v) then [w.vms[v].content] else []
    ensures e.Reverts? && e.v == v && e.save && Next(w, e).vms[v].content != w.vms[v].content ==> Captures(w, e, v)
  {
    var kept := w.vms[v].captured;
    assert kept + [] == kept;
  }

  lemma {:induction false} CapturedStays(w: World, es: seq<Event>, v: string, content: int)
    requires DisciplinedRun(w, es) && v in w.vms && content in w.vms[v].captured
    ensures v in Run(w, es).vms && content in Run(w, es).vms[v].captured
    decreases |es|
  {
    if es != [] {
      CapturesIff(w, es[0], v);
      CapturedStays(Next(w, es[0]), es[1..], v, content);
    }
  }

  /** A revert that was asked to save first loses nothing: when it has replaced the content of the VM, the old content
      is captured, and whatever happens later does not change that. */
  lemma RevertLosesNothing(w: World, e: Event, es: seq<Event>, v: string)
    requires Enabled(w, e) && e.Reverts? && e.v == v && e.save && v in w.vms
    requires Next(w, e).vms[v].content != w.vms[v].content && DisciplinedRun(Next(w, e), es)
    ensures v in Run(Next(w, e), es).vms && w.vms[v].content in Run(Next(w, e), es).vms[v].captured
  {
    CapturesIff(w, e, v);
    CapturedStays(Next(w, e), es, v, w.vms[v].content);
  }

  /** Starting, stopping or reverting the VM again. */
  predicate Disturbs(e: Event, v: string) {
    (e.Moves? && e.v == v) || (e.Reverts? && e.v == v)
  }

  lemma MarkedElsewhere(w: World, u: string, isClean: bool, mode: Mode, v: string)
    requires u in w.vms && Trackable(w.vms) && Tracks(w.mem, w.vms.Keys) && RestsClean(w, v)
    requires mode == Crashed ==> w.disk == w.mem
    requires u == v ==> isClean
    ensures RestsClean(Marked(w, u, isClean, mode), v)
  {
    NotRefused(w.mem, u, w.vms.Keys);
    SetIsMapUpdate(w.mem, u, isClean, v);
  }

  lemma NextRestsClean(w: World, e: Event, v: string)
    requires Invariant(w) && Enabled(w, e) && Disciplined(w, e) && RestsClean(w, v) && !Disturbs(e, v)
    ensures RestsClean(Next(w, e), v)
  {
    match e
    case Writes(_, _) =>
    case Moves(_, _) =>
    case Looks(u, mode) =>
      var vm := w.vms[u];
      if vm.state == Running {
        var w' := Put(w, u, vm.(observed := vm.observed || mode != Crashed));
        SameKeys(w, u, w'.vms[u]);
        MarkedElsewhere(w', u, false, mode, v);
      } else if vm.state == Paused && Lookup(w.mem, u).None? {
        MarkedElsewhere(w, u, false, mode, v);
      }
    case Creates(u, ok, mode) =>
      var vm := w.vms[u];
      if ok {
        var w' := Put(w, u, Captured(vm).(observed := vm.observed && mode == Crashed));
        SameKeys(w, u, w'.vms[u]);
        MarkedElsewhere(w', u, true, mode, v);
      }
    case Reverts(u, listed, save, saveOk, ok, content, state, mode) =>
      var vm := w.vms[u];
      if !(listed && vm.state == Running) && (save ==> saveOk) && ok {
        var w1 := if save then Put(w, u, Captured(vm)) else w;
        SameKeys(w, u, Captured(vm));
        var w' := Put(w1, u, Restored(w1.vms[u], state, content));
        SameKeys(w1, u, w'.vms[u]);
        MarkedElsewhere(w', u, true, mode, v);
      }
    case Deletes(_) =>
    case Restarts =>
  }

  lemma {:induction false} RunRestsClean(w: World, es: seq<Event>, v: string)
    requires Invariant(w) && DisciplinedRun(w, es) && RestsClean(w, v)
    requires forall i :: 0 <= i < |es| ==> !Disturbs(es[i], v)
    ensures RestsClean(Run(w, es), v)
    decreases |es|
  {
    if es != [] {
      NextKeeps(w, es[0]);
      NextRestsClean(w, es[0], v);
      assert forall i :: 0 <= i < |es[1..]| ==> es[1..][i] == es[i + 1];
      RunRestsClean(Next(w, es[0]), es[1..], v);
    }
  }

  /** The other half of CleanIsSound: after a create or revert that settles the VM, every look finds it clean until it
      is started, stopped or reverted again, whatever happens to the other VMs and across restarts. */
  lemma SettledStaysClean(w: World, e: Event, es: seq<Event>, v: string)
    requires Invariant(w) && DisciplinedRun(w, [e] + es) && Enabled(w, e) && Settles(w, e, v)
    requires forall i :: 0 <= i < |es| ==> !Disturbs(es[i], v)
    ensures DisciplinedRun(Next(w, e), es)
    ensures var now := Run(Next(w, e), es);
            v in now.vms && !Answer(now.mem, v, now.vms[v].state) && now.vms[v].content == now.vms[v].base
  {
    assert ([e] + es)[0] == e && ([e] + es)[1..] == es;
    SettledIsClean(w, e, v);
    NextKeeps(w, e);
    RunRestsClean(Next(w, e), es, v);
    RunKeeps(Next(w, e), es);
  }

  /** A VM that does not run and is reported clean has exactly the content of its base. */
  predicate SoundFor(w: World, v: string)
    requires v in w.vms
  {
    var vm := w.vms[v];
    vm.state != Running && !Answer(w.mem, v, vm.state) ==> vm.content == vm.base
  }

  lemma CleanIsSound(w: World, es: seq<Event>, v: string)
    requires Initial(w) && DisciplinedRun(w, es)
    requires v in Run(w, es).vms
    ensures SoundFor(Run(w, es), v)
  {
    RunKeeps(w, es);
  }

  /** The discipline is needed exactly as it stands: stopping a running VM is safe for everything
      it may have written if and only if the table already says dirty. */
  lemma StopIsSafeIff(w: World, v: string)
    requires v in w.vms && w.vms[v].state == Running
    ensures (forall content :: SoundFor(Stopped(w, v, content), v)) <==> Lookup(w.mem, v) == Some(false)
  {
    if Lookup(w.mem, v) != Some(false) {
      assert !SoundFor(Stopped(w, v, w.vms[v].base + 1), v);
    }
  }

  function Stopped(w: World, v: string, content: int): (w': World)
    requires v in w.vms && w.vms[v].state == Running
    ensures w'.vms.Keys == w.vms.Keys
  {
    Next(Next(w, Writes(v, content)), Moves(v, Shutoff))
  }

  /** Nothing wrong can be reported about the VM: now, or after it stops with whatever it may have written. */
  ghost predicate SafeFor(w: World, v: string)
    requires v in w.vms
  {
    if w.vms[v].state == Running then forall content :: SoundFor(Stopped(w, v, content), v) else SoundFor(w, v)
  }

  /** A restart is safe for a VM exactly when the file, whatever the process knew, says dirty about a running VM, and
      about another one says dirty or finds it as its last snapshot has it. */
  lemma RestartIsSafeIff(w: World, v: string)
    requires v in w.vms
    ensures SafeFor(Next(w, Restarts), v)
       <==> var vm := w.vms[v];
            if vm.state == Running then Lookup(w.disk, v) == Some(false)
            else Answer(w.disk, v, vm.state) || vm.content == vm.base
  {
    var w' := Next(w, Restarts);
    if w.vms[v].state == Running {
      StopIsSafeIff(w', v);
    }
  }

  /** The mark of a running VM that was not saved, and a restart before the next save: the VM stops with other content
      than its last snapshot has, and is reported clean. */
  lemma LostMarkMisleads(w: World, v: string)
    requires v in w.vms && w.vms[v].state == Running && w.disk == []
    ensures var stopped := Stopped(Next(Next(w, Looks(v, NotSaved)), Restarts), v, w.vms[v].base + 1);
            stopped.vms[v].content != stopped.vms[v].base && !Answer(stopped.mem, v, Shutoff)
  {
  }

  /** A look at a VM that does not run keeps its mark if it has one, and marks it dirty if it is paused and has none. */
  lemma LookKeepsMarks(es: seq<Entry>, v: string, state: VmState)
    requires Storable(es) && state != Running
    ensures Lookup(es, v).Some? || state != Paused ==> AfterQuery(es, v, state) == es
    ensures state == Paused && Lookup(es, v).None? && 0 < |v| < NAME_BUFFER && |es| < MAX_TRACKED_VMS ==>
              Lookup(AfterQuery(es, v, state), v) == Some(false)
  {
    if FindFrom(es, v, 0).None? {
      FindSnoc(es, Entry(ClipName(v), false), v, 0);
    }
  }

  /** A query gets a running VM marked exactly when the table can take the mark: the VM is tracked,
      or its name and the table leave room. */
  lemma LookMarksIff(es: seq<Entry>, v: string)
    requires Storable(es)
    ensures Lookup(AfterQuery(es, v, Running), v) == Some(false)
            <==> Lookup(es, v).Some? || (0 < |v| < NAME_BUFFER && |es| < MAX_TRACKED_VMS)
  {
    match FindFrom(es, v, 0)
    case Some(i) => FindSet(es, i, false, v, 0);
    case None => FindSnoc(es, Entry(ClipName(v), false), v, 0);
  }
}
