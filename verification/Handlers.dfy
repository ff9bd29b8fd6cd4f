/** The handlers of src/routes.c as steps of the protocol. */
module Handlers {
  import opened DirtyTable
  import opened DirtyState
  import opened DirtyProtocol
  import opened Wrappers

  /** The backend as the handlers see it: every call either does its work or reports failure. */
  class Backend {
    var vms: map<string, Vm>

    constructor (vms: map<string, Vm>)
      ensures this.vms == vms
    {
      this.vms := vms;
    }

    /** list_vms, and the search for one name in its answer. */
    method StateOf(v: string, listed: bool) returns (state: Option<VmState>)
      ensures state == if listed && v in vms then Some(vms[v].state) else None
    {
      state := if listed && v in vms then Some(vms[v].state) else None;
    }

    /** `observed` is bookkeeping of the protocol. */
    method Create(v: string, ok: bool, observed: bool) returns (rc: int)
      requires v in vms
      modifies this
      ensures rc == if ok then 0 else -1
      ensures vms == if ok then old(vms)[v := Captured(old(vms)[v]).(observed := observed)]
                     else old(vms)
    {
      if !ok {
        return -1;
      }
      vms := vms[v := Captured(vms[v]).(observed := observed)];
      rc := 0;
    }

    /** The VM ends up with the content of the snapshot, running or not. */
    method Revert(v: string, ok: bool, content: int, state: VmState) returns (rc: int)
      requires v in vms
      modifies this
      ensures rc == if ok then 0 else -1
      ensures vms == if ok then old(vms)[v := Restored(old(vms)[v], state, content)] else old(vms)
    {
      if !ok {
        return -1;
      }
      vms := vms[v := Restored(vms[v], state, content)];
      rc := 0;
    }
  }

  /** How the mark at the end of a request goes: it runs through, or the process dies before the rename. */
  datatype Fate = Finishes(o: Outcomes) | Dies

  function ModeFor(path: string, fate: Fate): Mode {
    match fate
    case Dies => Crashed
    case Finishes(o) => if path != "" && AllSucceed(o) then Saved else NotSaved
  }

  /** The table that the next start would read. */
  function OnDisk(f: Files): seq<Entry> {
    LoadedDocument(f.target).0
  }

  /** A save that succeeds puts the table on disk; one that fails leaves what was there. */
  lemma SavedOnDisk(f: Files, es: seq<Entry>, o: Outcomes)
    requires Storable(es)
    ensures OnDisk(SavedFiles(f, es, o)) == if AllSucceed(o) then es else OnDisk(f)
  {
    LoadAfterDump(es);
  }

  /** The table can take a mark for the VM. */
  predicate Fits(es: seq<Entry>, v: string) {
    !Refused(es, v) && |v| < NAME_BUFFER
  }

  class Server {
    const be: Backend
    const table: DirtyStateTable

    ghost predicate Valid()
      reads this, table, table.table
    {
      table.Valid() && Storable(table.Entries())
    }

    /** The state the protocol speaks about. */
    ghost function State(): World
      requires Valid()
      reads this, be, table, table.table, table.disk
    {
      World(be.vms, table.Entries(), OnDisk(table.disk.files))
    }

    constructor (be: Backend, table: DirtyStateTable)
      requires table.Valid() && Storable(table.Entries())
      ensures Valid() && this.be == be && this.table == table
    {
      this.be := be;
      this.table := table;
    }

    /** A file name that a start can use. */
    predicate Persistent()
      reads table
    {
      0 < |table.path| < PATH_MAX
    }

    /** dirty_state_set at the end of a handler; a crash before the rename loses the mark. */
    method Mark(v: string, isClean: bool, fate: Fate)
      requires Valid() && (fate.Dies? ==> Persistent())
      modifies table`count, table`path, table.table, table.disk
      ensures Valid() && table.path == old(table.path)
      ensures State() == Marked(old(State()), v, isClean, ModeFor(table.path, fate))
      ensures fate.Finishes? && Fits(old(State()).mem, v) ==> Lookup(State().mem, v) == Some(isClean)
    {
      match fate {
        case Dies => Restart(if table.disk.files.target.Some? then Present else Absent);
        case Finishes(o) =>
          if Fits(State().mem, v) {
            SetIsMapUpdate(State().mem, v, isClean, v);
          }
          UpdatedStorable(table.Entries(), v, isClean);
          UnchangedIff(table.Entries(), v, isClean);
          SavedOnDisk(table.disk.files, Updated(table.Entries(), v, isClean), o);
          if isClean {
            table.MarkClean(v, o);
          } else {
            table.MarkDirty(v, o);
          }
      }
    }

    /** handle_create_snapshot, once the form is read: the backend first, and only after its success the mark. */
    method CreateSnapshot(v: string, ok: bool, fate: Fate) returns (done: bool)
      requires Valid() && v in be.vms && (fate.Dies? ==> Persistent())
      modifies be, table`count, table`path, table.table, table.disk
      ensures Valid() && table.path == old(table.path) && done == ok
      ensures State() == Next(old(State()), Creates(v, ok, ModeFor(table.path, fate)))
      ensures done && fate.Finishes? && Fits(old(State()).mem, v) ==> Lookup(State().mem, v) == Some(true)
    {
      var rc := be.Create(v, ok, be.vms[v].observed && fate.Dies?);
      if rc != 0 {
        return false;
      }
      hide Marked, Updated;
      Mark(v, true, fate);
      done := true;
    }

    /** handle_revert_snapshot: refused while the VM is listed as running; may save first. */
    method RevertSnapshot(v: string, listed: bool, save: bool, saveOk: bool, ok: bool, content: int, state: VmState,
                          fate: Fate)
      returns (done: bool)
      requires Valid() && v in be.vms && (fate.Dies? ==> Persistent())
      modifies be, table`count, table`path, table.table, table.disk
      ensures Valid() && table.path == old(table.path)
      ensures State()
           == Next(old(State()), Reverts(v, listed, save, saveOk, ok, content, state, ModeFor(table.path, fate)))
      ensures done == (!(listed && old(be.vms)[v].state == Running) && (save ==> saveOk) && ok)
      ensures done && fate.Finishes? && Fits(old(State()).mem, v) ==> Lookup(State().mem, v) == Some(true)
    {
      var seen := be.StateOf(v, listed);
      if seen == Some(Running) {
        return false;
      }
      if save {
        var rc := be.Create(v, saveOk, be.vms[v].observed);
        if rc != 0 {
          return false;
        }
      }
      var rc := be.Revert(v, ok, content, state);
      if rc != 0 {
        return false;
      }
      hide Marked, Updated;
      Mark(v, true, fate);
      done := true;
    }

    /** The look at a VM in handle_snapshot_tree and handle_revert_confirm: none when the machines cannot be listed.
        A crash hits the mark that the query makes. */
    method Look(v: string, listed: bool, fate: Fate) returns (dirty: bool)
      requires Valid() && v in be.vms && (fate.Dies? ==> Persistent())
      modifies be, table`count, table`path, table.table, table.disk
      ensures Valid() && table.path == old(table.path)
      ensures !listed ==> !dirty && State() == old(State())
      ensures listed ==> State() == Next(old(State()), Looks(v, ModeFor(table.path, fate)))
      ensures listed && fate.Finishes? ==> dirty == Answer(old(State()).mem, v, old(be.vms)[v].state)
    {
      var seen := be.StateOf(v, listed);
      if seen.None? {
        return false;
      }
      match fate {
        case Finishes(o) => dirty := Ask(v, seen.value, o);
        case Dies =>
          dirty := false;
          var idx := table.Find(v);
          if seen.value == Running || (seen.value == Paused && idx.None?) {
            Mark(v, false, Dies);
          }
      }
      if seen.value == Running && fate.Finishes? {
        be.vms := be.vms[v := be.vms[v].(observed := true)];
      }
    }

    /** dirty_state_is_dirty on this server. */
    method Ask(v: string, state: VmState, o: Outcomes) returns (dirty: bool)
      requires Valid()
      modifies table`count, table.table, table.disk
      ensures Valid() && dirty == Answer(old(State()).mem, v, state)
      ensures State() == if state == Running || (state == Paused && Lookup(old(State()).mem, v).None?)
                         then Marked(old(State()), v, false, ModeFor(table.path, Finishes(o))) else old(State())
    {
      ghost var es := table.Entries();
      UpdatedStorable(es, v, false);
      UnchangedIff(es, v, false);
      SavedOnDisk(table.disk.files, Updated(es, v, false), o);
      dirty := table.IsDirty(v, state, o);
    }

    /** handle_delete_snapshot: refused while the VM is listed as running or paused; the table is not touched. */
    method DeleteSnapshot(v: string, listed: bool, ok: bool) returns (done: bool)
      requires Valid() && v in be.vms
      ensures Valid() && State() == Next(old(State()), Deletes(v))
      ensures done == (ok && !(listed && be.vms[v].state in {Running, Paused}))
    {
      var seen := be.StateOf(v, listed);
      if seen == Some(Running) || seen == Some(Paused) {
        return false;
      }
      done := ok;
    }

    /** The process ends and starts again with the same path.  A start that is denied access to the file goes on with
        an empty table. */
    method Restart(access: Access)
      requires Valid() && Persistent()
      requires access == Denied || access == if table.disk.files.target.Some? then Present else Absent
      modifies table`count, table`path, table.table
      ensures Valid() && table.path == old(table.path)
      ensures access != Denied ==> State() == Next(old(State()), Restarts)
      ensures access == Denied ==> State() == old(State()).(mem := [])
    {
      var path := table.path;
      match table.disk.files.target {
        case Some(Array(items)) => LoadedStorable(items, |items|);
        case _ =>
      }
      table.Shutdown();
      var rc := table.Init(path, access);
    }

    /** One event: a request is handled by its handler, the VM acts by itself, the process restarts. */
    method Serve(e: Event, fate: Fate)
      requires Valid() && Persistent()
      requires Enabled(State(), e) && ModeOf(e) in {None, Some(ModeFor(table.path, fate))}
      modifies be, table`count, table`path, table.table, table.disk
      ensures Valid() && table.path == old(table.path) && State() == Next(old(State()), e)
    {
      match e {
        case Writes(v, content) => be.vms := be.vms[v := be.vms[v].(content := content)];
        case Moves(v, state) => be.vms := be.vms[v := be.vms[v].(state := state, observed := false)];
        case Looks(v, _) => var dirty := Look(v, true, fate);
        case Creates(v, ok, _) => var done := CreateSnapshot(v, ok, fate);
        case Reverts(v, listed, save, saveOk, ok, content, state, _) =>
          var done := RevertSnapshot(v, listed, save, saveOk, ok, content, state, fate);
        case Deletes(v) => var done := DeleteSnapshot(v, true, true);
        case Restarts => Restart(if table.disk.files.target.Some? then Present else Absent);
      }
    }

    /** A create or revert that leaves the VM not running, and a look at it: the VM is reported clean. */
    method ServeThenLook(e: Event, fate: Fate, v: string, later: Fate) returns (dirty: bool)
      requires Valid() && Persistent() && Invariant(State()) && fate.Finishes? && later.Finishes?
      requires Enabled(State(), e) && ModeOf(e) == Some(ModeFor(table.path, fate)) && Settles(State(), e, v)
      modifies be, table`count, table`path, table.table, table.disk
      ensures !dirty
    {
      SettledIsClean(State(), e, v);
      Serve(e, fate);
      dirty := Look(v, true, later);
    }

    /** Every disciplined run of the handlers, crashes inside them included, is a run of the protocol, so what they
        report as clean is clean. */
    method ServeAll(es: seq<Event>, fates: seq<Fate>)
      requires Valid() && Persistent() && |fates| == |es|
      requires Initial(State()) && DisciplinedRun(State(), es)
      requires forall i :: 0 <= i < |es| ==> ModeOf(es[i]) in {None, Some(ModeFor(table.path, fates[i]))}
      modifies be, table`count, table`path, table.table, table.disk
      ensures Valid() && State() == Run(old(State()), es)
      ensures forall v :: v in be.vms ==> SoundFor(State(), v)
    {
      ghost var start := State();
      assert es[0..] == es;
      hide Initial;
      for i := 0 to |es|
        invariant Valid() && table.path == old(table.path)
        invariant DisciplinedRun(State(), es[i..]) && Run(State(), es[i..]) == Run(start, es)
      {
        RunStep(State(), es[i..]);
        assert es[i..][1..] == es[i + 1..];
        Serve(es[i], fates[i]);
      }
      assert es[|es|..] == [];
      RunNothing(State());
      forall v | v in be.vms ensures SoundFor(State(), v) {
        CleanIsSound(start, es, v);
      }
    }
  }

  lemma RunStep(w: World, es: seq<Event>)
    requires es != [] && DisciplinedRun(w, es)
    ensures Enabled(w, es[0]) && DisciplinedRun(Next(w, es[0]), es[1..])
    ensures Run(w, es) == Run(Next(w, es[0]), es[1..])
  {
  }

  lemma RunNothing(w: World)
    requires DisciplinedRun(w, [])
    ensures Run(w, []) == w
  {
  }
}
