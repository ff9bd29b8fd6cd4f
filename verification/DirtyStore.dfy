/** Saving the dirty-state table with a crash possible between any two of its file operations. */
module DirtyStore {
  import opened DirtyState
  import opened DirtyTable
  import opened Wrappers

  /** Where the process is inside dirty_state_save. */
  datatype Phase = Idle | Preparing | Writing | Closing | Renaming

  /** `saved` lists the tables whose save has completed, oldest first; it starts with the table
      the process loaded. */
  datatype Machine = Machine(mem: seq<Entry>, files: Files, phase: Phase, saved: seq<seq<Entry>>)

  datatype Event =
    | Set(name: string, isClean: bool)
    | Proceed(ok: bool, partial: Document)
    | Crash

  predicate Enabled(m: Machine, e: Event) {
    match e
    case Set(_, _) => m.phase.Idle?
    case Proceed(_, _) => !m.phase.Idle?
    case Crash => true
  }

  /** A crash is followed by a restart, which loads the target file. */
  function Next(m: Machine, e: Event): Machine
    requires Enabled(m, e)
  {
    match e
    case Set(name, isClean) =>
      m.(mem := Updated(m.mem, name, isClean), phase := if Changes(m.mem, name, isClean) then Preparing else Idle)
    case Proceed(ok, partial) =>
      (match m.phase
       case Preparing => if ok then m.(files := Opened(m.files, partial), phase := Writing) else m.(phase := Idle)
       case Writing => if ok then m.(files := Opened(m.files, partial), phase := Closing) else Fail(m)
       case Closing => if ok then m.(files := Written(m.files, m.mem), phase := Renaming) else Fail(m)
       case _ => if ok then m.(files := Renamed(m.files), phase := Idle, saved := m.saved + [m.mem]) else Fail(m))
    case Crash => m.(mem := LoadedDocument(m.files.target).0, phase := Idle)
  }

  function Fail(m: Machine): Machine {
    m.(files := Abandoned(m.files), phase := Idle)
  }

  ghost predicate Runnable(m: Machine, es: seq<Event>)
    decreases |es|
  {
    es == [] || (Enabled(m, es[0]) && Runnable(Next(m, es[0]), es[1..]))
  }

  ghost function Run(m: Machine, es: seq<Event>): Machine
    requires Runnable(m, es)
    decreases |es|
  {
    if es == [] then m else Run(Next(m, es[0]), es[1..])
  }

  function LastSaved(m: Machine): seq<Entry>
    requires m.saved != []
  {
    m.saved[|m.saved| - 1]
  }

  /** The process right after dirty_state_init. */
  predicate Started(m: Machine) {
    m.phase.Idle? && m.mem == LoadedDocument(m.files.target).0 && m.saved == [m.mem]
  }

  ghost predicate Consistent(m: Machine) {
    && m.saved != [] && Storable(m.mem) && Storable(LastSaved(m))
    && LoadedDocument(m.files.target).0 == LastSaved(m)
    && (|m.saved| > 1 ==> m.files.target == Some(Dump(LastSaved(m))))
    && (m.phase.Renaming? ==> m.files.temp == Some(Dump(m.mem)))
  }

  lemma StartedConsistent(m: Machine)
    requires Started(m)
    ensures Consistent(m)
  {
    match m.files.target
    case Some(Array(items)) => LoadedStorable(items, |items|);
    case _ =>
  }

  lemma NextConsistent(m: Machine, e: Event)
    requires Consistent(m) && Enabled(m, e)
    ensures Consistent(Next(m, e))
  {
    match e
    case Set(name, isClean) => UpdatedStorable(m.mem, name, isClean);
    case Proceed(ok, _) => LoadAfterDump(m.mem);
    case Crash =>
  }

  lemma {:induction false} RunKeeps(m: Machine, es: seq<Event>)
    requires Consistent(m) && Runnable(m, es)
    ensures Consistent(Run(m, es))
    decreases |es|
  {
    if es != [] {
      NextConsistent(m, es[0]);
      RunKeeps(Next(m, es[0]), es[1..]);
    }
  }

  /** In every run from a start the target file holds, complete, the table of the last save that succeeded. */
  lemma RunConsistent(m: Machine, es: seq<Event>)
    requires Started(m) && Runnable(m, es)
    ensures Consistent(Run(m, es))
  {
    StartedConsistent(m);
    RunKeeps(m, es);
  }

  /** Only file operations happen: one save is under way, or has ended. */
  ghost predicate SaveOnly(es: seq<Event>) {
    forall i :: 0 <= i < |es| ==> es[i].Proceed?
  }

  lemma {:induction false} SaveOnlyKeepsMem(m: Machine, es: seq<Event>)
    requires Consistent(m) && Runnable(m, es) && SaveOnly(es)
    ensures Run(m, es).mem == m.mem
    ensures Run(m, es).saved == m.saved || (!m.phase.Idle? && Run(m, es).saved == m.saved + [m.mem])
    decreases |es|
  {
    if es != [] {
      NextConsistent(m, es[0]);
      SaveOnlyKeepsMem(Next(m, es[0]), es[1..]);
    }
  }

  /** A crash anywhere inside a set recovers the table of the last save that succeeded before the set, which is the
      table from before the set unless a save has failed since, or the table from after the set: the latter exactly
      when the rename has happened. */
  lemma CrashIsAtomic(m: Machine, name: string, isClean: bool, es: seq<Event>)
    requires Consistent(m) && m.phase.Idle?
    requires SaveOnly(es) && Runnable(Next(m, Set(name, isClean)), es)
    ensures var after := Updated(m.mem, name, isClean);
            var stopped := Run(Next(m, Set(name, isClean)), es);
            var renamed := |stopped.saved| > |m.saved|;
            && Next(stopped, Crash).mem == (if renamed then after else LastSaved(m))
            && (!renamed ==> stopped.saved == m.saved)
  {
    var begun := Next(m, Set(name, isClean));
    NextConsistent(m, Set(name, isClean));
    SaveOnlyKeepsMem(begun, es);
    RunKeeps(begun, es);
  }

  /** The file operations of one save, up to the first that fails. */
  function Steps(o: Outcomes): seq<Event> {
    var e1 := Proceed(o.prepare && o.open, o.partial);
    var e2, e3, e4 := Proceed(o.write, o.partial), Proceed(o.close, o.partial), Proceed(o.rename, o.partial);
    if !(o.prepare && o.open) then [e1]
    else if !o.write then [e1, e2]
    else if !o.close then [e1, e2, e3]
    else [e1, e2, e3, e4]
  }

  /** The save that dirty_state.c runs without interruption is the machine's run of its steps. */
  lemma SaveIsRun(m: Machine, o: Outcomes)
    requires m.phase.Preparing?
    ensures Runnable(m, Steps(o))
    ensures var done := Run(m, Steps(o));
            && done.phase.Idle? && done.files == SavedFiles(m.files, m.mem, o)
            && done.saved == if AllSucceed(o) then m.saved + [m.mem] else m.saved
  {
    hide Run, Runnable, Dump;
    var e1 := Proceed(o.prepare && o.open, o.partial);
    var e2, e3, e4 := Proceed(o.write, o.partial), Proceed(o.close, o.partial), Proceed(o.rename, o.partial);
    var m1 := Next(m, e1);
    if !(o.prepare && o.open) {
      RunStep(m1, []);
      RunCons(m, e1, [], [e1]);
    } else {
      var m2 := Next(m1, e2);
      if !o.write {
        RunStep(m2, []);
        RunCons(m1, e2, [], [e2]);
        RunCons(m, e1, [e2], [e1, e2]);
      } else {
        var m3 := Next(m2, e3);
        if !o.close {
          RunStep(m3, []);
          RunCons(m2, e3, [], [e3]);
          RunCons(m1, e2, [e3], [e2, e3]);
          RunCons(m, e1, [e2, e3], [e1, e2, e3]);
        } else {
          RunStep(Next(m3, e4), []);
          RunCons(m3, e4, [], [e4]);
          RunCons(m2, e3, [e4], [e3, e4]);
          RunCons(m1, e2, [e3, e4], [e2, e3, e4]);
          RunCons(m, e1, [e2, e3, e4], [e1, e2, e3, e4]);
        }
      }
    }
  }

  /** Whatever failed before, a changing set whose save succeeds brings the disk back in step. */
  lemma SaveHeals(m: Machine, name: string, isClean: bool, o: Outcomes)
    requires Consistent(m) && m.phase.Idle? && Changes(m.mem, name, isClean) && AllSucceed(o)
    ensures var begun := Next(m, Set(name, isClean));
            && begun.phase.Preparing? && Runnable(begun, Steps(o))
            && var done := Run(begun, Steps(o));
            && done.phase.Idle? && done.mem == Updated(m.mem, name, isClean)
            && done.files == Files(Some(Dump(done.mem)), None)
            && Next(done, Crash).mem == done.mem
  {
    var begun := Next(m, Set(name, isClean));
    SaveIsRun(begun, o);
    NextConsistent(m, Set(name, isClean));
    RunKeeps(begun, Steps(o));
    SaveOnlyKeepsMem(begun, Steps(o));
  }

  lemma RunStep(m: Machine, es: seq<Event>)
    requires es == []
    ensures Runnable(m, es) && Run(m, es) == m
  {
  }

  lemma RunCons(m: Machine, e: Event, es: seq<Event>, all: seq<Event>)
    requires Enabled(m, e) && Runnable(Next(m, e), es) && all == [e] + es
    ensures Runnable(m, all) && Run(m, all) == Run(Next(m, e), es)
  {
    assert all[1..] == es;
  }
}
