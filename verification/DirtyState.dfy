/** src/dirty_state.c as it runs: a table of 128 slots that is saved by writing a temporary file and
    renaming it, and reloaded on start. */
module DirtyState {
  import opened DirtyTable
  import opened Wrappers

  const PATH_MAX: nat := 4096

  /** The two files the table lives in: the target and `<target>.tmp`. */
  datatype Files = Files(target: Option<Document>, temp: Option<Document>)

  /** How the calls of one save turn out; `partial` is what the temporary file holds while it is
      being written. */
  datatype Outcomes = Outcomes(prepare: bool, open: bool, partial: Document, write: bool, close: bool, rename: bool)

  predicate AllSucceed(o: Outcomes) {
    o.prepare && o.open && o.write && o.close && o.rename
  }

  function Opened(f: Files, partial: Document): Files {
    f.(temp := Some(partial))
  }

  function Abandoned(f: Files): Files {
    f.(temp := None)
  }

  function Written(f: Files, es: seq<Entry>): Files {
    f.(temp := Some(Dump(es)))
  }

  function Renamed(f: Files): Files {
    Files(f.temp, None)
  }

  /** The files after one save that is allowed to run to its end. */
  function SavedFiles(f: Files, es: seq<Entry>, o: Outcomes): Files {
    if !o.prepare || !o.open then f
    else if !o.write || !o.close || !o.rename then Abandoned(f)
    else Renamed(Written(Opened(f, o.partial), es))
  }

  /** access(path, F_OK): there, not there, or not to be told. */
  datatype Access = Present | Absent | Denied

  class Disk {
    var files: Files

    constructor (files: Files)
      ensures this.files == files
    {
      this.files := files;
    }
  }

  class DirtyStateTable {
    const table: array<Entry>
    var count: nat
    var path: string
    const disk: Disk

    ghost predicate Valid()
      reads this, table
    {
      table.Length == MAX_TRACKED_VMS && count <= MAX_TRACKED_VMS
    }

    ghost function Entries(): seq<Entry>
      requires Valid()
      reads this, table
    {
      table[..count]
    }

    constructor (disk: Disk)
      ensures Valid() && Entries() == [] && path == "" && this.disk == disk && fresh(table)
    {
      this.disk := disk;
      table := new Entry[MAX_TRACKED_VMS](_ => Entry("", false));
      count := 0;
      path := "";
    }

    method Find(name: string) returns (r: Option<nat>)
      requires Valid()
      ensures r == FindFrom(Entries(), name, 0)
    {
      for i := 0 to count
        invariant FindFrom(Entries(), name, 0) == FindFrom(Entries(), name, i)
      {
        if table[i].name == name {
          return Some(i);
        }
      }
      return None;
    }

    /** Write the whole table to the temporary file, then rename it over the target.  Without a
        path nothing is written and the save counts as done. */
    method Save(o: Outcomes) returns (rc: int)
      requires Valid()
      modifies disk
      ensures disk.files == if path == "" then old(disk.files) else SavedFiles(old(disk.files), Entries(), o)
      ensures rc == if path == "" || AllSucceed(o) then 0 else -1
    {
      if path == "" {
        return 0;
      }
      if !o.prepare {
        return -1;
      }
      var items: seq<Item> := [];
      for i := 0 to count
        invariant Array(items) == Dump(Entries()[..i])
      {
        items := items + [Record(table[i].name, table[i].isClean)];
      }
      assert Entries()[..count] == Entries();
      if !o.open {
        return -1;
      }
      disk.files := Opened(disk.files, o.partial);
      if !o.write {
        disk.files := Abandoned(disk.files);
        return -1;
      }
      if !o.close {
        disk.files := Abandoned(disk.files);
        return -1;
      }
      disk.files := disk.files.(temp := Some(Array(items)));
      if !o.rename {
        disk.files := Abandoned(disk.files);
        return -1;
      }
      disk.files := Renamed(disk.files);
      return 0;
    }

    method Set(name: string, isClean: bool, o: Outcomes) returns (rc: int)
      requires Valid()
      modifies this`count, table, disk
      ensures Valid() && Entries() == Updated(old(Entries()), name, isClean)
      ensures disk.files == if Changes(old(Entries()), name, isClean) && path != ""
                            then SavedFiles(old(disk.files), Entries(), o) else old(disk.files)
      ensures rc == if Refused(old(Entries()), name) then -1
                    else if !Changes(old(Entries()), name, isClean) || path == "" || AllSucceed(o) then 0 else -1
    {
      if name == "" {
        return -1;
      }
      var idx := Find(name);
      if idx.Some? {
        if table[idx.value].isClean == isClean {
          assert Updated(Entries(), name, isClean) == Entries();
          return 0;
        }
        table[idx.value] := Entry(table[idx.value].name, isClean);
        rc := Save(o);
        return rc;
      }
      if count >= MAX_TRACKED_VMS {
        return -1;
      }
      table[count] := Entry(ClipName(name), isClean);
      count := count + 1;
      rc := Save(o);
    }

    method MarkClean(name: string, o: Outcomes)
      requires Valid()
      modifies this`count, table, disk
      ensures Valid() && Entries() == Updated(old(Entries()), name, true)
      ensures disk.files == if Changes(old(Entries()), name, true) && path != ""
                            then SavedFiles(old(disk.files), Entries(), o) else old(disk.files)
    {
      var _ := Set(name, true, o);
    }

    method MarkDirty(name: string, o: Outcomes)
      requires Valid()
      modifies this`count, table, disk
      ensures Valid() && Entries() == Updated(old(Entries()), name, false)
      ensures disk.files == if Changes(old(Entries()), name, false) && path != ""
                            then SavedFiles(old(disk.files), Entries(), o) else old(disk.files)
    {
      var _ := Set(name, false, o);
    }

    method IsDirty(name: string, state: VmState, o: Outcomes) returns (dirty: bool)
      requires Valid()
      modifies this`count, table, disk
      ensures Valid() && dirty == Answer(old(Entries()), name, state)
      ensures Entries() == AfterQuery(old(Entries()), name, state)
      ensures disk.files == if Entries() != old(Entries()) && path != ""
                            then SavedFiles(old(disk.files), Entries(), o) else old(disk.files)
    {
      UnchangedIff(Entries(), name, false);
      if state == Running {
        MarkDirty(name, o);
        return true;
      }
      var idx := Find(name);
      if idx.Some? {
        return !table[idx.value].isClean;
      }
      if state == Paused {
        MarkDirty(name, o);
        return true;
      }
      return false;
    }

    method Shutdown()
      requires Valid()
      modifies this`count, this`path
      ensures Valid() && Entries() == [] && path == ""
    {
      count := 0;
      path := "";
    }

    /** Load the table from `path`; the file is only looked at when it is there. */
    method Init(path: string, access: Access) returns (rc: int)
      requires Valid()
      requires access == Present ==> disk.files.target.Some?
      modifies this`count, this`path, table
      ensures Valid() && disk.files == old(disk.files)
      ensures this.path == if |path| < PATH_MAX then path else ""
      ensures var loads := path != "" && |path| < PATH_MAX && access == Present;
              && Entries() == (if loads then LoadedDocument(disk.files.target).0 else [])
              && rc == if path == "" then 0
                       else if |path| >= PATH_MAX || access == Denied then -1
                       else if loads && !LoadedDocument(disk.files.target).1 then -1 else 0
    {
      Shutdown();
      if path == "" {
        return 0;
      }
      if |path| >= PATH_MAX {
        return -1;
      }
      this.path := path;
      if access != Present {
        return if access == Absent then 0 else -1;
      }
      match disk.files.target.value
      case Unparsable => return -1;
      case NotAnArray => return -1;
      case Array(items) =>
        var i := 0;
        while i < |items|
          invariant i <= |items| && Valid() && disk.files == old(disk.files) && this.path == path
          invariant Entries() == Loaded(items, i)
        {
          if items[i].Record? {
            if count >= MAX_TRACKED_VMS {
              LoadedFull(items, i);
              break;
            }
            if items[i].name != "" {
              table[count] := Entry(ClipName(items[i].name), items[i].isClean);
              count := count + 1;
            }
          }
          i := i + 1;
        }
        return 0;
    }
  }

  /** Once the table is full the rest of the document changes nothing. */
  lemma {:induction false} LoadedFull(items: seq<Item>, n: nat)
    requires n <= |items| && |Loaded(items, n)| == MAX_TRACKED_VMS
    ensures Loaded(items, |items|) == Loaded(items, n)
    decreases |items| - n
  {
    if n < |items| {
      LoadedFull(items, n + 1);
    }
  }

  /** A set changes the table exactly when it goes on to save. */
  lemma UnchangedIff(es: seq<Entry>, name: string, isClean: bool)
    ensures Updated(es, name, isClean) != es <==> Changes(es, name, isClean)
  {
    if !Changes(es, name, isClean) {
      UnchangedKeeps(es, name, isClean);
    } else {
      match FindFrom(es, name, 0)
      case Some(i) => assert es[i := Entry(es[i].name, isClean)][i] != es[i];
      case None => assert |Updated(es, name, isClean)| == |es| + 1;
    }
  }
}
