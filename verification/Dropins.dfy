/** config_load_dropins of src/config.c: the .conf files of a directory, in alphabetical order. */
module Dropins {
  import opened Wrappers
  import opened UrlCodec
  import opened ConfigText
  import opened Config

  /** strcmp(a, b) <= 0. */
  predicate Before(a: string, b: string) {
    a == "" || (b != "" && (a[0] < b[0] || (a[0] == b[0] && Before(a[1..], b[1..]))))
  }

  lemma {:induction false} BeforeTotal(a: string, b: string)
    ensures Before(a, b) || Before(b, a)
    ensures Before(a, b) && Before(b, a) ==> a == b
  {
    if a != "" && b != "" && a[0] == b[0] {
      BeforeTotal(a[1..], b[1..]);
      assert a == [a[0]] + a[1..] && b == [b[0]] + b[1..];
    }
  }

  lemma {:induction false} BeforeTrans(a: string, b: string, c: string)
    requires Before(a, b) && Before(b, c)
    ensures Before(a, c)
  {
    if a != "" && a[0] == b[0] && b[0] == c[0] {
      BeforeTrans(a[1..], b[1..], c[1..]);
    }
  }

  /** The first text ends within the second, or is the smaller one where they first differ. */
  lemma {:induction false} BeforeIff(a: string, b: string)
    ensures Before(a, b) <==> a <= b || exists k: nat :: Differ(a, b, k)
  {
    if a != "" && b != "" {
      if a[0] != b[0] {
        assert a[0] < b[0] ==> Differ(a, b, 0);
      } else {
        BeforeIff(a[1..], b[1..]);
        assert a <= b <==> a[1..] <= b[1..] by {
          assert a == [a[0]] + a[1..] && b == [b[0]] + b[1..];
        }
        if k: nat :| Differ(a, b, k) {
          assert a[1..][..k - 1] == a[..k][1..] == b[..k][1..] == b[1..][..k - 1];
          assert Differ(a[1..], b[1..], k - 1);
        }
        if k: nat :| Differ(a[1..], b[1..], k) {
          assert a[..k + 1] == [a[0]] + a[1..][..k] && b[..k + 1] == [b[0]] + b[1..][..k];
          assert Differ(a, b, k + 1);
        }
      }
    }
  }

  predicate Differ(a: string, b: string, k: nat) {
    k < |a| && k < |b| && a[..k] == b[..k] && a[k] < b[k]
  }

  predicate Sorted(s: seq<string>) {
    forall i, j :: 0 <= i < j < |s| ==> Before(s[i], s[j])
  }

  function Insert(x: string, s: seq<string>): seq<string> {
    if s == [] || Before(x, s[0]) then [x] + s else [s[0]] + Insert(x, s[1..])
  }

  /** qsort with strcmp: by SortedOnce every sorting algorithm has this result. */
  function Sort(s: seq<string>): seq<string> {
    if s == [] then [] else Insert(s[0], Sort(s[1..]))
  }

  lemma ConsBag(s: seq<string>)
    requires s != []
    ensures multiset(s) == multiset{s[0]} + multiset(s[1..])
  {
    assert s == [s[0]] + s[1..];
  }

  lemma {:induction false} InsertKeeps(x: string, s: seq<string>)
    ensures multiset(Insert(x, s)) == multiset{x} + multiset(s)
    ensures forall k :: 0 <= k < |Insert(x, s)| ==> Insert(x, s)[k] == x || Insert(x, s)[k] in s
  {
    ConsBag(Insert(x, s));
    if s != [] {
      ConsBag(s);
      if !Before(x, s[0]) {
        InsertKeeps(x, s[1..]);
      }
    }
  }

  lemma ConsSorts(x: string, s: seq<string>)
    requires Sorted(s) && forall k :: 0 <= k < |s| ==> Before(x, s[k])
    ensures Sorted([x] + s)
  {
  }

  lemma {:induction false} InsertSorts(x: string, s: seq<string>)
    requires Sorted(s)
    ensures Sorted(Insert(x, s))
  {
    if s == [] || Before(x, s[0]) {
      forall k | 0 <= k < |s| ensures Before(x, s[k]) {
        if k > 0 {
          BeforeTrans(x, s[0], s[k]);
        }
      }
      ConsSorts(x, s);
    } else {
      BeforeTotal(x, s[0]);
      InsertSorts(x, s[1..]);
      InsertKeeps(x, s[1..]);
      ConsSorts(s[0], Insert(x, s[1..]));
    }
  }

  lemma {:induction false} SortSorts(s: seq<string>)
    ensures Sorted(Sort(s)) && multiset(Sort(s)) == multiset(s)
  {
    if s != [] {
      SortSorts(s[1..]);
      InsertSorts(s[0], Sort(s[1..]));
      InsertKeeps(s[0], Sort(s[1..]));
      ConsBag(s);
    }
  }

  lemma HeadIsLeast(s: seq<string>, x: string)
    requires Sorted(s) && x in multiset(s)
    ensures s != [] && Before(s[0], x)
  {
    var k :| 0 <= k < |s| && s[k] == x;
    BeforeTotal(x, x);
  }

  /** There is only one sorted arrangement. */
  lemma {:induction false} SortedOnce(s: seq<string>, t: seq<string>)
    requires Sorted(s) && Sorted(t) && multiset(s) == multiset(t)
    ensures s == t
  {
    assert |multiset(s)| == |s| && |multiset(t)| == |t|;
    if s != [] {
      ConsBag(s);
      ConsBag(t);
      assert s[0] in multiset(t) && t[0] in multiset(s);
      HeadIsLeast(t, s[0]);
      HeadIsLeast(s, t[0]);
      BeforeTotal(s[0], t[0]);
      CancelHead(s[0], multiset(s[1..]), multiset(t[1..]));
      SortedOnce(s[1..], t[1..]);
    }
  }

  lemma CancelHead(x: string, a: multiset<string>, b: multiset<string>)
    requires multiset{x} + a == multiset{x} + b
    ensures a == b
  {
    assert a == multiset{x} + a - multiset{x};
    assert b == multiset{x} + b - multiset{x};
  }

  predicate IsConf(name: string) {
    |name| > 5 && name[|name| - 5..] == ".conf"
  }

  function Confs(names: seq<string>): seq<string> {
    if names == [] then []
    else Confs(names[..|names| - 1]) + if IsConf(names[|names| - 1]) then [names[|names| - 1]] else []
  }

  const FILES := 128

  /** The names that the first loop keeps. */
  function Collected(names: seq<string>): seq<string> {
    if |Confs(names)| <= FILES then Confs(names) else Confs(names)[..FILES]
  }

  /** What reading one file does: unreadable, empty and oversized files are passed over. */
  function ReadFile(c: Settings, name: string, disk: map<string, string>): Settings {
    if name in disk && 0 < |disk[name]| < 65536 then Parsed(c, CString(disk[name])) else c
  }

  function ReadFiles(c: Settings, names: seq<string>, disk: map<string, string>): Settings {
    if names == [] then c
    else ReadFile(ReadFiles(c, names[..|names| - 1], disk), names[|names| - 1], disk)
  }

  /** What the directory means. */
  function Loaded(c: Settings, dir: seq<string>, disk: map<string, string>): Settings {
    ReadFiles(c, Sort(Collected(dir)), disk)
  }

  lemma {:induction false} ConfsGrow(names: seq<string>, i: nat)
    requires i <= |names|
    ensures Confs(names[..i]) <= Confs(names)
  {
    if i < |names| {
      ConfsGrow(names[..|names| - 1], i);
      assert names[..|names| - 1][..i] == names[..i];
    } else {
      assert names[..i] == names;
    }
  }

  /** Names behind the first 128 files make no difference. */
  lemma EnoughIsEnough(names: seq<string>, more: seq<string>)
    requires |Confs(names)| >= 128
    ensures Collected(names + more) == Collected(names) && |Collected(names)| == 128
  {
    ConfsGrow(names + more, |names|);
    assert (names + more)[..|names|] == names;
  }

  /** The loop over readdir, which stops at 128 files. */
  method Collect(names: seq<string>) returns (files: seq<string>)
    ensures files == Collected(names)
  {
    files := [];
    var i := 0;
    while i < |names| && |files| < FILES
      invariant i <= |names| && |files| <= FILES && files == Confs(names[..i])
    {
      assert names[..i + 1][..i] == names[..i];
      if IsConf(names[i]) {
        files := files + [names[i]];
      }
      i := i + 1;
    }
    ConfsGrow(names, i);
    assert names[..|names|] == names;
  }

  /** config_load_dropins: the number of files that were collected, readable or not. */
  method LoadDropins(cfg: QswmConfig, dir: Option<seq<string>>, disk: map<string, string>) returns (count: nat)
    modifies cfg
    ensures dir.None? ==> count == 0 && cfg.Value() == old(cfg.Value())
    ensures dir.Some? ==> count == |Collected(dir.value)|
                          && cfg.Value() == Loaded(old(cfg.Value()), dir.value, disk)
  {
    if dir.None? {
      return 0;
    }
    var files := Collect(dir.value);
    count := |files|;
    files := Sort(files);
    assert files[..0] == [];
    hide Parsed, CString;
    for i := 0 to |files|
      invariant cfg.Value() == ReadFiles(old(cfg.Value()), files[..i], disk)
    {
      assert files[..i + 1][..i] == files[..i];
      if files[i] in disk && 0 < |disk[files[i]]| < 65536 {
        cfg.ParseBuffer(CString(disk[files[i]]));
      }
    }
    assert files[..|files|] == files;
  }

  lemma {:induction false} ConfsCount(names: seq<string>, x: string)
    ensures multiset(Confs(names))[x] == if IsConf(x) then multiset(names)[x] else 0
  {
    if names != [] {
      var n := |names| - 1;
      ConfsCount(names[..n], x);
      assert names == names[..n] + [names[n]];
    }
  }

  /** As long as the directory holds at most 128 .conf files, the order in which readdir returns them
      makes no difference. */
  lemma OrderIsFree(c: Settings, dir: seq<string>, dir2: seq<string>, disk: map<string, string>)
    requires multiset(dir) == multiset(dir2) && |Confs(dir)| <= FILES
    ensures Loaded(c, dir, disk) == Loaded(c, dir2, disk)
  {
    var s, t := Confs(dir), Confs(dir2);
    forall x ensures multiset(s)[x] == multiset(t)[x] {
      ConfsCount(dir, x);
      ConfsCount(dir2, x);
    }
    assert multiset(s) == multiset(t);
    assert |multiset(s)| == |s| && |multiset(t)| == |t|;
    SortSorts(s);
    SortSorts(t);
    SortedOnce(Sort(s), Sort(t));
  }

  /** A name counts if and only if something stands in front of its ".conf". */
  lemma IsConfIff(name: string)
    ensures IsConf(name) <==> exists stem :: stem != "" && name == stem + ".conf"
  {
    if IsConf(name) {
      assert name == name[..|name| - 5] + ".conf";
    }
  }

  /** All assignments of the files that can be read, one file after the other. */
  function AllAssignments(names: seq<string>, disk: map<string, string>): seq<Assignment> {
    if names == [] then []
    else
      var name := names[|names| - 1];
      AllAssignments(names[..|names| - 1], disk)
      + if name in disk && 0 < |disk[name]| < 65536 then Assignments(CString(disk[name])) else []
  }

  lemma {:induction false} ReadFilesApplies(c: Settings, names: seq<string>, disk: map<string, string>)
    ensures ReadFiles(c, names, disk) == Apply(c, AllAssignments(names, disk))
  {
    if names != [] {
      var n := |names| - 1;
      var name := names[n];
      var init := AllAssignments(names[..n], disk);
      ReadFilesApplies(c, names[..n], disk);
      if name in disk && 0 < |disk[name]| < 65536 {
        ApplyConcat(c, init, Assignments(CString(disk[name])));
      } else {
        assert AllAssignments(names, disk) == init;
      }
    }
  }

  /** Over all files in alphabetical order, the last assignment of each key wins. */
  lemma LastFileWins(c: Settings, dir: seq<string>, disk: map<string, string>)
    ensures var found := AllAssignments(Sort(Collected(dir)), disk);
            Loaded(c, dir, disk) == Settings(Number(LastOf(found, "port"), c.port),
                                             Number(LastOf(found, "idle_timeout"), c.idleTimeout),
                                             Text(LastOf(found, "uri"), c.uri),
                                             Text(LastOf(found, "static_dir"), c.staticDir),
                                             Text(LastOf(found, "dirty_state_path"), c.dirtyStatePath))
  {
    ReadFilesApplies(c, Sort(Collected(dir)), disk);
    LastWins(c, AllAssignments(Sort(Collected(dir)), disk));
  }
}
