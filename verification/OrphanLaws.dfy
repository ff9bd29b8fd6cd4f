/** What the cleanup keeps, removes and leaves. */
module OrphanLaws {
  import opened Counting
  import opened Orphans

  function Count(names: seq<string>, x: string): nat {
    multiset(names)[x]
  }

  lemma {:induction false} RemoveCounts(names: seq<string>, name: string, x: string)
    ensures Count(Remove(names, name), x) == Count(names, x) - if x == name && name in names then 1 else 0
  {
    if names != [] {
      assert names == [names[0]] + names[1..];
      if names[0] != name {
        RemoveCounts(names[1..], name, x);
      }
    }
  }

  lemma CountIn(names: seq<string>, x: string)
    ensures Count(names, x) > 0 <==> x in names
  {
  }

  lemma TriesSnoc(log: seq<Attempt>, a: Attempt, path: string, x: string, ok: bool)
    ensures Tries(log + [a], path, x, ok) == Tries(log, path, x, ok) + if a == Attempt(path, x, ok) then 1 else 0
  {
    assert (log + [a])[..|log|] == log;
  }

  lemma TryCounts(s: Shop, path: string, name: string, ok: bool, p: string, x: string)
    requires name in NamesOn(s.images, path)
    ensures var r := Try(s, path, name, ok); var one := if p == path && x == name then 1 else 0;
            Count(NamesOn(r.images, p), x) == Count(NamesOn(s.images, p), x) - (if ok then one else 0)
            && Tries(r.log, p, x, true) == Tries(s.log, p, x, true) + (if ok then one else 0)
            && Tries(r.log, p, x, false) == Tries(s.log, p, x, false) + (if ok then 0 else one)
  {
    RemoveCounts(NamesOn(s.images, path), name, x);
    TriesSnoc(s.log, Attempt(path, name, ok), p, x, true);
    TriesSnoc(s.log, Attempt(path, name, ok), p, x, false);
  }

  lemma CountSnoc(names: seq<string>, x: string)
    requires names != []
    ensures Count(names, x) == Count(names[..|names| - 1], x) + if names[|names| - 1] == x then 1 else 0
  {
    assert names == names[..|names| - 1] + [names[|names| - 1]];
  }

  /** Between two states, for one name on one path: what is gone was deleted, and `n` deletions were tried. */
  predicate Counted(s: Shop, r: Shop, p: string, x: string, n: nat) {
    Count(NamesOn(r.images, p), x) + Tries(r.log, p, x, true) == Count(NamesOn(s.images, p), x) + Tries(s.log, p, x, true)
    && Tries(r.log, p, x, true) + Tries(r.log, p, x, false) == Tries(s.log, p, x, true) + Tries(s.log, p, x, false) + n
    && Tries(r.log, p, x, true) >= Tries(s.log, p, x, true)
    && Tries(r.log, p, x, false) >= Tries(s.log, p, x, false)
  }

  /** Cleaning one disk from its listing tries every copy of every unknown name once, and no other name. */
  lemma {:induction false} NamesCounted(s: Shop, path: string, names: seq<string>, known: seq<string>,
                                        works: nat -> bool, p: string, x: string)
    requires forall y :: Count(names, y) <= Count(NamesOn(s.images, path), y)
    ensures Counted(s, CleanNames(s, path, names, known, works), p, x,
                    if p == path && x !in known then Count(names, x) else 0)
  {
    if names != [] {
      var init, name := names[..|names| - 1], names[|names| - 1];
      var before := CleanNames(s, path, init, known, works);
      forall y ensures Count(init, y) <= Count(NamesOn(s.images, path), y) {
        CountSnoc(names, y);
      }
      NamesCounted(s, path, init, known, works, p, x);
      CountSnoc(names, x);
      if name !in known {
        NamesCounted(s, path, init, known, works, path, name);
        CountSnoc(names, name);
        var ok := works(|before.log|);
        TryCounts(before, path, name, ok, p, x);
      }
    }
  }

  /** The whole cleanup, counted for one name on one path. */
  lemma {:induction false} DisksCounted(s: Shop, disks: seq<string>, d: Domain, works: nat -> bool, p: string, x: string)
    returns (n: nat)
    ensures Counted(s, CleanDisks(s, disks, d, works), p, x, n)
    ensures (x in Known(d) || p !in disks || p !in d.readable) ==> n == 0
    ensures var r := CleanDisks(s, disks, d, works);
            x !in Known(d) && p in disks && p in d.readable ==>
              Count(NamesOn(r.images, p), x) + Tries(s.log, p, x, false) <= Tries(r.log, p, x, false)
    ensures var r := CleanDisks(s, disks, d, works);
            x !in Known(d) && p in disks && p in d.readable && Distinct(disks) ==>
              Count(NamesOn(r.images, p), x) + Tries(s.log, p, x, false) == Tries(r.log, p, x, false)
  {
    if disks == [] {
      n := 0;
    } else {
      var init, path := disks[..|disks| - 1], disks[|disks| - 1];
      var before := CleanDisks(s, init, d, works);
      var m := DisksCounted(s, init, d, works, p, x);
      assert disks == init + [path];
      if path in d.readable {
        NamesCounted(before, path, NamesOn(before.images, path), Known(d), works, p, x);
        n := m + if p == path && x !in Known(d) then Count(NamesOn(before.images, path), x) else 0;
      } else {
        n := m;
      }
    }
  }

  /** The state after a cleanup. */
  function Cleaned(images: Images, d: Domain, works: nat -> bool): Shop {
    CleanDisks(Shop(images, []), d.disks, d, works)
  }

  /** What has disappeared from an image was deleted by a command that succeeded, copy by copy. */
  lemma CleanupConserves(images: Images, d: Domain, works: nat -> bool, p: string, x: string)
    ensures var r := Cleaned(images, d, works);
            Count(NamesOn(images, p), x) == Count(NamesOn(r.images, p), x) + Tries(r.log, p, x, true)
  {
    var n := DisksCounted(Shop(images, []), d.disks, d, works, p, x);
  }

  /** A snapshot that libvirt listed is kept on every disk. */
  lemma CleanupKeepsKnown(images: Images, d: Domain, works: nat -> bool, p: string, x: string)
    requires x in Known(d)
    ensures Count(NamesOn(Cleaned(images, d, works).images, p), x) == Count(NamesOn(images, p), x)
  {
    var n := DisksCounted(Shop(images, []), d.disks, d, works, p, x);
  }

  /** The orphans left on a disk are exactly those whose deletion failed. */
  lemma LeftoversFailed(images: Images, d: Domain, works: nat -> bool, p: string, x: string)
    requires Distinct(d.disks) && p in d.disks && p in d.readable && x !in Known(d)
    ensures var r := Cleaned(images, d, works); Count(NamesOn(r.images, p), x) == Tries(r.log, p, x, false)
  {
    var n := DisksCounted(Shop(images, []), d.disks, d, works, p, x);
  }

  ghost predicate AllOk(log: seq<Attempt>) {
    forall k :: 0 <= k < |log| ==> log[k].ok
  }

  lemma {:induction false} NoFailures(log: seq<Attempt>, p: string, x: string)
    requires AllOk(log)
    ensures Tries(log, p, x, false) == 0
  {
    if log != [] {
      NoFailures(log[..|log| - 1], p, x);
    }
  }

  /** When no deletion failed, a scan finds nothing. */
  lemma NoneLeft(images: Images, d: Domain, works: nat -> bool, x: string)
    requires AllOk(Cleaned(images, d, works).log)
    ensures !IsOrphan(Cleaned(images, d, works).images, d, x)
  {
    var r := Cleaned(images, d, works);
    if IsOrphan(r.images, d, x) {
      var i: nat :| i < |d.disks| && Shows(r.images, d, i, x);
      var n := DisksCounted(Shop(images, []), d.disks, d, works, d.disks[i], x);
      NoFailures(r.log, d.disks[i], x);
      CountIn(NamesOn(r.images, d.disks[i]), x);
    }
  }

  /** What a scan after the cleanup finds: exactly the names with a failed deletion. */
  lemma LeftoversIff(images: Images, d: Domain, works: nat -> bool, x: string)
    requires Distinct(d.disks)
    ensures var r := Cleaned(images, d, works);
            IsOrphan(r.images, d, x) <==> exists i :: 0 <= i < |d.disks| && Tries(r.log, d.disks[i], x, false) > 0
  {
    var r := Cleaned(images, d, works);
    forall i: nat | i < |d.disks|
      ensures Tries(r.log, d.disks[i], x, false) > 0 <==> x !in Known(d) && Shows(r.images, d, i, x)
    {
      var n := DisksCounted(Shop(images, []), d.disks, d, works, d.disks[i], x);
      CountIn(NamesOn(r.images, d.disks[i]), x);
    }
    if i :| 0 <= i < |d.disks| && Tries(r.log, d.disks[i], x, false) > 0 {
      assert Shows(r.images, d, i, x);
    }
  }

  /** Nothing that libvirt has is lost from any image. */
  ghost predicate MetadataKept(images: Images, d: Domain, after: Images) {
    forall p, x :: x in d.metadata ==> Count(NamesOn(after, p), x) == Count(NamesOn(images, p), x)
  }

  /** libvirt's own snapshots are safe exactly when libvirt answered the question for them, or has none on the disks:
      a failed answer is read as "no snapshots", and then they are deleted like orphans. */
  lemma MetadataKeptIff(images: Images, d: Domain, works: nat -> bool)
    requires AllOk(Cleaned(images, d, works).log)
    ensures MetadataKept(images, d, Cleaned(images, d, works).images)
       <==> d.answers || forall i: nat, x :: i < |d.disks| && x in d.metadata ==> !Shows(images, d, i, x)
  {
    var r := Cleaned(images, d, works);
    if d.answers {
      forall p, x | x in d.metadata ensures Count(NamesOn(r.images, p), x) == Count(NamesOn(images, p), x) {
        CleanupKeepsKnown(images, d, works, p, x);
      }
    } else if i: nat, x :| i < |d.disks| && x in d.metadata && Shows(images, d, i, x) {
      var n := DisksCounted(Shop(images, []), d.disks, d, works, d.disks[i], x);
      NoFailures(r.log, d.disks[i], x);
      CountIn(NamesOn(images, d.disks[i]), x);
      assert Count(NamesOn(r.images, d.disks[i]), x) != Count(NamesOn(images, d.disks[i]), x);
    } else {
      forall p, x | x in d.metadata ensures Count(NamesOn(r.images, p), x) == Count(NamesOn(images, p), x) {
        var n := DisksCounted(Shop(images, []), d.disks, d, works, p, x);
        NotShown(images, d, p, x);
      }
    }
  }

  /** One disk with one snapshot that libvirt has: when libvirt does not answer, the cleanup deletes it. */
  lemma UnansweredLosesMetadata()
    ensures var images: Images := map["disk" := ["s"]];
            var d := Domain(true, ["disk"], {"disk"}, ["s"], false);
            Count(NamesOn(Cleaned(images, d, n => true).images, "disk"), "s") == 0
  {
    var images: Images := map["disk" := ["s"]];
    var d := Domain(true, ["disk"], {"disk"}, ["s"], false);
    var works: nat -> bool := n => true;
    var s := Shop(images, []);
    assert ["disk"][..0] == [] && ["s"][..0] == [];
    assert CleanNames(s, "disk", ["s"], [], works) == Try(s, "disk", "s", true);
    assert Cleaned(images, d, works) == CleanNames(s, "disk", ["s"], [], works);
    assert Remove(["s"], "s") == [];
  }

  lemma NotShown(images: Images, d: Domain, p: string, x: string)
    requires forall i: nat :: i < |d.disks| ==> !Shows(images, d, i, x)
    ensures p in d.disks && p in d.readable ==> Count(NamesOn(images, p), x) == 0
  {
    if p in d.disks && p in d.readable {
      var i: nat :| i < |d.disks| && d.disks[i] == p;
      assert !Shows(images, d, i, x);
      CountIn(NamesOn(images, p), x);
    }
  }

  /** All snapshots in the images of some paths. */
  function Total(images: Images, paths: seq<string>): nat {
    if paths == [] then 0 else Total(images, paths[..|paths| - 1]) + |NamesOn(images, paths[|paths| - 1])|
  }

  lemma {:induction false} RemoveLength(names: seq<string>, name: string)
    requires name in names
    ensures |Remove(names, name)| == |names| - 1
  {
    if names[0] != name {
      RemoveLength(names[1..], name);
    }
  }

  lemma {:induction false} TryTotal(s: Shop, path: string, name: string, ok: bool, paths: seq<string>)
    requires name in NamesOn(s.images, path) && Distinct(paths)
    ensures Total(Try(s, path, name, ok).images, paths)
         == Total(s.images, paths) - if ok && path in paths then 1 else 0
  {
    if paths != [] {
      var init := paths[..|paths| - 1];
      assert paths == init + [paths[|paths| - 1]];
      TryTotal(s, path, name, ok, init);
      RemoveLength(NamesOn(s.images, path), name);
    }
  }

  lemma SuccessesSnoc(log: seq<Attempt>, a: Attempt)
    ensures Successes(log + [a]) == Successes(log) + if a.ok then 1 else 0
  {
    assert (log + [a])[..|log|] == log;
  }

  lemma {:induction false} NamesTotal(s: Shop, path: string, names: seq<string>, known: seq<string>,
                                      works: nat -> bool, paths: seq<string>)
    requires forall y :: Count(names, y) <= Count(NamesOn(s.images, path), y)
    requires Distinct(paths) && path in paths
    ensures var r := CleanNames(s, path, names, known, works);
            Total(r.images, paths) + Successes(r.log) == Total(s.images, paths) + Successes(s.log)
  {
    if names != [] {
      var init, name := names[..|names| - 1], names[|names| - 1];
      var before := CleanNames(s, path, init, known, works);
      forall y ensures Count(init, y) <= Count(NamesOn(s.images, path), y) {
        CountSnoc(names, y);
      }
      NamesTotal(s, path, init, known, works, paths);
      if name !in known {
        NamesCounted(s, path, init, known, works, path, name);
        CountSnoc(names, name);
        var ok := works(|before.log|);
        TryTotal(before, path, name, ok, paths);
        SuccessesSnoc(before.log, Attempt(path, name, ok));
      }
    }
  }

  lemma {:induction false} DisksTotal(s: Shop, disks: seq<string>, d: Domain, works: nat -> bool, paths: seq<string>)
    requires Distinct(paths) && forall path :: path in disks ==> path in paths
    ensures var r := CleanDisks(s, disks, d, works);
            Total(r.images, paths) + Successes(r.log) == Total(s.images, paths) + Successes(s.log)
  {
    if disks != [] {
      var init, path := disks[..|disks| - 1], disks[|disks| - 1];
      var before := CleanDisks(s, init, d, works);
      DisksTotal(s, init, d, works, paths);
      if path in d.readable {
        NamesTotal(before, path, NamesOn(before.images, path), Known(d), works, paths);
      }
    }
  }

  /** The reported count is the number of snapshots that are gone, over all disks. */
  lemma CountIsRemoved(images: Images, d: Domain, works: nat -> bool, paths: seq<string>)
    requires Distinct(paths) && forall path :: path in d.disks ==> path in paths
    ensures var r := Cleaned(images, d, works); Successes(r.log) == Total(images, paths) - Total(r.images, paths)
  {
    DisksTotal(Shop(images, []), d.disks, d, works, paths);
  }

  /** Cleaning up and scanning again: after a cleanup without failures the scan is empty. */
  method CleanThenScan(host: Host, d: Domain, works: nat -> bool) returns (total: int, orphans: seq<string>)
    requires d.shutOff
    modifies host
    ensures total == Successes(Cleaned(old(host.images), d, works).log)
    ensures AllOk(Cleaned(old(host.images), d, works).log) ==> orphans == []
  {
    ghost var was := host.images;
    ghost var log;
    total, log := host.Cleanup(d, works);
    orphans := host.Scan(d);
    if AllOk(log) && orphans != [] {
      assert orphans[0] in orphans;
      NoneLeft(was, d, works, orphans[0]);
    }
  }
}
