/** Snapshots that live inside the disk images but are unknown to libvirt: the scan and the cleanup of
    src/libvirt_backend.c. */
module Orphans {
  import opened Wrappers
  import opened Counting

  /** What the program sees of a domain: its state, the disks it lists, the disks whose listing command can be
      started, libvirt's own snapshots, and whether libvirt answers when asked for them. */
  datatype Domain = Domain(shutOff: bool, disks: seq<string>, readable: set<string>, metadata: seq<string>,
                           answers: bool)

  /** The names that the loops compare with.  A failed count is taken for "no snapshots". */
  function Known(d: Domain): seq<string> {
    if d.answers then d.metadata else []
  }

  /** The snapshot names stored in each image. */
  type Images = map<string, seq<string>>

  function NamesOn(images: Images, path: string): seq<string> {
    if path in images then images[path] else []
  }

  /** The listing of disk number `i` shows the name. */
  predicate Shows(images: Images, d: Domain, i: nat, name: string)
    requires i < |d.disks|
  {
    d.disks[i] in d.readable && name in NamesOn(images, d.disks[i])
  }

  ghost predicate ShownBefore(images: Images, d: Domain, n: nat, name: string)
    requires n <= |d.disks|
  {
    exists i: nat :: i < n && Shows(images, d, i, name)
  }

  /** A name on some disk that libvirt did not list. */
  ghost predicate IsOrphan(images: Images, d: Domain, name: string) {
    name !in Known(d) && ShownBefore(images, d, |d.disks|, name)
  }

  lemma ShownNext(images: Images, d: Domain, n: nat, name: string)
    requires n < |d.disks|
    ensures ShownBefore(images, d, n + 1, name) <==> ShownBefore(images, d, n, name) || Shows(images, d, n, name)
  {
  }

  /** One `qemu-img snapshot -d` and its exit status. */
  datatype Attempt = Attempt(path: string, name: string, ok: bool)

  datatype Shop = Shop(images: Images, log: seq<Attempt>)

  /** An image without the first snapshot of that name. */
  function Remove(names: seq<string>, name: string): seq<string> {
    if names == [] then [] else if names[0] == name then names[1..] else [names[0]] + Remove(names[1..], name)
  }

  /** One deletion: the command succeeds or fails as its environment decides. */
  function Try(s: Shop, path: string, name: string, ok: bool): Shop {
    Shop(if ok then s.images[path := Remove(NamesOn(s.images, path), name)] else s.images,
         s.log + [Attempt(path, name, ok)])
  }

  /** The inner loop of the cleanup. */
  function CleanNames(s: Shop, path: string, names: seq<string>, known: seq<string>, works: nat -> bool): Shop {
    if names == [] then s
    else
      var before := CleanNames(s, path, names[..|names| - 1], known, works);
      var name := names[|names| - 1];
      if name in known then before else Try(before, path, name, works(|before.log|))
  }

  /** The outer loop of the cleanup. */
  function CleanDisks(s: Shop, disks: seq<string>, d: Domain, works: nat -> bool): Shop {
    if disks == [] then s
    else
      var before := CleanDisks(s, disks[..|disks| - 1], d, works);
      var path := disks[|disks| - 1];
      if path !in d.readable then before
      else CleanNames(before, path, NamesOn(before.images, path), Known(d), works)
  }

  function Successes(log: seq<Attempt>): nat {
    if log == [] then 0 else Successes(log[..|log| - 1]) + if log[|log| - 1].ok then 1 else 0
  }

  /** How often a deletion of `name` on `path` ended with `ok`. */
  function Tries(log: seq<Attempt>, path: string, name: string, ok: bool): nat {
    if log == [] then 0
    else Tries(log[..|log| - 1], path, name, ok) + if log[|log| - 1] == Attempt(path, name, ok) then 1 else 0
  }

  /** The images of a host and the commands on them. */
  class Host {
    var images: Images

    /** lv_scan_orphan_snapshots: nothing while the VM is not shut off. */
    method Scan(d: Domain) returns (orphans: seq<string>)
      ensures Distinct(orphans)
      ensures forall name :: name in orphans <==> d.shutOff && IsOrphan(images, d, name)
    {
      orphans := [];
      if !d.shutOff {
        return;
      }
      for i := 0 to |d.disks|
        invariant Distinct(orphans)
        invariant forall name :: name in orphans <==> name !in Known(d) && ShownBefore(images, d, i, name)
      {
        forall name {
          ShownNext(images, d, i, name);
        }
        if d.disks[i] in d.readable {
          orphans := ScanNames(NamesOn(images, d.disks[i]), Known(d), orphans);
        }
      }
    }

    /** The work on one disk: names that libvirt knows or that were found before are passed over. */
    method ScanNames(names: seq<string>, known: seq<string>, found: seq<string>) returns (orphans: seq<string>)
      requires Distinct(found)
      ensures Distinct(orphans)
      ensures forall name :: name in orphans <==> name in found || (name in names && name !in known)
    {
      orphans := found;
      for q := 0 to |names|
        invariant Distinct(orphans)
        invariant forall name :: name in orphans <==> name in found || (name in names[..q] && name !in known)
      {
        if names[q] !in known && names[q] !in orphans {
          orphans := orphans + [names[q]];
        }
      }
      assert names[..|names|] == names;
    }

    /** lv_cleanup_orphan_snapshots: -1 and nothing done while the VM is not shut off. */
    method Cleanup(d: Domain, works: nat -> bool) returns (total: int, ghost log: seq<Attempt>)
      modifies this
      ensures !d.shutOff ==> total == -1 && images == old(images) && log == []
      ensures d.shutOff ==> Shop(images, log) == CleanDisks(Shop(old(images), []), d.disks, d, works)
      ensures d.shutOff ==> total == Successes(log)
    {
      log := [];
      if !d.shutOff {
        return -1, [];
      }
      total := 0;
      var tries := 0;
      ghost var start := Shop(images, []);
      for i := 0 to |d.disks|
        invariant Shop(images, log) == CleanDisks(start, d.disks[..i], d, works)
        invariant total == Successes(log) && tries == |log|
      {
        assert d.disks[..i + 1][..i] == d.disks[..i];
        var path := d.disks[i];
        if path !in d.readable {
          continue;
        }
        total, tries, log := CleanDisk(path, Known(d), works, total, tries, log);
      }
      assert d.disks[..|d.disks|] == d.disks;
    }

    /** The work on one disk. */
    method CleanDisk(path: string, known: seq<string>, works: nat -> bool, total0: int, tries0: nat,
                     ghost log0: seq<Attempt>)
      returns (total: int, tries: nat, ghost log: seq<Attempt>)
      requires total0 == Successes(log0) && tries0 == |log0|
      modifies this
      ensures Shop(images, log) == CleanNames(Shop(old(images), log0), path, NamesOn(old(images), path), known, works)
      ensures total == Successes(log) && tries == |log|
    {
      total, tries, log := total0, tries0, log0;
      ghost var start := Shop(images, log0);
      var names := NamesOn(images, path);
      for q := 0 to |names|
        invariant Shop(images, log) == CleanNames(start, path, names[..q], known, works)
        invariant total == Successes(log) && tries == |log|
      {
        assert names[..q + 1][..q] == names[..q];
        if names[q] in known {
          continue;
        }
        var ok := works(tries);
        if ok {
          images := images[path := Remove(NamesOn(images, path), names[q])];
          total := total + 1;
        }
        tries := tries + 1;
        log := log + [Attempt(path, names[q], ok)];
        assert log[..|log| - 1] + [log[|log| - 1]] == log;
      }
      assert names[..|names|] == names;
    }
  }
}
