/** clean_up_videos.py: the retention sweep over final_videos, meant to run
    on a schedule. */
module CleanUpVideos {
  import opened Files
  import opened Host

  /** How long a finished video is kept: 24 hours. */
  const MaxAgeSeconds: nat := 86400

  /** A regular file whose age at `now` is strictly above the limit. */
  predicate Expired(e: Entry, now: real) {
    e.RegularFile? && now - e.mtime > MaxAgeSeconds as real
  }

  /** The entries one sweep at `now` removes: the expired regular files
      directly in dir, except those whose removal raises OSError. */
  function Doomed(fs: FileMap, dir: Path, now: real, undeletable: set<string>): (doomed: set<Path>)
    ensures doomed <= ChildPaths(fs, dir)
  {
    set p | p in fs && ChildOf(p, dir) && Expired(fs[p], now) && Name(p) !in undeletable
  }

  /** Deletes the files in final_videos older than MaxAgeSeconds and returns
      how many it deleted. `now` is read once; `undeletable` names the files
      whose os.remove raises OSError, which is reported and skipped. A
      missing directory means there is nothing to do; a regular file in its
      place makes os.listdir raise. */
  method CleanupOldVideos(h: Machine, now: real, undeletable: set<string>) returns (r: Result<nat>)
    modifies h`fs
    ensures var d := h.FinalDir();
      if d !in old(h.fs) then
        r == Ok(0) && h.fs == old(h.fs)
      else if old(h.fs)[d].RegularFile? then
        r == Err(OSError(20, "Not a directory", d)) && h.fs == old(h.fs)
      else
        var doomed := Doomed(old(h.fs), d, now, undeletable);
        r == Ok(|doomed|) && h.fs == old(h.fs) - doomed
  {
    var d := h.FinalDir();
    if d !in h.fs {
      return Ok(0);
    }
    if h.fs[d].RegularFile? {
      return Err(OSError(20, "Not a directory", d));
    }
    ghost var fs0 := h.fs;
    ghost var doomed := Doomed(fs0, d, now, undeletable);
    // os.listdir: the names are taken once, in no particular order
    var todo := ChildPaths(h.fs, d);
    var deleted := 0;
    ghost var removed: set<Path> := {};
    while todo != {}
      invariant todo <= ChildPaths(fs0, d)
      invariant removed == doomed - todo
      invariant h.fs == fs0 - removed
      invariant deleted == |removed|
      decreases |todo|
    {
      var p :| p in todo;
      assert p in fs0 && ChildOf(p, d) && p !in removed;
      var entry := h.fs[p];
      assert entry == fs0[p];
      if entry.RegularFile? {
        var age := now - entry.mtime;
        if age > MaxAgeSeconds as real {
          if Name(p) in undeletable {
            // os.remove raised OSError: reported, not counted, and the sweep goes on
            SkipStep(doomed, todo, removed, p);
          } else {
            assert p in doomed;
            RemoveStep(doomed, todo, removed, p);
            RemoveOneMore(fs0, removed, p);
            h.fs := h.fs - {p};
            deleted := deleted + 1;
            removed := removed + {p};
          }
        } else {
          SkipStep(doomed, todo, removed, p);
        }
      } else {
        SkipStep(doomed, todo, removed, p);
      }
      todo := todo - {p};
    }
    assert removed == doomed;
    r := Ok(deleted);
  }

  /** Bookkeeping of a skipped entry: what is removed so far is still the
      doomed entries already visited. */
  lemma SkipStep(doomed: set<Path>, todo: set<Path>, removed: set<Path>, p: Path)
    requires removed == doomed - todo && p in todo && p !in doomed
    ensures removed == doomed - (todo - {p})
  {
  }

  /** Bookkeeping of a removed entry: it joins the removed ones, once. */
  lemma RemoveStep(doomed: set<Path>, todo: set<Path>, removed: set<Path>, p: Path)
    requires removed == doomed - todo && p in todo && p in doomed
    ensures removed + {p} == doomed - (todo - {p}) && |removed + {p}| == |removed| + 1
  {
  }

  /** Removing one more entry is removing the larger set. */
  lemma RemoveOneMore(fs: FileMap, removed: set<Path>, p: Path)
    ensures (fs - removed) - {p} == fs - (removed + {p})
  {
  }

  /** The selection rule: an entry goes exactly when it is a regular file
      directly in dir, strictly older than the limit, and removable. */
  lemma SweepRule(fs: FileMap, dir: Path, now: real, undeletable: set<string>, p: Path)
    requires p in fs
    ensures p in Doomed(fs, dir, now, undeletable) <==>
      ChildOf(p, dir) && fs[p].RegularFile? && now - fs[p].mtime > 86400.0 && Name(p) !in undeletable
  {
  }

  /** A file exactly MaxAgeSeconds old is kept: the comparison is strict. */
  lemma BoundaryFileKept(fs: FileMap, dir: Path, now: real, undeletable: set<string>, p: Path)
    requires p in fs && fs[p].RegularFile? && fs[p].mtime == now - 86400.0
    ensures p in fs - Doomed(fs, dir, now, undeletable)
  {
  }

  /** Only regular files directly in dir can go; everything else, and every
      file whose removal failed, stays as it was. */
  lemma SweepKeepsOthers(fs: FileMap, dir: Path, now: real, undeletable: set<string>, p: Path)
    requires p in fs
    requires !ChildOf(p, dir) || fs[p].Directory? || Name(p) in undeletable
    ensures var rest := fs - Doomed(fs, dir, now, undeletable);
      p in rest && rest[p] == fs[p]
  {
  }

  /** A second sweep at the same instant finds nothing more to delete. */
  lemma {:induction false} SweepIdempotent(fs: FileMap, dir: Path, now: real, undeletable: set<string>)
    ensures Doomed(fs - Doomed(fs, dir, now, undeletable), dir, now, undeletable) == {}
  {
  }

  /** A later sweep deletes at least what an earlier one over the same
      directory would. */
  lemma {:induction false} SweepMonotoneInTime(fs: FileMap, dir: Path, t1: real, t2: real, undeletable: set<string>)
    requires t1 <= t2
    ensures Doomed(fs, dir, t1, undeletable) <= Doomed(fs, dir, t2, undeletable)
  {
    forall p | p in Doomed(fs, dir, t1, undeletable)
      ensures p in Doomed(fs, dir, t2, undeletable)
    {
      assert t2 - fs[p].mtime >= t1 - fs[p].mtime;
    }
  }

  /** The count equals the number of entries that disappeared, and never
      exceeds the number of entries os.listdir returned. */
  lemma {:induction false} SweepCount(fs: FileMap, dir: Path, now: real, undeletable: set<string>)
    ensures var doomed := Doomed(fs, dir, now, undeletable);
      |doomed| <= |ChildPaths(fs, dir)| && |(fs - doomed).Keys| == |fs.Keys| - |doomed|
  {
    var doomed := Doomed(fs, dir, now, undeletable);
    SubsetCard(doomed, ChildPaths(fs, dir));
    assert (fs - doomed).Keys == fs.Keys - doomed;
    DifferenceCard(fs.Keys, doomed);
  }

  lemma {:induction false} SubsetCard<T>(a: set<T>, b: set<T>)
    requires a <= b
    ensures |a| <= |b|
    decreases |a|
  {
    if a != {} {
      var x :| x in a;
      SubsetCard(a - {x}, b - {x});
    }
  }

  lemma {:induction false} DifferenceCard<T>(a: set<T>, b: set<T>)
    requires b <= a
    ensures |a - b| == |a| - |b|
    decreases |b|
  {
    if b != {} {
      var x :| x in b;
      DifferenceCard(a - {x}, b - {x});
      assert a - b == (a - {x}) - (b - {x});
    }
  }
}
