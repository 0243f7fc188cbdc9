/** The retention sweep (`cleanup_loop`): every cycle walks the download
    tree once, with one reading of the clock, and moves each file older
    than the retention period to the archive directory, deleting it when
    the move fails and leaving it when the deletion fails too.

    The file system is abstract: the download tree is the set of its
    file paths, the archive maps each archive path to the download path of
    the file moved there, and what the walk finds (and whether reading the
    modification time, moving and removing succeed) is an input. */
module Cleanup {
  import opened Common
  import opened Text
  import opened Constants

  /** A file the walk yields: the directory it is in, its name, its
      modification time unless reading it raises, and whether `os.replace`
      and `os.remove` raise for it. */
  datatype Found = Found(root: string, name: string, mtime: Option<int>, moveFails: bool, removeFails: bool)

  /** `os.path.join(root, fname)`. */
  function PathOf(f: Found): string
  {
    PathJoin(f.root, f.name)
  }

  /** A file is old enough to go when its age reaches the retention period. */
  predicate Eligible(f: Found, now: int, retention: int)
  {
    f.mtime.Some? && now - f.mtime.value >= retention
  }

  /** What one pass of the inner loop does with a file. */
  datatype Fate = Skipped | Kept | Archived | Deleted | Stuck

  function FateOf(f: Found, now: int, retention: int): (r: Fate)
    ensures r == Skipped <==> f.mtime.None?
    ensures r == Kept <==> f.mtime.Some? && !Eligible(f, now, retention)
    ensures r == Archived <==> Eligible(f, now, retention) && !f.moveFails
    ensures r == Deleted <==> Eligible(f, now, retention) && f.moveFails && !f.removeFails
    ensures r == Stuck <==> Eligible(f, now, retention) && f.moveFails && f.removeFails
  {
    if f.mtime.None? then Skipped
    else if now - f.mtime.value < retention then Kept
    else if !f.moveFails then Archived
    else if !f.removeFails then Deleted
    else Stuck
  }

  /** Whether the file leaves the download tree. */
  predicate Clears(f: Found, now: int, retention: int)
  {
    FateOf(f, now, retention) == Archived || FateOf(f, now, retention) == Deleted
  }

  /** The paths a sweep over `walk` removes from the download tree. */
  function Cleared(walk: seq<Found>, now: int, retention: int): set<string>
  {
    if walk == [] then {}
    else
      var last := walk[|walk| - 1];
      Cleared(walk[..|walk| - 1], now, retention) + (if Clears(last, now, retention) then {PathOf(last)} else {})
  }

  /** The archive after a sweep over `walk`: a moved file lands at
      `archiveDir/<name>`, replacing what was there. */
  function ArchivedAfter(archive: map<string, string>, archiveDir: string, walk: seq<Found>, now: int, retention: int)
    : map<string, string>
  {
    if walk == [] then archive
    else
      var last := walk[|walk| - 1];
      var before := ArchivedAfter(archive, archiveDir, walk[..|walk| - 1], now, retention);
      if FateOf(last, now, retention) == Archived then before[PathJoin(archiveDir, last.name) := PathOf(last)]
      else before
  }

  /** The state of the two directories. */
  datatype Tree = Tree(downloads: set<string>, archive: map<string, string>)

  function SweepOnce(st: Tree, archiveDir: string, walk: seq<Found>, now: int, retention: int): Tree
  {
    Tree(st.downloads - Cleared(walk, now, retention), ArchivedAfter(st.archive, archiveDir, walk, now, retention))
  }

  /** One cycle of the outer loop: whether the stop event is set when
      the loop tests it, the clock reading, and what the walk yields. A walk
      that raises part-way yields the files it reached. */
  datatype Cycle = Cycle(stopSet: bool, now: int, walk: seq<Found>)

  /** The outer loop: sweep until the stop event is found set. */
  function CyclesRun(st: Tree, archiveDir: string, cycles: seq<Cycle>, retention: int): Tree
    decreases |cycles|
  {
    if cycles == [] || cycles[0].stopSet then st
    else CyclesRun(SweepOnce(st, archiveDir, cycles[0].walk, cycles[0].now, retention), archiveDir, cycles[1..], retention)
  }

  class Storage {
    var downloads: set<string>
    var archive: map<string, string>
    const archiveDir: string
    const retention: int

    constructor(downloads: set<string>, archive: map<string, string>, archiveDir: string, retention: int)
      ensures this.downloads == downloads && this.archive == archive
      ensures this.archiveDir == archiveDir && this.retention == retention
    {
      this.downloads := downloads;
      this.archive := archive;
      this.archiveDir := archiveDir;
      this.retention := retention;
    }

    function State(): Tree
      reads this
    {
      Tree(downloads, archive)
    }

    /** The body of one cycle: the walk over the download tree. */
    method Sweep(walk: seq<Found>, now: int)
      modifies this
      ensures State() == SweepOnce(old(State()), archiveDir, walk, now, retention)
    {
      ghost var d0, a0 := downloads, archive;
      for k := 0 to |walk|
        invariant downloads == d0 - Cleared(walk[..k], now, retention)
        invariant archive == ArchivedAfter(a0, archiveDir, walk[..k], now, retention)
      {
        assert walk[..k + 1][..k] == walk[..k];
        var f := walk[k];
        var fpath := PathJoin(f.root, f.name);
        if f.mtime.None? {
          continue;
        }
        var age := now - f.mtime.value;
        if age >= retention {
          var dest := PathJoin(archiveDir, f.name);
          if !f.moveFails {
            downloads := downloads - {fpath};
            archive := archive[dest := fpath];
          } else if !f.removeFails {
            downloads := downloads - {fpath};
          }
        }
      }
      assert walk[..|walk|] == walk;
    }

    /** `cleanup_loop`: sweep once per cycle while the stop event is clear. */
    method Loop(cycles: seq<Cycle>)
      modifies this
      ensures State() == CyclesRun(old(State()), archiveDir, cycles, retention)
    {
      ghost var st0 := State();
      var k := 0;
      while k < |cycles| && !cycles[k].stopSet
        invariant 0 <= k <= |cycles|
        invariant CyclesRun(State(), archiveDir, cycles[k..], retention) == CyclesRun(st0, archiveDir, cycles, retention)
      {
        assert cycles[k..][1..] == cycles[k + 1..];
        Sweep(cycles[k].walk, cycles[k].now);
        k := k + 1;
      }
    }
  }

  // ------------------------------------------------------------ properties

  /** A path leaves the download tree exactly when some file the walk found
      there was archived or deleted. */
  lemma {:induction false} ClearedMeaning(walk: seq<Found>, now: int, retention: int, p: string)
    ensures p in Cleared(walk, now, retention)
        <==> exists i :: 0 <= i < |walk| && PathOf(walk[i]) == p && Clears(walk[i], now, retention)
  {
    if walk != [] {
      var init := walk[..|walk| - 1];
      ClearedMeaning(init, now, retention, p);
      if exists i :: 0 <= i < |init| && PathOf(init[i]) == p && Clears(init[i], now, retention) {
        var i :| 0 <= i < |init| && PathOf(init[i]) == p && Clears(init[i], now, retention);
        assert walk[i] == init[i];
      }
      if exists i :: 0 <= i < |walk| && PathOf(walk[i]) == p && Clears(walk[i], now, retention) {
        var i :| 0 <= i < |walk| && PathOf(walk[i]) == p && Clears(walk[i], now, retention);
        if i < |init| {
          assert init[i] == walk[i];
        }
      }
    }
  }

  /** After a sweep, an old file is still in the download tree only when
      both its move and its deletion failed. */
  lemma OnlyStuckRemain(st: Tree, archiveDir: string, walk: seq<Found>, now: int, retention: int, i: nat)
    requires i < |walk| && Eligible(walk[i], now, retention)
    requires PathOf(walk[i]) in SweepOnce(st, archiveDir, walk, now, retention).downloads
    ensures walk[i].moveFails && walk[i].removeFails
  {
    ClearedMeaning(walk, now, retention, PathOf(walk[i]));
  }

  /** A file the sweep found nowhere old enough (or could not date) keeps
      its place in the download tree and is not moved into the archive. */
  lemma YoungUntouched(st: Tree, archiveDir: string, walk: seq<Found>, now: int, retention: int, p: string)
    requires forall i :: 0 <= i < |walk| && PathOf(walk[i]) == p ==> !Eligible(walk[i], now, retention)
    ensures p in SweepOnce(st, archiveDir, walk, now, retention).downloads <==> p in st.downloads
    ensures forall dest :: dest in SweepOnce(st, archiveDir, walk, now, retention).archive
                           && SweepOnce(st, archiveDir, walk, now, retention).archive[dest] == p
                           ==> dest in st.archive && st.archive[dest] == p
  {
    ClearedMeaning(walk, now, retention, p);
    var after := SweepOnce(st, archiveDir, walk, now, retention).archive;
    forall dest | dest in after && after[dest] == p
      ensures dest in st.archive && st.archive[dest] == p
    {
      ArchiveSources(st.archive, archiveDir, walk, now, retention, dest);
    }
  }

  /** Every archive entry after a sweep was there before, or is the last
      file moved to that archive path. */
  lemma {:induction false} ArchiveSources(archive: map<string, string>, archiveDir: string, walk: seq<Found>,
                                         now: int, retention: int, dest: string)
    requires dest in ArchivedAfter(archive, archiveDir, walk, now, retention)
    ensures var after := ArchivedAfter(archive, archiveDir, walk, now, retention);
            (dest in archive && after[dest] == archive[dest])
            || exists i :: 0 <= i < |walk| && FateOf(walk[i], now, retention) == Archived
                           && PathJoin(archiveDir, walk[i].name) == dest && after[dest] == PathOf(walk[i])
  {
    if walk != [] {
      var init, last := walk[..|walk| - 1], walk[|walk| - 1];
      if FateOf(last, now, retention) == Archived && PathJoin(archiveDir, last.name) == dest {
        assert walk[|walk| - 1] == last;
      } else {
        ArchiveSources(archive, archiveDir, init, now, retention, dest);
        var after := ArchivedAfter(archive, archiveDir, walk, now, retention);
        if !(dest in archive && after[dest] == archive[dest]) {
          var i :| 0 <= i < |init| && FateOf(init[i], now, retention) == Archived
                   && PathJoin(archiveDir, init[i].name) == dest
                   && ArchivedAfter(archive, archiveDir, init, now, retention)[dest] == PathOf(init[i]);
          assert walk[i] == init[i];
        }
      }
    }
  }

  /** The archive path of a moved file holds that file unless a later file
      of the walk was moved to the same path. */
  lemma {:induction false} ArchiveLastWins(archive: map<string, string>, archiveDir: string, walk: seq<Found>,
                                          now: int, retention: int, i: nat)
    requires i < |walk| && FateOf(walk[i], now, retention) == Archived
    requires forall j :: i < j < |walk| && FateOf(walk[j], now, retention) == Archived
                         ==> PathJoin(archiveDir, walk[j].name) != PathJoin(archiveDir, walk[i].name)
    ensures var after := ArchivedAfter(archive, archiveDir, walk, now, retention);
            PathJoin(archiveDir, walk[i].name) in after && after[PathJoin(archiveDir, walk[i].name)] == PathOf(walk[i])
  {
    var init := walk[..|walk| - 1];
    if i < |walk| - 1 {
      forall j | i < j < |init| && FateOf(init[j], now, retention) == Archived
        ensures PathJoin(archiveDir, init[j].name) != PathJoin(archiveDir, init[i].name)
      {
        assert init[j] == walk[j] && init[i] == walk[i];
      }
      ArchiveLastWins(archive, archiveDir, init, now, retention, i);
      assert init[i] == walk[i];
    }
  }

  /** Only the base name picks the archive path, so of two old files with
      the same name in different directories the archive keeps the later
      one and the earlier one is lost. */
  lemma SameNameOverwrites(archiveDir: string, f: Found, g: Found, now: int, retention: int)
    requires FateOf(f, now, retention) == Archived && FateOf(g, now, retention) == Archived
    requires f.name == g.name && PathOf(f) != PathOf(g)
    ensures ArchivedAfter(map[], archiveDir, [f, g], now, retention) == map[PathJoin(archiveDir, f.name) := PathOf(g)]
    ensures forall dest :: dest in ArchivedAfter(map[], archiveDir, [f, g], now, retention)
                           ==> ArchivedAfter(map[], archiveDir, [f, g], now, retention)[dest] != PathOf(f)
  {
    var dest := PathJoin(archiveDir, f.name);
    assert [f, g][..1] == [f];
    assert [f][..0] == [];
    assert ArchivedAfter(map[], archiveDir, [f], now, retention) == map[dest := PathOf(f)];
    var after := ArchivedAfter(map[], archiveDir, [f, g], now, retention);
    assert after == map[dest := PathOf(f)][dest := PathOf(g)];
    assert map[dest := PathOf(f)][dest := PathOf(g)] == map[dest := PathOf(g)];
  }

  /** The loop sweeps only the cycles before the first one that finds the
      stop event set. */
  lemma {:induction false} StopEndsLoop(st: Tree, archiveDir: string, cycles: seq<Cycle>, retention: int, k: nat)
    requires k < |cycles| && cycles[k].stopSet
    ensures CyclesRun(st, archiveDir, cycles, retention) == CyclesRun(st, archiveDir, cycles[..k], retention)
    decreases k
  {
    if k > 0 && !cycles[0].stopSet {
      assert cycles[1..][k - 1] == cycles[k];
      StopEndsLoop(SweepOnce(st, archiveDir, cycles[0].walk, cycles[0].now, retention), archiveDir, cycles[1..], retention, k - 1);
      assert cycles[..k][1..] == cycles[1..][..k - 1];
    }
  }

  /** The loop never adds a file to the download tree. */
  lemma {:induction false} LoopOnlyShrinks(st: Tree, archiveDir: string, cycles: seq<Cycle>, retention: int)
    ensures CyclesRun(st, archiveDir, cycles, retention).downloads <= st.downloads
    decreases |cycles|
  {
    if cycles != [] && !cycles[0].stopSet {
      LoopOnlyShrinks(SweepOnce(st, archiveDir, cycles[0].walk, cycles[0].now, retention), archiveDir, cycles[1..], retention);
    }
  }
}
