/** The delta files of each bin, as bytes.  A dump step creates the file or appends to it, and the last
    one patches in the count, so that after any run every delta the history holds is in a file, and a
    file that is not complete says so. */
module Directories {
  import opened Pages
  import opened PageCaches
  import opened Wire
  import opened Bins
  import opened Stores
  import opened Deletions
  import opened DeltaChains
  import opened DeltaFiles
  import opened Checkpoints

  /** The delta files of one bin; a file is named by its generation. */
  type Dir = map<nat, Bytes>

  function HeaderFor(b: Bin, dim: nat): DeltaHeader {
    DeltaHeader(DELTA_MAGIC, 1, b.generation, dim, b.cache.g.entrySize, b.bump, 0, 0)
  }

  // ----- what the files hold -----

  /** The header of generation `n`, written when the bump pointer stood at `bump`. */
  ghost predicate Headed(hd: DeltaHeader, dim: nat, b: Bin, n: nat, bump: nat) {
    && hd.magic == 0x44454C54 && hd.version == 1 && hd.generation == n && hd.dim == dim
    && hd.entrySize == b.cache.g.entrySize && hd.bump == bump && hd.entries == hd.checksum == 0
  }

  ghost predicate IsComplete(file: Bytes, dim: nat, b: Bin, n: nat, bump: nat, runs: seq<Run>) {
    exists hd :: Headed(hd, dim, b, n, bump) && file == EncodeDelta(hd, runs)
  }

  ghost predicate IsBegun(file: Bytes, dim: nat, b: Bin, n: nat, bump: nat, runs: seq<Run>) {
    exists hd :: Headed(hd, dim, b, n, bump) && file == Unfinished(hd, runs)
  }

  /** The runs written so far of the delta that is open for bin `i`. */
  ghost function Part(pr: Progress, i: nat): Option<seq<Run>> {
    if pr.open && pr.bin == i then Some(pr.runs) else None
  }

  /** The bump pointers a history records: one for each checkpoint begun, one for each file created,
      and the pointer only rises. */
  ghost predicate Noted(b: Bin, h: History, part: Option<seq<Run>>) {
    && |h.marks| == |h.images| && |h.heads| == |h.deltas| + (if part.Some? then 1 else 0) && |h.heads| <= |h.marks|
    && (forall k :: 0 <= k < |h.marks| ==> h.marks[k] <= b.bump)
    && (forall k :: 0 <= k < |h.heads| ==> h.marks[k] <= h.heads[k] <= b.bump)
  }

  /** Every delta of the history is in its file, the open one is in a file with count 0, and there is
      no other file that is newer than the session. */
  ghost predicate DirOk(d: Dir, dim: nat, b: Bin, h: History, part: Option<seq<Run>>) {
    && Noted(b, h, part)
    && (forall k :: 0 <= k < |h.deltas| ==> InFile(d, dim, b, h, k))
    && (forall n :: n in d && n > h.first + |h.deltas| ==> part.Some? && n == b.generation)
    && (part.Some? ==>
          && b.generation == h.first + |h.deltas| + 1 && b.generation in d
          && IsBegun(d[b.generation], dim, b, b.generation, h.heads[|h.deltas|], part.value))
  }

  ghost predicate InFile(d: Dir, dim: nat, b: Bin, h: History, k: nat)
    requires k < |h.deltas| <= |h.heads|
  {
    var n := h.first + k + 1;
    n in d && IsComplete(d[n], dim, b, n, h.heads[k], h.deltas[k])
  }

  ghost predicate DirsOk(sys: Sys, dirs: seq<Dir>) {
    && |dirs| == |sys.db.bins| == |sys.db.dims| == |sys.hist|
    && forall i :: 0 <= i < |dirs| ==> DirOk(dirs[i], sys.db.dims[i], sys.db.bins[i], sys.hist[i], Part(sys.prog, i))
  }

  // ----- what an operation writes -----

  /** The file of the bin after one dump step: created with its header when the step is the first, the
      runs appended, the count patched in when the step is the last. */
  function DumpFile(d: Dir, b: Bin, dim: nat, open: bool, before: nat, runs: seq<Run>, closes: bool): (r: Bytes)
    requires open ==> b.generation in d && |d[b.generation]| >= DELTA_HEADER
  {
    Widths();
    var file := (if open then d[b.generation] else EncodeDeltaHeader(HeaderFor(b, dim))) + EncodeRuns(runs);
    if closes then Patch(file, COUNT_AT, PutU32(before + |runs|)) else file
  }

  /** The writes of one dump step to the file of the bin. */
  method WriteStep(d: Dir, b: Bin, dim: nat, open: bool, entries: nat, runs: seq<Run>, closes: bool) returns (file: Bytes)
    requires open ==> b.generation in d && |d[b.generation]| >= DELTA_HEADER
    ensures file == DumpFile(d, b, dim, open, entries, runs, closes)
  {
    hide EncodeRuns, EncodeDeltaHeader, Patch, PutLE;
    if open {
      file := d[b.generation];
    } else {
      file := EncodeDeltaHeader(HeaderFor(b, dim));
    }
    file := AppendRuns(file, runs);
    if closes {
      Widths();
      file := Patch(file, COUNT_AT, PutU32(entries + |runs|));
    }
  }

  function WholeFile(b: Bin, dim: nat, runs: seq<Run>): (r: Bytes) {
    EncodeDelta(HeaderFor(Begin(b), dim), runs)
  }

  ghost function DumpDirs(sys: Sys, asked: nat, x: Finding, dirs: seq<Dir>): seq<Dir>
    requires DirsOk(sys, dirs)
  {
    var pr := sys.prog;
    if pr.bin >= |sys.db.bins| then dirs else
      OpenFile(sys, dirs);
      var b, before: nat := sys.db.bins[pr.bin], if pr.open then |pr.runs| else 0;
      var file := DumpFile(dirs[pr.bin], b, sys.db.dims[pr.bin], pr.open, before, x.runs,
                           NextCursor(pr, x, asked) >= |Blocks(pr, x)|);
      var now: Dir := dirs[pr.bin][b.generation := file];
      dirs[pr.bin := now]
  }

  /** The directories after an operation. */
  ghost function DirsAfter(sys: Sys, op: Op, dirs: seq<Dir>): seq<Dir>
    requires SysInv(sys) && OpOk(sys, op) && DirsOk(sys, dirs)
  {
    match op
    case Put(_) => NewDirs(dirs, |Apply(sys, op).db.bins|)
    case Step(asked, found) => if sys.prog.phase == Dumping then DumpDirs(sys, asked, found, dirs) else dirs
    case Whole(_, deltas) => WholeDirs(sys, deltas, dirs)
    case _ => dirs
  }

  function NewDirs(dirs: seq<Dir>, n: nat): (r: seq<Dir>)
    ensures |dirs| <= n ==> |r| == n
  {
    if |dirs| < n then dirs + seq(n - |dirs|, _ => map[]) else dirs
  }

  function WholeDirs(sys: Sys, deltas: seq<seq<Run>>, dirs: seq<Dir>): (r: seq<Dir>)
    requires |dirs| == |sys.db.bins| == |sys.db.dims| == |deltas|
  {
    hide WholeFile, Begin;
    seq(|dirs|, i requires 0 <= i < |dirs| =>
      dirs[i][Begin(sys.db.bins[i]).generation := WholeFile(sys.db.bins[i], sys.db.dims[i], deltas[i])])
  }

  lemma OpenFile(sys: Sys, dirs: seq<Dir>)
    requires DirsOk(sys, dirs) && sys.prog.bin < |sys.db.bins|
    ensures var i := sys.prog.bin;
            var b, d, h := sys.db.bins[i], dirs[i], sys.hist[i];
            && Noted(b, h, Part(sys.prog, i))
            && (sys.prog.open ==>
                  && b.generation in d && |d[b.generation]| >= DELTA_HEADER
                  && IsBegun(d[b.generation], sys.db.dims[i], b, b.generation, h.heads[|h.deltas|], sys.prog.runs))
  {
    hide EncodeDeltaHeader, EncodeRuns;
    var i := sys.prog.bin;
    assert DirOk(dirs[i], sys.db.dims[i], sys.db.bins[i], sys.hist[i], Part(sys.prog, i));
  }

  lemma NotedIn(d: Dir, dim: nat, b: Bin, h: History, part: Option<seq<Run>>)
    requires DirOk(d, dim, b, h, part)
    ensures Noted(b, h, part)
  {
  }

  // ----- every operation keeps the directories in order -----

  lemma HeadedStill(hd: DeltaHeader, dim: nat, b: Bin, c: Bin, n: nat, bump: nat)
    requires c.cache.g == b.cache.g && Headed(hd, dim, b, n, bump)
    ensures Headed(hd, dim, c, n, bump)
  {
  }

  lemma CompleteStill(file: Bytes, dim: nat, b: Bin, c: Bin, n: nat, bump: nat, runs: seq<Run>)
    requires c.cache.g == b.cache.g
    ensures IsComplete(file, dim, b, n, bump, runs) ==> IsComplete(file, dim, c, n, bump, runs)
    ensures IsBegun(file, dim, b, n, bump, runs) ==> IsBegun(file, dim, c, n, bump, runs)
  {
    hide EncodeDelta, Unfinished, Headed;
    if hd :| Headed(hd, dim, b, n, bump) && file == EncodeDelta(hd, runs) {
      HeadedStill(hd, dim, b, c, n, bump);
    }
    if hd :| Headed(hd, dim, b, n, bump) && file == Unfinished(hd, runs) {
      HeadedStill(hd, dim, b, c, n, bump);
    }
  }

  /** A bin whose history gains no delta, and whose open file is not touched. */
  lemma DirKept(d: Dir, dim: nat, b: Bin, h: History, c: Bin, t: History, part: Option<seq<Run>>)
    requires DirOk(d, dim, b, h, part) && c.cache.g == b.cache.g && Noted(c, t, part)
    requires t.first == h.first && t.deltas == h.deltas && t.heads == h.heads
    requires part.Some? ==> c.generation == b.generation
    ensures DirOk(d, dim, c, t, part)
  {
    hide IsComplete, IsBegun;
    forall k | 0 <= k < |t.deltas|
      ensures InFile(d, dim, c, t, k)
    {
      assert InFile(d, dim, b, h, k);
      CompleteStill(d[h.first + k + 1], dim, b, c, h.first + k + 1, h.heads[k], h.deltas[k]);
    }
    if part.Some? {
      CompleteStill(d[b.generation], dim, b, c, b.generation, h.heads[|h.deltas|], part.value);
    }
  }

  /** The next delta of a history is complete in its file. */
  lemma DirGains(d: Dir, dim: nat, b: Bin, h: History, part: Option<seq<Run>>, file: Bytes, c: Bin, t: History,
                 runs: seq<Run>)
    requires DirOk(d, dim, b, h, part) && (part.Some? ==> b.generation == c.generation)
    requires c.cache.g == b.cache.g && c.generation == h.first + |h.deltas| + 1 && Noted(c, t, None)
    requires t.first == h.first && t.deltas == h.deltas + [runs] && t.heads[..|h.deltas|] == h.heads[..|h.deltas|]
    requires IsComplete(file, dim, c, c.generation, t.heads[|h.deltas|], runs)
    ensures DirOk(d[c.generation := file], dim, c, t, None)
  {
    hide IsComplete, IsBegun;
    var r := d[c.generation := file];
    forall k | 0 <= k < |t.deltas|
      ensures InFile(r, dim, c, t, k)
    {
      if k < |h.deltas| {
        assert InFile(d, dim, b, h, k);
        assert t.heads[k] == t.heads[..|h.deltas|][k] == h.heads[k];
        CompleteStill(d[h.first + k + 1], dim, b, c, h.first + k + 1, h.heads[k], h.deltas[k]);
      }
    }
  }

  /** The file of the next delta is begun, or grows. */
  lemma DirOpens(d: Dir, dim: nat, b: Bin, h: History, part: Option<seq<Run>>, file: Bytes, t: History, runs: seq<Run>)
    requires DirOk(d, dim, b, h, part) && b.generation == h.first + |h.deltas| + 1 && Noted(b, t, Some(runs))
    requires t.first == h.first && t.deltas == h.deltas && t.heads[..|h.deltas|] == h.heads[..|h.deltas|]
    requires IsBegun(file, dim, b, b.generation, t.heads[|h.deltas|], runs)
    ensures DirOk(d[b.generation := file], dim, b, t, Some(runs))
  {
    hide IsComplete, IsBegun;
    var r := d[b.generation := file];
    forall k | 0 <= k < |t.deltas|
      ensures InFile(r, dim, b, t, k)
    {
      assert InFile(d, dim, b, h, k);
      assert t.heads[k] == t.heads[..|h.deltas|][k] == h.heads[k];
    }
  }

  /** What a dump step leaves in the file: the header it was created with, which holds the bump pointer
      of that moment, and every run dumped so far. */
  lemma DumpedFile(d: Dir, b: Bin, dim: nat, open: bool, bump: nat, before: seq<Run>, runs: seq<Run>, closes: bool)
    requires open ==>
               && b.generation in d && |d[b.generation]| >= DELTA_HEADER
               && IsBegun(d[b.generation], dim, b, b.generation, bump, before)
    requires !open ==> before == [] && bump == b.bump
    ensures var file := DumpFile(d, b, dim, open, |before|, runs, closes);
            if closes then IsComplete(file, dim, b, b.generation, bump, before + runs)
            else IsBegun(file, dim, b, b.generation, bump, before + runs)
  {
    hide EncodeDeltaHeader, EncodeRuns, Patch, PutLE;
    var hd := HeaderFor(b, dim);
    if open {
      hd :| Headed(hd, dim, b, b.generation, bump) && d[b.generation] == Unfinished(hd, before);
    }
    assert Headed(hd, dim, b, b.generation, bump) && hd.(entries := 0) == hd;
    RunsJoin(before, runs);
    NoRunsEncoded();
    var file := (if open then d[b.generation] else EncodeDeltaHeader(HeaderFor(b, dim))) + EncodeRuns(runs);
    assert file == Unfinished(hd, before + runs);
    PatchedCount(hd, |before + runs|, EncodeRuns(before + runs));
    Widths();
  }

  lemma NoRunsEncoded()
    ensures EncodeRuns([]) == []
  {
  }

  /** Puts, deletes and flushes. */
  lemma HeldDirs(sys: Sys, db: DB, dirs: seq<Dir>)
    requires DirsOk(sys, dirs) && AllHeld(sys.db, db) && |sys.db.bins| <= |db.bins| == |db.dims| && sys.db.dims <= db.dims
    requires sys.prog.open ==> sys.prog.bin < |sys.db.bins|
    ensures DirsOk(Sys(db, sys.prog, Extended(sys.hist, |db.bins|)), NewDirs(dirs, |db.bins|))
  {
    hide DirOk;
    var r, now := Sys(db, sys.prog, Extended(sys.hist, |db.bins|)), NewDirs(dirs, |db.bins|);
    forall i | 0 <= i < |db.bins|
      ensures DirOk(now[i], db.dims[i], db.bins[i], r.hist[i], Part(sys.prog, i))
    {
      if i < |dirs| {
        assert Held(sys.db.bins[i], db.bins[i]);
        NotedIn(dirs[i], db.dims[i], sys.db.bins[i], sys.hist[i], Part(sys.prog, i));
        DirKept(dirs[i], db.dims[i], sys.db.bins[i], sys.hist[i], db.bins[i], r.hist[i], Part(sys.prog, i));
      } else {
        EmptyDir(db.dims[i], db.bins[i], r.hist[i]);
      }
    }
  }

  lemma EmptyDir(dim: nat, b: Bin, h: History)
    requires h.deltas == [] && h.images == [] && h.heads == [] && h.marks == []
    ensures DirOk(map[], dim, b, h, None)
  {
  }

  /** Bins and histories that differ in nothing the files depend on. */
  lemma SameDirs(sys: Sys, r: Sys, dirs: seq<Dir>)
    requires DirsOk(sys, dirs) && |r.db.bins| == |sys.db.bins| == |r.hist| && r.db.dims == sys.db.dims
    requires !sys.prog.open && !r.prog.open
    requires forall i :: 0 <= i < |dirs| ==>
               && r.db.bins[i].cache.g == sys.db.bins[i].cache.g && Noted(r.db.bins[i], r.hist[i], None)
               && r.hist[i].first == sys.hist[i].first && r.hist[i].deltas == sys.hist[i].deltas
               && r.hist[i].heads == sys.hist[i].heads
    ensures DirsOk(r, dirs)
  {
    hide DirOk;
    forall i | 0 <= i < |dirs|
      ensures DirOk(dirs[i], r.db.dims[i], r.db.bins[i], r.hist[i], Part(r.prog, i))
    {
      DirKept(dirs[i], sys.db.dims[i], sys.db.bins[i], sys.hist[i], r.db.bins[i], r.hist[i], None);
    }
  }

  lemma BeginDirs(sys: Sys, k: nat, dirs: seq<Dir>)
    requires SysInv(sys) && DirsOk(sys, dirs) && !sys.prog.open
    ensures DirsOk(FlushStep(sys, k), dirs)
  {
    hide DirOk, SysInv;
    forall i | 0 <= i < |dirs|
      ensures Noted(FlushStep(sys, k).db.bins[i], FlushStep(sys, k).hist[i], None)
    {
      NotedIn(dirs[i], sys.db.dims[i], sys.db.bins[i], sys.hist[i], None);
    }
    SameDirs(sys, FlushStep(sys, k), dirs);
  }

  lemma EndDirs(sys: Sys, orders: seq<seq<Write>>, dirs: seq<Dir>)
    requires SysInv(sys) && DirsOk(sys, dirs) && !sys.prog.open && EndOk(sys.db, orders)
    ensures Inv(sys.db)
    ensures DirsOk(Sys(EndAll(sys.db, orders), Progress(Idle, sys.prog.bin, false, [], 0, []), sys.hist), dirs)
  {
    hide DirOk, Inv, End;
    SysParts(sys);
    forall i | 0 <= i < |sys.db.bins|
      ensures EndAll(sys.db, orders).bins[i].cache.g == sys.db.bins[i].cache.g
      ensures Noted(EndAll(sys.db, orders).bins[i], sys.hist[i], None)
    {
      EndKeepsForm(sys.db, orders, i);
      NotedIn(dirs[i], sys.db.dims[i], sys.db.bins[i], sys.hist[i], None);
    }
    SameDirs(sys, Sys(EndAll(sys.db, orders), Progress(Idle, sys.prog.bin, false, [], 0, []), sys.hist), dirs);
  }

  lemma EndKeepsForm(db: DB, orders: seq<seq<Write>>, i: nat)
    requires Inv(db) && EndOk(db, orders) && i < |db.bins|
    ensures var b, r := db.bins[i], EndAll(db, orders).bins[i]; r.cache.g == b.cache.g && r.bump == b.bump
  {
    hide Owned, End, Replay;
    EndAllBins(db, orders, i);
    assert Enumerates(orders[i], db.bins[i].overlay);
    EndFrame(db.bins[i], orders[i]);
  }

  /** What a dump step works on: a bin of the checkpoint whose next delta it writes, or a bin made since,
      with nothing to dump. */
  lemma DumpsNext(sys: Sys, asked: nat, x: Finding)
    requires SysInv(sys) && sys.prog.phase == Dumping && sys.prog.bin < |sys.db.bins| && DumpOk(sys, asked, x)
    ensures var b, h := sys.db.bins[sys.prog.bin], sys.hist[sys.prog.bin];
            if b.inCkpt then b.generation == h.first + |h.deltas| + 1 && |h.images| == |h.deltas| + 1
            else !sys.prog.open && b.generation == h.first && h.deltas == [] && Blocks(sys.prog, x) == []
  {
    hide Inv, Dumped, Flatten;
    var i := sys.prog.bin;
    assert Tracks(sys.db.bins[i], sys.hist[i]);
    assert Stands(sys.db.bins[i], sys.hist[i], sys.prog, i);
    if !sys.db.bins[i].inCkpt {
      ScanIsWhole(x.scan, {});
    }
  }

  lemma DumpDir(sys: Sys, asked: nat, x: Finding, dirs: seq<Dir>)
    requires SysInv(sys) && DirsOk(sys, dirs) && sys.prog.phase == Dumping && DumpOk(sys, asked, x)
    requires sys.prog.bin < |sys.db.bins|
    ensures var i, r := sys.prog.bin, DumpPhase(sys, asked, x);
            DirOk(DumpDirs(sys, asked, x, dirs)[i], r.db.dims[i], r.db.bins[i], r.hist[i], Part(r.prog, i))
  {
    hide SysInv, DumpOk, DirOk, DumpFile, Blocks, NextCursor, IsBegun, IsComplete;
    var i, pr, r := sys.prog.bin, sys.prog, DumpPhase(sys, asked, x);
    var d, dim, b, h := dirs[i], sys.db.dims[i], sys.db.bins[i], sys.hist[i];
    var before := if pr.open then pr.runs else [];
    OpenFile(sys, dirs);
    DumpsNext(sys, asked, x);
    var closes := NextCursor(pr, x, asked) >= |Blocks(pr, x)|;
    var bump := if pr.open then h.heads[|h.deltas|] else b.bump;
    DumpedFile(d, b, dim, pr.open, bump, before, x.runs, closes);
    var file := DumpFile(d, b, dim, pr.open, |before|, x.runs, closes);
    if !b.inCkpt {
      OldFile(d, dim, b, h, file);
    } else if closes {
      DirGains(d, dim, b, h, Part(pr, i), file, b, r.hist[i], before + x.runs);
    } else {
      DirOpens(d, dim, b, h, Part(pr, i), file, r.hist[i], before + x.runs);
    }
  }

  /** A file no newer than the session makes no difference. */
  lemma OldFile(d: Dir, dim: nat, b: Bin, h: History, file: Bytes)
    requires DirOk(d, dim, b, h, None) && h.deltas == [] && b.generation <= h.first
    ensures DirOk(d[b.generation := file], dim, b, h, None)
  {
  }

  lemma DumpKeepsDirs(sys: Sys, asked: nat, x: Finding, dirs: seq<Dir>)
    requires SysInv(sys) && DirsOk(sys, dirs) && sys.prog.phase == Dumping && DumpOk(sys, asked, x)
    ensures DirsOk(DumpPhase(sys, asked, x), DumpDirs(sys, asked, x, dirs))
  {
    hide SysInv, DumpOk, DirOk, DumpFile, Blocks, NextCursor;
    SysParts(sys);
    StepShape(sys);
    var r, now := DumpPhase(sys, asked, x), DumpDirs(sys, asked, x, dirs);
    forall i | 0 <= i < |dirs|
      ensures DirOk(now[i], r.db.dims[i], r.db.bins[i], r.hist[i], Part(r.prog, i))
    {
      if i == sys.prog.bin {
        DumpDir(sys, asked, x, dirs);
      } else {
        assert DirOk(dirs[i], sys.db.dims[i], sys.db.bins[i], sys.hist[i], Part(sys.prog, i));
      }
    }
  }

  lemma WholeKeepsDirs(sys: Sys, scans: seq<seq<nat>>, deltas: seq<seq<Run>>, dirs: seq<Dir>)
    requires SysInv(sys) && DirsOk(sys, dirs) && WholeOk(sys, scans, deltas)
    ensures DirsOk(WholeCheckpoint(sys, scans, deltas), WholeDirs(sys, deltas, dirs))
  {
    hide DirOk, Inv, Cycled, Tracks, BlockingDump, WholeFile, IsComplete;
    SysParts(sys);
    var r, now := WholeCheckpoint(sys, scans, deltas), WholeDirs(sys, deltas, dirs);
    forall i | 0 <= i < |dirs|
      ensures DirOk(now[i], r.db.dims[i], r.db.bins[i], r.hist[i], Part(r.prog, i))
    {
      assert Stands(sys.db.bins[i], sys.hist[i], sys.prog, i);
      assert BlockingDump(sys.db.bins[i], scans[i], deltas[i]);
      CycledForm(sys.db.bins[i], sys.hist[i], scans[i], deltas[i], sys.db.dims[i]);
      NotedIn(dirs[i], sys.db.dims[i], sys.db.bins[i], sys.hist[i], None);
      DirGains(dirs[i], sys.db.dims[i], sys.db.bins[i], sys.hist[i], None, WholeFile(sys.db.bins[i], sys.db.dims[i], deltas[i]),
               r.db.bins[i], r.hist[i], deltas[i]);
    }
  }

  lemma CycledForm(b: Bin, h: History, scan: seq<nat>, runs: seq<Run>, dim: nat)
    requires Tracks(b, h) && !b.inCkpt && BlockingDump(b, scan, runs)
    ensures var c := Cycled(b);
            && c.cache.g == b.cache.g && c.bump == b.bump && c.generation == b.generation + 1 == h.first + |h.deltas| + 1
            && |h.images| == |h.deltas| && IsComplete(WholeFile(b, dim, runs), dim, c, c.generation, b.bump, runs)
  {
    hide End, EncodeDelta, Replay, Chain;
    EndFrame(Begin(b), []);
    EmptyReplay(Begin(b));
    assert Headed(HeaderFor(Begin(b), dim), dim, Cycled(b), b.generation + 1, b.bump);
  }

  lemma EmptyReplay(b: Bin)
    requires BinOk(b)
    ensures Replay(b.cache, ExtentOf(b), []).g == b.cache.g
  {
    ReplayGeometry(b.cache, ExtentOf(b), []);
  }

  /** Every operation keeps the directories in order. */
  lemma OpKeepsDirs(sys: Sys, op: Op, dirs: seq<Dir>)
    requires SysInv(sys) && OpOk(sys, op) && DirsOk(sys, dirs)
    ensures DirsOk(Apply(sys, op), DirsAfter(sys, op, dirs))
  {
    hide SysInv, Inv, AllTrack, AllHeld, BatchPut, BatchDelete, FlushAll, WholeCheckpoint, WholeOk, DirsOk, DumpDirs;
    SysParts(sys);
    StepShape(sys);
    DirsSize(sys, dirs);
    match op {
      case Put(rs) =>
        BatchPutTracks(sys.db, sys.hist, rs);
        BatchPutDims(sys.db, rs);
        HeldSizes(sys.db, BatchPut(sys.db, rs).0);
        HeldDirs(sys, BatchPut(sys.db, rs).0, dirs);
      case Delete(fs) =>
        BatchDeleteTracks(sys.db, sys.hist, fs);
        BatchDeleteFacts(sys.db, fs);
        HeldDirs(sys, BatchDelete(sys.db, fs), dirs);
      case FlushDB =>
        FlushAllTracks(sys.db, sys.hist);
        FlushSizes(sys.db);
        HeldDirs(sys, FlushAll(sys.db), dirs);
      case Step(asked, found) =>
        StepKeepsDirs(sys, asked, found, dirs);
      case Whole(scans, deltas) =>
        WholeKeepsDirs(sys, scans, deltas, dirs);
    }
  }

  lemma StepKeepsDirs(sys: Sys, asked: nat, x: Finding, dirs: seq<Dir>)
    requires SysInv(sys) && DirsOk(sys, dirs) && StepOk(sys, asked, x)
    ensures DirsOk(CkptStep(sys, asked, x), if sys.prog.phase == Dumping then DumpDirs(sys, asked, x, dirs) else dirs)
  {
    hide SysInv, DirsOk, DumpPhase, FlushStep, DumpDirs, DumpOk, EndOk, Inv, EndAll;
    StepShape(sys);
    match sys.prog.phase {
      case Idle => BeginDirs(sys, 0, dirs);
      case Flushing => BeginDirs(sys, sys.prog.bin, dirs);
      case Dumping => DumpKeepsDirs(sys, asked, x, dirs);
      case Finishing => EndDirs(sys, x.orders, dirs);
    }
  }

  lemma StepShape(sys: Sys)
    requires SysInv(sys)
    ensures sys.prog.phase != Idle ==> sys.prog.bin <= |sys.db.bins|
    ensures sys.prog.open ==> sys.prog.phase == Dumping && sys.prog.bin < |sys.db.bins|
  {
  }

  lemma DirsSize(sys: Sys, dirs: seq<Dir>)
    requires DirsOk(sys, dirs)
    ensures |dirs| == |sys.db.bins| == |sys.db.dims| == |sys.hist|
  {
  }

  lemma HeldSizes(a: DB, b: DB)
    requires AllHeld(a, b)
    ensures |a.bins| <= |b.bins|
  {
  }

  lemma FlushSizes(db: DB)
    ensures |FlushAll(db).bins| == |db.bins| && FlushAll(db).dims == db.dims
  {
  }

  // ----- whole runs -----

  /** Directories as the session finds them: nothing in them is newer than the session. */
  ghost predicate Settled(db: DB, dirs: seq<Dir>) {
    |dirs| == |db.bins| && forall i, n :: 0 <= i < |dirs| && n in dirs[i] ==> n <= db.bins[i].generation
  }

  lemma SettledOk(db: DB, dirs: seq<Dir>)
    requires JustOpened(db) && Settled(db, dirs)
    ensures DirsOk(Started(db), dirs)
  {
    hide SysInv;
    SizesMatch(db);
  }

  /** The directories a run leaves. */
  ghost function RunDirs(sys: Sys, ops: seq<Op>, dirs: seq<Dir>): seq<Dir>
    requires SysInv(sys) && RunOk(sys, ops) && DirsOk(sys, dirs)
    decreases |ops|
  {
    if ops == [] then dirs else
      ApplyKeepsInv(sys, ops[0]);
      OpKeepsDirs(sys, ops[0], dirs);
      RunDirs(Apply(sys, ops[0]), ops[1..], DirsAfter(sys, ops[0], dirs))
  }

  ghost function SessionDirs(db: DB, dirs: seq<Dir>, ops: seq<Op>): seq<Dir>
    requires JustOpened(db) && Settled(db, dirs) && RunOk(Started(db), ops)
  {
    SettledOk(db, dirs);
    RunDirs(Started(db), ops, dirs)
  }

  /** After any run every delta of every bin's history is complete in its file, and any file that is
      newer than those is the one being written, with count 0. */
  lemma {:induction false} RunKeepsDirs(sys: Sys, ops: seq<Op>, dirs: seq<Dir>)
    requires SysInv(sys) && RunOk(sys, ops) && DirsOk(sys, dirs)
    ensures DirsOk(Reached(sys, ops), RunDirs(sys, ops, dirs))
    decreases |ops|
  {
    hide SysInv, Apply, DirsOk, DirsAfter;
    if ops != [] {
      ApplyKeepsInv(sys, ops[0]);
      OpKeepsDirs(sys, ops[0], dirs);
      RunKeepsDirs(Apply(sys, ops[0]), ops[1..], DirsAfter(sys, ops[0], dirs));
    }
  }
}
