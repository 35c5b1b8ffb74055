/** What whole runs leave in the delta files: the history of a bin only grows, and the delta of an
    incremental checkpoint is the delta the blocking checkpoint would have written. */
module DeltaRuns {
  import opened Pages
  import opened Bins
  import opened Stores
  import opened Deletions
  import opened DeltaChains
  import opened Checkpoints
  import DimRegistries

  // ----- histories grow -----

  /** `b` continues `a`. */
  ghost predicate Continues(a: History, b: History) {
    && b.base == a.base && b.first == a.first && a.images <= b.images && a.dirty <= b.dirty && a.deltas <= b.deltas
    && a.marks <= b.marks && a.heads <= b.heads
  }

  ghost predicate AllContinue(a: Sys, b: Sys) {
    && |a.hist| == |a.db.bins| <= |b.hist| == |b.db.bins|
    && forall i :: 0 <= i < |a.hist| ==> Continues(a.hist[i], b.hist[i]) && b.db.bins[i].cache.g == a.db.bins[i].cache.g
  }

  lemma AllContinueTrans(a: Sys, b: Sys, c: Sys)
    requires AllContinue(a, b) && AllContinue(b, c)
    ensures AllContinue(a, c)
  {
    forall i | 0 <= i < |a.hist|
      ensures Continues(a.hist[i], c.hist[i]) && c.db.bins[i].cache.g == a.db.bins[i].cache.g
    {
      assert Continues(a.hist[i], b.hist[i]) && Continues(b.hist[i], c.hist[i]);
    }
  }

  lemma HeldContinue(sys: Sys, db: DB, hist: seq<History>)
    requires |sys.hist| == |sys.db.bins| && AllHeld(sys.db, db) && hist == Extended(sys.hist, |db.bins|)
    ensures AllContinue(sys, Sys(db, sys.prog, hist))
  {
    forall i | 0 <= i < |sys.hist|
      ensures db.bins[i].cache.g == sys.db.bins[i].cache.g
    {
      assert Held(sys.db.bins[i], db.bins[i]);
    }
  }

  lemma StepContinues(sys: Sys, asked: nat, x: Finding)
    requires SysInv(sys) && StepOk(sys, asked, x)
    ensures AllContinue(sys, CkptStep(sys, asked, x))
  {
    hide Inv, AllTrack, EndOk, Stands, End, DumpOk, FlushOk;
    SysParts(sys);
    match sys.prog.phase
    case Idle =>
    case Flushing =>
    case Dumping =>
    case Finishing =>
      forall i | 0 <= i < |sys.hist|
        ensures EndAll(sys.db, x.orders).bins[i].cache.g == sys.db.bins[i].cache.g
      {
        EndAllBins(sys.db, x.orders, i);
      }
  }

  lemma WholeContinues(sys: Sys, scans: seq<seq<nat>>, deltas: seq<seq<Run>>)
    requires SysInv(sys) && WholeOk(sys, scans, deltas)
    ensures AllContinue(sys, WholeCheckpoint(sys, scans, deltas))
  {
    hide Tracks, BinOk, SizesOk, Cycled, IndexOwned, GeometryFor, BlockingDump, DimRegistries.Distinct;
    forall i | 0 <= i < |sys.hist|
      ensures WholeCheckpoint(sys, scans, deltas).db.bins[i].cache.g == sys.db.bins[i].cache.g
    {
      assert Stands(sys.db.bins[i], sys.hist[i], sys.prog, i);
      BegunOk(sys.db.bins[i], scans[i], deltas[i]);
      CycledKeeps(sys.db.index, i, sys.db.bins[i]);
    }
  }

  lemma BegunOk(b: Bin, scan: seq<nat>, delta: seq<Run>)
    requires BlockingDump(b, scan, delta)
    ensures BinOk(Begin(b))
  {
  }

  lemma ApplyContinues(sys: Sys, op: Op)
    requires SysInv(sys) && OpOk(sys, op)
    ensures AllContinue(sys, Apply(sys, op))
  {
    hide SysInv, Inv, AllTrack, AllHeld, CkptStep, BatchPut, BatchDelete, FlushAll, WholeCheckpoint, WholeOk, AllContinue;
    SysParts(sys);
    match op {
      case Put(rs) =>
        BatchPutTracks(sys.db, sys.hist, rs);
        HeldContinue(sys, BatchPut(sys.db, rs).0, Extended(sys.hist, |BatchPut(sys.db, rs).0.bins|));
      case Delete(fs) =>
        BatchDeleteTracks(sys.db, sys.hist, fs);
        TrackSizes(BatchDelete(sys.db, fs), sys.hist);
        HeldContinue(sys, BatchDelete(sys.db, fs), sys.hist);
      case FlushDB =>
        FlushAllTracks(sys.db, sys.hist);
        TrackSizes(FlushAll(sys.db), sys.hist);
        HeldContinue(sys, FlushAll(sys.db), sys.hist);
      case Step(asked, found) =>
        StepContinues(sys, asked, found);
      case Whole(scans, deltas) =>
        WholeContinues(sys, scans, deltas);
    }
  }

  lemma {:induction false} RunContinues(sys: Sys, ops: seq<Op>)
    requires SysInv(sys) && RunOk(sys, ops)
    ensures AllContinue(sys, Reached(sys, ops))
    decreases |ops|
  {
    hide SysInv, Apply, AllContinue;
    if ops == [] {
      NothingChanged(sys);
    } else {
      ApplyKeepsInv(sys, ops[0]);
      ApplyContinues(sys, ops[0]);
      RunContinues(Apply(sys, ops[0]), ops[1..]);
      AllContinueTrans(sys, Apply(sys, ops[0]), Reached(sys, ops));
    }
  }

  lemma NothingChanged(sys: Sys)
    requires SysInv(sys)
    ensures AllContinue(sys, sys)
  {
    SysParts(sys);
  }

  // ----- a run, split -----

  lemma {:induction false} RunSplit(sys: Sys, ops: seq<Op>, m: nat)
    requires SysInv(sys) && RunOk(sys, ops) && m <= |ops|
    ensures RunOk(sys, ops[..m]) && SysInv(Reached(sys, ops[..m])) && RunOk(Reached(sys, ops[..m]), ops[m..])
    ensures Reached(Reached(sys, ops[..m]), ops[m..]) == Reached(sys, ops)
    decreases m
  {
    hide OpOk, Apply, SysInv;
    if m == 0 {
      assert ops[..0] == [] && ops[0..] == ops;
    } else {
      var s, t := ops[..m], ops[m..];
      assert s[0] == ops[0] && s[1..] == ops[1..][..m - 1] && ops[1..][m - 1..] == t;
      ApplyKeepsInv(sys, ops[0]);
      RunSplit(Apply(sys, ops[0]), ops[1..], m - 1);
      assert RunOk(sys, s) && Reached(sys, s) == Reached(Apply(sys, ops[0]), s[1..]);
    }
  }

  /** The state of a run before its operation `m`. */
  ghost function Before(sys: Sys, ops: seq<Op>, m: nat): Sys
    requires SysInv(sys) && RunOk(sys, ops) && m <= |ops|
  {
    RunSplit(sys, ops, m);
    Reached(sys, ops[..m])
  }

  /** The operation is the step that begins the incremental checkpoint of bin `i`. */
  ghost predicate Begins(sys: Sys, op: Op, i: nat) {
    && op.Step? && i < |sys.db.bins| && i < |sys.hist|
    && ((sys.prog.phase == Idle && i == 0) || (sys.prog.phase == Flushing && sys.prog.bin == i))
  }

  /** What the history of the bin holds, from that step on. */
  lemma BegunFrom(sys: Sys, op: Op, i: nat, later: Sys)
    requires SysInv(sys) && OpOk(sys, op) && Begins(sys, op, i) && AllContinue(Apply(sys, op), later)
    ensures i < |later.hist| == |later.db.bins|
    ensures var j, b := |sys.hist[i].images|, sys.db.bins[i];
            && j < |later.hist[i].images| && later.hist[i].images[j] == Begin(b).cache.file
            && j < |later.hist[i].dirty| && later.hist[i].dirty[j] == b.active
            && |sys.hist[i].marks| < |later.hist[i].marks| && later.hist[i].marks[|sys.hist[i].marks|] == b.bump
            && later.db.bins[i].cache.g == b.cache.g
  {
    hide Inv, AllTrack, Stands, EndOk, DumpOk, FlushOk;
    SysParts(sys);
    HistorySizes(sys, i);
    var next := Apply(sys, op);
    assert next.hist[i] == BegunHistory(sys.db.bins[i], sys.hist[i]);
    assert Continues(next.hist[i], later.hist[i]);
  }

  /** The operation creates the file of the next delta of bin `i`: the first dump step of the bin, or a
      blocking checkpoint. */
  ghost predicate Creates(sys: Sys, op: Op, i: nat) {
    && i < |sys.db.bins| && i < |sys.hist|
    && (op.Whole? || (op.Step? && sys.prog.phase == Dumping && sys.prog.bin == i && !sys.prog.open && sys.db.bins[i].inCkpt))
  }

  lemma CreatedFrom(sys: Sys, op: Op, i: nat, later: Sys)
    requires SysInv(sys) && OpOk(sys, op) && Creates(sys, op, i) && AllContinue(Apply(sys, op), later)
    ensures i < |later.hist| == |later.db.bins|
    ensures var j := |sys.hist[i].heads|; j < |later.hist[i].heads| && later.hist[i].heads[j] == sys.db.bins[i].bump
    ensures !(sys.prog.open && sys.prog.bin == i)
  {
    hide Inv, AllTrack, Stands, EndOk, DumpOk, FlushOk, Cycled, BlockingDump;
    SysParts(sys);
    var next := Apply(sys, op);
    assert next.hist[i].heads == sys.hist[i].heads + [sys.db.bins[i].bump];
    assert Continues(next.hist[i], later.hist[i]);
  }

  lemma HistorySizes(sys: Sys, i: nat)
    requires SysInv(sys) && i < |sys.hist| == |sys.db.bins|
    ensures |sys.hist[i].images| == |sys.hist[i].dirty|
  {
    assert Tracks(sys.db.bins[i], sys.hist[i]);
  }

  /** The incremental checkpoint refines the blocking one: whatever the budgets of its steps, and
      whatever is put, deleted and flushed between them, the delta it completes for a bin replays onto
      every file like the delta the blocking checkpoint would have written where that bin began. */
  lemma IncrementalIsBlocking(db: DB, ops: seq<Op>, m: nat, i: nat, scan: seq<nat>, whole: seq<Run>, was: File)
    requires JustOpened(db) && RunOk(Started(db), ops) && m < |ops|
    requires Begins(Before(Started(db), ops, m), ops[m], i)
    requires BlockingDump(Before(Started(db), ops, m).db.bins[i], scan, whole)
    requires var last := Reached(Started(db), ops);
             i < |last.hist| && |Before(Started(db), ops, m).hist[i].images| < |last.hist[i].deltas|
    ensures var j := |Before(Started(db), ops, m).hist[i].images|;
            ReplayRuns(was, Reached(Started(db), ops).hist[i].deltas[j]) == ReplayRuns(was, whole)
  {
    hide JustOpened, RunOk, Reached, SysInv, Apply, AllContinue, BlockingDump;
    var start := Started(db);
    RunSplit(start, ops, m);
    var sys, last := Before(start, ops, m), Reached(start, ops);
    RunKeepsInv(start, ops[..m]);
    RunKeepsInv(start, ops);
    RestOfRun(sys, ops[m..]);
    assert ops[m..][0] == ops[m];
    BegunFrom(sys, ops[m], i, last);
    DeltaOf(last, i, |sys.hist[i].images|, sys.db.bins[i], scan, whole);
    ReplayIsWrites(was, last.hist[i].deltas[|sys.hist[i].images|]);
    ReplayIsWrites(was, whole);
  }

  lemma RestOfRun(sys: Sys, ops: seq<Op>)
    requires SysInv(sys) && RunOk(sys, ops) && ops != []
    ensures OpOk(sys, ops[0]) && AllContinue(Apply(sys, ops[0]), Reached(sys, ops))
  {
    hide SysInv, Apply, AllContinue;
    ApplyKeepsInv(sys, ops[0]);
    RunContinues(Apply(sys, ops[0]), ops[1..]);
  }

  lemma DeltaOf(sys: Sys, i: nat, j: nat, b: Bin, scan: seq<nat>, whole: seq<Run>)
    requires SysInv(sys) && i < |sys.hist| == |sys.db.bins| && j < |sys.hist[i].deltas|
    requires j < |sys.hist[i].images| && sys.hist[i].images[j] == Begin(b).cache.file
    requires j < |sys.hist[i].dirty| && sys.hist[i].dirty[j] == b.active && sys.db.bins[i].cache.g == b.cache.g
    requires BlockingDump(b, scan, whole)
    ensures Flatten(sys.hist[i].deltas[j]) == Flatten(whole)
  {
    hide Inv, Flatten;
    ScanIsWhole(scan, b.active);
    assert Tracks(sys.db.bins[i], sys.hist[i]);
    assert ChainAt(b.cache.g, sys.hist[i], j + 1);
  }
}
