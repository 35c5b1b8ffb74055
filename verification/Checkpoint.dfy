/** The incremental checkpoint as a state machine over the whole database, interleaved with
    puts, deletes and flushes. */
module Checkpoints {
  import opened Pages
  import opened PageCaches
  import opened Bins
  import opened Stores
  import opened Deletions
  import opened DeltaChains
  import DimRegistries
  import DirtyTrackers
  import StableSort

  const MAX_DIRTY := 0x10_0000  // pages one checkpoint of a bin can dump
  const DEFAULT_BUDGET := 64

  // ----- puts and deletes as seen by the checkpoint -----

  ghost predicate AllTrack(db: DB, hist: seq<History>) {
    |hist| == |db.bins| && forall i :: 0 <= i < |db.bins| ==> Tracks(db.bins[i], hist[i])
  }

  /** What an operation other than begin, dump and end may do to a bin: nothing the running
      checkpoint can see. */
  ghost predicate Held(a: Bin, b: Bin) {
    && b.inCkpt == a.inCkpt && b.frozen == a.frozen && b.generation == a.generation && b.cache.g == a.cache.g
    && (a.inCkpt ==> b.cache == a.cache) && a.bump <= b.bump
  }

  /** A bin created during the session that has seen no checkpoint. */
  ghost predicate Newborn(b: Bin) {
    !b.inCkpt && b.frozen == {}
  }

  ghost predicate AllHeld(a: DB, b: DB) {
    && |a.bins| <= |b.bins|
    && (forall i :: 0 <= i < |a.bins| ==> Held(a.bins[i], b.bins[i]))
    && (forall i :: |a.bins| <= i < |b.bins| ==> Newborn(b.bins[i]))
  }

  /** Histories for bins added since: they start from an empty file. */
  function Extended(hist: seq<History>, n: nat): (r: seq<History>)
    ensures |hist| <= n ==> |r| == n
  {
    if |hist| < n then hist + seq(n - |hist|, _ => History(map[], 0, [], [], [], [], [])) else hist
  }

  lemma SlotsTrack(a: Bin, b: Bin, h: History)
    requires Tracks(a, h) && SameData(a, b)
    ensures Tracks(b, h) && Held(a, b)
  {
  }

  lemma PutBatchHeld(b: Bin, ws: seq<Write>)
    requires BinOk(b) && Fits(b.cache.g, ws)
    ensures Held(b, PutBatch(b, ws).0)
  {
  }

  /** A dim group acts on its bin as: take slots and keys, then write one batch. */
  lemma PutGroupBin(db: DB, k: nat, rs: seq<Request>, status: Status) returns (mid: Bin, ws: seq<Write>)
    requires GroupOk(db, k, rs)
    ensures SameData(db.bins[k], mid) && BinOk(mid) && Fits(mid.cache.g, ws)
    ensures PutGroup(db, k, rs, status).0.bins[k] == if ws == [] then mid else PutBatch(mid, ws).0
  {
    hide Owned, PutKeys, PutBatch, DimRegistries.Distinct, BinOk, SameData;
    ReservedKeeps(db, k, |rs|);
    var start := Group(Reserved(db, k, |rs|), [], status);
    PutKeysFacts(start, k, rs);
    var gr := PutKeys(start, k, rs);
    OnlySlotsTrans(db, start.db, gr.db, k);
    mid, ws := gr.db.bins[k], gr.deferred;
    SameBins(start.db, gr.db, k);
  }

  lemma PutGroupTracks(db: DB, hist: seq<History>, k: nat, rs: seq<Request>, status: Status)
    requires GroupOk(db, k, rs) && AllTrack(db, hist)
    ensures AllTrack(PutGroup(db, k, rs, status).0, hist) && AllHeld(db, PutGroup(db, k, rs, status).0)
  {
    hide PutGroup, Inv, Tracks, PutBatch, Held;
    var r := PutGroup(db, k, rs, status).0;
    PutGroupFacts(db, k, rs, status);
    var mid, ws := PutGroupBin(db, k, rs, status);
    SlotsTrack(db.bins[k], mid, hist[k]);
    PutBatchHeld(mid, ws);
    PutBatchTracks(mid, hist[k], ws);
    forall i | 0 <= i < |db.bins|
      ensures Tracks(r.bins[i], hist[i]) && Held(db.bins[i], r.bins[i])
    {
      if i == k {
        HeldTrans(db.bins[k], mid, r.bins[k]);
      } else {
        HeldRefl(db.bins[i]);
      }
    }
  }

  lemma HeldRefl(a: Bin)
    ensures Held(a, a)
  {
  }

  lemma HeldTrans(a: Bin, b: Bin, c: Bin)
    requires Held(a, b) && (c == b || Held(b, c))
    ensures Held(a, c)
  {
  }

  lemma AllHeldTrans(a: DB, b: DB, c: DB)
    requires AllHeld(a, b) && AllHeld(b, c)
    ensures AllHeld(a, c)
  {
  }

  lemma AllHeldRefl(a: DB)
    ensures AllHeld(a, a)
  {
  }

  lemma NewbornTracks(cfg: Config, dim: nat, buffer: nat)
    requires dim > 0
    ensures Newborn(NewBin(cfg, dim, buffer)) && Tracks(NewBin(cfg, dim, buffer), History(map[], 0, [], [], [], [], []))
  {
    var b, h := NewBin(cfg, dim, buffer), History(map[], 0, [], [], [], [], []);
    assert h.deltas[..0] == [];
    assert ChainAt(b.cache.g, h, 0);
  }

  lemma BinForTracks(db: DB, hist: seq<History>, dim: nat)
    requires Inv(db) && dim > 0 && AllTrack(db, hist)
    ensures var r := BinFor(db, dim).0;
            |db.bins| <= |r.bins| && AllTrack(r, Extended(hist, |r.bins|)) && AllHeld(db, r)
  {
    hide NewBin, Tracks, Inv;
    if DimRegistries.IndexOf(db.dims, dim) < 0 {
      var share := BufferSize(db.cfg) / (|db.dims| + 1);
      NewbornTracks(db.cfg, dim, if share < 4194304 then 4194304 else share);
      assert seq(1, _ => History(map[], 0, [], [], [], [], [])) == [History(map[], 0, [], [], [], [], [])];
    }
  }

  lemma ExtendedTwice(hist: seq<History>, m: nat, n: nat)
    requires |hist| <= m <= n
    ensures Extended(Extended(hist, m), n) == Extended(hist, n)
  {
  }

  lemma {:induction false} PutGroupsTracks(db: DB, hist: seq<History>, rs: seq<Request>, status: Status)
    requires Inv(db) && RequestsOk(db.cfg, rs) && AllTrack(db, hist)
    ensures var r := PutGroups(db, rs, status).0;
            |db.bins| <= |r.bins| && AllTrack(r, Extended(hist, |r.bins|)) && AllHeld(db, r)
    decreases |rs|
  {
    hide Inv, PutGroup, BinFor, OnlyBin, AllTrack, AllHeld;
    TrackSizes(db, hist);
    if rs == [] || (DimRegistries.IndexOf(db.dims, rs[0].dim) < 0 && !db.cfg.autoCreate) {
      AllHeldRefl(db);
    } else {
      var n := LeadRun(rs);
      assert EmbOk(db.cfg, rs[0]);
      BinForFacts(db, rs[0].dim);
      BinForTracks(db, hist, rs[0].dim);
      var (db1, k) := BinFor(db, rs[0].dim);
      PutGroupFacts(db1, k, rs[..n], status);
      PutGroupTracks(db1, Extended(hist, |db1.bins|), k, rs[..n], status);
      var (db2, st) := PutGroup(db1, k, rs[..n], status);
      GroupDims(db1, db2, k);
      PutGroupsTracks(db2, Extended(hist, |db1.bins|), rs[n..], st);
      var db3 := PutGroups(db2, rs[n..], st).0;
      ExtendedTwice(hist, |db1.bins|, |db3.bins|);
      AllHeldTrans(db, db1, db2);
      AllHeldTrans(db, db2, db3);
    }
  }

  lemma TrackSizes(db: DB, hist: seq<History>)
    requires AllTrack(db, hist)
    ensures |hist| == |db.bins|
  {
  }

  lemma BatchPutTracks(db: DB, hist: seq<History>, rs: seq<Request>)
    requires Inv(db) && RequestsOk(db.cfg, rs) && AllTrack(db, hist)
    ensures var r := BatchPut(db, rs).0;
            Inv(r) && |db.bins| <= |r.bins| && AllTrack(r, Extended(hist, |r.bins|)) && AllHeld(db, r)
  {
    hide Inv, AllTrack, AllHeld, PutGroups;
    SortedRequestsOk(db.cfg, rs);
    BatchPutReadsBack(db, rs);
    PutGroupsTracks(db, hist, StableSort.Sort(rs, DimKey()), Success);
  }

  lemma DeleteOneTracks(db: DB, hist: seq<History>, f: nat)
    requires Inv(db) && AllTrack(db, hist)
    ensures AllTrack(DeleteOne(db, f), hist) && AllHeld(db, DeleteOne(db, f))
  {
    hide Inv, Tracks, Held, Tombstone, FreeEntry;
    if f in db.index {
      IndexedBin(db, f);
      LostTracks(db.bins[db.index[f].dimIdx], hist[db.index[f].dimIdx], db.index[f].entryIdx);
    }
    forall i | 0 <= i < |db.bins|
      ensures Held(db.bins[i], db.bins[i])
    {
      HeldRefl(db.bins[i]);
    }
  }

  lemma LostTracks(b: Bin, h: History, s: nat)
    requires Tracks(b, h)
    ensures var c := if b.inCkpt then Tombstone(b, s) else FreeEntry(b, s);
            Tracks(c, h) && Held(b, c)
  {
    hide Chain;
  }

  lemma {:induction false} BatchDeleteTracks(db: DB, hist: seq<History>, fs: seq<nat>)
    requires Inv(db) && AllTrack(db, hist)
    ensures AllTrack(BatchDelete(db, fs), hist) && AllHeld(db, BatchDelete(db, fs)) && Inv(BatchDelete(db, fs))
    decreases |fs|
  {
    hide Inv, AllTrack, AllHeld, DeleteOne;
    if fs == [] {
      AllHeldRefl(db);
    } else {
      DeleteOneOwns(db, fs[0]);
      DeleteOneTracks(db, hist, fs[0]);
      BatchDeleteTracks(DeleteOne(db, fs[0]), hist, fs[1..]);
      AllHeldTrans(db, DeleteOne(db, fs[0]), BatchDelete(DeleteOne(db, fs[0]), fs[1..]));
    }
  }

  // ----- flushing every bin -----

  /** `graveldb_flush`. */
  function FlushAll(db: DB): (r: DB) {
    db.(bins := seq(|db.bins|, i requires 0 <= i < |db.bins| => FlushBin(db.bins[i])))
  }

  /** A flush changes no read, no owner, and nothing a checkpoint can see. */
  lemma FlushAllTracks(db: DB, hist: seq<History>)
    requires Inv(db) && AllTrack(db, hist)
    ensures Inv(FlushAll(db)) && AllTrack(FlushAll(db), hist) && AllHeld(db, FlushAll(db))
    ensures forall i :: 0 <= i < |db.bins| ==> FlushAll(db).bins[i].cache.buf == map[]
    ensures forall i, s: nat :: 0 <= i < |db.bins| ==> Read(FlushAll(db).bins[i], s) == Read(db.bins[i], s)
  {
    hide SlotsOwned, BinOk, Tracks, DimRegistries.Distinct, GeometryFor, Read, IndexOwned;
    var r := FlushAll(db);
    forall i | 0 <= i < |db.bins|
      ensures BinOk(r.bins[i]) && SizesOk(r.bins[i]) && Held(db.bins[i], r.bins[i]) && Tracks(r.bins[i], hist[i])
      ensures forall s: nat :: Read(r.bins[i], s) == Read(db.bins[i], s)
    {
      FlushBinKeeps(db.bins[i]);
      FlushTracks(db.bins[i], hist[i]);
    }
    SameSlotsOwned(db, r);
  }

  // ----- the state machine -----

  datatype Phase = Idle | Flushing | Dumping | Finishing

  /** `CkptProgress`: the phase, the bin it has reached, and the delta file being written. */
  datatype Progress = Progress(phase: Phase, bin: nat, open: bool, blocks: seq<nat>, cursor: nat, runs: seq<Run>)

  /** The database, the checkpoint's progress, and what each bin's checkpoints have produced. */
  datatype Sys = Sys(db: DB, prog: Progress, hist: seq<History>)

  /** What a step finds rather than decides: the scan of the frozen tracker, the runs the dump
      loop writes, and the order in which each overlay's table stores its entries. */
  datatype Finding = Finding(scan: seq<nat>, runs: seq<Run>, orders: seq<seq<Write>>)

  function Budget(asked: nat): (n: nat)
    ensures n > 0
  {
    if asked == 0 then DEFAULT_BUDGET else asked
  }

  function Blocks(pr: Progress, x: Finding): seq<nat> {
    if pr.open then pr.blocks else x.scan
  }

  function Cursor(pr: Progress): nat {
    if pr.open then pr.cursor else 0
  }

  function NextCursor(pr: Progress, x: Finding, asked: nat): nat {
    Min(|Blocks(pr, x)|, Cursor(pr) + Budget(asked))
  }

  ghost predicate FlushOk(sys: Sys, k: nat) {
    k < |sys.db.bins| ==> |sys.db.bins[k].active| <= MAX_DIRTY
  }

  ghost predicate DumpOk(sys: Sys, asked: nat, x: Finding) {
    sys.prog.bin < |sys.db.bins| ==>
      var b, pr := sys.db.bins[sys.prog.bin], sys.prog;
      && FileOk(b.cache.g, b.cache.file)
      && (!pr.open ==> DirtyTrackers.FirstOf(x.scan, b.frozen, MAX_DIRTY))
      && Cursor(pr) <= |Blocks(pr, x)| && Solid(x.runs)
      && Flatten(x.runs) == Dumped(b.cache.g, b.cache.file, Blocks(pr, x))[Cursor(pr)..NextCursor(pr, x, asked)]
  }

  ghost predicate EndOk(db: DB, orders: seq<seq<Write>>) {
    |orders| == |db.bins| && forall i :: 0 <= i < |db.bins| ==> Enumerates(orders[i], db.bins[i].overlay)
  }

  /** FLUSHING: begin the checkpoint of one bin, or move on to the dumps. */
  function FlushStep(sys: Sys, k: nat): (r: Sys)
    requires k < |sys.db.bins| ==> k < |sys.hist|
  {
    if k >= |sys.db.bins| then sys.(prog := Progress(Dumping, 0, false, [], 0, []))
    else
      Sys(sys.db.(bins := sys.db.bins[k := Begin(sys.db.bins[k])]),
          Progress(Flushing, k + 1, false, [], 0, []),
          sys.hist[k := BegunHistory(sys.db.bins[k], sys.hist[k])])
  }

  /** The delta file of bin `k` is complete. */
  function Complete(hist: seq<History>, k: nat, b: Bin, runs: seq<Run>): (r: seq<History>)
    requires k < |hist|
    ensures |r| == |hist|
  {
    if b.inCkpt then hist[k := hist[k].(deltas := hist[k].deltas + [runs])] else hist
  }

  /** The delta file of bin `k` is created, unless it was. */
  function Created(hist: seq<History>, k: nat, b: Bin, open: bool): (r: seq<History>)
    requires k < |hist|
    ensures |r| == |hist|
  {
    if b.inCkpt && !open then hist[k := hist[k].(heads := hist[k].heads + [b.bump])] else hist
  }

  /** DUMPING: dump up to the budget of one bin, or move on to the end. */
  function DumpPhase(sys: Sys, asked: nat, x: Finding): (r: Sys)
    requires |sys.hist| == |sys.db.bins|
  {
    var pr := sys.prog;
    if pr.bin >= |sys.db.bins| then sys.(prog := Progress(Finishing, 0, false, [], 0, []))
    else
      var runs := (if pr.open then pr.runs else []) + x.runs;
      var next := NextCursor(pr, x, asked);
      var hist := Created(sys.hist, pr.bin, sys.db.bins[pr.bin], pr.open);
      if next >= |Blocks(pr, x)| then
        sys.(prog := Progress(Dumping, pr.bin + 1, false, [], 0, []),
             hist := Complete(hist, pr.bin, sys.db.bins[pr.bin], runs))
      else sys.(prog := Progress(Dumping, pr.bin, true, Blocks(pr, x), next, runs), hist := hist)
  }

  /** FINISHING: end the checkpoint of every bin. */
  function EndAll(db: DB, orders: seq<seq<Write>>): (r: DB)
    requires Inv(db) && EndOk(db, orders)
  {
    db.(bins := seq(|db.bins|, i requires 0 <= i < |db.bins| =>
      assert Enumerates(orders[i], db.bins[i].overlay);
      End(db.bins[i], orders[i])))
  }

  ghost predicate StepOk(sys: Sys, asked: nat, x: Finding) {
    && |sys.hist| == |sys.db.bins|
    && match sys.prog.phase
       case Idle => FlushOk(sys, 0)
       case Flushing => FlushOk(sys, sys.prog.bin)
       case Dumping => DumpOk(sys, asked, x)
       case Finishing => Inv(sys.db) && EndOk(sys.db, x.orders)
  }

  /** `graveldb_checkpoint_step`. */
  function CkptStep(sys: Sys, asked: nat, x: Finding): (r: Sys)
    requires StepOk(sys, asked, x)
  {
    match sys.prog.phase
    case Idle => FlushStep(sys, 0)
    case Flushing => FlushStep(sys, sys.prog.bin)
    case Dumping => DumpPhase(sys, asked, x)
    case Finishing => Sys(EndAll(sys.db, x.orders), Progress(Idle, sys.prog.bin, false, [], 0, []), sys.hist)
  }

  // ----- the invariant -----

  /** Where bin `i` stands in the checkpoint. */
  ghost predicate Stands(b: Bin, h: History, pr: Progress, i: nat) {
    match pr.phase
    case Idle => !b.inCkpt
    case Flushing =>
      if i < pr.bin then b.inCkpt && |b.frozen| <= MAX_DIRTY && |h.images| == |h.deltas| + 1 else !b.inCkpt
    case Dumping =>
      || (Newborn(b) && h.images == [])
      || (b.inCkpt && |b.frozen| <= MAX_DIRTY && |h.images| == |h.deltas| + if i < pr.bin then 0 else 1)
    case Finishing => (Newborn(b) && h.images == []) || (b.inCkpt && |h.images| == |h.deltas|)
  }

  /** The delta file being written holds the frozen pages up to the cursor. */
  ghost predicate Writing(b: Bin, pr: Progress) {
    && b.inCkpt && FileOk(b.cache.g, b.cache.file) && pr.cursor < |pr.blocks|
    && pr.blocks == Listed(b.frozen) && Solid(pr.runs)
    && Flatten(pr.runs) == Dumped(b.cache.g, b.cache.file, pr.blocks)[..pr.cursor]
  }

  ghost predicate SysInv(sys: Sys) {
    && Inv(sys.db) && AllTrack(sys.db, sys.hist)
    && (sys.prog.phase != Idle ==> sys.prog.bin <= |sys.db.bins|)
    && (forall i :: 0 <= i < |sys.db.bins| ==> Stands(sys.db.bins[i], sys.hist[i], sys.prog, i))
    && (sys.prog.open ==> sys.prog.phase == Dumping && sys.prog.bin < |sys.db.bins|
                          && Writing(sys.db.bins[sys.prog.bin], sys.prog))
  }

  // ----- every step keeps the invariant -----

  lemma StandsHeld(a: Bin, b: Bin, h: History, pr: Progress, i: nat)
    requires Held(a, b) && Stands(a, h, pr, i)
    ensures Stands(b, h, pr, i)
  {
  }

  lemma NewbornStands(b: Bin, h: History, pr: Progress, i: nat)
    requires Newborn(b) && h.images == [] && (pr.phase == Flushing ==> pr.bin <= i)
    ensures Stands(b, h, pr, i)
  {
  }

  /** Puts, deletes and flushes. */
  lemma HeldKeepsInv(sys: Sys, db: DB, hist: seq<History>)
    requires SysInv(sys) && Inv(db) && AllHeld(sys.db, db) && AllTrack(db, hist) && hist == Extended(sys.hist, |db.bins|)
    ensures SysInv(Sys(db, sys.prog, hist))
  {
    hide Inv, Tracks, Held, Stands, Newborn;
    forall i | 0 <= i < |db.bins|
      ensures Stands(db.bins[i], hist[i], sys.prog, i)
    {
      if i < |sys.db.bins| {
        assert hist[i] == sys.hist[i];
        StandsHeld(sys.db.bins[i], db.bins[i], hist[i], sys.prog, i);
      } else {
        NewbornStands(db.bins[i], hist[i], sys.prog, i);
      }
    }
    if sys.prog.open {
      WritingHeld(sys.db.bins[sys.prog.bin], db.bins[sys.prog.bin], sys.prog);
    }
  }

  lemma WritingHeld(a: Bin, b: Bin, pr: Progress)
    requires Held(a, b) && Writing(a, pr)
    ensures Writing(b, pr)
  {
  }

  lemma BeginKeepsInv(db: DB, k: nat)
    requires Inv(db) && k < |db.bins| && !db.bins[k].inCkpt
    ensures Inv(db.(bins := db.bins[k := Begin(db.bins[k])]))
  {
    hide SlotsOwned, IndexOwned, DimRegistries.Distinct, GeometryFor;
    BeginReads(db.bins[k]);
    SameSlotsOwned(db, db.(bins := db.bins[k := Begin(db.bins[k])]));
  }

  lemma FlushStepKeepsInv(sys: Sys, k: nat)
    requires SysInv(sys) && FlushOk(sys, k) && !sys.prog.open && k <= |sys.db.bins|
    requires (sys.prog.phase == Idle && k == 0) || (sys.prog.phase == Flushing && k == sys.prog.bin)
    ensures SysInv(FlushStep(sys, k))
  {
    hide Inv, Tracks, Begin, BegunHistory;
    var r := FlushStep(sys, k);
    if k < |sys.db.bins| {
      BeginKeepsInv(sys.db, k);
      BeginTracks(sys.db.bins[k], sys.hist[k]);
      BegunStands(sys.db.bins[k], sys.hist[k], k);
    }
  }

  lemma BegunStands(b: Bin, h: History, k: nat)
    requires Tracks(b, h) && !b.inCkpt && |b.active| <= MAX_DIRTY
    ensures Stands(Begin(b), BegunHistory(b, h), Progress(Flushing, k + 1, false, [], 0, []), k)
  {
  }

  /** The scan lists the whole frozen set when it fits. */
  lemma ScanIsWhole(scan: seq<nat>, s: set<nat>)
    requires DirtyTrackers.FirstOf(scan, s, 0x10_0000) && |s| <= 0x10_0000
    ensures scan == Listed(s)
  {
    var listed := Elements(scan);
    AscendingSize(scan);
    forall x | x in s
      ensures x in scan
    {
      OneMore(listed, x, s);
    }
    ListedOnce(scan, Listed(s));
  }

  lemma OneMore(a: set<nat>, x: nat, b: set<nat>)
    ensures a <= b && x in b && x !in a ==> |a| < |b|
  {
    if a <= b && x in b && x !in a {
      SubsetSize(a + {x}, b);
    }
  }

  ghost function Elements(s: seq<nat>): set<nat> {
    set p | p in s
  }

  lemma {:induction false} AscendingSize(s: seq<nat>)
    requires forall i, j :: 0 <= i < j < |s| ==> s[i] < s[j]
    ensures |Elements(s)| == |s|
  {
    if s != [] {
      var r, x := s[..|s| - 1], s[|s| - 1];
      AscendingSize(r);
      assert s == r + [x] && x !in r;
      assert Elements(s) == Elements(r) + {x};
    }
  }

  lemma ReadyToDump(sys: Sys)
    requires SysInv(sys) && sys.prog.phase == Dumping && sys.prog.bin < |sys.db.bins|
    ensures var b := sys.db.bins[sys.prog.bin]; FileOk(b.cache.g, b.cache.file)
    ensures sys.prog.open ==> sys.prog.cursor <= |sys.prog.blocks|
  {
    hide Owned;
    BinsAreOk(sys.db, sys.prog.bin);
  }

  /** What one dump step adds to the delta of the bin it works on. */
  lemma DumpedSoFar(sys: Sys, asked: nat, x: Finding)
    requires SysInv(sys) && sys.prog.phase == Dumping && sys.prog.bin < |sys.db.bins| && DumpOk(sys, asked, x)
    ensures var b, pr := sys.db.bins[sys.prog.bin], sys.prog;
            && FileOk(b.cache.g, b.cache.file)
            && Blocks(pr, x) == Listed(b.frozen) && Solid((if pr.open then pr.runs else []) + x.runs)
            && Flatten((if pr.open then pr.runs else []) + x.runs) ==
                 Dumped(b.cache.g, b.cache.file, Blocks(pr, x))[..NextCursor(pr, x, asked)]
  {
    hide Inv, AllTrack, Dumped, Flatten, Listed;
    TrackSizes(sys.db, sys.hist);
    var b, pr := sys.db.bins[sys.prog.bin], sys.prog;
    assert Stands(b, sys.hist[pr.bin], pr, pr.bin);
    if !pr.open {
      ScanIsWhole(x.scan, b.frozen);
    }
    FlattenConcat(if pr.open then pr.runs else [], x.runs);
    NoRuns();
    Joined(Dumped(b.cache.g, b.cache.file, Blocks(pr, x)), Cursor(pr), NextCursor(pr, x, asked));
  }

  lemma Joined(all: seq<PageWrite>, a: nat, b: nat)
    requires a <= b <= |all|
    ensures all[..a] + all[a..b] == all[..b] && all[..0] == []
  {
  }

  /** The step that completes a bin's delta. */
  lemma DumpCloses(sys: Sys, asked: nat, x: Finding)
    requires SysInv(sys) && sys.prog.phase == Dumping && sys.prog.bin < |sys.db.bins| && DumpOk(sys, asked, x)
    requires NextCursor(sys.prog, x, asked) >= |Blocks(sys.prog, x)|
    ensures SysInv(DumpPhase(sys, asked, x))
  {
    hide Inv, Tracks, Dumped, Flatten, Solid, FileOk, DumpOk, Writing, Blocks;
    var pr := sys.prog;
    DumpedSoFar(sys, asked, x);
    var b, h := sys.db.bins[pr.bin], sys.hist[pr.bin];
    assert Stands(b, h, pr, pr.bin);
    if b.inCkpt {
      assert Dumped(b.cache.g, b.cache.file, Blocks(pr, x))[..|Blocks(pr, x)|] == Dumped(b.cache.g, b.cache.file, Blocks(pr, x));
      DumpTracks(b, h, (if pr.open then pr.runs else []) + x.runs);
      TracksNoted(b, h.(deltas := h.deltas + [(if pr.open then pr.runs else []) + x.runs]),
                  DumpPhase(sys, asked, x).hist[pr.bin]);
    }
  }

  /** A step that leaves pages of the bin for later. */
  lemma DumpGoesOn(sys: Sys, asked: nat, x: Finding)
    requires SysInv(sys) && sys.prog.phase == Dumping && sys.prog.bin < |sys.db.bins| && DumpOk(sys, asked, x)
    requires NextCursor(sys.prog, x, asked) < |Blocks(sys.prog, x)|
    ensures SysInv(DumpPhase(sys, asked, x))
  {
    hide Inv, Tracks, Dumped, Flatten, Solid, FileOk, DumpOk;
    var pr := sys.prog;
    DumpedSoFar(sys, asked, x);
    assert Stands(sys.db.bins[pr.bin], sys.hist[pr.bin], pr, pr.bin);
    assert Blocks(pr, x)[0] in Listed(sys.db.bins[pr.bin].frozen);
    TracksNoted(sys.db.bins[pr.bin], sys.hist[pr.bin], DumpPhase(sys, asked, x).hist[pr.bin]);
  }

  lemma DumpKeepsInv(sys: Sys, asked: nat, x: Finding)
    requires SysInv(sys) && sys.prog.phase == Dumping && DumpOk(sys, asked, x)
    ensures SysInv(DumpPhase(sys, asked, x))
  {
    hide Inv, Tracks, Dumped, Flatten, DumpOk, Blocks, NextCursor;
    if sys.prog.bin < |sys.db.bins| {
      if NextCursor(sys.prog, x, asked) >= |Blocks(sys.prog, x)| {
        DumpCloses(sys, asked, x);
      } else {
        DumpGoesOn(sys, asked, x);
      }
    }
  }

  // ----- the end of a checkpoint -----

  /** The tombstoned slots of a bin become free. */
  lemma EndSlots(index: map<nat, Place>, i: nat, b: Bin, order: seq<Write>)
    requires BinOk(b) && Fits(b.cache.g, order) && SlotsOwned(index, i, b)
    ensures SlotsOwned(index, i, End(b, order))
  {
    hide End, Touched;
    EndFrame(b, order);
    var r := End(b, order);
    forall s: nat
      ensures s in r.free <==> s < r.bump && KeyAt(r, s) == 0
    {
      assert s in r.free <==> s in b.free || s in b.tombs;
      assert KeyAt(b, s) != 0 ==> s < b.bump;
    }
    assert NoDup(r.free) by {
      forall x, y | 0 <= x < y < |r.free|
        ensures r.free[x] != r.free[y]
      {
        if x < |b.free| <= y {
          assert b.free[x] in b.free && b.tombs[y - |b.free|] in b.tombs;
        }
      }
    }
  }

  lemma EndAllBins(db: DB, orders: seq<seq<Write>>, i: nat)
    requires Inv(db) && EndOk(db, orders) && i < |db.bins|
    ensures var b, r := db.bins[i], EndAll(db, orders).bins[i];
            && BinOk(r) && SizesOk(r) && SameForm(b, r) && !r.inCkpt && r.tombs == []
            && SlotsOwned(db.index, i, r)
            && (forall s: nat :: KeyAt(r, s) == if s in b.tombs then 0 else KeyAt(b, s))
  {
    hide SlotsOwned, End, Replay, Touched, DimRegistries.Distinct;
    assert Enumerates(orders[i], db.bins[i].overlay);
    EndFrame(db.bins[i], orders[i]);
    ReplayGeometry(db.bins[i].cache, ExtentOf(db.bins[i]), orders[i]);
    EndSlots(db.index, i, db.bins[i], orders[i]);
  }

  lemma ReplayGeometry(c: Cache, x: Extent, ws: seq<Write>)
    requires Ok(c) && Fits(c.g, ws)
    ensures Replay(c, x, ws).g == c.g && Replay(c, x, ws).maxPages == c.maxPages
  {
  }

  lemma EndAllKeepsInv(db: DB, orders: seq<seq<Write>>)
    requires Inv(db) && EndOk(db, orders)
    ensures Inv(EndAll(db, orders))
  {
    hide SlotsOwned, BinOk, SizesOk, DimRegistries.Distinct, GeometryFor, KeyAt, End, EndOk;
    var r := EndAll(db, orders);
    forall i | 0 <= i < |db.bins|
      ensures BinOk(r.bins[i]) && SizesOk(r.bins[i]) && SameForm(db.bins[i], r.bins[i])
      ensures SlotsOwned(r.index, i, r.bins[i]) && r.bins[i].tombs == []
      ensures forall s: nat :: KeyAt(r.bins[i], s) == if s in db.bins[i].tombs then 0 else KeyAt(db.bins[i], s)
    {
      EndAllBins(db, orders, i);
    }
  }

  lemma EndAllTracks(db: DB, orders: seq<seq<Write>>, hist: seq<History>)
    requires Inv(db) && EndOk(db, orders) && AllTrack(db, hist)
    requires forall i :: 0 <= i < |db.bins| && db.bins[i].inCkpt ==> |hist[i].deltas| == |hist[i].images|
    ensures AllTrack(EndAll(db, orders), hist)
  {
    hide Tracks, End, Inv;
    forall i | 0 <= i < |db.bins|
      ensures Tracks(EndAll(db, orders).bins[i], hist[i])
    {
      assert Enumerates(orders[i], db.bins[i].overlay);
      TracksBin(db.bins[i], hist[i]);
      EndTracks(db.bins[i], hist[i], orders[i]);
    }
  }

  lemma TracksChain(sys: Sys, i: nat)
    requires SysInv(sys) && i < |sys.db.bins|
    ensures |sys.hist| == |sys.db.bins| && Tracks(sys.db.bins[i], sys.hist[i]) && Chain(sys.db.bins[i].cache.g, sys.hist[i])
  {
    assert Tracks(sys.db.bins[i], sys.hist[i]);
  }

  lemma TracksBin(b: Bin, h: History)
    requires Tracks(b, h)
    ensures BinOk(b)
  {
  }

  lemma FinishKeepsInv(sys: Sys, orders: seq<seq<Write>>)
    requires SysInv(sys) && sys.prog.phase == Finishing && EndOk(sys.db, orders)
    ensures SysInv(Sys(EndAll(sys.db, orders), Progress(Idle, sys.prog.bin, false, [], 0, []), sys.hist))
  {
    hide Inv, Tracks, EndOk;
    EndAllKeepsInv(sys.db, orders);
    forall i | 0 <= i < |sys.db.bins|
      ensures sys.db.bins[i].inCkpt ==> |sys.hist[i].deltas| == |sys.hist[i].images|
      ensures !EndAll(sys.db, orders).bins[i].inCkpt
    {
      assert Stands(sys.db.bins[i], sys.hist[i], sys.prog, i);
      EndAllBins(sys.db, orders, i);
    }
    EndAllTracks(sys.db, orders, sys.hist);
  }

  /** Every checkpoint step keeps the invariant. */
  lemma CkptStepKeepsInv(sys: Sys, asked: nat, x: Finding)
    requires SysInv(sys) && StepOk(sys, asked, x)
    ensures SysInv(CkptStep(sys, asked, x))
  {
    hide Inv, AllTrack, EndOk, DumpOk, FlushOk, FlushStep, DumpPhase, EndAll, Stands;
    match sys.prog.phase
    case Idle => FlushStepKeepsInv(sys, 0);
    case Flushing => FlushStepKeepsInv(sys, sys.prog.bin);
    case Dumping => DumpKeepsInv(sys, asked, x);
    case Finishing => FinishKeepsInv(sys, x.orders);
  }

  // ----- the blocking checkpoint -----

  /** Begin and end with no writes in between. */
  function Cycled(b: Bin): (r: Bin)
    requires BinOk(Begin(b))
  {
    End(Begin(b), [])
  }

  function CycledHistory(b: Bin, h: History, runs: seq<Run>): (r: History) {
    var n := BegunHistory(b, h);
    n.(deltas := n.deltas + [runs], heads := n.heads + [b.bump])
  }

  /** What the blocking checkpoint writes for a bin: the frozen pages, as the scan lists them. */
  ghost predicate BlockingDump(b: Bin, scan: seq<nat>, delta: seq<Run>) {
    && BinOk(Begin(b)) && |b.active| <= MAX_DIRTY
    && DirtyTrackers.FirstOf(scan, b.active, MAX_DIRTY)
    && Solid(delta) && Flatten(delta) == Dumped(b.cache.g, Begin(b).cache.file, scan)
  }

  ghost predicate WholeOk(sys: Sys, scans: seq<seq<nat>>, deltas: seq<seq<Run>>) {
    && sys.prog.phase == Idle && |scans| == |deltas| == |sys.db.bins| == |sys.hist|
    && forall i :: 0 <= i < |sys.db.bins| ==> BlockingDump(sys.db.bins[i], scans[i], deltas[i])
  }

  /** `graveldb_checkpoint`: begin every bin, dump every bin, end every bin. */
  function WholeCheckpoint(sys: Sys, scans: seq<seq<nat>>, deltas: seq<seq<Run>>): (r: Sys)
    requires WholeOk(sys, scans, deltas)
  {
    sys.(db := sys.db.(bins := seq(|sys.db.bins|, i requires 0 <= i < |sys.db.bins| =>
           assert BlockingDump(sys.db.bins[i], scans[i], deltas[i]);
           Cycled(sys.db.bins[i]))),
         hist := seq(|sys.db.bins|, i requires 0 <= i < |sys.db.bins| =>
           CycledHistory(sys.db.bins[i], sys.hist[i], deltas[i])))
  }

  lemma BegunFile(b: Bin)
    requires BinOk(Begin(b))
    ensures Begin(b).cache.g == b.cache.g && FileOk(b.cache.g, Begin(b).cache.file) && Begin(b).frozen == b.active
  {
  }

  lemma IdleBegins(sys: Sys, i: nat)
    requires SysInv(sys) && sys.prog.phase == Idle && i < |sys.db.bins|
    ensures BinOk(Begin(sys.db.bins[i]))
  {
    SysParts(sys);
    assert Stands(sys.db.bins[i], sys.hist[i], sys.prog, i);
    BeginReads(sys.db.bins[i]);
  }

  lemma CycledTracks(b: Bin, h: History, scan: seq<nat>, runs: seq<Run>)
    requires Tracks(b, h) && !b.inCkpt && |b.active| <= MAX_DIRTY
    requires BlockingDump(b, scan, runs)
    ensures Tracks(Cycled(b), CycledHistory(b, h, runs)) && !Cycled(b).inCkpt
  {
    hide End, Tracks, Dumped, Flatten;
    TracksBin(b, h);
    BeginTracks(b, h);
    ScanIsWhole(scan, b.active);
    BegunStands(b, h, 0);
    DumpTracks(Begin(b), BegunHistory(b, h), runs);
    var n := BegunHistory(b, h);
    TracksNoted(Begin(b), n.(deltas := n.deltas + [runs]), CycledHistory(b, h, runs));
    EndFrame(Begin(b), []);
    EndTracks(Begin(b), CycledHistory(b, h, runs), []);
  }

  lemma CycledKeeps(index: map<nat, Place>, i: nat, b: Bin)
    requires BinOk(b) && !b.inCkpt && SlotsOwned(index, i, b) && BinOk(Begin(b))
    ensures SameSlots(b, Cycled(b)) && BinOk(Cycled(b)) && SameForm(b, Cycled(b))
    ensures SizesOk(b) ==> SizesOk(Cycled(b))
    ensures forall s: nat :: Read(Cycled(b), s) == Read(b, s)
  {
    assert Touched(b.cache.g.epp, []) == {};
    assert b.free + [] == b.free;
    FlushKeeps(b.cache);
    assert StableSort.Sort([], PageKey(b.cache.g.epp)) == [];
  }

  /** The blocking checkpoint keeps the invariant and changes no read. */
  lemma WholeKeepsInv(sys: Sys, scans: seq<seq<nat>>, deltas: seq<seq<Run>>)
    requires SysInv(sys) && WholeOk(sys, scans, deltas)
    ensures SysInv(WholeCheckpoint(sys, scans, deltas))
    ensures forall i, s: nat :: 0 <= i < |sys.db.bins| ==>
              Read(WholeCheckpoint(sys, scans, deltas).db.bins[i], s) == Read(sys.db.bins[i], s)
  {
    hide Tracks, SlotsOwned, BinOk, SizesOk, Cycled, CycledHistory, Read, IndexOwned, GeometryFor, Dumped,
         DimRegistries.Distinct, DirtyTrackers.FirstOf;
    var r := WholeCheckpoint(sys, scans, deltas);
    forall i | 0 <= i < |sys.db.bins|
      ensures Tracks(r.db.bins[i], r.hist[i]) && !r.db.bins[i].inCkpt
      ensures BinOk(r.db.bins[i]) && SizesOk(r.db.bins[i]) && SameForm(sys.db.bins[i], r.db.bins[i])
      ensures SameSlots(sys.db.bins[i], r.db.bins[i])
      ensures forall s: nat :: Read(r.db.bins[i], s) == Read(sys.db.bins[i], s)
    {
      assert Stands(sys.db.bins[i], sys.hist[i], sys.prog, i);
      CycledTracks(sys.db.bins[i], sys.hist[i], scans[i], deltas[i]);
      CycledKeeps(sys.db.index, i, sys.db.bins[i]);
    }
    SameSlotsOwned(sys.db, r.db);
  }

  // ----- whole runs -----

  datatype Op =
    | Put(rs: seq<Request>)
    | Delete(fs: seq<nat>)
    | FlushDB
    | Step(asked: nat, found: Finding)
    | Whole(scans: seq<seq<nat>>, deltas: seq<seq<Run>>)

  /** What an operation asks of its arguments, and of what the code finds while it runs. */
  ghost predicate OpOk(sys: Sys, op: Op) {
    && (op.Put? ==> RequestsOk(sys.db.cfg, op.rs) && FreshDims(sys.db, op.rs))
    && (op.Step? ==> StepOk(sys, op.asked, op.found))
    && (op.Whole? ==> WholeOk(sys, op.scans, op.deltas))
  }

  function Apply(sys: Sys, op: Op): (r: Sys)
    requires SysInv(sys) && OpOk(sys, op)
  {
    match op
    case Put(rs) =>
      var db := BatchPut(sys.db, rs).0;
      Sys(db, sys.prog, Extended(sys.hist, |db.bins|))
    case Delete(fs) => sys.(db := BatchDelete(sys.db, fs))
    case FlushDB => sys.(db := FlushAll(sys.db))
    case Step(asked, found) => CkptStep(sys, asked, found)
    case Whole(scans, deltas) => WholeCheckpoint(sys, scans, deltas)
  }

  lemma ApplyKeepsInv(sys: Sys, op: Op)
    requires SysInv(sys) && OpOk(sys, op)
    ensures SysInv(Apply(sys, op))
  {
    hide SysInv, Inv, AllTrack, AllHeld, CkptStep, BatchPut, BatchDelete, FlushAll, WholeCheckpoint, WholeOk;
    SysParts(sys);
    match op {
      case Put(rs) =>
        BatchPutTracks(sys.db, sys.hist, rs);
        var db := BatchPut(sys.db, rs).0;
        HeldKeepsInv(sys, db, Extended(sys.hist, |db.bins|));
      case Delete(fs) =>
        BatchDeleteTracks(sys.db, sys.hist, fs);
        BatchDeleteFacts(sys.db, fs);
        HeldKeepsInv(sys, BatchDelete(sys.db, fs), sys.hist);
      case FlushDB =>
        FlushAllTracks(sys.db, sys.hist);
        assert |FlushAll(sys.db).bins| == |sys.db.bins| by {
          TrackSizes(FlushAll(sys.db), sys.hist);
        }
        HeldKeepsInv(sys, FlushAll(sys.db), sys.hist);
      case Step(asked, found) =>
        CkptStepKeepsInv(sys, asked, found);
      case Whole(scans, deltas) =>
        WholeKeepsInv(sys, scans, deltas);
    }
  }

  lemma SysParts(sys: Sys)
    requires SysInv(sys)
    ensures Inv(sys.db) && AllTrack(sys.db, sys.hist) && |sys.hist| == |sys.db.bins|
  {
  }

  /** A run: each operation is possible where it happens. */
  ghost predicate RunOk(sys: Sys, ops: seq<Op>)
    requires SysInv(sys)
    decreases |ops|
  {
    ops == [] || (OpOk(sys, ops[0]) && (ApplyKeepsInv(sys, ops[0]); RunOk(Apply(sys, ops[0]), ops[1..])))
  }

  ghost function Reached(sys: Sys, ops: seq<Op>): (r: Sys)
    requires SysInv(sys) && RunOk(sys, ops)
    decreases |ops|
  {
    if ops == [] then sys else
      ApplyKeepsInv(sys, ops[0]);
      Reached(Apply(sys, ops[0]), ops[1..])
  }

  /** The invariant holds after every run. */
  lemma {:induction false} RunKeepsInv(sys: Sys, ops: seq<Op>)
    requires SysInv(sys) && RunOk(sys, ops)
    ensures SysInv(Reached(sys, ops))
    decreases |ops|
  {
    hide SysInv, Apply;
    if ops != [] {
      ApplyKeepsInv(sys, ops[0]);
      RunKeepsInv(Apply(sys, ops[0]), ops[1..]);
    }
  }

  /** A database as `graveldb_open` leaves it, with nothing dirty. */
  ghost predicate JustOpened(db: DB) {
    && Inv(db)
    && forall i :: 0 <= i < |db.bins| ==>
         !db.bins[i].inCkpt && db.bins[i].active == {} && db.bins[i].cache.buf == map[]
  }

  function Started(db: DB): (r: Sys)
    requires JustOpened(db)
    ensures SysInv(r)
  {
    var r := Sys(db, Progress(Idle, 0, false, [], 0, []), seq(|db.bins|, i requires 0 <= i < |db.bins| =>
      History(db.bins[i].cache.file, db.bins[i].generation, [], [], [], [], [])));
    StartedInv(db, r);
    r
  }

  lemma StartedInv(db: DB, sys: Sys)
    requires JustOpened(db) && sys.db == db && sys.prog == Progress(Idle, 0, false, [], 0, []) && |sys.hist| == |db.bins|
    requires forall i :: 0 <= i < |db.bins| ==>
               sys.hist[i] == History(db.bins[i].cache.file, db.bins[i].generation, [], [], [], [], [])
    ensures SysInv(sys)
  {
    forall i | 0 <= i < |db.bins|
      ensures Tracks(db.bins[i], sys.hist[i])
    {
      assert BinOk(db.bins[i]);
      assert sys.hist[i].deltas[..0] == [];
      assert ChainAt(db.bins[i].cache.g, sys.hist[i], 0);
    }
  }

  /** The delta chain: after any run, in every bin, replaying the first `k` deltas onto the file
      the session started from gives the image its `k`-th checkpoint froze. */
  lemma DeltasRebuildImages(db: DB, ops: seq<Op>, i: nat, k: nat)
    requires JustOpened(db) && RunOk(Started(db), ops)
    requires i < |Reached(Started(db), ops).hist| && k <= |Reached(Started(db), ops).hist[i].deltas|
    ensures var r := Reached(Started(db), ops);
            var h := r.hist[i];
            i < |r.db.bins| && HistoryOk(r.db.bins[i].cache.g, h) && ChainAt(r.db.bins[i].cache.g, h, k)
  {
    hide RunOk, Reached, Inv;
    RunKeepsInv(Started(db), ops);
    assert Tracks(Reached(Started(db), ops).db.bins[i], Reached(Started(db), ops).hist[i]);
  }

  /** The file of bin `i` is the image frozen when its checkpoint began, nothing is buffered over
      it, and what the unfinished delta holds are that image's pages. */
  ghost predicate Snapshot(sys: Sys, i: nat)
    requires i < |sys.db.bins|
  {
    var b := sys.db.bins[i];
    && i < |sys.hist| && BinOk(b) && b.cache.buf == map[]
    && var h := sys.hist[i];
       && HistoryOk(b.cache.g, h) && |h.images| > 0
       && var image := h.images[|h.images| - 1];
          && SameImage(b.cache.g, b.cache.file, image)
          && (sys.prog.open && sys.prog.bin == i ==>
                && sys.prog.cursor <= |sys.prog.blocks|
                && Flatten(sys.prog.runs) == Dumped(b.cache.g, image, sys.prog.blocks)[..sys.prog.cursor])
  }

  /** Snapshot isolation: after any run of puts, deletes, flushes and checkpoint steps, every bin
      that is in a checkpoint still shows its frozen image. */
  lemma SnapshotHolds(db: DB, ops: seq<Op>, i: nat)
    requires JustOpened(db) && RunOk(Started(db), ops)
    requires i < |Reached(Started(db), ops).db.bins| && Reached(Started(db), ops).db.bins[i].inCkpt
    ensures Snapshot(Reached(Started(db), ops), i)
  {
    hide RunOk, Reached, Inv, Flatten;
    RunKeepsInv(Started(db), ops);
    var r := Reached(Started(db), ops);
    var b, h := r.db.bins[i], r.hist[i];
    assert Tracks(b, h);
    assert Dumped(b.cache.g, b.cache.file, r.prog.blocks) ==
           Dumped(b.cache.g, h.images[|h.images| - 1], r.prog.blocks);
  }

  // ----- progress -----

  /** How far the checkpoint is from its end: phases left, bins left in the phase, pages left in
      the bin. */
  ghost function PhasesLeft(sys: Sys): nat {
    match sys.prog.phase
    case Idle => 0
    case Finishing => 1
    case Dumping => 2
    case Flushing => 3
  }

  ghost function BinsLeft(sys: Sys): nat
    requires SysInv(sys)
  {
    if sys.prog.phase == Idle then 0 else |sys.db.bins| - sys.prog.bin
  }

  ghost function PagesLeft(sys: Sys): nat
    requires SysInv(sys)
  {
    if sys.prog.open then |sys.prog.blocks| - sys.prog.cursor
    else if sys.prog.phase == Dumping && sys.prog.bin < |sys.db.bins| then |sys.db.bins[sys.prog.bin].frozen| + 1
    else 0
  }

  ghost predicate Nearer(a: Sys, b: Sys)
    requires SysInv(a) && SysInv(b)
  {
    || PhasesLeft(b) < PhasesLeft(a)
    || (PhasesLeft(b) == PhasesLeft(a)
        && (BinsLeft(b) < BinsLeft(a) || (BinsLeft(b) == BinsLeft(a) && PagesLeft(b) < PagesLeft(a))))
  }

  /** Every step of a running checkpoint, whatever its budget, comes strictly nearer to the end. */
  lemma StepComesNearer(sys: Sys, asked: nat, x: Finding)
    requires SysInv(sys) && StepOk(sys, asked, x) && sys.prog.phase != Idle
    ensures SysInv(CkptStep(sys, asked, x)) && Nearer(sys, CkptStep(sys, asked, x))
  {
    hide Inv, AllTrack, EndOk, EndAll, Stands;
    CkptStepKeepsInv(sys, asked, x);
    var pr := sys.prog;
    if pr.phase == Dumping && pr.bin < |sys.db.bins| && !pr.open {
      var b := sys.db.bins[pr.bin];
      AscendingSize(x.scan);
      assert Elements(x.scan) <= b.frozen;
      SubsetSize(Elements(x.scan), b.frozen);
    }
  }

  // ----- budgets -----

  ghost function PageCount(ds: seq<seq<Run>>): nat {
    if ds == [] then 0 else PageCount(ds[..|ds| - 1]) + |Flatten(ds[|ds| - 1])|
  }

  ghost function Stored(hist: seq<History>): nat {
    if hist == [] then 0 else Stored(hist[..|hist| - 1]) + PageCount(hist[|hist| - 1].deltas)
  }

  /** The pages in the delta files of all bins, the unfinished one included. */
  ghost function PagesDumped(sys: Sys): nat {
    Stored(sys.hist) + if sys.prog.open then |Flatten(sys.prog.runs)| else 0
  }

  lemma {:induction false} StoredAt(hist: seq<History>, k: nat, h: History)
    requires k < |hist|
    ensures Stored(hist[k := h]) == Stored(hist) - PageCount(hist[k].deltas) + PageCount(h.deltas)
    decreases |hist|
  {
    var s, n := hist[..|hist| - 1], |hist| - 1;
    if k < n {
      assert hist[k := h][..n] == s[k := h];
      StoredAt(s, k, h);
    } else {
      assert hist[k := h][..n] == s;
    }
  }

  /** A step adds no more pages to the delta files than it was asked for, or 64 if it was asked for
      none; one that leaves a delta open adds exactly as many. */
  lemma StepWithinBudget(sys: Sys, asked: nat, x: Finding)
    requires SysInv(sys) && StepOk(sys, asked, x)
    ensures PagesDumped(CkptStep(sys, asked, x)) <= PagesDumped(sys) + (if asked == 0 then 64 else asked)
    ensures CkptStep(sys, asked, x).prog.open ==>
              PagesDumped(CkptStep(sys, asked, x)) == PagesDumped(sys) + (if asked == 0 then 64 else asked)
  {
    hide Inv, AllTrack, EndOk, EndAll, Stands, Begin, Flatten;
    var pr := sys.prog;
    match pr.phase
    case Idle =>
      BegunStored(sys, 0);
    case Flushing =>
      BegunStored(sys, pr.bin);
    case Dumping =>
      if pr.bin < |sys.db.bins| {
        DumpStored(sys, asked, x);
      }
    case Finishing =>
  }

  lemma BegunStored(sys: Sys, k: nat)
    requires |sys.hist| == |sys.db.bins|
    ensures Stored(FlushStep(sys, k).hist) == Stored(sys.hist)
  {
    if k < |sys.db.bins| {
      StoredAt(sys.hist, k, BegunHistory(sys.db.bins[k], sys.hist[k]));
    }
  }

  lemma DumpStored(sys: Sys, asked: nat, x: Finding)
    requires |sys.hist| == |sys.db.bins| && sys.prog.bin < |sys.db.bins| && DumpOk(sys, asked, x)
    ensures PagesDumped(DumpPhase(sys, asked, x)) <= PagesDumped(sys) + (if asked == 0 then 64 else asked)
    ensures DumpPhase(sys, asked, x).prog.open ==>
              PagesDumped(DumpPhase(sys, asked, x)) == PagesDumped(sys) + (if asked == 0 then 64 else asked)
  {
    hide Flatten, Dumped, PageCount, Stored, FileOk;
    var pr := sys.prog;
    var before := if pr.open then pr.runs else [];
    FlattenConcat(before, x.runs);
    NoRuns();
    var h := sys.hist[pr.bin];
    CountMore(h.deltas, before + x.runs);
    StoredAt(sys.hist, pr.bin, DumpPhase(sys, asked, x).hist[pr.bin]);
    OneChanged(sys, asked, x);
  }

  lemma OneChanged(sys: Sys, asked: nat, x: Finding)
    requires |sys.hist| == |sys.db.bins| && sys.prog.bin < |sys.db.bins|
    ensures var r, k := DumpPhase(sys, asked, x).hist, sys.prog.bin; |r| == |sys.hist| && r == sys.hist[k := r[k]]
  {
  }

  lemma NoRuns()
    ensures Flatten([]) == []
  {
  }

  lemma CountMore(ds: seq<seq<Run>>, d: seq<Run>)
    ensures PageCount(ds + [d]) == PageCount(ds) + |Flatten(d)|
  {
    assert (ds + [d])[..|ds|] == ds;
  }

  /** The pages a run asks of its steps; a step asked for none dumps up to 64. */
  ghost function Granted(ops: seq<Op>): nat {
    if ops == [] then 0 else (if !ops[0].Step? then 0 else if ops[0].asked == 0 then 64 else ops[0].asked) + Granted(ops[1..])
  }

  lemma {:induction false} ExtendedStored(hist: seq<History>, n: nat)
    ensures Stored(Extended(hist, n)) == Stored(hist)
    decreases n
  {
    if |hist| < n {
      var all := Extended(hist, n);
      assert all[..n - 1] == Extended(hist, n - 1);
      ExtendedStored(hist, n - 1);
    }
  }

  /** Whatever is put, deleted and flushed in between, the pages dumped never exceed the budgets. */
  lemma {:induction false} RunWithinBudgets(sys: Sys, ops: seq<Op>)
    requires SysInv(sys) && RunOk(sys, ops) && forall i :: 0 <= i < |ops| ==> !ops[i].Whole?
    ensures PagesDumped(Reached(sys, ops)) <= PagesDumped(sys) + Granted(ops)
    decreases |ops|
  {
    hide SysInv, Inv, CkptStep, BatchPut, BatchDelete, FlushAll, WholeCheckpoint, StepOk;
    if ops != [] {
      ApplyKeepsInv(sys, ops[0]);
      RunWithinBudgets(Apply(sys, ops[0]), ops[1..]);
      match ops[0] {
        case Put(rs) =>
          SysParts(sys);
          ExtendedStored(sys.hist, |BatchPut(sys.db, rs).0.bins|);
        case Step(asked, found) =>
          StepWithinBudget(sys, asked, found);
        case _ =>
      }
    }
  }
}
