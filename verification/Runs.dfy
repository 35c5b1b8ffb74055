/** What whole runs of the store amount to: a map from features to embeddings, with every slot
    owned once, that closing and opening brings back. */
module Runs {
  import opened Pages
  import opened PageCaches
  import opened Bins
  import opened Stores
  import opened Deletions
  import opened DeltaChains
  import opened Reopening
  import opened Puts
  import opened PutOutcomes
  import C = Checkpoints
  import DimRegistries
  import StableSort

  // ----- the other operations -----

  /** Every feature keeps its embedding when the checkpoint ends, or has none but zeros to lose. */
  ghost predicate EndSafe(db: DB, orders: seq<seq<Write>>)
    requires Inv(db) && C.EndOk(db, orders)
  {
    forall f :: f in db.index ==> KeptAtEnd(db, orders, f) || IsZero(Value(db, f))
  }

  /** The feature's slot lasts through the replay of its bin's overlay. */
  ghost predicate KeptAtEnd(db: DB, orders: seq<seq<Write>>, f: nat)
    requires Inv(db) && C.EndOk(db, orders) && f in db.index
  {
    IndexedBin(db, f);
    BinsAreOk(db, db.index[f].dimIdx);
    var b, order := db.bins[db.index[f].dimIdx], orders[db.index[f].dimIdx];
    assert Enumerates(order, b.overlay);
    Lasts(b.cache, ExtentOf(b), order, db.index[f].entryIdx)
  }

  lemma SameReads(a: DB, b: DB)
    requires Inv(a) && Inv(b) && b.index == a.index && |b.bins| == |a.bins|
    requires forall f :: f in a.index ==> Value(b, f) == Value(a, f)
    ensures View(b) == View(a)
  {
    hide Inv, Value;
    assert forall f :: f in View(b) <==> f in View(a);
  }

  /** The exact effect of ending a checkpoint on every feature. */
  lemma {:induction false} EndExact(db: DB, orders: seq<seq<Write>>, f: nat)
    requires Inv(db) && C.EndOk(db, orders) && f in db.index
    ensures Inv(C.EndAll(db, orders))
    ensures Value(C.EndAll(db, orders), f) ==
            if KeptAtEnd(db, orders, f) then Value(db, f) else Zeros(|Value(db, f)|)
  {
    hide Owned, End, Read, Reloads, Touched, Replay, Enumerates, DimRegistries.Distinct, Lasts;
    C.EndAllKeepsInv(db, orders);
    IndexedBin(db, f);
    var k, s := db.index[f].dimIdx, db.index[f].entryIdx;
    assert Enumerates(orders[k], db.bins[k].overlay);
    if db.bins[k].inCkpt {
      EndReads(db.bins[k], orders[k], s);
    } else {
      IdleEnd(db.bins[k], orders[k], s);
    }
  }

  /** A feature on a page wholly below the bump pointer, and inside the data file, comes through the end
      of a checkpoint. */
  lemma FullPagesLast(db: DB, orders: seq<seq<Write>>, f: nat)
    requires Inv(db) && C.EndOk(db, orders) && f in db.index && IsSafe(db, f)
    ensures Inv(C.EndAll(db, orders)) && Value(C.EndAll(db, orders), f) == Value(db, f)
  {
    hide Owned, Read, Reloads, FullPage, Lasts, C.EndAll;
    EndExact(db, orders, f);
    IndexedBin(db, f);
    var k, s := db.index[f].dimIdx, db.index[f].entryIdx;
    assert Enumerates(orders[k], db.bins[k].overlay);
    FullPageReloads(db.bins[k], s / db.bins[k].cache.g.epp);
    ReplayReloads(db.bins[k].cache, ExtentOf(db.bins[k]), orders[k], s);
  }

  /** Ending the checkpoint of a bin that is in none changes nothing a reader sees. */
  lemma IdleEnd(b: Bin, order: seq<Write>, s: nat)
    requires BinOk(b) && !b.inCkpt && Enumerates(order, b.overlay)
    ensures Fits(b.cache.g, order) && BinOk(End(b, order)) && Read(End(b, order), s) == Read(b, s)
    ensures Lasts(b.cache, ExtentOf(b), order, s)
  {
    hide Touched;
    SomethingToReplay(order, b.overlay);
    EndFrame(b, order);
    assert StableSort.Sort([], PageKey(b.cache.g.epp)) == [];
  }

  lemma SomethingToReplay(order: seq<Write>, overlay: map<nat, Bytes>)
    requires Enumerates(order, overlay)
    ensures |order| > 0 ==> overlay != map[]
  {
    if |order| > 0 {
      assert order[0].id in overlay;
    }
  }

  /** Ending a checkpoint changes nothing a reader sees exactly when it is safe. */
  lemma {:induction false} EndKeepsView(db: DB, orders: seq<seq<Write>>)
    requires Inv(db) && C.EndOk(db, orders)
    ensures Inv(C.EndAll(db, orders))
    ensures View(C.EndAll(db, orders)) == View(db) <==> EndSafe(db, orders)
  {
    hide Inv, Value, KeptAtEnd, C.EndOk;
    C.EndAllKeepsInv(db, orders);
    var r := C.EndAll(db, orders);
    forall f | f in db.index
      ensures Value(r, f) == if KeptAtEnd(db, orders, f) then Value(db, f) else Zeros(|Value(db, f)|)
    {
      EndExact(db, orders, f);
    }
    if View(r) == View(db) {
      forall f | f in db.index
        ensures KeptAtEnd(db, orders, f) || IsZero(Value(db, f))
      {
        assert View(r)[f] == View(db)[f];
      }
    }
    if EndSafe(db, orders) {
      SameReads(db, r);
    }
  }

  /** Databases whose bins all read alike. */
  lemma AllReadAlike(a: DB, b: DB)
    requires Inv(a) && Inv(b) && b.index == a.index && |b.bins| == |a.bins|
    requires forall i, s: nat :: 0 <= i < |a.bins| ==> Read(b.bins[i], s) == Read(a.bins[i], s)
    ensures View(b) == View(a)
  {
    hide Owned, Read, DimRegistries.Distinct;
    forall f | f in a.index
      ensures Value(b, f) == Value(a, f)
    {
      IndexedBin(a, f);
    }
  }

  lemma BeginKeepsView(db: DB, k: nat)
    requires Inv(db) && k < |db.bins| && !db.bins[k].inCkpt
    ensures var r := db.(bins := db.bins[k := Begin(db.bins[k])]); Inv(r) && View(r) == View(db)
  {
    hide Owned, Read, Begin, DimRegistries.Distinct;
    C.BeginKeepsInv(db, k);
    BinsAreOk(db, k);
    BeginReads(db.bins[k]);
    AllReadAlike(db, db.(bins := db.bins[k := Begin(db.bins[k])]));
  }

  // ----- runs -----

  ghost predicate Succeeds(sys: C.Sys, op: C.Op)
    requires C.SysInv(sys) && C.OpOk(sys, op)
  {
    C.SysParts(sys);
    op.Put? ==> BatchPut(sys.db, op.rs).1 == Success
  }

  /** The operation loses nothing: a put is safe, and so is the end of a checkpoint. */
  ghost predicate Lossless(sys: C.Sys, op: C.Op)
    requires C.SysInv(sys) && C.OpOk(sys, op)
  {
    C.SysParts(sys);
    && (op.Put? ==> PutSafe(sys.db, op.rs))
    && (op.Step? && sys.prog.phase == C.Finishing ==> EndSafe(sys.db, op.found.orders))
  }

  /** What the operation means to a reader. */
  ghost function Meaning(v: map<nat, Bytes>, op: C.Op): map<nat, Bytes> {
    match op
    case Put(rs) => Updated(v, rs)
    case Delete(fs) => v - (set f | f in fs)
    case FlushDB => v
    case Step(_, _) => v
    case Whole(_, _) => v
  }

  lemma DeleteIsRemoval(db: DB, fs: seq<nat>)
    requires Inv(db)
    ensures Inv(BatchDelete(db, fs)) && View(BatchDelete(db, fs)) == View(db) - (set f | f in fs)
  {
    hide Owned, Read, BatchDelete, DimRegistries.Distinct;
    BatchDeleteFacts(db, fs);
    var r := BatchDelete(db, fs);
    forall f | f in r.index
      ensures Value(r, f) == Value(db, f)
    {
      IndexedBin(db, f);
    }
  }

  /** A checkpoint step changes nothing a reader sees, except that the last one may lose entries:
      exactly when it is not safe. */
  lemma StepKeepsView(sys: C.Sys, asked: nat, x: C.Finding)
    requires C.SysInv(sys) && C.OpOk(sys, C.Step(asked, x))
    ensures var r := C.CkptStep(sys, asked, x);
            && Inv(sys.db) && Inv(r.db)
            && (View(r.db) == View(sys.db) <==> Lossless(sys, C.Step(asked, x)))
  {
    hide Inv, View, C.AllTrack, C.EndOk, Begin, C.Stands, EndSafe;
    C.SysParts(sys);
    C.CkptStepKeepsInv(sys, asked, x);
    C.SysParts(C.CkptStep(sys, asked, x));
    match sys.prog.phase {
      case Idle => BegunView(sys, 0);
      case Flushing => BegunView(sys, sys.prog.bin);
      case Dumping =>
      case Finishing => EndKeepsView(sys.db, x.orders);
    }
  }

  lemma BegunView(sys: C.Sys, k: nat)
    requires C.SysInv(sys) && ((sys.prog.phase == C.Idle && k == 0) || (sys.prog.phase == C.Flushing && k == sys.prog.bin))
    requires |sys.hist| == |sys.db.bins|
    ensures Inv(sys.db) && Inv(C.FlushStep(sys, k).db) && View(C.FlushStep(sys, k).db) == View(sys.db)
  {
    hide View, Inv, Begin;
    C.SysParts(sys);
    if k < |sys.db.bins| {
      assert C.Stands(sys.db.bins[k], sys.hist[k], sys.prog, k);
      BeginKeepsView(sys.db, k);
    }
  }

  /** An operation, a put with success, does to the view what it means exactly when it is lossless. */
  lemma OpHasMeaning(sys: C.Sys, op: C.Op)
    requires C.SysInv(sys) && C.OpOk(sys, op) && Succeeds(sys, op)
    ensures C.SysInv(C.Apply(sys, op)) && Inv(sys.db) && Inv(C.Apply(sys, op).db)
    ensures View(C.Apply(sys, op).db) == Meaning(View(sys.db), op) <==> Lossless(sys, op)
  {
    hide C.SysInv, Inv, View, Updated, C.CkptStep, BatchPut, BatchDelete, C.FlushAll, C.WholeCheckpoint, PutSafe, Read;
    C.SysParts(sys);
    C.ApplyKeepsInv(sys, op);
    C.SysParts(C.Apply(sys, op));
    match op {
      case Put(rs) => BatchPutIsUpdate(sys.db, rs);
      case Delete(fs) => DeleteIsRemoval(sys.db, fs);
      case FlushDB => FlushKeepsView(sys);
      case Step(asked, found) => StepKeepsView(sys, asked, found);
      case Whole(scans, deltas) => WholeKeepsView(sys, scans, deltas);
    }
  }

  lemma FlushKeepsView(sys: C.Sys)
    requires C.SysInv(sys)
    ensures Inv(sys.db) && Inv(C.FlushAll(sys.db)) && View(C.FlushAll(sys.db)) == View(sys.db)
  {
    hide Inv, Read, View, C.AllTrack;
    C.FlushAllTracks(sys.db, sys.hist);
    AllReadAlike(sys.db, C.FlushAll(sys.db));
  }

  lemma WholeKeepsView(sys: C.Sys, scans: seq<seq<nat>>, deltas: seq<seq<Run>>)
    requires C.SysInv(sys) && C.WholeOk(sys, scans, deltas)
    ensures var r := C.WholeCheckpoint(sys, scans, deltas);
            Inv(sys.db) && Inv(r.db) && View(r.db) == View(sys.db)
  {
    hide Inv, Read, View, C.AllTrack, C.WholeOk, C.Cycled, C.Stands;
    C.WholeKeepsInv(sys, scans, deltas);
    AllReadAlike(sys.db, C.WholeCheckpoint(sys, scans, deltas).db);
  }

  // ----- every run, losses included -----

  /** The features whose embedding the operation turns to zeros. */
  ghost function Lost(sys: C.Sys, op: C.Op): set<nat>
    requires C.SysInv(sys) && C.OpOk(sys, op)
  {
    C.SysParts(sys);
    match op
    case Put(rs) => LostByPut(sys.db, rs)
    case Step(_, found) => if sys.prog.phase == C.Finishing then LostAtEnd(sys.db, found.orders) else {}
    case _ => {}
  }

  ghost function LostAtEnd(db: DB, orders: seq<seq<Write>>): set<nat>
    requires Inv(db) && C.EndOk(db, orders)
  {
    set f | f in db.index && !KeptAtEnd(db, orders, f)
  }

  lemma {:induction false} EndOutcome(db: DB, orders: seq<seq<Write>>)
    requires Inv(db) && C.EndOk(db, orders)
    ensures Inv(C.EndAll(db, orders))
    ensures View(C.EndAll(db, orders)) == Zeroed(View(db), LostAtEnd(db, orders))
  {
    hide Inv, Value, KeptAtEnd, C.EndOk;
    C.EndAllKeepsInv(db, orders);
    var r := C.EndAll(db, orders);
    forall f | f in db.index
      ensures Value(r, f) == if KeptAtEnd(db, orders, f) then Value(db, f) else Zeros(|Value(db, f)|)
    {
      EndExact(db, orders, f);
    }
  }

  lemma NothingLost(v: map<nat, Bytes>)
    ensures Zeroed(v, {}) == v
  {
  }

  /** What every operation leaves of the view: a put that fails, what each of its groups takes; any
      other operation, its losses and then its meaning. */
  ghost function Outcome(sys: C.Sys, op: C.Op, v: map<nat, Bytes>): map<nat, Bytes>
    requires C.SysInv(sys) && C.OpOk(sys, op)
  {
    C.SysParts(sys);
    if Succeeds(sys, op) then Meaning(Zeroed(v, Lost(sys, op)), op) else BatchOutcome(sys.db, op.rs, v)
  }

  lemma {:induction false} OpOutcome(sys: C.Sys, op: C.Op)
    requires C.SysInv(sys) && C.OpOk(sys, op)
    ensures C.SysInv(C.Apply(sys, op)) && Inv(sys.db) && Inv(C.Apply(sys, op).db)
    ensures View(C.Apply(sys, op).db) == Outcome(sys, op, View(sys.db))
  {
    hide C.SysInv, Inv, View, Updated, BatchPut, LostByPut, LostAtEnd, Zeroed, C.EndAll, PutSafe, EndSafe, BatchOutcome;
    C.SysParts(sys);
    C.ApplyKeepsInv(sys, op);
    C.SysParts(C.Apply(sys, op));
    NothingLost(View(sys.db));
    if op.Put? {
      BatchIsOutcome(sys.db, op.rs);
      if Succeeds(sys, op) {
        PutOutcome(sys.db, op.rs);
      }
    } else if op.Step? && sys.prog.phase == C.Finishing {
      EndOutcome(sys.db, op.found.orders);
    } else {
      OpHasMeaning(sys, op);
    }
  }

  /** The map the run leaves. */
  ghost function RunOutcome(sys: C.Sys, ops: seq<C.Op>, v: map<nat, Bytes>): map<nat, Bytes>
    requires C.SysInv(sys) && C.RunOk(sys, ops)
    decreases |ops|
  {
    if ops == [] then v else
      C.ApplyKeepsInv(sys, ops[0]);
      RunOutcome(C.Apply(sys, ops[0]), ops[1..], Outcome(sys, ops[0], v))
  }

  /** Every run: a reader sees exactly what the puts and deletes leave in a map, except for the entries
      the run loses, which read as zeros until they are put again, and for the puts that fail, which
      leave what their groups take. */
  lemma {:induction false} RunIsExact(sys: C.Sys, ops: seq<C.Op>)
    requires C.SysInv(sys) && C.RunOk(sys, ops)
    ensures C.SysInv(C.Reached(sys, ops)) && Inv(sys.db) && Inv(C.Reached(sys, ops).db)
    ensures View(C.Reached(sys, ops).db) == RunOutcome(sys, ops, View(sys.db))
    decreases |ops|
  {
    hide C.SysInv, Inv, View, C.Apply, Outcome;
    C.SysParts(sys);
    if ops != [] {
      OpOutcome(sys, ops[0]);
      RunIsExact(C.Apply(sys, ops[0]), ops[1..]);
    }
  }

  ghost predicate LosslessRun(sys: C.Sys, ops: seq<C.Op>)
    requires C.SysInv(sys) && C.RunOk(sys, ops)
    decreases |ops|
  {
    ops == [] || (&& Succeeds(sys, ops[0]) && Lossless(sys, ops[0])
                  && (C.ApplyKeepsInv(sys, ops[0]); LosslessRun(C.Apply(sys, ops[0]), ops[1..])))
  }

  ghost function RunMeaning(v: map<nat, Bytes>, ops: seq<C.Op>): map<nat, Bytes>
    decreases |ops|
  {
    if ops == [] then v else RunMeaning(Meaning(v, ops[0]), ops[1..])
  }

  /** The store is a map: over every run of successful puts, deletes, flushes and checkpoint steps,
      interleaved in any way, a reader sees what the puts and deletes alone would leave in a map. */
  lemma {:induction false} StoreIsAMap(sys: C.Sys, ops: seq<C.Op>)
    requires C.SysInv(sys) && C.RunOk(sys, ops) && LosslessRun(sys, ops)
    ensures Inv(sys.db) && Inv(C.Reached(sys, ops).db)
    ensures View(C.Reached(sys, ops).db) == RunMeaning(View(sys.db), ops)
    decreases |ops|
  {
    hide C.SysInv, Inv, View, C.Apply, Meaning, Lossless, Succeeds;
    C.SysParts(sys);
    if ops != [] {
      OpHasMeaning(sys, ops[0]);
      StoreIsAMap(C.Apply(sys, ops[0]), ops[1..]);
    }
  }

  /** After any run each slot below the bump pointer is in exactly one of: indexed by one feature, on
      the free list once, tombstoned once. */
  lemma RunOwnsSlots(db: DB, ops: seq<C.Op>, i: nat, s: nat)
    requires C.JustOpened(db) && C.RunOk(C.Started(db), ops)
    requires i < |C.Reached(C.Started(db), ops).db.bins| && s < C.Reached(C.Started(db), ops).db.bins[i].bump
    ensures OneOwner(C.Reached(C.Started(db), ops).db, i, s)
  {
    hide C.RunOk, C.Reached, Inv;
    C.RunKeepsInv(C.Started(db), ops);
    C.SysParts(C.Reached(C.Started(db), ops));
    SlotHasOneOwner(C.Reached(C.Started(db), ops).db, i, s);
  }

  /** What a reader can ask for in the bins of the dims listed. */
  ghost function Seen(db: DB, listed: seq<nat>): map<nat, Bytes>
    requires Inv(db)
  {
    map f | f in db.index && IsListed(db, listed, f) :: Value(db, f)
  }

  lemma PickedView(db: DB, cfg: Config, listed: seq<nat>, zs: seq<Sizes>)
    requires Openable(db, cfg, listed, zs)
    ensures Inv(Picked(db, cfg, listed)) && View(Picked(db, cfg, listed)) == Seen(db, listed)
  {
    hide Inv, Read, Picked, BinOk, Fitting, IsListed, IndexOwned;
    PickedCloseable(db, cfg, listed, zs);
    FittingLists(db, cfg, listed, zs);
    PickedOwned(db, cfg, listed);
    var p := Picked(db, cfg, listed);
    PickedDims(db, cfg, listed);
    forall f | f in p.index
      ensures Value(p, f) == Value(db, f)
    {
      IndexedBin(p, f);
      IndexedBin(db, f);
    }
  }

  lemma FittingLists(db: DB, cfg: Config, listed: seq<nat>, zs: seq<Sizes>)
    requires Fitting(db, cfg, listed, zs)
    ensures Listing(db, listed)
  {
  }

  lemma PickedDims(db: DB, cfg: Config, listed: seq<nat>)
    requires Listing(db, listed)
    ensures Picked(db, cfg, listed).index == ListedIndex(db, listed)
  {
  }

  /** Nothing is missing exactly when every feature's dim is listed. */
  lemma AllSeen(db: DB, listed: seq<nat>)
    requires Inv(db)
    ensures Seen(db, listed) == View(db) <==> forall f :: f in db.index ==> IsListed(db, listed, f)
  {
    hide Inv, Value;
    if Seen(db, listed) == View(db) {
      forall f | f in db.index
        ensures IsListed(db, listed, f)
      {
        assert f in View(db);
      }
    }
  }

  /** After any run that ends outside a checkpoint, closing and opening brings back exactly the
      features whose dim the open lists, with the same embeddings, with every slot without a feature
      free, and runs can go on.  That is the whole store exactly when every dim with a feature is
      listed; no feature moves when the registered dims come first, in their order. */
  lemma ReopenAfterRun(db: DB, ops: seq<C.Op>, cfg: Config, listed: seq<nat>, zs: seq<Sizes>, generations: seq<nat>)
    requires C.JustOpened(db) && C.RunOk(C.Started(db), ops)
    requires C.Reached(C.Started(db), ops).prog.phase == C.Idle
    requires Fitting(C.Reached(C.Started(db), ops).db, cfg, listed, zs) && |generations| == |listed|
    ensures var r := C.Reached(C.Started(db), ops).db;
            && Openable(r, cfg, listed, zs)
            && var n, p := Reopened(r, cfg, listed, zs, generations), Picked(r, cfg, listed);
               && C.JustOpened(n) && n.dims == listed && n.index == ListedIndex(r, listed)
               && View(n) == Seen(r, listed)
               && (View(n) == View(r) <==> forall f :: f in r.index ==> IsListed(r, listed, f))
               && (r.dims <= listed ==> n.index == r.index)
               && Closeable(p, zs) && |n.bins| == |listed| && forall j :: 0 <= j < |listed| ==> CameBack(p, zs, generations, n, j)
  {
    hide C.RunOk, C.Reached, Inv, View, CameBack, Reopened, C.AllTrack, Fitting, Seen, Picked, Closeable, IsListed;
    C.RunKeepsInv(C.Started(db), ops);
    var sys := C.Reached(C.Started(db), ops);
    C.SysParts(sys);
    forall i | 0 <= i < |sys.db.bins|
      ensures !sys.db.bins[i].inCkpt
    {
      assert C.Stands(sys.db.bins[i], sys.hist[i], sys.prog, i);
    }
    ReopenView(sys.db, cfg, listed, zs, generations);
  }

  lemma ReopenView(db: DB, cfg: Config, listed: seq<nat>, zs: seq<Sizes>, generations: seq<nat>)
    requires Openable(db, cfg, listed, zs) && |generations| == |listed|
    ensures var n, p := Reopened(db, cfg, listed, zs, generations), Picked(db, cfg, listed);
            && C.JustOpened(n) && n.dims == listed && n.index == ListedIndex(db, listed)
            && View(n) == Seen(db, listed)
            && (View(n) == View(db) <==> forall f :: f in db.index ==> IsListed(db, listed, f))
            && (db.dims <= listed ==> n.index == db.index)
            && Closeable(p, zs) && |n.bins| == |listed| && forall j :: 0 <= j < |listed| ==> CameBack(p, zs, generations, n, j)
  {
    hide Inv, View, CameBack, Reopened, Seen, ListedIndex, Closeable, IsListed;
    var n, p := Reopened(db, cfg, listed, zs, generations), Picked(db, cfg, listed);
    ReopenRoundTrip(db, cfg, listed, zs, generations);
    PickedView(db, cfg, listed, zs);
    CameBackView(p, zs, generations, n);
    CameBackIdle(p, zs, generations, n);
    AllSeen(db, listed);
    if db.dims <= listed {
      SameOrderSamePlaces(db, listed);
    }
  }

  lemma CameBackIdle(db: DB, zs: seq<Sizes>, generations: seq<nat>, r: DB)
    requires Closeable(db, zs) && |generations| == |db.bins| && Inv(r) && |r.bins| == |db.bins|
    requires forall i :: 0 <= i < |db.bins| ==> CameBack(db, zs, generations, r, i)
    ensures C.JustOpened(r)
  {
    hide Inv, Read, KeyAt, SlotsOwned, BinOk, SizesOk, ZeroSlots, KeyFiles, MostSlots, FillsBuffer;
    forall i | 0 <= i < |r.bins|
      ensures !r.bins[i].inCkpt && r.bins[i].active == {} && r.bins[i].cache.buf == map[]
    {
      assert CameBack(db, zs, generations, r, i);
    }
  }

  lemma CameBackView(db: DB, zs: seq<Sizes>, generations: seq<nat>, r: DB)
    requires Closeable(db, zs) && |generations| == |db.bins| && Inv(r) && r.index == db.index && |r.bins| == |db.bins|
    requires forall i :: 0 <= i < |db.bins| ==> CameBack(db, zs, generations, r, i)
    ensures View(r) == View(db)
  {
    hide Inv, Read, View, KeyAt, SlotsOwned, BinOk, SizesOk, ZeroSlots, KeyFiles, MostSlots, FillsBuffer;
    forall i | 0 <= i < |db.bins|
      ensures BinOk(r.bins[i]) && BinOk(db.bins[i]) && forall s: nat :: Read(r.bins[i], s) == Read(db.bins[i], s)
    {
      assert CameBack(db, zs, generations, r, i);
    }
    AllReadAlike(db, r);
  }
}
