/** The run that loses an entry: a partly filled page that was flushed is zeroed by the next insert
    into it. */
module LostPages {
  import opened Pages
  import opened PageCaches
  import opened Bins
  import opened Stores
  import opened Reopening
  import opened Puts
  import opened Runs
  import opened Arithmetic
  import C = Checkpoints
  import DimRegistries
  import HashIndexes
  import StableSort

  function Ask(f: nat, dim: nat, e: Bytes): seq<Request> {
    [Request(f, dim, Some(e))]
  }

  /** One bin, outside a checkpoint, with no slot to hand out again. */
  ghost predicate Lone(db: DB, dim: nat, bump: nat) {
    && Inv(db) && db.dims == [dim] && |db.bins| == 1
    && !db.bins[0].inCkpt && db.bins[0].free == [] && db.bins[0].bump == bump
  }

  lemma OneKey(start: Group, dim: nat, f: nat, e: Bytes)
    requires |start.db.bins| == 1 && start.db.bins[0].free == [] && start.deferred == [] && f != 0 && f !in start.db.index
    ensures var b, gr := start.db.bins[0], PutKeys(start, 0, Ask(f, dim, e));
            && gr.status == start.status && gr.deferred == [Write(b.bump, e)]
            && gr.db == start.db.(bins := gr.db.bins, index := start.db.index[f := HashIndexes.Place(0, b.bump)])
            && gr.db.bins[0].bump == b.bump + 1 && gr.db.bins[0].free == []
  {
    hide GrownOnce;
    var rs := Ask(f, dim, e);
    assert rs[..0] == [] && PutKeys(start, 0, []) == start;
    assert PutKeys(start, 0, rs) == PutKey(start, 0, rs[0]);
  }

  lemma ReservedSlots(db: DB, n: nat)
    requires Inv(db) && |db.bins| == 1
    ensures var r := Reserved(db, 0, n);
            && Inv(r) && r == db.(bins := r.bins) && |r.bins| == 1
            && r.bins[0].bump == db.bins[0].bump && r.bins[0].free == db.bins[0].free && r.bins[0].inCkpt == db.bins[0].inCkpt
            && r.bins[0].cache == db.bins[0].cache
  {
    ReservedKeeps(db, 0, n);
  }

  /** The key loop for one new feature. */
  lemma NewKey(db: DB, dim: nat, bump: nat, f: nat, e: Bytes)
    requires Lone(db, dim, bump) && f != 0 && f !in db.index && RequestsOk(db.cfg, Ask(f, dim, e))
    ensures GroupOk(db, 0, Ask(f, dim, e))
    ensures var gr := Deferred(db, 0, Ask(f, dim, e));
            && gr.status == Success && gr.deferred == [Write(bump, e)] && Inv(gr.db)
            && gr.db == db.(bins := gr.db.bins, index := db.index[f := HashIndexes.Place(0, bump)])
            && |gr.db.bins| == 1 && gr.db.bins[0].cache == db.bins[0].cache && !gr.db.bins[0].inCkpt
            && gr.db.bins[0].bump == bump + 1 && gr.db.bins[0].free == []
  {
    hide Owned, BinOk, Reserve, PutKeys;
    var rs := Ask(f, dim, e);
    assert GroupOk(db, 0, rs);
    ReservedSlots(db, 1);
    var start := Group(Reserved(db, 0, 1), [], Success);
    OneKey(start, dim, f, e);
    DeferredBin(db, 0, rs);
    PutKeysFacts(start, 0, rs);
  }

  /** A group of one new feature. */
  lemma NewFeature(db: DB, dim: nat, bump: nat, f: nat, e: Bytes)
    requires Lone(db, dim, bump) && f != 0 && f !in db.index && RequestsOk(db.cfg, Ask(f, dim, e))
    ensures GroupOk(db, 0, Ask(f, dim, e))
    ensures var (r, st) := PutGroup(db, 0, Ask(f, dim, e), Success);
            && st == Success && r.cfg == db.cfg && Lone(r, dim, bump + 1)
            && r.index == db.index[f := HashIndexes.Place(0, bump)]
  {
    hide Owned, PutKeys, PutSorted, BinOk, TouchedPages, Shape;
    NewKey(db, dim, bump, f, e);
    PutGroupFacts(db, 0, Ask(f, dim, e), Success);
  }

  /** A batch of one request is one group. */
  lemma SinglePut(db: DB, q: Request)
    requires Inv(db) && q.dim > 0 && RequestsOk(db.cfg, [q]) && db.cfg.autoCreate
    ensures var (db1, k) := BinFor(db, q.dim); GroupOk(db1, k, [q]) && BatchPut(db, [q]) == PutGroup(db1, k, [q], Success)
  {
    hide Inv, BinFor, PutGroup;
    assert EmbOk(db.cfg, [q][0]);
    BinForFacts(db, q.dim);
    var (db1, k) := BinFor(db, q.dim);
    assert [q][..0] == [] && StableSort.Sort([q], DimKey()) == [q];
    assert LeadRun([q]) == 1 && [q][..1] == [q] && [q][1..] == [];
    PutGroupFacts(db1, k, [q], Success);
    var (db2, st) := PutGroup(db1, k, [q], Success);
    GroupDims(db1, db2, k);
    assert PutGroups(db2, [], st) == (db2, st);
    assert PutGroups(db, [q], Success) == PutGroups(db2, [], st);
  }

  /** Putting a new feature beside the others. */
  lemma NextPut(db: DB, dim: nat, bump: nat, f: nat, e: Bytes)
    requires Lone(db, dim, bump) && db.cfg.autoCreate && f != 0 && f !in db.index && RequestsOk(db.cfg, Ask(f, dim, e))
    ensures var (r, st) := BatchPut(db, Ask(f, dim, e));
            && st == Success && r.cfg == db.cfg && Lone(r, dim, bump + 1)
            && r.index == db.index[f := HashIndexes.Place(0, bump)]
  {
    hide Inv, PutGroup, BatchPut;
    assert EmbOk(db.cfg, Ask(f, dim, e)[0]);
    SinglePut(db, Request(f, dim, Some(e)));
    NewFeature(db, dim, bump, f, e);
  }

  function EmptyStore(cfg: Config): DB {
    DB(cfg, [], [], map[], {})
  }

  /** Putting the first feature creates the bin. */
  lemma FirstPut(cfg: Config, dim: nat, f: nat, e: Bytes)
    requires ConfigOk(cfg) && cfg.autoCreate && dim > 0 && f != 0 && |e| == GeometryFor(cfg, dim).entrySize
    ensures Inv(EmptyStore(cfg)) && RequestsOk(cfg, Ask(f, dim, e))
    ensures var (r, st) := BatchPut(EmptyStore(cfg), Ask(f, dim, e));
            st == Success && r.cfg == cfg && Lone(r, dim, 1) && r.index == map[f := HashIndexes.Place(0, 0)]
  {
    hide PutGroup, BatchPut, Owned;
    var db := EmptyStore(cfg);
    EmptyOk(cfg);
    CreateBinKeeps(db, dim);
    SinglePut(db, Request(f, dim, Some(e)));
    NewFeature(CreateBin(db, dim), dim, 0, f, e);
  }

  lemma EmptyOk(cfg: Config)
    requires ConfigOk(cfg)
    ensures C.JustOpened(EmptyStore(cfg))
  {
  }

  lemma FlushedLone(db: DB, dim: nat, bump: nat)
    requires Lone(db, dim, bump)
    ensures var r := C.FlushAll(db); Lone(r, dim, bump) && r.index == db.index && r.cfg == db.cfg && r.bins[0].cache.buf == map[]
  {
    hide Owned, SlotsOwned, Read;
    var r := C.FlushAll(db);
    FlushBinKeeps(db.bins[0]);
    SameSlotsOwned(db, r);
  }

  /** With three entries or more to a page, the page of slot 0 is neither buffered nor reloaded when
      slot 1 is handed out.  With two it is reloaded, with one it is not touched. */
  lemma SlotLostNext(db: DB, dim: nat, f: nat, e: Bytes)
    requires Lone(db, dim, 1) && db.bins[0].cache.buf == map[]
    requires f != 0 && f !in db.index && RequestsOk(db.cfg, Ask(f, dim, e))
    ensures GroupOk(db, 0, Ask(f, dim, e))
    ensures KeptByGroup(db, 0, Ask(f, dim, e), 0) <==> db.bins[0].cache.g.epp < 3
  {
    hide Owned, PutKeys, Deferred;
    NewKey(db, dim, 1, f, e);
    DeferredBin(db, 0, Ask(f, dim, e));
    KeptAlone(Deferred(db, 0, Ask(f, dim, e)).db.bins[0], e);
  }

  lemma KeptAlone(b: Bin, e: Bytes)
    requires BinOk(b) && SizesOk(b) && !b.inCkpt && b.bump == 2 && b.cache.buf == map[]
    ensures KeptInBin(b, [Write(1, e)], 0) <==> b.cache.g.epp < 3
  {
    var epp := b.cache.g.epp;
    DivModUnique(0, epp, 0, 0);
    assert [Write(1, e)][0] == Write(1, e) && Touched(epp, [Write(1, e)]) == {1 / epp};
    if epp >= 3 {
      DivModUnique(1, epp, 0, 1);
      DivModUnique(2, epp, 0, 2);
    }
  }

  /** After the flush, putting a second feature keeps the first one or leaves it zero. */
  lemma SecondPutLoses(db: DB, dim: nat, e: Bytes)
    requires Lone(db, dim, 1) && db.cfg.autoCreate && db.bins[0].cache.buf == map[]
    requires db.index == map[1 := HashIndexes.Place(0, 0)] && RequestsOk(db.cfg, Ask(2, dim, e))
    ensures var (r, st) := BatchPut(db, Ask(2, dim, e));
            && st == Success && Inv(r)
            && View(r) == map[1 := if db.bins[0].cache.g.epp < 3 then Value(db, 1) else Zeros(|Value(db, 1)|), 2 := e]
  {
    hide Inv, BatchPut, PutGroup, KeptByGroup, Value, BackFor;
    var rs := Ask(2, dim, e);
    NextPut(db, dim, 1, 2, e);
    SlotLostNext(db, dim, 2, e);
    StableSort.WithKeyAll(rs, DimKey(), dim);
    assert !Asks(rs, 1);
    BatchPutExact(db, rs, 1);
    BatchPutReadsBack(db, rs);
    assert Applies(rs[0], 2) && Asks(rs, 2);
    BackIsValue(BatchPut(db, rs).0, rs, 2);
  }

  /** Open an empty store, put feature 1, flush, put feature 2 of the same dim.  All succeed, and
      feature 1 reads as zeros exactly when a page holds three entries or more. */
  lemma LastPageIsLost(cfg: Config, dim: nat, e1: Bytes, e2: Bytes)
    requires ConfigOk(cfg) && cfg.autoCreate && dim > 0
    requires |e1| == |e2| == GeometryFor(cfg, dim).entrySize
    ensures C.JustOpened(EmptyStore(cfg))
    ensures var sys, ops := C.Started(EmptyStore(cfg)), [C.Put(Ask(1, dim, e1)), C.FlushDB, C.Put(Ask(2, dim, e2))];
            && C.RunOk(sys, ops)
            && Inv(C.Reached(sys, ops).db)
            && View(C.Reached(sys, ops).db) == map[1 := if GeometryFor(cfg, dim).epp < 3 then e1 else Zeros(|e1|), 2 := e2]
  {
    hide Inv, BatchPut, C.SysInv, C.FlushAll, Value;
    EmptyOk(cfg);
    FirstPut(cfg, dim, 1, e1);
    var sys := C.Started(EmptyStore(cfg));
    C.ApplyKeepsInv(sys, C.Put(Ask(1, dim, e1)));
    var sys1 := C.Apply(sys, C.Put(Ask(1, dim, e1)));
    C.ApplyKeepsInv(sys1, C.FlushDB);
    FlushedLone(sys1.db, dim, 1);
    FirstReads(cfg, dim, e1);
    LoneGeometry(sys1.db, dim, 1);
    var sys2 := C.Apply(sys1, C.FlushDB);
    LoneGeometry(sys2.db, dim, 1);
    SecondPutLoses(sys2.db, dim, e2);
    RunOfThree(sys, C.Put(Ask(1, dim, e1)), C.FlushDB, C.Put(Ask(2, dim, e2)));
  }

  /** Feature 1 reads back, before and after the flush. */
  lemma FirstReads(cfg: Config, dim: nat, e: Bytes)
    requires ConfigOk(cfg) && cfg.autoCreate && dim > 0 && |e| == GeometryFor(cfg, dim).entrySize
    ensures Inv(EmptyStore(cfg)) && RequestsOk(cfg, Ask(1, dim, e))
    ensures var r := BatchPut(EmptyStore(cfg), Ask(1, dim, e)).0;
            Inv(C.FlushAll(r)) && 1 in C.FlushAll(r).index && Value(C.FlushAll(r), 1) == e
  {
    hide BatchPut, Owned, BackFor, Read;
    FirstPut(cfg, dim, 1, e);
    var db, rs := EmptyStore(cfg), Ask(1, dim, e);
    BatchPutReadsBack(db, rs);
    assert Applies(rs[0], 1) && Asks(rs, 1);
    var r := BatchPut(db, rs).0;
    BackIsValue(r, rs, 1);
    FlushedLone(r, dim, 1);
    FlushBinKeeps(r.bins[0]);
  }

  lemma LoneGeometry(db: DB, dim: nat, bump: nat)
    requires Lone(db, dim, bump) && dim > 0
    ensures db.bins[0].cache.g == GeometryFor(db.cfg, dim)
  {
  }

  lemma RunOfThree(sys: C.Sys, a: C.Op, b: C.Op, c: C.Op)
    requires C.SysInv(sys) && C.OpOk(sys, a) && C.SysInv(C.Apply(sys, a)) && C.OpOk(C.Apply(sys, a), b)
    requires C.SysInv(C.Apply(C.Apply(sys, a), b)) && C.OpOk(C.Apply(C.Apply(sys, a), b), c)
    ensures C.RunOk(sys, [a, b, c]) && C.Reached(sys, [a, b, c]) == C.Apply(C.Apply(C.Apply(sys, a), b), c)
  {
    hide C.OpOk, C.Apply, C.SysInv;
    assert [a, b, c][1..] == [b, c] && [b, c][1..] == [c] && [c][1..] == [];
    var s1 := C.Apply(sys, a);
    var s2 := C.Apply(s1, b);
    var s3 := C.Apply(s2, c);
    C.ApplyKeepsInv(s2, c);
    assert C.RunOk(s3, []) && C.RunOk(s2, [c]) && C.RunOk(s1, [b, c]);
    assert C.Reached(s2, [c]) == C.Reached(s3, []) == s3;
    assert C.Reached(s1, [b, c]) == C.Reached(s2, [c]);
  }

  /** The store after its first put. */
  lemma FirstView(cfg: Config, dim: nat, e: Bytes)
    requires ConfigOk(cfg) && cfg.autoCreate && dim > 0 && |e| == GeometryFor(cfg, dim).entrySize
    ensures Inv(EmptyStore(cfg)) && RequestsOk(cfg, Ask(1, dim, e))
    ensures var r := BatchPut(EmptyStore(cfg), Ask(1, dim, e)).0;
            Lone(r, dim, 1) && r.cfg == cfg && r.index == map[1 := HashIndexes.Place(0, 0)] && View(r) == map[1 := e]
  {
    hide Inv, BatchPut, Value, BackFor;
    FirstPut(cfg, dim, 1, e);
    var db, rs := EmptyStore(cfg), Ask(1, dim, e);
    BatchPutReadsBack(db, rs);
    assert Applies(rs[0], 1) && Asks(rs, 1);
    BackIsValue(BatchPut(db, rs).0, rs, 1);
  }

  lemma RunOfOne(sys: C.Sys, op: C.Op)
    requires C.SysInv(sys) && C.OpOk(sys, op)
    ensures C.RunOk(sys, [op]) && C.Reached(sys, [op]) == C.Apply(sys, op)
  {
    hide C.OpOk, C.Apply, C.SysInv;
    C.ApplyKeepsInv(sys, op);
    assert [op][1..] == [];
    assert C.RunOk(C.Apply(sys, op), []) && C.Reached(C.Apply(sys, op), []) == C.Apply(sys, op);
  }

  lemma OpensWithDim(r: DB, dim: nat, z: Sizes)
    requires Lone(r, dim, 1) && dim > 0 && r.left == {} && Holding(r.bins[0], z)
    requires r.index == map[1 := HashIndexes.Place(0, 0)]
    ensures Openable(r, r.cfg, [], []) && Openable(r, r.cfg, [dim], [z])
    ensures IsListed(r, [dim], 1) && !IsListed(r, [], 1)
  {
    hide Owned, BinOk, SizesOk;
    assert DimRegistries.IndexOf([dim], dim) == 0;
  }

  /** Open an empty store with no dims listed, put a feature, close, open again with no dims listed:
      the store is empty.  With the dim listed it holds the feature. */
  lemma UnlistedIsGone(cfg: Config, dim: nat, e: Bytes, z: Sizes, generation: nat)
    requires ConfigOk(cfg) && cfg.autoCreate && dim > 0 && |e| == GeometryFor(cfg, dim).entrySize
    ensures C.JustOpened(EmptyStore(cfg))
    ensures var sys, ops := C.Started(EmptyStore(cfg)), [C.Put(Ask(1, dim, e))];
            C.RunOk(sys, ops) && GoneUnlessListed(C.Reached(sys, ops).db, cfg, dim, e, z, generation)
  {
    hide Inv, View, C.SysInv, C.RunOk, C.Reached, BatchPut, GoneUnlessListed;
    EmptyOk(cfg);
    FirstView(cfg, dim, e);
    var sys := C.Started(EmptyStore(cfg));
    RunOfOne(sys, C.Put(Ask(1, dim, e)));
    BatchPutDims(sys.db, Ask(1, dim, e));
    ListedOrGone(BatchPut(sys.db, Ask(1, dim, e)).0, cfg, dim, e, z, generation);
  }

  ghost predicate GoneUnlessListed(r: DB, cfg: Config, dim: nat, e: Bytes, z: Sizes, generation: nat) {
    && Inv(r) && View(r) == map[1 := e] && |r.bins| == 1
    && Openable(r, cfg, [], []) && C.JustOpened(Reopened(r, cfg, [], [], [])) && View(Reopened(r, cfg, [], [], [])) == map[]
    && (Holding(r.bins[0], z) ==>
          && Openable(r, cfg, [dim], [z]) && C.JustOpened(Reopened(r, cfg, [dim], [z], [generation]))
          && View(Reopened(r, cfg, [dim], [z], [generation])) == map[1 := e])
  }

  lemma ListedOrGone(r: DB, cfg: Config, dim: nat, e: Bytes, z: Sizes, generation: nat)
    requires Lone(r, dim, 1) && dim > 0 && r.cfg == cfg && r.left == {}
    requires r.index == map[1 := HashIndexes.Place(0, 0)] && View(r) == map[1 := e]
    ensures GoneUnlessListed(r, cfg, dim, e, z, generation)
  {
    hide Inv, View, Reopened, Openable, CameBack, Closeable, IsListed;
    OpensWithDim(r, dim, Sizes(r.bins[0].dataSize, r.bins[0].keySize));
    ReopenView(r, cfg, [], [], []);
    NothingSeen(r);
    if Holding(r.bins[0], z) {
      OpensWithDim(r, dim, z);
      ReopenView(r, cfg, [dim], [z], [generation]);
    }
  }

  lemma NothingSeen(r: DB)
    requires Inv(r)
    ensures Seen(r, []) == map[]
  {
  }
}
