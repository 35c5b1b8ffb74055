/** The database object: batched puts and deletes and the checkpoint steps as the loops that run
    them, each proved to be the operation of the state machine. */
module GravelDBs {
  import opened PageCaches
  import opened Bins
  import opened Stores
  import opened Deletions
  import opened DeltaChains
  import opened DeltaFiles
  import D = Directories
  import S = PutStatuses
  import C = Checkpoints
  import DimRegistries
  import DirtyTrackers
  import StableSort
  import FlushRuns

  // ----- the loops of a batch put -----

  method SortByDim(rs: seq<Request>) returns (r: seq<Request>)
    ensures r == StableSort.Sort(rs, DimKey())
  {
    var a := new Request[|rs|](i requires 0 <= i < |rs| => rs[i]);
    assert a[..] == rs;
    StableSort.InsertionSort(a, DimKey());
    r := a[..];
  }

  method GroupEnd(rs: seq<Request>) returns (n: nat)
    requires rs != []
    ensures n == LeadRun(rs)
  {
    n := 1;
    assert rs[0..] == rs;
    while n < |rs| && rs[n].dim == rs[0].dim
      invariant 1 <= n <= |rs| && rs[n - 1].dim == rs[0].dim
      invariant LeadRun(rs) == n - 1 + LeadRun(rs[n - 1..])
    {
      assert rs[n - 1..][1..] == rs[n..];
      n := n + 1;
    }
  }

  /** The slot and key loop of one dim group. */
  method PutKeyLoop(start: Group, k: nat, rs: seq<Request>) returns (gr: Group)
    requires k < |start.db.bins|
    ensures gr == PutKeys(start, k, rs)
  {
    gr := start;
    for i := 0 to |rs|
      invariant |gr.db.bins| == |start.db.bins| && gr == PutKeys(start, k, rs[..i])
    {
      assert rs[..i + 1][..i] == rs[..i];
      var r := rs[i];
      if r.feature != 0 && r.emb.Some? {
        if r.feature in gr.db.index {
          var place := gr.db.index[r.feature];
          if place.dimIdx != k {
            gr := gr.(status := DimMismatch);
          } else {
            gr := gr.(db := Take(gr.db, k, gr.db.bins[k], place.entryIdx, r.feature),
                      deferred := gr.deferred + [Write(place.entryIdx, r.emb.value)]);
          }
        } else {
          var (b, s) := Alloc(gr.db.bins[k]);
          gr := gr.(db := Take(gr.db, k, b, s, r.feature), deferred := gr.deferred + [Write(s, r.emb.value)]);
        }
      }
    }
    assert rs[..|rs|] == rs;
  }

  method PutOneGroup(db: DB, k: nat, rs: seq<Request>, status: Status) returns (r: DB, st: Status)
    requires GroupOk(db, k, rs)
    ensures (r, st) == PutGroup(db, k, rs, status)
  {
    ReservedKeeps(db, k, |rs|);
    var start := Group(db.(bins := db.bins[k := Reserve(db.bins[k], |rs|)]), [], status);
    PutKeysFacts(start, k, rs);
    var gr := PutKeyLoop(start, k, rs);
    r, st := gr.db, gr.status;
    if |gr.deferred| > 0 {
      BinsAreOk(gr.db, k);
      var (b, wrote) := PutBatch(gr.db.bins[k], gr.deferred);
      r := r.(bins := r.bins[k := b]);
      if wrote != Success {
        st := wrote;
      }
    }
  }

  /** One turn of the group loop. */
  lemma OneGroup(db: DB, rs: seq<Request>, st: Status)
    requires Inv(db) && RequestsOk(db.cfg, rs) && rs != []
    ensures rs[0].dim > 0
    ensures DimRegistries.IndexOf(db.dims, rs[0].dim) < 0 && !db.cfg.autoCreate ==> PutGroups(db, rs, st) == (db, Invalid)
    ensures DimRegistries.IndexOf(db.dims, rs[0].dim) >= 0 || db.cfg.autoCreate ==>
              var (db1, k), n := BinFor(db, rs[0].dim), LeadRun(rs);
              && GroupOk(db1, k, rs[..n])
              && var (db2, next) := PutGroup(db1, k, rs[..n], st);
                 && Inv(db2) && db2.cfg == db.cfg && RequestsOk(db.cfg, rs[n..])
                 && PutGroups(db, rs, st) == PutGroups(db2, rs[n..], next)
  {
    hide Inv, PutGroup, BinFor, OnlyBin;
    assert EmbOk(db.cfg, rs[0]);
    if DimRegistries.IndexOf(db.dims, rs[0].dim) >= 0 || db.cfg.autoCreate {
      BinForFacts(db, rs[0].dim);
      var (db1, k) := BinFor(db, rs[0].dim);
      PutGroupFacts(db1, k, rs[..LeadRun(rs)], st);
      GroupDims(db1, PutGroup(db1, k, rs[..LeadRun(rs)], st).0, k);
    }
  }

  /** The group loop of `graveldb_batch_put`. */
  method PutGroupLoop(db: DB, rs: seq<Request>) returns (r: DB, st: Status)
    requires Inv(db) && RequestsOk(db.cfg, rs)
    ensures (r, st) == PutGroups(db, rs, Success)
  {
    hide Inv, PutGroup, BinFor, PutGroups, LeadRun;
    r, st := db, Success;
    var pos := 0;
    assert rs[0..] == rs;
    while pos < |rs|
      invariant 0 <= pos <= |rs| && Inv(r) && r.cfg == db.cfg
      invariant PutGroups(db, rs, Success) == PutGroups(r, rs[pos..], st)
    {
      var rest := rs[pos..];
      var dim := rest[0].dim;
      OneGroup(r, rest, st);
      if DimRegistries.IndexOf(r.dims, dim) < 0 && !r.cfg.autoCreate {
        return r, Invalid;
      }
      var n := GroupEnd(rest);
      var (created, k) := BinFor(r, dim);
      assert rest[n..] == rs[pos + n..];
      r, st := PutOneGroup(created, k, rest[..n], st);
      pos := pos + n;
    }
    assert rs[pos..] == [];
    NoGroups(r, st);
  }

  lemma NoGroups(db: DB, st: Status)
    requires Inv(db)
    ensures PutGroups(db, [], st) == (db, st)
  {
  }

  /** The loop of `graveldb_batch_delete`. */
  method DeleteLoop(db: DB, fs: seq<nat>) returns (r: DB)
    requires Inv(db)
    ensures r == BatchDelete(db, fs)
  {
    hide Inv;
    r := db;
    assert fs[0..] == fs;
    for i := 0 to |fs|
      invariant Inv(r) && BatchDelete(r, fs[i..]) == BatchDelete(db, fs)
    {
      var f := fs[i];
      assert fs[i..][1..] == fs[i + 1..];
      DeleteOneOwns(r, f);
      if f != 0 && f in r.index {
        IndexedBin(r, f);
        var k, s := r.index[f].dimIdx, r.index[f].entryIdx;
        var b := if r.bins[k].inCkpt then Tombstone(r.bins[k], s) else FreeEntry(r.bins[k], s);
        r := r.(bins := r.bins[k := b], index := r.index - {f});
      }
    }
    assert fs[|fs|..] == [];
  }

  class GravelDB {
    var db: DB
    var prog: C.Progress
    ghost var hist: seq<History>
    var dirs: seq<D.Dir>  // the delta files of each bin
    var entries: nat      // runs written to the open one

    ghost function System(): C.Sys
      reads this
    {
      C.Sys(db, prog, hist)
    }

    ghost predicate Valid()
      reads this
    {
      C.SysInv(System()) && D.DirsOk(System(), dirs) && (prog.open ==> entries == |prog.runs|)
    }

    /** `graveldb_open`, over bins as `dimbin_init` and the index scan left them. */
    constructor (db: DB, dirs: seq<D.Dir>)
      requires C.JustOpened(db) && D.Settled(db, dirs)
      ensures Valid() && System() == C.Started(db) && this.dirs == dirs
    {
      this.db, this.dirs, entries := db, dirs, 0;
      prog := C.Progress(C.Idle, 0, false, [], 0, []);
      hist := C.Started(db).hist;
      D.SettledOk(db, dirs);
    }

    /** `graveldb_batch_put`: when it returns success, every feature asked for reads back the last
        embedding given for it. */
    method Put(rs: seq<Request>) returns (status: Status)
      requires Valid() && RequestsOk(db.cfg, rs) && FreshDims(db, rs)
      modifies this
      ensures Valid() && System() == C.Apply(old(System()), C.Put(rs))
      ensures dirs == D.DirsAfter(old(System()), C.Put(rs), old(dirs))
      ensures status == BatchPut(old(db), rs).1 && S.PutStatus(old(db), rs, status)
      ensures S.AllIdle(old(db)) ==>
                status == if S.NoBin(old(db), rs) then Invalid else if S.HasWrongDim(old(db), rs) then DimMismatch else Success
      ensures Shape(db) && (status == Success ==> forall f :: Asks(rs, f) ==> BackFor(db, rs, f))
    {
      hide C.SysInv, PutGroups, BackFor, D.DirsOk, S.PutStatus, S.AllIdle, S.NoBin, S.HasWrongDim;
      C.SysParts(System());
      C.ApplyKeepsInv(System(), C.Put(rs));
      D.OpKeepsDirs(System(), C.Put(rs), dirs);
      BatchPutReadsBack(db, rs);
      S.BatchPutStatus(db, rs);
      if S.AllIdle(db) {
        S.IdleBatchStatus(db, rs);
      }
      var sorted := SortByDim(rs);
      SortedRequestsOk(db.cfg, rs);
      db, status := PutGroupLoop(db, sorted);
      hist := C.Extended(hist, |db.bins|);
      dirs := D.NewDirs(dirs, |db.bins|);
    }

    /** `graveldb_batch_delete`: the features named are gone, every other keeps its place. */
    method Delete(fs: seq<nat>)
      requires Valid()
      modifies this
      ensures Valid() && System() == C.Apply(old(System()), C.Delete(fs)) && dirs == old(dirs)
      ensures db.index == old(db.index) - (set f | f in fs)
    {
      hide C.SysInv, BatchDelete, D.DirsOk;
      C.SysParts(System());
      C.ApplyKeepsInv(System(), C.Delete(fs));
      D.OpKeepsDirs(System(), C.Delete(fs), dirs);
      BatchDeleteFacts(db, fs);
      db := DeleteLoop(db, fs);
    }

    /** `graveldb_flush`. */
    method FlushBins()
      requires Valid()
      modifies this
      ensures Valid() && System() == C.Apply(old(System()), C.FlushDB) && dirs == old(dirs)
    {
      hide C.SysInv, D.DirsOk;
      C.ApplyKeepsInv(System(), C.FlushDB);
      D.OpKeepsDirs(System(), C.FlushDB, dirs);
      ghost var m := db;
      for i := 0 to |db.bins|
        invariant db == m.(bins := db.bins) && |db.bins| == |m.bins| && prog == old(prog) && hist == old(hist)
        invariant dirs == old(dirs) && entries == old(entries)
        invariant forall j :: 0 <= j < |m.bins| ==> db.bins[j] == if j < i then FlushBin(m.bins[j]) else m.bins[j]
      {
        db := db.(bins := db.bins[i := FlushBin(db.bins[i])]);
      }
      assert db.bins == C.FlushAll(m).bins;
    }

    /** FLUSHING: begin one bin's checkpoint, or move on. */
    method FlushPhase(k: nat)
      requires Valid() && k <= |db.bins| && !prog.open && C.FlushOk(System(), k)
      requires (prog.phase == C.Idle && k == 0) || (prog.phase == C.Flushing && k == prog.bin)
      modifies this
      ensures System() == C.FlushStep(old(System()), k) && dirs == old(dirs) && !prog.open
    {
      hide Inv, C.Stands, D.DirsOk, C.AllTrack, Begin;
      C.SysParts(System());
      if k >= |db.bins| {
        prog := C.Progress(C.Dumping, 0, false, [], 0, []);
      } else {
        hist := hist[k := BegunHistory(db.bins[k], hist[k])];
        db := db.(bins := db.bins[k := Begin(db.bins[k])]);
        prog := C.Progress(C.Flushing, k + 1, false, [], 0, []);
      }
    }

    /** DUMPING: dump up to the budget of one bin into its delta file, or move on. */
    method DumpPhase(asked: nat) returns (ghost found: C.Finding)
      requires Valid() && prog.phase == C.Dumping
      modifies this
      ensures C.DumpOk(old(System()), asked, found) && System() == C.DumpPhase(old(System()), asked, found)
      ensures dirs == D.DumpDirs(old(System()), asked, found, old(dirs)) && (prog.open ==> entries == |prog.runs|)
    {
      hide C.SysInv, Inv, BinOk, D.DirsOk, D.DumpFile, D.IsBegun, C.AllTrack, Dumped, Flatten, Solid;
      C.SysParts(System());
      D.DirsSize(System(), dirs);
      if prog.bin >= |db.bins| {
        found := C.Finding([], [], []);
        prog := C.Progress(C.Finishing, 0, false, [], 0, []);
        return;
      }
      D.OpenFile(System(), dirs);
      var b := db.bins[prog.bin];
      C.ReadyToDump(System());
      var blocks, from, before := prog.blocks, prog.cursor, prog.runs;
      if !prog.open {
        blocks := ScanFrozen(b.frozen);
        from, before, entries := 0, [], 0;
      }
      var cursor, runs := DumpStep(b.cache.g, b.cache.file, blocks, from, C.Budget(asked));
      found := C.Finding(blocks, runs, []);
      var file := D.WriteStep(dirs[prog.bin], b, db.dims[prog.bin], prog.open, entries, runs, cursor >= |blocks|);
      entries := entries + |runs|;
      var dir: D.Dir := dirs[prog.bin][b.generation := file];
      dirs := dirs[prog.bin := dir];
      hist := C.Created(hist, prog.bin, b, prog.open);
      if cursor >= |blocks| {
        hist := C.Complete(hist, prog.bin, b, before + runs);
        prog := C.Progress(C.Dumping, prog.bin + 1, false, [], 0, []);
      } else {
        prog := C.Progress(C.Dumping, prog.bin, true, blocks, cursor, before + runs);
      }
    }

    /** FINISHING: end every bin's checkpoint.  `orders` are the overlays as their tables store them. */
    method FinishPhase(orders: seq<seq<Write>>)
      requires Valid() && prog.phase == C.Finishing && C.EndOk(db, orders) && Inv(db)
      modifies this
      ensures db == C.EndAll(old(db), orders) && hist == old(hist) && dirs == old(dirs)
      ensures prog == C.Progress(C.Idle, old(prog).bin, false, [], 0, [])
    {
      ghost var m := db;
      for i := 0 to |db.bins|
        invariant db == m.(bins := db.bins) && |db.bins| == |m.bins| && prog == old(prog) && hist == old(hist) && dirs == old(dirs)
        invariant forall j :: 0 <= j < |m.bins| ==> db.bins[j] == if j < i then C.EndAll(m, orders).bins[j] else m.bins[j]
      {
        assert Enumerates(orders[i], m.bins[i].overlay);
        db := db.(bins := db.bins[i := End(db.bins[i], orders[i])]);
      }
      assert db.bins == C.EndAll(m, orders).bins;
      prog := C.Progress(C.Idle, prog.bin, false, [], 0, []);
    }

    /** `graveldb_checkpoint_step`: one step of the state machine. */
    method CheckpointStep(asked: nat, orders: seq<seq<Write>>) returns (ghost found: C.Finding)
      requires Valid()
      requires prog.phase == C.Idle ==> C.FlushOk(System(), 0)
      requires prog.phase == C.Flushing ==> C.FlushOk(System(), prog.bin)
      requires prog.phase == C.Finishing ==> C.EndOk(db, orders)
      modifies this
      ensures C.StepOk(old(System()), asked, found) && System() == C.CkptStep(old(System()), asked, found)
      ensures dirs == D.DirsAfter(old(System()), C.Step(asked, found), old(dirs))
      ensures Valid() && (old(prog.phase) != C.Idle ==> C.Nearer(old(System()), System()))
      ensures C.PagesDumped(System()) <= old(C.PagesDumped(System())) + (if asked == 0 then 64 else asked)
      ensures prog.open ==> C.PagesDumped(System()) == old(C.PagesDumped(System())) + (if asked == 0 then 64 else asked)
    {
      hide C.SysInv, Inv, C.Nearer, C.DumpOk, C.FlushOk, C.EndOk, C.PagesDumped, D.DirsOk, D.DumpDirs;
      ghost var sys := System();
      C.SysParts(sys);
      D.StepShape(sys);
      ghost var was := dirs;
      found := C.Finding([], [], orders);
      match prog.phase {
        case Idle => FlushPhase(0);
        case Flushing => FlushPhase(prog.bin);
        case Dumping => found := DumpPhase(asked);
        case Finishing => FinishPhase(orders);
      }
      C.CkptStepKeepsInv(sys, asked, found);
      D.StepKeepsDirs(sys, asked, found, was);
      C.StepWithinBudget(sys, asked, found);
      if sys.prog.phase != C.Idle {
        C.StepComesNearer(sys, asked, found);
      }
    }

    /** The begin loop of `graveldb_checkpoint`. */
    method BeginBins()
      requires Valid()
      modifies this`db
      ensures db == old(db).(bins := db.bins)
      ensures |db.bins| == |old(db).bins| && forall i :: 0 <= i < |db.bins| ==> db.bins[i] == Begin(old(db).bins[i])
    {
      hide C.SysInv, Begin, D.DirsOk;
      ghost var m := db;
      for i := 0 to |db.bins|
        invariant db == m.(bins := db.bins) && |db.bins| == |m.bins|
        invariant forall j :: 0 <= j < |m.bins| ==> db.bins[j] == if j < i then Begin(m.bins[j]) else m.bins[j]
      {
        db := db.(bins := db.bins[i := Begin(db.bins[i])]);
      }
    }

    /** The dump loop of `graveldb_checkpoint`: one delta file for each bin. */
    method DumpBins(ghost was: seq<Bin>) returns (ghost scans: seq<seq<nat>>, ghost deltas: seq<seq<Run>>)
      requires |was| == |db.bins| == |db.dims| == |dirs|
      requires forall i :: 0 <= i < |was| ==> BinOk(Begin(was[i])) && db.bins[i] == Begin(was[i])
      requires forall i :: 0 <= i < |was| ==> |was[i].active| <= C.MAX_DIRTY
      modifies this`dirs
      ensures |scans| == |deltas| == |db.bins| == |dirs|
      ensures forall i :: 0 <= i < |db.bins| ==> C.BlockingDump(was[i], scans[i], deltas[i])
      ensures forall i :: 0 <= i < |dirs| ==>
                dirs[i] == old(dirs)[i][db.bins[i].generation := D.WholeFile(was[i], db.dims[i], deltas[i])]
    {
      hide BinOk, Dumped, Flatten, EncodeDelta;
      scans, deltas := [], [];
      for i := 0 to |db.bins|
        invariant |scans| == |deltas| == i && |dirs| == |db.bins|
        invariant forall j :: 0 <= j < i ==> C.BlockingDump(was[j], scans[j], deltas[j])
        invariant forall j :: 0 <= j < |dirs| ==>
                    dirs[j] == if j < i then old(dirs)[j][db.bins[j].generation := D.WholeFile(was[j], db.dims[j], deltas[j])]
                               else old(dirs)[j]
      {
        var b := db.bins[i];
        C.BegunFile(was[i]);
        var scan := ScanFrozen(b.frozen);
        var runs := DumpAll(b.cache.g, b.cache.file, scan);
        var file := WriteDelta(D.HeaderFor(b, db.dims[i]), runs);
        var dir: D.Dir := dirs[i][b.generation := file];
        dirs := dirs[i := dir];
        scans, deltas := scans + [scan], deltas + [runs];
      }
    }

    /** The end loop of `graveldb_checkpoint`: nothing was written meanwhile. */
    method EndBins(ghost was: seq<Bin>)
      requires |was| == |db.bins| && forall i :: 0 <= i < |was| ==> BinOk(Begin(was[i])) && db.bins[i] == Begin(was[i])
      modifies this`db
      ensures db == old(db).(bins := db.bins)
      ensures |db.bins| == |was| && forall i :: 0 <= i < |was| ==> db.bins[i] == C.Cycled(was[i])
    {
      hide BinOk, End, Begin;
      ghost var m := db;
      for i := 0 to |db.bins|
        invariant db == m.(bins := db.bins) && |db.bins| == |m.bins|
        invariant forall j :: 0 <= j < |m.bins| ==> db.bins[j] == if j < i then C.Cycled(was[j]) else m.bins[j]
      {
        assert db.bins[i] == Begin(was[i]);
        db := db.(bins := db.bins[i := End(db.bins[i], [])]);
      }
    }

    /** `graveldb_checkpoint`: the blocking checkpoint. */
    method Checkpoint() returns (ghost scans: seq<seq<nat>>, ghost deltas: seq<seq<Run>>)
      requires Valid() && prog.phase == C.Idle
      requires forall i :: 0 <= i < |db.bins| ==> |db.bins[i].active| <= C.MAX_DIRTY
      modifies this
      ensures C.WholeOk(old(System()), scans, deltas)
      ensures Valid() && System() == C.WholeCheckpoint(old(System()), scans, deltas)
      ensures dirs == D.DirsAfter(old(System()), C.Whole(scans, deltas), old(dirs))
    {
      hide C.SysInv, Inv, Begin, C.BlockingDump, C.Cycled, C.CycledHistory, D.DirsOk, D.WholeFile;
      ghost var sys, files := System(), dirs;
      C.SysParts(sys);
      D.DirsSize(sys, dirs);
      ghost var was := db.bins;
      forall i | 0 <= i < |was|
        ensures BinOk(Begin(was[i]))
      {
        C.IdleBegins(sys, i);
      }
      BeginBins();
      scans, deltas := DumpBins(was);
      assert C.WholeOk(sys, scans, deltas);
      assert dirs == D.WholeDirs(sys, deltas, files);
      EndBins(was);
      C.WholeKeepsInv(sys, scans, deltas);
      D.WholeKeepsDirs(sys, scans, deltas, files);
      hist := C.WholeCheckpoint(sys, scans, deltas).hist;
      assert db.bins == C.WholeCheckpoint(sys, scans, deltas).db.bins;
    }
  }

  /** The scan of the frozen tracker. */
  method ScanFrozen(frozen: set<nat>) returns (scan: seq<nat>)
    ensures DirtyTrackers.FirstOf(scan, frozen, C.MAX_DIRTY)
  {
    var pages := FlushRuns.SortedPages(frozen);
    scan := if |pages| <= C.MAX_DIRTY then pages else pages[..C.MAX_DIRTY];
    forall x | x in frozen && x !in scan
      ensures |scan| == C.MAX_DIRTY && forall p :: p in scan ==> p < x
    {
      var i :| 0 <= i < |pages| && pages[i] == x;
      assert i >= |scan|;
    }
  }
}
