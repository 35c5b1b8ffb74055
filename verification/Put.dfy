/** What a batch put amounts to for a reader: a map update, where it loses nothing; and exactly what it
    leaves where it loses entries, or fails. */
module Puts {
  import opened Pages
  import opened Bins
  import opened Stores
  import opened Deletions
  import DimRegistries
  import StableSort

  /** What a reader can ask for: each indexed feature and its embedding. */
  ghost function View(db: DB): map<nat, Bytes>
    requires Inv(db)
  {
    map f | f in db.index :: Value(db, f)
  }

  ghost function Value(db: DB, f: nat): Bytes
    requires Inv(db) && f in db.index
  {
    IndexedBin(db, f);
    BinsAreOk(db, db.index[f].dimIdx);
    Read(db.bins[db.index[f].dimIdx], db.index[f].entryIdx)
  }

  // ----- batch put is map update -----

  /** The requests of a batch for one dim, in batch order. */
  ghost function OfDim(rs: seq<Request>, dim: nat): seq<Request> {
    StableSort.WithKey(rs, DimKey(), dim)
  }

  /** Feature `f`, which the batch does not ask for, keeps its embedding: the requests for its dim
      keep its slot. */
  ghost predicate KeptByPut(db: DB, rs: seq<Request>, f: nat)
    requires Inv(db) && RequestsOk(db.cfg, rs) && f in db.index
  {
    IndexedBin(db, f);
    OfDimOk(db, rs, db.index[f].dimIdx);
    KeptByGroup(db, db.index[f].dimIdx, OfDim(rs, db.dims[db.index[f].dimIdx]), db.index[f].entryIdx)
  }

  /** What feature `f`, which the batch does not ask for, reads after it. */
  ghost function Fate(db: DB, rs: seq<Request>, f: nat): Bytes
    requires Inv(db) && RequestsOk(db.cfg, rs) && f in db.index
  {
    if KeptByPut(db, rs, f) then Value(db, f) else Zeros(|Value(db, f)|)
  }

  /** Every feature the batch does not ask for keeps its embedding, or has none but zeros to lose. */
  ghost predicate PutSafe(db: DB, rs: seq<Request>)
    requires Inv(db) && RequestsOk(db.cfg, rs)
  {
    forall f :: f in db.index && !Asks(rs, f) ==> KeptByPut(db, rs, f) || IsZero(Value(db, f))
  }

  ghost predicate IsZero(e: Bytes) {
    e == Zeros(|e|)
  }

  lemma OfDimOk(db: DB, rs: seq<Request>, k: nat)
    requires Inv(db) && RequestsOk(db.cfg, rs) && k < |db.bins|
    ensures GroupOk(db, k, OfDim(rs, db.dims[k]))
  {
    hide Inv, EmbOk;
    BinsAreOkInv(db, k);
    var mine := OfDim(rs, db.dims[k]);
    forall i | 0 <= i < |mine|
      ensures mine[i].dim == db.dims[k] && EmbOk(db.cfg, mine[i])
    {
      StableSort.WithKeyMembers(rs, DimKey(), db.dims[k], i);
    }
  }

  /** Feature `f` is safe from the requests for its dim. */
  ghost predicate InMemory(db: DB, rs: seq<Request>, f: nat)
    requires Inv(db) && RequestsOk(db.cfg, rs) && f in db.index
  {
    IndexedBin(db, f);
    OfDimOk(db, rs, db.index[f].dimIdx);
    BinsAreOk(db, db.index[f].dimIdx);
    Resident(db.bins[db.index[f].dimIdx],
             Deferred(db, db.index[f].dimIdx, OfDim(rs, db.dims[db.index[f].dimIdx])).deferred, db.index[f].entryIdx)
  }

  /** Inserts and updates beside buffered pages lose nothing. */
  lemma BufferedIsSafe(db: DB, rs: seq<Request>)
    requires Inv(db) && RequestsOk(db.cfg, rs)
    requires forall f :: f in db.index && !Asks(rs, f) ==> InMemory(db, rs, f)
    ensures PutSafe(db, rs)
  {
    hide Owned, Asks, Resident, KeptInBin;
    forall f | f in db.index && !Asks(rs, f)
      ensures KeptByPut(db, rs, f)
    {
      IndexedBin(db, f);
      var k := db.index[f].dimIdx;
      OfDimOk(db, rs, k);
      var mine := OfDim(rs, db.dims[k]);
      BinsAreOk(db, k);
      DeferredBin(db, k, mine);
      ResidentIsKept(db.bins[k], Deferred(db, k, mine).db.bins[k], Deferred(db, k, mine).deferred, db.index[f].entryIdx);
    }
  }

  /** The features a batch asks for. */
  ghost function Features(rs: seq<Request>): set<nat> {
    set r | r in rs && Applies(r, r.feature) :: r.feature
  }

  lemma FeaturesAsked(rs: seq<Request>, f: nat)
    ensures f in Features(rs) <==> Asks(rs, f)
  {
    if Asks(rs, f) {
      var i :| 0 <= i < |rs| && Applies(rs[i], f);
      assert rs[i] in rs;
    }
  }

  ghost function Updated(v: map<nat, Bytes>, rs: seq<Request>): map<nat, Bytes> {
    map f | f in v.Keys + Features(rs) :: NewValue(v, rs, f)
  }

  ghost function NewValue(v: map<nat, Bytes>, rs: seq<Request>, f: nat): Bytes
    requires f in v.Keys + Features(rs)
  {
    FeaturesAsked(rs, f);
    if Asks(rs, f) then LastEmb(rs, f) else v[f]
  }

  /** A dim group adds only features it asks for. */
  lemma {:induction false} PutKeysDomain(start: Group, k: nat, rs: seq<Request>, f: nat)
    requires k < |start.db.bins|
    ensures f in PutKeys(start, k, rs).db.index ==> f in start.db.index || Asks(rs, f)
    decreases |rs|
  {
    if rs != [] {
      var s, r := rs[..|rs| - 1], rs[|rs| - 1];
      assert rs == s + [r];
      PutKeysDomain(start, k, s, f);
      LastEmbMore(s, r, f);
    }
  }

  lemma PutGroupDomain(db: DB, k: nat, rs: seq<Request>, status: Status, f: nat)
    requires GroupOk(db, k, rs)
    ensures f in PutGroup(db, k, rs, status).0.index ==> f in db.index || Asks(rs, f)
  {
    hide Owned, Shape, PutKeys, PutBatch;
    ReservedKeeps(db, k, |rs|);
    PutKeysDomain(Group(Reserved(db, k, |rs|), [], status), k, rs, f);
  }

  lemma {:induction false} PutGroupsDomain(db: DB, rs: seq<Request>, status: Status, f: nat)
    requires Inv(db) && RequestsOk(db.cfg, rs)
    ensures f in PutGroups(db, rs, status).0.index ==> f in db.index || Asks(rs, f)
    decreases |rs|
  {
    hide Inv, PutGroup, BinFor, OnlyBin;
    if rs != [] && (DimRegistries.IndexOf(db.dims, rs[0].dim) >= 0 || db.cfg.autoCreate) {
      var n := LeadRun(rs);
      assert EmbOk(db.cfg, rs[0]);
      BinForFacts(db, rs[0].dim);
      var (db1, k) := BinFor(db, rs[0].dim);
      PutGroupFacts(db1, k, rs[..n], status);
      var (db2, st) := PutGroup(db1, k, rs[..n], status);
      GroupDims(db1, db2, k);
      PutGroupDomain(db1, k, rs[..n], status, f);
      PutGroupsDomain(db2, rs[n..], st, f);
      assert rs == rs[..n] + rs[n..];
      LastEmbSplit(rs[..n], rs[n..], f);
    }
  }

  /** Databases alike in a bin and in where the features of a group are: the group does the same. */
  lemma {:induction false} SameGroup(a: DB, b: DB, k: nat, rs: seq<Request>, s: nat)
    requires GroupOk(a, k, rs) && GroupOk(b, k, rs) && a.bins[k] == b.bins[k]
    requires forall f :: Asks(rs, f) ==>
               (f in a.index <==> f in b.index) && (f in a.index ==> a.index[f] == b.index[f])
    ensures KeptByGroup(a, k, rs, s) <==> KeptByGroup(b, k, rs, s)
  {
    hide Owned, PutKeys, KeptInBin;
    ReservedKeeps(a, k, |rs|);
    ReservedKeeps(b, k, |rs|);
    forall f | f in Features(rs)
      ensures Asks(rs, f)
    {
      FeaturesAsked(rs, f);
    }
    forall i | 0 <= i < |rs| && Applies(rs[i], rs[i].feature)
      ensures rs[i].feature in Features(rs)
    {
      assert rs[i] in rs;
    }
    PutKeysAlike(Group(Reserved(a, k, |rs|), [], Success), Group(Reserved(b, k, |rs|), [], Success), k, Features(rs), rs);
  }

  lemma {:induction false} NoGroup(db: DB, k: nat, s: nat)
    requires GroupOk(db, k, [])
    ensures KeptByGroup(db, k, [], s)
  {
    hide Owned, KeptInBin;
    NothingTouched(Deferred(db, k, []).db.bins[k], s);
  }

  /** The requests for a dim, in a batch sorted by dim: the first group, or in the rest. */
  lemma {:induction false} DimOfFirst(rs: seq<Request>, dim: nat)
    requires rs != [] && InDimOrder(rs)
    ensures var n := LeadRun(rs);
            if dim == rs[0].dim then OfDim(rs, dim) == rs[..n] && OfDim(rs[n..], dim) == []
            else OfDim(rs, dim) == OfDim(rs[n..], dim)
  {
    var n := LeadRun(rs);
    LaterDims(rs);
    assert rs == rs[..n] + rs[n..];
    StableSort.WithKeyConcat(rs[..n], rs[n..], DimKey(), dim);
    if dim == rs[0].dim {
      StableSort.WithKeyAll(rs[..n], DimKey(), dim);
      StableSort.WithKeyNone(rs[n..], DimKey(), dim);
    } else {
      StableSort.WithKeyNone(rs[..n], DimKey(), dim);
    }
  }

  /** When a batch succeeds no feature is asked for with two dims. */
  lemma {:induction false} OneDimEach(r: DB, rs: seq<Request>, f: nat)
    requires rs != [] && InDimOrder(rs) && Shape(r) && AllBack(r, rs)
    ensures Asks(rs[..LeadRun(rs)], f) ==> !Asks(rs[LeadRun(rs)..], f)
  {
    hide BinOk, SizesOk, DimRegistries.Distinct, Read, LastEmb;
    var n := LeadRun(rs);
    LaterDims(rs);
    if Asks(rs[..n], f) {
      var i :| 0 <= i < n && Applies(rs[..n][i], f);
      assert rs[i] == rs[..n][i] && Asks(rs, f) && BackFor(r, rs, f);
      forall j | 0 <= j < |rs[n..]|
        ensures !Applies(rs[n..][j], f)
      {
        assert rs[n..][j] == rs[n + j] && rs[n..][j].dim != rs[0].dim;
      }
    }
  }

  /** Features of later groups are where they were before the first group. */
  lemma {:induction false} LaterIndex(db1: DB, db2: DB, r: DB, rs: seq<Request>, k: nat, status: Status, h: nat)
    requires rs != [] && InDimOrder(rs) && GroupOk(db1, k, rs[..LeadRun(rs)])
    requires db2 == PutGroup(db1, k, rs[..LeadRun(rs)], status).0 && OnlyBin(db1, db2, k)
    requires Inv(r) && AllBack(r, rs) && Asks(rs[LeadRun(rs)..], h)
    ensures (h in db1.index <==> h in db2.index) && (h in db1.index ==> db1.index[h] == db2.index[h])
  {
    hide Owned, AllBack, PutGroup, Asks;
    PutGroupDomain(db1, k, rs[..LeadRun(rs)], status, h);
    OneDimEach(r, rs, h);
  }

  /** The exact effect of the group loop on a feature it does not ask for. */
  lemma {:induction false} GroupsExact(db: DB, rs: seq<Request>, status: Status, f: nat)
    requires Inv(db) && RequestsOk(db.cfg, rs) && InDimOrder(rs) && f in db.index && !Asks(rs, f)
    requires PutGroups(db, rs, status).1 == Success
    ensures var r := PutGroups(db, rs, status).0; Inv(r) && f in r.index && Value(r, f) == Fate(db, rs, f)
    decreases |rs|
  {
    hide Inv, PutGroup, BinFor, OnlyBin, Value, InDimOrder, KeptByGroup;
    if rs == [] {
      IndexedBin(db, f);
      OfDimOk(db, [], db.index[f].dimIdx);
      NoGroup(db, db.index[f].dimIdx, db.index[f].entryIdx);
    } else {
      FirstGroupExact(db, rs, status, f);
    }
  }

  lemma {:induction false} FirstGroupExact(db: DB, rs: seq<Request>, status: Status, f: nat)
    requires Inv(db) && RequestsOk(db.cfg, rs) && InDimOrder(rs) && f in db.index && !Asks(rs, f)
    requires rs != [] && PutGroups(db, rs, status).1 == Success
    ensures var r := PutGroups(db, rs, status).0; Inv(r) && f in r.index && Value(r, f) == Fate(db, rs, f)
    decreases |rs|, 0
  {
    hide Inv, PutGroup, BinFor, OnlyBin, Value, InDimOrder, Asks, AllBack, Fate;
    var n := LeadRun(rs);
    assert EmbOk(db.cfg, rs[0]);
    BinForFacts(db, rs[0].dim);
    var (db1, k) := BinFor(db, rs[0].dim);
    PutGroupFacts(db1, k, rs[..n], status);
    var (db2, st) := PutGroup(db1, k, rs[..n], status);
    GroupDims(db1, db2, k);
    LaterDims(rs);
    assert rs == rs[..n] + rs[n..];
    LastEmbSplit(rs[..n], rs[n..], f);
    GrownIndex(db1, db2, k, f);
    GroupsExact(db2, rs[n..], st, f);
    PutGroupsFacts(db, rs, status);
    FateMore(db, db1, db2, PutGroups(db, rs, status).0, rs, k, status, f);
  }

  lemma GrownIndex(a: DB, b: DB, k: nat, f: nat)
    requires OnlyBin(a, b, k)
    ensures f in a.index ==> f in b.index && b.index[f] == a.index[f]
    ensures forall i :: 0 <= i < |a.bins| && i != k ==> i < |b.bins| && b.bins[i] == a.bins[i]
  {
  }

  /** The fate of a feature is decided by the group of its dim, whenever that group comes. */
  lemma {:induction false} FateMore(db: DB, db1: DB, db2: DB, r: DB, rs: seq<Request>, k: nat, status: Status, f: nat)
    requires Inv(db) && Inv(db1) && Inv(db2) && Inv(r) && RequestsOk(db.cfg, rs) && InDimOrder(rs) && rs != []
    requires rs[0].dim > 0 && (db1, k) == BinFor(db, rs[0].dim)
    requires GroupOk(db1, k, rs[..LeadRun(rs)]) && db2 == PutGroup(db1, k, rs[..LeadRun(rs)], status).0
    requires OnlyBin(db1, db2, k) && AllBack(r, rs) && RequestsOk(db2.cfg, rs[LeadRun(rs)..])
    requires f in db.index && f in db2.index && !Asks(rs[..LeadRun(rs)], f)
    ensures Fate(db2, rs[LeadRun(rs)..], f) == Fate(db, rs, f)
  {
    hide Inv, PutGroup, BinFor, OnlyBin, Value, InDimOrder, Asks, AllBack, KeptByGroup;
    var kf, n := db.index[f].dimIdx, LeadRun(rs);
    BinForFacts(db, rs[0].dim);
    IndexedBin(db, f);
    BinsAreOkInv(db, kf);
    GrownIndex(db1, db2, k, f);
    GroupDims(db1, db2, k);
    DimOfFirst(rs, db.dims[kf]);
    OfDimOk(db, rs, kf);
    OfDimOk(db2, rs[n..], kf);
    if kf == k {
      OwnGroup(db, db1, db2, rs, k, status, f);
    } else {
      OtherGroup(db, db1, db2, r, rs, k, status, f);
    }
  }

  lemma {:induction false} OwnGroup(db: DB, db1: DB, db2: DB, rs: seq<Request>, k: nat, status: Status, f: nat)
    requires Inv(db) && Inv(db1) && Inv(db2) && RequestsOk(db.cfg, rs) && InDimOrder(rs) && rs != []
    requires rs[0].dim > 0 && (db1, k) == BinFor(db, rs[0].dim) && k < |db.bins|
    requires GroupOk(db1, k, rs[..LeadRun(rs)]) && db2 == PutGroup(db1, k, rs[..LeadRun(rs)], status).0
    requires OnlyBin(db1, db2, k) && RequestsOk(db2.cfg, rs[LeadRun(rs)..])
    requires f in db.index && db.index[f].dimIdx == k && f in db2.index && !Asks(rs[..LeadRun(rs)], f)
    ensures Fate(db2, rs[LeadRun(rs)..], f) == Fate(db, rs, f)
  {
    hide Owned, PutGroup, OnlyBin, InDimOrder, Asks, KeptByGroup, BinOk, Read;
    SizesMatch(db);
    assert db1 == db;
    GrownIndex(db1, db2, k, f);
    GroupDims(db1, db2, k);
    DimOfFirst(rs, db.dims[k]);
    OfDimOk(db, rs, k);
    OfDimOk(db2, rs[LeadRun(rs)..], k);
    NoGroup(db2, k, db.index[f].entryIdx);
    PutGroupExact(db, k, rs[..LeadRun(rs)], status, f);
  }

  lemma {:induction false} OtherGroup(db: DB, db1: DB, db2: DB, r: DB, rs: seq<Request>, k: nat, status: Status, f: nat)
    requires Inv(db) && Inv(db1) && Inv(db2) && Inv(r) && RequestsOk(db.cfg, rs) && InDimOrder(rs) && rs != []
    requires rs[0].dim > 0 && (db1, k) == BinFor(db, rs[0].dim)
    requires GroupOk(db1, k, rs[..LeadRun(rs)]) && db2 == PutGroup(db1, k, rs[..LeadRun(rs)], status).0
    requires OnlyBin(db1, db2, k) && AllBack(r, rs) && RequestsOk(db2.cfg, rs[LeadRun(rs)..])
    requires f in db.index && db.index[f].dimIdx != k && f in db2.index
    ensures Fate(db2, rs[LeadRun(rs)..], f) == Fate(db, rs, f)
  {
    hide Inv, PutGroup, BinFor, OnlyBin, InDimOrder, Asks, AllBack, KeptByGroup;
    var kf, n := db.index[f].dimIdx, LeadRun(rs);
    BinForFacts(db, rs[0].dim);
    IndexedBin(db, f);
    BinsAreOkInv(db, kf);
    GrownIndex(db1, db2, k, f);
    GroupDims(db1, db2, k);
    SizesMatch(db1);
    NotFirstDim(db1, k, kf, rs[0].dim);
    DimOfFirst(rs, db.dims[kf]);
    var mine := OfDim(rs, db.dims[kf]);
    OfDimOk(db, rs, kf);
    OfDimOk(db2, rs[n..], kf);
    forall h | Asks(mine, h)
      ensures (h in db.index <==> h in db2.index) && (h in db.index ==> db.index[h] == db2.index[h])
    {
      AskedOfDim(rs[n..], db.dims[kf], h);
      LaterIndex(db1, db2, r, rs, k, status, h);
    }
    SameGroup(db, db2, kf, mine, db.index[f].entryIdx);
    BinsAreOkInv(db2, kf);
  }

  lemma NotFirstDim(db: DB, k: nat, j: nat, dim: nat)
    requires Inv(db) && k < |db.bins| && j < |db.bins| && j != k && |db.dims| == |db.bins| && db.dims[k] == dim
    ensures db.dims[j] != dim
  {
  }

  lemma AskedOfDim(rs: seq<Request>, dim: nat, h: nat)
    requires Asks(OfDim(rs, dim), h)
    ensures Asks(rs, h)
  {
    var mine := OfDim(rs, dim);
    var i :| 0 <= i < |mine| && Applies(mine[i], h);
    StableSort.WithKeyMembers(rs, DimKey(), dim, i);
  }

  lemma BinsAreOkInv(db: DB, k: nat)
    requires Inv(db) && k < |db.bins|
    ensures BinOk(db.bins[k]) && |db.bins| == |db.dims|
  {
  }

  lemma SortedAsks(rs: seq<Request>, f: nat)
    ensures Asks(StableSort.Sort(rs, DimKey()), f) <==> Asks(rs, f)
  {
    var s := StableSort.Sort(rs, DimKey());
    StableSort.SortMembers(rs, DimKey());
    if Asks(s, f) {
      var i :| 0 <= i < |s| && Applies(s[i], f);
      assert s[i] in s && s[i] in rs;
    }
    if Asks(rs, f) {
      var i :| 0 <= i < |rs| && Applies(rs[i], f);
      assert rs[i] in rs && rs[i] in s;
    }
  }

  /** The exact effect of a batch put that succeeds on a feature it does not ask for. */
  lemma {:induction false} BatchPutExact(db: DB, rs: seq<Request>, f: nat)
    requires Inv(db) && RequestsOk(db.cfg, rs) && f in db.index && !Asks(rs, f) && BatchPut(db, rs).1 == Success
    ensures var r := BatchPut(db, rs).0; Inv(r) && f in r.index && Value(r, f) == Fate(db, rs, f)
  {
    hide Inv, PutGroups, Value, KeptByGroup;
    var s := StableSort.Sort(rs, DimKey());
    SortedRequestsOk(db.cfg, rs);
    StableSort.SortFacts(rs, DimKey());
    SortedAsks(rs, f);
    assert InDimOrder(s);
    IndexedBin(db, f);
    BinsAreOkInv(db, db.index[f].dimIdx);
    StableSort.SortStable(rs, DimKey(), db.dims[db.index[f].dimIdx]);
    GroupsExact(db, s, Success, f);
  }

  lemma PutDomain(db: DB, rs: seq<Request>, f: nat)
    requires Inv(db) && RequestsOk(db.cfg, rs)
    ensures f in BatchPut(db, rs).0.index ==> f in db.index || Asks(rs, f)
  {
    hide Inv, PutGroups;
    SortedRequestsOk(db.cfg, rs);
    PutGroupsDomain(db, StableSort.Sort(rs, DimKey()), Success, f);
    SortedAsks(rs, f);
  }

  lemma BackIsValue(db: DB, rs: seq<Request>, f: nat)
    requires Inv(db) && Asks(rs, f) && BackFor(db, rs, f)
    ensures f in db.index && Value(db, f) == LastEmb(rs, f)
  {
  }

  /** A batch put that returns success is a map update exactly when it is safe. */
  lemma {:induction false} BatchPutIsUpdate(db: DB, rs: seq<Request>)
    requires Inv(db) && RequestsOk(db.cfg, rs) && BatchPut(db, rs).1 == Success
    ensures Inv(BatchPut(db, rs).0)
    ensures View(BatchPut(db, rs).0) == Updated(View(db), rs) <==> PutSafe(db, rs)
  {
    hide Inv, BatchPut, Value, KeptByPut, Asks, BackFor;
    BatchPutReadsBack(db, rs);
    var r, now := BatchPut(db, rs).0, Updated(View(db), rs);
    forall f: nat
      ensures f in View(r) <==> f in now
      ensures f in now && Asks(rs, f) ==> View(r)[f] == now[f]
      ensures f in now && !Asks(rs, f) ==> f in db.index && View(r)[f] == Fate(db, rs, f) && now[f] == Value(db, f)
    {
      FeaturesAsked(rs, f);
      PutDomain(db, rs, f);
      if Asks(rs, f) {
        BackIsValue(r, rs, f);
      } else if f in db.index {
        BatchPutExact(db, rs, f);
      }
    }
    if View(r) == now {
      forall f | f in db.index && !Asks(rs, f)
        ensures KeptByPut(db, rs, f) || IsZero(Value(db, f))
      {
        assert f in View(db) && f in now;
      }
    }
  }

  // ----- losses included -----

  ghost function LostByPut(db: DB, rs: seq<Request>): set<nat>
    requires Inv(db) && RequestsOk(db.cfg, rs)
  {
    set f | f in db.index && !Asks(rs, f) && !KeptByPut(db, rs, f)
  }

  ghost function Zeroed(v: map<nat, Bytes>, lost: set<nat>): map<nat, Bytes> {
    map f | f in v :: if f in lost then Zeros(|v[f]|) else v[f]
  }

  lemma {:induction false} PutOutcome(db: DB, rs: seq<Request>)
    requires Inv(db) && RequestsOk(db.cfg, rs) && BatchPut(db, rs).1 == Success
    ensures Inv(BatchPut(db, rs).0)
    ensures View(BatchPut(db, rs).0) == Updated(Zeroed(View(db), LostByPut(db, rs)), rs)
  {
    hide Inv, BatchPut, Value, KeptByPut, Asks, BackFor;
    BatchPutReadsBack(db, rs);
    var r, now := BatchPut(db, rs).0, Updated(Zeroed(View(db), LostByPut(db, rs)), rs);
    forall f: nat
      ensures f in View(r) <==> f in now
      ensures f in now ==> View(r)[f] == now[f]
    {
      FeaturesAsked(rs, f);
      PutDomain(db, rs, f);
      if Asks(rs, f) {
        BackIsValue(r, rs, f);
      } else if f in db.index {
        BatchPutExact(db, rs, f);
      }
    }
  }
}
