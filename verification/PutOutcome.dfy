/** What a batch put leaves whatever its status: the requests a group takes are written, features of
    other bins are left alone, and a new feature whose write is refused reads what its slot held. */
module PutOutcomes {
  import opened Pages
  import opened Arithmetic
  import opened PageCaches
  import opened Bins
  import opened Stores
  import opened Deletions
  import opened Puts
  import DimRegistries
  import HashIndexes
  import StableSort

  // ----- which requests of a group are heeded, and which of those are taken -----

  /** The request names a feature and an embedding, and the feature is in no other bin. */
  ghost predicate Heeds(index: map<nat, Place>, k: nat, r: Request) {
    Applies(r, r.feature) && (r.feature in index ==> index[r.feature].dimIdx == k)
  }

  ghost function Heeded(index: map<nat, Place>, k: nat, rs: seq<Request>): (hs: seq<Request>)
    ensures |hs| <= |rs|
  {
    if rs == [] then [] else
      Heeded(index, k, rs[..|rs| - 1]) + if Heeds(index, k, rs[|rs| - 1]) then [rs[|rs| - 1]] else []
  }

  /** The writes put off are those of the heeded requests, in order, each to its feature's slot. */
  ghost predicate Matched(gr: Group, k: nat, hs: seq<Request>) {
    && |gr.deferred| == |hs|
    && forall i :: 0 <= i < |hs| ==> MatchedAt(gr, k, hs, i)
  }

  ghost predicate MatchedAt(gr: Group, k: nat, hs: seq<Request>, i: nat)
    requires i < |hs| == |gr.deferred|
  {
    && Applies(hs[i], hs[i].feature) && hs[i].feature in gr.db.index
    && gr.db.index[hs[i].feature] == HashIndexes.Place(k, gr.deferred[i].id)
    && gr.deferred[i].data == hs[i].emb.value
  }

  lemma MatchedMore(gr: Group, n: Group, k: nat, hs: seq<Request>, r: Request)
    requires Matched(gr, k, hs) && Grows(gr.db.index, n.db.index) && Applies(r, r.feature)
    requires r.feature in n.db.index && n.db.index[r.feature].dimIdx == k
    requires n.deferred == gr.deferred + [Write(n.db.index[r.feature].entryIdx, r.emb.value)]
    ensures Matched(n, k, hs + [r])
  {
    forall i | 0 <= i < |hs + [r]|
      ensures MatchedAt(n, k, hs + [r], i)
    {
      if i < |hs| {
        assert MatchedAt(gr, k, hs, i);
      }
    }
  }

  /** What the key loop has done: the heeded requests are put off, and exactly their features are new. */
  ghost predicate Looped(start: Group, k: nat, hs: seq<Request>, gr: Group) {
    && k < |gr.db.bins| && Owned(gr.db) && Matched(gr, k, hs) && Grows(start.db.index, gr.db.index)
    && forall f :: f in gr.db.index ==> f in start.db.index || Asks(hs, f)
  }

  lemma HeedsLater(start: Group, k: nat, hs: seq<Request>, gr: Group, r: Request)
    requires Looped(start, k, hs, gr)
    ensures Heeds(start.db.index, k, r) <==> Heeds(gr.db.index, k, r)
  {
    var f := r.feature;
    if f in gr.db.index && f !in start.db.index {
      var i :| 0 <= i < |hs| && Applies(hs[i], f);
      assert MatchedAt(gr, k, hs, i);
    }
  }

  lemma LoopedMore(start: Group, k: nat, hs: seq<Request>, gr: Group, r: Request)
    requires Looped(start, k, hs, gr)
    ensures Looped(start, k, if Heeds(start.db.index, k, r) then hs + [r] else hs, PutKey(gr, k, r))
  {
    hide Owned, Matched, PutKey, Asks;
    HeedsLater(start, k, hs, gr, r);
    var n := PutKey(gr, k, r);
    if Heeds(gr.db.index, k, r) {
      PutKeyApplies(gr, k, r);
      PutKeyOwns(gr, k, r);
      MatchedMore(gr, n, k, hs, r);
      forall f | f in n.db.index
        ensures f in start.db.index || Asks(hs + [r], f)
      {
        LastEmbMore(hs, r, f);
      }
    } else {
      PutKeySkips(gr, k, r);
      MatchedStill(gr, n, k, hs);
    }
  }

  lemma MatchedStill(gr: Group, n: Group, k: nat, hs: seq<Request>)
    requires n.db == gr.db && n.deferred == gr.deferred && Matched(gr, k, hs)
    ensures Matched(n, k, hs)
  {
    forall i | 0 <= i < |hs|
      ensures MatchedAt(n, k, hs, i)
    {
      assert MatchedAt(gr, k, hs, i);
    }
  }

  lemma {:induction false} PutKeysLooped(start: Group, k: nat, rs: seq<Request>)
    requires Owned(start.db) && k < |start.db.bins| && start.deferred == []
    ensures Looped(start, k, Heeded(start.db.index, k, rs), PutKeys(start, k, rs))
    decreases |rs|
  {
    hide Looped, Heeds;
    if rs == [] {
      NothingLooped(start, k);
    } else {
      PutKeysLooped(start, k, rs[..|rs| - 1]);
      LoopedMore(start, k, Heeded(start.db.index, k, rs[..|rs| - 1]), PutKeys(start, k, rs[..|rs| - 1]), rs[|rs| - 1]);
      assert Heeded(start.db.index, k, rs[..|rs| - 1]) + [] == Heeded(start.db.index, k, rs[..|rs| - 1]);
    }
  }

  lemma NothingLooped(start: Group, k: nat)
    requires Owned(start.db) && k < |start.db.bins| && start.deferred == []
    ensures Looped(start, k, [], start)
  {
  }

  /** The first `n` writes, and the first `n` heeded requests: the same features, the same last data. */
  lemma {:induction false} PrefixMatches(gr: Group, k: nat, hs: seq<Request>, n: nat, f: nat)
    requires Owned(gr.db) && Matched(gr, k, hs) && n <= |hs| && f in gr.db.index && gr.db.index[f].dimIdx == k
    ensures var done, s := gr.deferred[..n], gr.db.index[f].entryIdx;
            && (Names(done, s) <==> Asks(hs[..n], f))
            && (Asks(hs[..n], f) ==> LastData(done, s) == LastEmb(hs[..n], f))
    decreases n
  {
    hide Names, LastData, Asks, LastEmb, Owned;
    if n == 0 {
      NoneNamed(f, gr.db.index[f].entryIdx);
      assert gr.deferred[..0] == [] && hs[..0] == [];
    } else {
      PrefixMatches(gr, k, hs, n - 1, f);
      assert gr.deferred[..n] == gr.deferred[..n - 1] + [gr.deferred[n - 1]];
      assert hs[..n] == hs[..n - 1] + [hs[n - 1]];
      LastDataMore(gr.deferred[..n - 1], gr.deferred[n - 1], gr.db.index[f].entryIdx);
      LastEmbMore(hs[..n - 1], hs[n - 1], f);
      assert MatchedAt(gr, k, hs, n - 1);
      if hs[n - 1].feature != f {
        OwnersDiffer(gr.db, f, hs[n - 1].feature);
      }
    }
  }

  lemma NoneNamed(f: nat, s: nat)
    ensures !Names([], s) && !Asks([], f)
  {
  }

  // ----- the outcome of a group -----

  /** How many of the writes a bin takes: during a checkpoint, what its overlay has room for. */
  ghost function TakenCount(b: Bin, ws: seq<Write>): (n: nat)
    ensures n <= |ws|
  {
    if b.inCkpt then Accepted(b, ws) else |ws|
  }

  /** The requests of a group that are written. */
  ghost function TakenBy(db: DB, k: nat, rs: seq<Request>): seq<Request>
    requires GroupOk(db, k, rs)
  {
    var gr := Deferred(db, k, rs);
    DeferredLooped(db, k, rs);
    Heeded(db.index, k, rs)[..TakenCount(gr.db.bins[k], gr.deferred)]
  }

  lemma DeferredLooped(db: DB, k: nat, rs: seq<Request>)
    requires GroupOk(db, k, rs)
    ensures Looped(Group(db, [], Success), k, Heeded(db.index, k, rs), Deferred(db, k, rs))
    ensures Inv(Deferred(db, k, rs).db) && Fits(db.bins[k].cache.g, Deferred(db, k, rs).deferred)
  {
    hide Shape, Owned, Looped, PutKeys, OnlySlots;
    ReservedKeeps(db, k, |rs|);
    var start := Group(Reserved(db, k, |rs|), [], Success);
    SameBins(db, start.db, k);
    PutKeysFacts(start, k, rs);
    PutKeysLooped(start, k, rs);
    LoopedFrom(db, start, k, Heeded(db.index, k, rs), Deferred(db, k, rs));
  }

  lemma LoopedFrom(db: DB, start: Group, k: nat, hs: seq<Request>, gr: Group)
    requires start.db.index == db.index && Looped(start, k, hs, gr)
    ensures Looped(Group(db, [], Success), k, hs, gr)
  {
    hide Owned;
  }

  /** What feature `f` reads after the group, if it read `v[f]` before. */
  ghost function GroupValue(db: DB, k: nat, rs: seq<Request>, v: map<nat, Bytes>, f: nat): Bytes
    requires GroupOk(db, k, rs) && f in v.Keys + Features(Heeded(db.index, k, rs))
  {
    var taken, index := TakenBy(db, k, rs), Deferred(db, k, rs).db.index;
    if Asks(taken, f) then LastEmb(taken, f)
    else if f in index && index[f].dimIdx == k && !KeptByGroup(db, k, rs, index[f].entryIdx) then
      Zeros(db.bins[k].cache.g.entrySize)
    else if f in v then v[f]
    else
      HeededIsPlaced(db, k, rs, f);
      BinsAreOk(db, k);
      Read(db.bins[k], index[f].entryIdx)
  }

  lemma HeededIsPlaced(db: DB, k: nat, rs: seq<Request>, f: nat)
    requires GroupOk(db, k, rs) && f in Features(Heeded(db.index, k, rs))
    ensures f in Deferred(db, k, rs).db.index && Deferred(db, k, rs).db.index[f].dimIdx == k
  {
    hide Owned, Shape, Deferred;
    DeferredLooped(db, k, rs);
    var hs := Heeded(db.index, k, rs);
    var r :| r in hs && Applies(r, r.feature) && r.feature == f;
    var i :| 0 <= i < |hs| && hs[i] == r;
    assert MatchedAt(Deferred(db, k, rs), k, hs, i);
  }

  /** The view after the group, in terms of the view before. */
  ghost function GroupOutcome(db: DB, k: nat, rs: seq<Request>, v: map<nat, Bytes>): map<nat, Bytes>
    requires GroupOk(db, k, rs)
  {
    map f | f in v.Keys + Features(Heeded(db.index, k, rs)) :: GroupValue(db, k, rs, v, f)
  }

  /** The status a loop starts from is carried along, and decides nothing. */
  lemma {:induction false} StatusOnly(gr: Group, k: nat, rs: seq<Request>, status: Status)
    requires k < |gr.db.bins|
    ensures var n, m := PutKeys(gr, k, rs), PutKeys(gr.(status := status), k, rs);
            m.db == n.db && m.deferred == n.deferred
    decreases |rs|
  {
    if rs != [] {
      StatusOnly(gr, k, rs[..|rs| - 1], status);
    }
  }

  /** A batch of writes, taken in full or not. */
  lemma PutBatchAny(b: Bin, ws: seq<Write>, s: nat)
    requires BinOk(b) && Fits(b.cache.g, ws)
    ensures BinOk(PutBatch(b, ws).0)
    ensures var done := ws[..TakenCount(b, ws)];
            Read(PutBatch(b, ws).0, s) ==
              if Names(done, s) then LastData(done, s)
              else if KeptInBin(b, ws, s) then Read(b, s) else Zeros(b.cache.g.entrySize)
  {
    hide Kept, Touched;
    PutBatchReads(b, ws, s);
    assert ws[..|ws|] == ws;
  }

  /** The database after a group: the index of the key loop, and the bin after the writes. */
  lemma PutGroupParts(db: DB, k: nat, rs: seq<Request>, status: Status)
    requires GroupOk(db, k, rs)
    ensures var r, gr := PutGroup(db, k, rs, status).0, Deferred(db, k, rs);
            && Fits(gr.db.bins[k].cache.g, gr.deferred) && gr.db.bins[k].cache.g == db.bins[k].cache.g
            && r == if gr.deferred == [] then gr.db
                    else gr.db.(bins := gr.db.bins[k := PutBatch(gr.db.bins[k], gr.deferred).0])
  {
    hide Owned, PutKeys, PutBatch, BinOk, DimRegistries.Distinct;
    ReservedKeeps(db, k, |rs|);
    var start := Group(Reserved(db, k, |rs|), [], Success);
    StatusOnly(start, k, rs, status);
    DeferredBin(db, k, rs);
    DeferredLooped(db, k, rs);
  }

  /** What slot `s` of the bin reads after the group. */
  lemma GroupSlot(db: DB, k: nat, rs: seq<Request>, status: Status, s: nat)
    requires GroupOk(db, k, rs)
    ensures var r, gr := PutGroup(db, k, rs, status).0, Deferred(db, k, rs);
            var done := gr.deferred[..TakenCount(gr.db.bins[k], gr.deferred)];
            && k < |r.bins| && BinOk(r.bins[k]) && BinOk(db.bins[k])
            && Read(r.bins[k], s) ==
                 if Names(done, s) then LastData(done, s)
                 else if KeptByGroup(db, k, rs, s) then Read(db.bins[k], s) else Zeros(db.bins[k].cache.g.entrySize)
  {
    hide Inv, PutBatch, BinOk, KeptInBin, Read, PutGroup, Deferred, Names;
    var gr := Deferred(db, k, rs);
    PutGroupParts(db, k, rs, status);
    BinsAreOkInv(db, k);
    DeferredBin(db, k, rs);
    SameRead(db.bins[k], gr.db.bins[k], s);
    if gr.deferred != [] {
      PutBatchAny(gr.db.bins[k], gr.deferred, s);
    } else {
      NothingTouched(gr.db.bins[k], s);
      NoneNamed(0, s);
    }
  }

  /** A feature of the bin after the group. */
  lemma GroupFeature(db: DB, k: nat, rs: seq<Request>, status: Status, f: nat)
    requires GroupOk(db, k, rs)
    requires var r := PutGroup(db, k, rs, status).0; Inv(r) && f in r.index && r.index[f].dimIdx == k
    ensures f in View(db).Keys + Features(Heeded(db.index, k, rs))
    ensures Value(PutGroup(db, k, rs, status).0, f) == GroupValue(db, k, rs, View(db), f)
  {
    hide Inv, PutGroup, Deferred, Read, KeptByGroup, Names, LastData, Asks, LastEmb, Features, Matched;
    var r, gr, hs := PutGroup(db, k, rs, status).0, Deferred(db, k, rs), Heeded(db.index, k, rs);
    PutGroupParts(db, k, rs, status);
    DeferredLooped(db, k, rs);
    FeaturesAsked(hs, f);
    GroupSlot(db, k, rs, status, r.index[f].entryIdx);
    MatchedOwned(gr, k, hs);
    PrefixMatches(gr, k, hs, TakenCount(gr.db.bins[k], gr.deferred), f);
  }

  lemma MatchedOwned(gr: Group, k: nat, hs: seq<Request>)
    requires Inv(gr.db) && Matched(gr, k, hs)
    ensures Owned(gr.db) && |gr.deferred| == |hs|
  {
  }

  /** A feature of another bin is left alone. */
  lemma OtherFeature(db: DB, k: nat, rs: seq<Request>, status: Status, f: nat)
    requires GroupOk(db, k, rs)
    requires var r := PutGroup(db, k, rs, status).0; Inv(r) && OnlyBin(db, r, k) && f in r.index && r.index[f].dimIdx != k
    ensures f in View(db)
    ensures Value(PutGroup(db, k, rs, status).0, f) == GroupValue(db, k, rs, View(db), f)
  {
    hide Inv, PutGroup, Deferred, Read, Asks, OnlyBin, GroupValue, Features, PutBatch, BinOk;
    PutGroupParts(db, k, rs, status);
    OtherValue(db, k, rs, f);
    GrownIndex(db, PutGroup(db, k, rs, status).0, k, f);
    IndexedBin(db, f);
  }

  lemma OtherValue(db: DB, k: nat, rs: seq<Request>, f: nat)
    requires GroupOk(db, k, rs) && f in Deferred(db, k, rs).db.index && Deferred(db, k, rs).db.index[f].dimIdx != k
    ensures f in db.index && GroupValue(db, k, rs, View(db), f) == Value(db, f)
  {
    hide Inv, Deferred, Asks, LastEmb, Matched, KeptByGroup, Value;
    DeferredLooped(db, k, rs);
    MatchedOwned(Deferred(db, k, rs), k, Heeded(db.index, k, rs));
    NotHeeded(Deferred(db, k, rs), k, Heeded(db.index, k, rs), TakenBy(db, k, rs), f);
  }

  lemma NotHeeded(gr: Group, k: nat, hs: seq<Request>, taken: seq<Request>, f: nat)
    requires Matched(gr, k, hs) && taken <= hs && f in gr.db.index && gr.db.index[f].dimIdx != k
    ensures !Asks(hs, f) && !Asks(taken, f)
  {
    forall i | 0 <= i < |hs|
      ensures hs[i].feature != f
    {
      assert MatchedAt(gr, k, hs, i);
    }
  }

  /** The exact effect of a group on every feature, whatever its status. */
  lemma GroupIsOutcome(db: DB, k: nat, rs: seq<Request>, status: Status)
    requires GroupOk(db, k, rs)
    ensures var r := PutGroup(db, k, rs, status).0; Inv(r) && View(r) == GroupOutcome(db, k, rs, View(db))
  {
    hide Inv, PutGroup, Deferred, GroupValue, Value, OnlyBin, Features;
    PutGroupFacts(db, k, rs, status);
    var r := PutGroup(db, k, rs, status).0;
    forall f | f in r.index
      ensures f in View(db).Keys + Features(Heeded(db.index, k, rs))
      ensures Value(r, f) == GroupValue(db, k, rs, View(db), f)
    {
      if r.index[f].dimIdx == k {
        GroupFeature(db, k, rs, status, f);
      } else {
        OtherFeature(db, k, rs, status, f);
      }
    }
    PutGroupParts(db, k, rs, status);
    forall f | f in View(db).Keys + Features(Heeded(db.index, k, rs))
      ensures f in r.index
    {
      GrownIndex(db, r, k, f);
      if f in Features(Heeded(db.index, k, rs)) {
        HeededIsPlaced(db, k, rs, f);
      }
    }
  }

  // ----- the outcome of a batch -----

  /** The groups of a batch sorted by dim, one after the other, up to a dim that has no bin and may
      not be given one. */
  ghost function GroupsOutcome(db: DB, rs: seq<Request>, v: map<nat, Bytes>): map<nat, Bytes>
    requires Inv(db) && RequestsOk(db.cfg, rs)
    decreases |rs|
  {
    if rs == [] || (DimRegistries.IndexOf(db.dims, rs[0].dim) < 0 && !db.cfg.autoCreate) then v
    else
      var n := LeadRun(rs);
      assert EmbOk(db.cfg, rs[0]);
      BinForFacts(db, rs[0].dim);
      var (db1, k) := BinFor(db, rs[0].dim);
      PutGroupFacts(db1, k, rs[..n], Success);
      GroupsOutcome(PutGroup(db1, k, rs[..n], Success).0, rs[n..], GroupOutcome(db1, k, rs[..n], v))
  }

  ghost function BatchOutcome(db: DB, rs: seq<Request>, v: map<nat, Bytes>): map<nat, Bytes>
    requires Inv(db) && RequestsOk(db.cfg, rs)
  {
    SortedRequestsOk(db.cfg, rs);
    GroupsOutcome(db, StableSort.Sort(rs, DimKey()), v)
  }

  /** A group does the same whatever status it starts from. */
  lemma SameWhateverStatus(db: DB, k: nat, rs: seq<Request>, status: Status)
    requires GroupOk(db, k, rs)
    ensures PutGroup(db, k, rs, status).0 == PutGroup(db, k, rs, Success).0
  {
    hide Inv, PutGroup, PutBatch, Deferred, BinOk;
    PutGroupParts(db, k, rs, status);
    PutGroupParts(db, k, rs, Success);
  }

  lemma BinForView(db: DB, dim: nat)
    requires Inv(db) && dim > 0
    ensures Inv(BinFor(db, dim).0) && View(BinFor(db, dim).0) == View(db)
  {
    hide Inv, BinFor, Read;
    BinForFacts(db, dim);
    var r := BinFor(db, dim).0;
    forall f | f in db.index
      ensures Value(r, f) == Value(db, f)
    {
      IndexedBin(db, f);
    }
  }

  lemma {:induction false} GroupsAreOutcome(db: DB, rs: seq<Request>, status: Status)
    requires Inv(db) && RequestsOk(db.cfg, rs)
    ensures var r := PutGroups(db, rs, status).0; Inv(r) && View(r) == GroupsOutcome(db, rs, View(db))
    decreases |rs|
  {
    hide Inv, PutGroup, BinFor, OnlyBin, View, GroupOutcome;
    if rs != [] && (DimRegistries.IndexOf(db.dims, rs[0].dim) >= 0 || db.cfg.autoCreate) {
      var n := LeadRun(rs);
      assert EmbOk(db.cfg, rs[0]);
      BinForFacts(db, rs[0].dim);
      BinForView(db, rs[0].dim);
      var (db1, k) := BinFor(db, rs[0].dim);
      PutGroupFacts(db1, k, rs[..n], status);
      SameWhateverStatus(db1, k, rs[..n], status);
      var (db2, st) := PutGroup(db1, k, rs[..n], status);
      GroupDims(db1, db2, k);
      GroupIsOutcome(db1, k, rs[..n], Success);
      GroupsAreOutcome(db2, rs[n..], st);
    }
  }

  /** Every batch put, whatever its status, leaves exactly its outcome. */
  lemma BatchIsOutcome(db: DB, rs: seq<Request>)
    requires Inv(db) && RequestsOk(db.cfg, rs)
    ensures Inv(BatchPut(db, rs).0) && View(BatchPut(db, rs).0) == BatchOutcome(db, rs, View(db))
  {
    hide Inv, PutGroups, View, GroupsOutcome;
    SortedRequestsOk(db.cfg, rs);
    GroupsAreOutcome(db, StableSort.Sort(rs, DimKey()), Success);
  }

  // ----- features on full pages -----

  /** The feature's page lies wholly below the bump pointer of its bin, and begins inside its file. */
  ghost predicate IsSafe(db: DB, f: nat)
    requires Inv(db) && f in db.index
  {
    IndexedBin(db, f);
    OnFullPage(db.bins[db.index[f].dimIdx], db.index[f].entryIdx)
  }

  lemma FullIsKept(db: DB, k: nat, rs: seq<Request>, s: nat)
    requires GroupOk(db, k, rs) && BinOk(db.bins[k]) && OnFullPage(db.bins[k], s)
    ensures KeptByGroup(db, k, rs, s)
  {
    hide Inv, Deferred, KeptInBin, FullPage, Reloads, Flushless, Touched;
    DeferredBin(db, k, rs);
    FullPageReloads(db.bins[k], s / db.bins[k].cache.g.epp);
    ResidentIsKept(db.bins[k], Deferred(db, k, rs).db.bins[k], Deferred(db, k, rs).deferred, s);
  }

  /** A group takes no slot back and shortens no file. */
  lemma GroupGrows(db: DB, k: nat, rs: seq<Request>, status: Status)
    requires GroupOk(db, k, rs)
    ensures var r := PutGroup(db, k, rs, status).0;
            && k < |r.bins| && r.bins[k].cache.g == db.bins[k].cache.g
            && db.bins[k].bump <= r.bins[k].bump && db.bins[k].dataSize <= r.bins[k].dataSize
  {
    hide Inv, Deferred, PutGroup, BinOk, PutSorted, Accepted, Overlaid, TouchedPages;
    PutGroupParts(db, k, rs, status);
    DeferredBin(db, k, rs);
  }

  lemma FullStays(a: Bin, b: Bin, s: nat)
    requires OnFullPage(a, s) && b.cache.g == a.cache.g && a.bump <= b.bump && a.dataSize <= b.dataSize
    ensures OnFullPage(b, s)
  {
  }

  lemma GroupKeepsFull(db: DB, k: nat, rs: seq<Request>, status: Status, f: nat)
    requires GroupOk(db, k, rs) && f in db.index && !Asks(rs, f) && IsSafe(db, f)
    ensures var r := PutGroup(db, k, rs, status).0;
            Inv(r) && f in r.index && Value(r, f) == Value(db, f) && IsSafe(r, f)
  {
    hide Inv, PutGroup, Asks, OnFullPage, KeptByGroup, Read, OnlyBin;
    PutGroupFacts(db, k, rs, status);
    var r := PutGroup(db, k, rs, status).0;
    GrownIndex(db, r, k, f);
    IndexedBin(db, f);
    IndexedBin(r, f);
    BinsAreOkInv(db, k);
    GroupDims(db, r, k);
    if db.index[f].dimIdx == k {
      var s := db.index[f].entryIdx;
      GroupGrows(db, k, rs, status);
      PutGroupExact(db, k, rs, status, f);
      FullIsKept(db, k, rs, s);
      FullStays(db.bins[k], r.bins[k], s);
    }
  }

  lemma BinForKeepsFull(db: DB, dim: nat, f: nat)
    requires Inv(db) && dim > 0 && f in db.index && IsSafe(db, f)
    ensures var r := BinFor(db, dim).0; Inv(r) && f in r.index && Value(r, f) == Value(db, f) && IsSafe(r, f)
  {
    hide Inv, BinFor, OnFullPage, Read;
    BinForFacts(db, dim);
    IndexedBin(db, f);
  }

  lemma {:induction false} GroupsKeepFull(db: DB, rs: seq<Request>, status: Status, f: nat)
    requires Inv(db) && RequestsOk(db.cfg, rs) && f in db.index && !Asks(rs, f) && IsSafe(db, f)
    ensures var r := PutGroups(db, rs, status).0; Inv(r) && f in r.index && Value(r, f) == Value(db, f) && IsSafe(r, f)
    decreases |rs|
  {
    hide Inv, PutGroup, BinFor, OnlyBin, Value, IsSafe, Asks;
    if rs != [] && (DimRegistries.IndexOf(db.dims, rs[0].dim) >= 0 || db.cfg.autoCreate) {
      var n := LeadRun(rs);
      assert EmbOk(db.cfg, rs[0]);
      BinForFacts(db, rs[0].dim);
      BinForKeepsFull(db, rs[0].dim, f);
      var (db1, k) := BinFor(db, rs[0].dim);
      PutGroupFacts(db1, k, rs[..n], status);
      var (db2, st) := PutGroup(db1, k, rs[..n], status);
      GroupDims(db1, db2, k);
      assert rs == rs[..n] + rs[n..];
      LastEmbSplit(rs[..n], rs[n..], f);
      GroupKeepsFull(db1, k, rs[..n], status, f);
      GroupsKeepFull(db2, rs[n..], st, f);
    }
  }

  /** A put, whatever its status, leaves a feature it does not name as it was, if the feature's page is
      wholly below the bump pointer and begins inside the data file. */
  lemma FullPagesAreSafe(db: DB, rs: seq<Request>, f: nat)
    requires Inv(db) && RequestsOk(db.cfg, rs) && f in db.index && !Asks(rs, f) && IsSafe(db, f)
    ensures var r := BatchPut(db, rs).0; Inv(r) && f in r.index && Value(r, f) == Value(db, f) && IsSafe(r, f)
  {
    hide Inv, PutGroups, Value, IsSafe, Asks;
    SortedRequestsOk(db.cfg, rs);
    SortedAsks(rs, f);
    GroupsKeepFull(db, StableSort.Sort(rs, DimKey()), Success, f);
  }

  // ----- the bins a put leaves and creates -----

  /** What no put changes in a bin. */
  ghost predicate SameSettings(a: Bin, b: Bin) {
    && SameForm(a, b) && b.budget == a.budget && b.generation == a.generation && b.inCkpt == a.inCkpt
    && b.frozen == a.frozen && b.tombs == a.tombs
  }

  /** The bin made for dim number `i`: the configured overlay budget, generation 0, and a share of the
      write buffer of 4 MB at least. */
  ghost predicate MadeFor(b: Bin, cfg: Config, dim: nat, i: nat) {
    && b.budget == cfg.overlayBudget && b.generation == 0 && b.vector == 4 * dim && !b.inCkpt
    && b.frozen == {} && b.tombs == []
    && var share := EqualShare(cfg, i + 1);
       FillsBuffer(b.cache.maxPages, if share < 4194304 then 4194304 else share, b.cache.g.pageSize)
  }

  lemma NewBinMade(db: DB, dim: nat)
    requires dim > 0 && |db.bins| == |db.dims|
    ensures var r := CreateBin(db, dim); MadeFor(r.bins[|db.bins|], db.cfg, dim, |db.bins|)
  {
    hide FillsBuffer, MaxPages;
    var share := BufferSize(db.cfg) / (|db.dims| + 1);
    PagesFill(if share < 4194304 then 4194304 else share, GeometryFor(db.cfg, dim).pageSize);
  }

  lemma MadeStill(a: Bin, b: Bin, cfg: Config, dim: nat, i: nat)
    requires MadeFor(a, cfg, dim, i) && SameSettings(a, b)
    ensures MadeFor(b, cfg, dim, i)
  {
    hide FillsBuffer;
  }

  lemma GroupSettings(db: DB, k: nat, rs: seq<Request>, status: Status, i: nat)
    requires GroupOk(db, k, rs) && i < |db.bins|
    ensures var r := PutGroup(db, k, rs, status).0; |r.bins| == |db.bins| && SameSettings(db.bins[i], r.bins[i])
  {
    hide Inv, Deferred, PutGroup, BinOk, Accepted, Overlaid, TouchedPages, OnlyBin;
    PutGroupFacts(db, k, rs, status);
    GrownIndex(db, PutGroup(db, k, rs, status).0, k, 0);
    GroupDims(db, PutGroup(db, k, rs, status).0, k);
    PutGroupParts(db, k, rs, status);
    DeferredBin(db, k, rs);
  }

  /** Bin `i` after a put: its settings are what they were, or what a new bin is given. */
  ghost predicate BinAfterPut(db: DB, r: DB, i: nat) {
    && |db.bins| == |db.dims| && |r.bins| == |r.dims| && i < |r.bins| && db.dims <= r.dims
    && if i < |db.bins| then SameSettings(db.bins[i], r.bins[i]) else MadeFor(r.bins[i], db.cfg, r.dims[i], i)
  }

  lemma {:induction false} GroupsSettings(db: DB, rs: seq<Request>, status: Status, i: nat)
    requires Inv(db) && RequestsOk(db.cfg, rs) && i < |PutGroups(db, rs, status).0.bins|
    ensures BinAfterPut(db, PutGroups(db, rs, status).0, i)
    decreases |rs|
  {
    hide Inv, PutGroup, BinFor, OnlyBin, MadeFor, SameSettings;
    SizesMatch(db);
    SameAgain(if i < |db.bins| then db.bins[i] else NewBin(db.cfg, 1, 0));
    if rs != [] && (DimRegistries.IndexOf(db.dims, rs[0].dim) >= 0 || db.cfg.autoCreate) {
      var n := LeadRun(rs);
      assert EmbOk(db.cfg, rs[0]);
      BinForFacts(db, rs[0].dim);
      var (db1, k) := BinFor(db, rs[0].dim);
      PutGroupFacts(db1, k, rs[..n], status);
      var (db2, st) := PutGroup(db1, k, rs[..n], status);
      GroupDims(db1, db2, k);
      SizesMatch(db1);
      GroupsSettings(db2, rs[n..], st, i);
      FirstSettings(db, db1, db2, k, rs, n, status, PutGroups(db2, rs[n..], st).0, i);
    }
  }

  lemma SameAgain(a: Bin)
    ensures SameSettings(a, a)
  {
  }

  lemma SameOn(a: Bin, b: Bin, c: Bin)
    requires SameSettings(a, b) && SameSettings(b, c)
    ensures SameSettings(a, c)
  {
  }

  lemma FirstSettings(db: DB, db1: DB, db2: DB, k: nat, rs: seq<Request>, n: nat, status: Status, r: DB, i: nat)
    requires Inv(db) && |db.bins| == |db.dims| && |db1.bins| == |db1.dims| && n <= |rs| && rs != [] && rs[0].dim > 0
    requires (db1, k) == BinFor(db, rs[0].dim) && db.bins <= db1.bins && GroupOk(db1, k, rs[..n])
    requires db2 == PutGroup(db1, k, rs[..n], status).0 && db2.cfg == db.cfg && db.dims <= db1.dims == db2.dims
    requires BinAfterPut(db2, r, i)
    ensures BinAfterPut(db, r, i)
  {
    hide Inv, PutGroup, MadeFor, SameSettings;
    if i < |db1.bins| {
      GroupSettings(db1, k, rs[..n], status, i);
      SameOn(db1.bins[i], db2.bins[i], r.bins[i]);
      if i >= |db.bins| {
        NewBinMade(db, rs[0].dim);
        MadeStill(db1.bins[i], r.bins[i], db.cfg, r.dims[i], i);
      }
    }
  }

  /** The bins a put leaves: those there were keep their settings; a new one has the configured overlay
      budget, generation 0, and its share of the write buffer. */
  lemma BinsOfPut(db: DB, rs: seq<Request>, i: nat)
    requires Inv(db) && RequestsOk(db.cfg, rs) && i < |BatchPut(db, rs).0.bins|
    ensures BinAfterPut(db, BatchPut(db, rs).0, i)
  {
    hide Inv, PutGroups, BinAfterPut;
    SortedRequestsOk(db.cfg, rs);
    GroupsSettings(db, StableSort.Sort(rs, DimKey()), Success, i);
  }

  // ----- how a group enlarges the files -----

  /** Both files have room for `n` slots. */
  ghost predicate RoomForAll(b: Bin, n: nat) {
    n * b.cache.g.entrySize <= b.dataSize && n * 8 <= b.keySize
  }

  lemma AllocInRoom(b: Bin, n: nat)
    requires RoomForAll(b, n) && b.bump < n
    ensures var c := Alloc(b).0; c.dataSize == b.dataSize && c.keySize == b.keySize && b.bump <= c.bump <= b.bump + 1
  {
    MulMono(b.bump + 1, n, b.cache.g.entrySize);
  }

  lemma KeyInRoom(gr: Group, k: nat, r: Request, n: nat)
    requires k < |gr.db.bins| && RoomForAll(gr.db.bins[k], n) && gr.db.bins[k].bump < n
    ensures var b, c := gr.db.bins[k], PutKey(gr, k, r).db.bins[k];
            && c.dataSize == b.dataSize && c.keySize == b.keySize && c.cache == b.cache && b.bump <= c.bump <= b.bump + 1
  {
    hide Alloc, RoomForAll;
    AllocInRoom(gr.db.bins[k], n);
    AllocCache(gr.db.bins[k]);
  }

  lemma AllocCache(b: Bin)
    ensures Alloc(b).0.cache == b.cache
  {
  }

  /** With room for one slot a request, handing out slots never enlarges a file. */
  lemma {:induction false} KeysInRoom(start: Group, k: nat, rs: seq<Request>, n: nat)
    requires k < |start.db.bins| && RoomForAll(start.db.bins[k], n) && start.db.bins[k].bump + |rs| <= n
    ensures var b, c := start.db.bins[k], PutKeys(start, k, rs).db.bins[k];
            && c.dataSize == b.dataSize && c.keySize == b.keySize && c.cache == b.cache && c.bump <= b.bump + |rs|
    decreases |rs|
  {
    hide PutKey;
    if rs != [] {
      KeysInRoom(start, k, rs[..|rs| - 1], n);
      KeyInRoom(PutKeys(start, k, rs[..|rs| - 1]), k, rs[|rs| - 1], n);
    }
  }

  /** Both files were enlarged for `n` slots: doubled just often enough, from 256 pages and from 8192
      bytes if they were empty. */
  ghost predicate MadeRoom(b: Bin, n: nat, c: Bin) {
    && Enlarged(b.dataSize, 256 * b.cache.g.pageSize, n * b.cache.g.entrySize, c.dataSize)
    && Enlarged(b.keySize, 8192, n * 8, c.keySize)
  }

  lemma ReserveRoom(b: Bin, count: nat)
    requires Ok(b.cache)
    ensures var r := Reserve(b, count);
            MadeRoom(b, b.bump + count, r) && RoomForAll(r, b.bump + count) && r.bump == b.bump && r.cache == b.cache
  {
    hide Grown, Enlarged;
    GrownExact(b.dataSize, 256 * b.cache.g.pageSize, (b.bump + count) * b.cache.g.entrySize);
    GrownExact(b.keySize, 8192, (b.bump + count) * 8);
  }

  lemma SameRoom(b: Bin, n: nat, c: Bin, d: Bin)
    requires MadeRoom(b, n, c) && d.dataSize == c.dataSize && d.keySize == c.keySize
    ensures MadeRoom(b, n, d)
  {
  }

  /** A group makes room for one slot a request before it hands any out, and does not touch the sizes
      of the files again. */
  lemma GroupReserves(db: DB, k: nat, rs: seq<Request>, status: Status)
    requires GroupOk(db, k, rs)
    ensures var b, r := db.bins[k], PutGroup(db, k, rs, status).0;
            k < |r.bins| && MadeRoom(b, b.bump + |rs|, r.bins[k]) && r.bins[k].bump <= b.bump + |rs|
  {
    hide Inv, MadeRoom, RoomForAll, PutGroup, PutBatch, Reserve, PutKeys, OnlySlots, BinOk;
    var b, n := db.bins[k], db.bins[k].bump + |rs|;
    BinIsOk(db, k);
    ReserveRoom(b, |rs|);
    ReservedKeeps(db, k, |rs|);
    var gr := Deferred(db, k, rs);
    KeysInRoom(Group(Reserved(db, k, |rs|), [], Success), k, rs, n);
    PutGroupParts(db, k, rs, status);
    WritesKeepSizes(gr.db.bins[k], gr.deferred);
    SameRoom(b, n, Reserve(b, |rs|), PutGroup(db, k, rs, status).0.bins[k]);
  }

  lemma BinIsOk(db: DB, k: nat)
    requires Inv(db) && k < |db.bins|
    ensures Shape(db) && Ok(db.bins[k].cache)
  {
    BinsAreOk(db, k);
  }

  lemma WritesKeepSizes(b: Bin, ws: seq<Write>)
    requires BinOk(b) && Fits(b.cache.g, ws)
    ensures var c := PutBatch(b, ws).0; c.dataSize == b.dataSize && c.keySize == b.keySize && c.bump == b.bump
  {
  }
}
