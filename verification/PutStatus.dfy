/** Which status a batch put returns. */
module PutStatuses {
  import opened Arithmetic
  import opened PageCaches
  import opened Bins
  import opened Stores
  import opened Deletions
  import opened Puts
  import opened PutOutcomes
  import DimRegistries
  import StableSort

  // ----- one group -----

  /** A request names a feature that is in another bin. */
  ghost predicate Misplaces(index: map<nat, Place>, k: nat, rs: seq<Request>) {
    exists i :: 0 <= i < |rs| && Applies(rs[i], rs[i].feature) && rs[i].feature in index && index[rs[i].feature].dimIdx != k
  }

  /** The bin is in a checkpoint, and its overlay has no room for one of the group's writes. */
  ghost predicate Refuses(db: DB, k: nat, rs: seq<Request>)
    requires GroupOk(db, k, rs)
  {
    var b, ws := Deferred(db, k, rs).db.bins[k], Deferred(db, k, rs).deferred;
    b.inCkpt && exists i :: 0 <= i < |ws| && UsedUp(b, b.overlay.Keys + Ids(ws[..i]))
  }

  lemma MisplacesMore(index: map<nat, Place>, k: nat, s: seq<Request>, r: Request)
    ensures Misplaces(index, k, s + [r]) <==>
            Misplaces(index, k, s) || (Applies(r, r.feature) && r.feature in index && index[r.feature].dimIdx != k)
  {
    var rs := s + [r];
    assert rs[|s|] == r;
    assert forall i :: 0 <= i < |s| ==> rs[i] == s[i];
  }

  lemma {:induction false} KeysStatus(start: Group, k: nat, rs: seq<Request>)
    requires Owned(start.db) && k < |start.db.bins| && start.deferred == []
    ensures PutKeys(start, k, rs).status == if Misplaces(start.db.index, k, rs) then DimMismatch else start.status
    decreases |rs|
  {
    if rs != [] {
      var s, r := rs[..|rs| - 1], rs[|rs| - 1];
      assert rs == s + [r];
      KeysStatus(start, k, s);
      PutKeysLooped(start, k, s);
      HeedsLater(start, k, Heeded(start.db.index, k, s), PutKeys(start, k, s), r);
      MisplacesMore(start.db.index, k, s, r);
    }
  }

  /** A batch of writes is BUSY exactly when the overlay's budget is used up before its last write. */
  lemma WritesStatus(b: Bin, ws: seq<Write>)
    requires BinOk(b) && Fits(b.cache.g, ws)
    ensures PutBatch(b, ws).1 ==
            if b.inCkpt && exists i :: 0 <= i < |ws| && UsedUp(b, b.overlay.Keys + Ids(ws[..i])) then Busy else Success
  {
    hide UsedUp, Ids, PutSorted, Overlaid, TouchedPages, BinOk;
    AcceptedExact(b, ws);
    if b.inCkpt {
      forall i | Accepted(b, ws) <= i < |ws|
        ensures UsedUp(b, b.overlay.Keys + Ids(ws[..i]))
      {
        StillUsedUp(b, ws, Accepted(b, ws), i);
      }
    }
  }

  lemma StillUsedUp(b: Bin, ws: seq<Write>, i: nat, j: nat)
    requires i <= j <= |ws| && UsedUp(b, b.overlay.Keys + Ids(ws[..i]))
    ensures UsedUp(b, b.overlay.Keys + Ids(ws[..j]))
  {
    assert forall w :: w in ws[..i] ==> w in ws[..j];
    var s, t := b.overlay.Keys + Ids(ws[..i]), b.overlay.Keys + Ids(ws[..j]);
    SubsetSize(s, t);
    MulMono(|s|, |t|, b.vector + 16);
  }

  /** The status of a group: BUSY if a write was refused, else a mismatch if a feature is in another
      bin, else what it was. */
  lemma GroupStatus(db: DB, k: nat, rs: seq<Request>, status: Status)
    requires GroupOk(db, k, rs)
    ensures PutGroup(db, k, rs, status).1 ==
            if Refuses(db, k, rs) then Busy else if Misplaces(db.index, k, rs) then DimMismatch else status
  {
    hide Shape, Owned, PutKeys, PutBatch, BinOk, Misplaces, OnlySlots, UsedUp, Ids;
    ReservedKeeps(db, k, |rs|);
    var start := Group(Reserved(db, k, |rs|), [], Success);
    StatusOnly(start, k, rs, status);
    KeysStatus(start.(status := status), k, rs);
    DeferredLooped(db, k, rs);
    DeferredBin(db, k, rs);
    var gr := Deferred(db, k, rs);
    if gr.deferred != [] {
      WritesStatus(gr.db.bins[k], gr.deferred);
    }
  }

  // ----- the whole batch -----

  /** Some dim has no bin and may not be given one. */
  ghost predicate NoBin(db: DB, rs: seq<Request>) {
    !db.cfg.autoCreate && exists i :: 0 <= i < |rs| && rs[i].dim !in db.dims
  }

  /** What each group comes to, in the order of the loop. */
  ghost function Verdicts(db: DB, rs: seq<Request>): seq<Status>
    requires Inv(db) && RequestsOk(db.cfg, rs) && !NoBin(db, rs)
    decreases |rs|
  {
    hide Inv, PutGroup, BinFor, OnlyBin, Refuses, Misplaces;
    if rs == [] then [] else
      var n := LeadRun(rs);
      assert EmbOk(db.cfg, rs[0]);
      BinForFacts(db, rs[0].dim);
      var (db1, k) := BinFor(db, rs[0].dim);
      PutGroupFacts(db1, k, rs[..n], Success);
      var db2 := PutGroup(db1, k, rs[..n], Success).0;
      GroupDims(db1, db2, k);
      SameDimFront(rs, n);
      LaterBins(db, db1, db2, k, rs, n);
      [if Refuses(db1, k, rs[..n]) then Busy else if Misplaces(db1.index, k, rs[..n]) then DimMismatch else Success]
      + Verdicts(db2, rs[n..])
  }

  lemma LaterBins(db: DB, db1: DB, db2: DB, k: nat, rs: seq<Request>, n: nat)
    requires 0 < n <= |rs| && rs[0].dim > 0 && (db1, k) == BinFor(db, rs[0].dim) && OnlyBin(db1, db2, k)
    requires forall i :: 0 <= i < n ==> rs[i].dim == rs[0].dim
    requires db.cfg.autoCreate || rs[0].dim in db.dims
    ensures NoBin(db2, rs[n..]) <==> NoBin(db, rs)
  {
    assert forall i :: 0 <= i < |rs[n..]| ==> rs[n..][i] == rs[n + i];
    if NoBin(db, rs) {
      var i :| 0 <= i < |rs| && rs[i].dim !in db.dims;
      assert rs[n..][i - n] == rs[i];
    }
  }

  /** The last failure decides; without one the status is what it was. */
  ghost predicate Decides(vs: seq<Status>, was: Status, st: Status) {
    || (st == was && forall i :: 0 <= i < |vs| ==> vs[i] == Success)
    || (exists k :: 0 <= k < |vs| && vs[k] == st != Success && forall i :: k < i < |vs| ==> vs[i] == Success)
  }

  lemma DecidesMore(v: Status, vs: seq<Status>, was: Status, st: Status)
    requires Decides(vs, if v == Success then was else v, st)
    ensures Decides([v] + vs, was, st)
  {
    var all := [v] + vs;
    assert forall i :: 0 <= i < |vs| ==> all[i + 1] == vs[i];
    assert forall i :: 0 < i < |all| ==> all[i] == vs[i - 1];
    if k :| 0 <= k < |vs| && vs[k] == st != Success && forall i :: k < i < |vs| ==> vs[i] == Success {
      assert all[k + 1] == st;
    } else {
      assert all[0] == v;
    }
  }

  ghost predicate StatusIs(db: DB, rs: seq<Request>, was: Status, st: Status)
    requires Inv(db) && RequestsOk(db.cfg, rs)
  {
    if NoBin(db, rs) then st == Invalid else Decides(Verdicts(db, rs), was, st)
  }

  lemma {:induction false} GroupsStatus(db: DB, rs: seq<Request>, status: Status)
    requires Inv(db) && RequestsOk(db.cfg, rs)
    ensures StatusIs(db, rs, status, PutGroups(db, rs, status).1)
    decreases |rs|
  {
    hide Inv, PutGroup, BinFor, OnlyBin, Refuses, Misplaces, NoBin, Decides;
    if rs == [] {
      NothingDecided(db, status);
    } else if DimRegistries.IndexOf(db.dims, rs[0].dim) < 0 && !db.cfg.autoCreate {
      FirstHasNone(db, rs);
    } else {
      var n := LeadRun(rs);
      assert EmbOk(db.cfg, rs[0]);
      BinForFacts(db, rs[0].dim);
      var (db1, k) := BinFor(db, rs[0].dim);
      PutGroupFacts(db1, k, rs[..n], status);
      SameWhateverStatus(db1, k, rs[..n], status);
      var (db2, st) := PutGroup(db1, k, rs[..n], status);
      GroupDims(db1, db2, k);
      SameDimFront(rs, n);
      LaterBins(db, db1, db2, k, rs, n);
      GroupStatus(db1, k, rs[..n], status);
      GroupsStatus(db2, rs[n..], st);
      if !NoBin(db, rs) {
        DecidesMore(if Refuses(db1, k, rs[..n]) then Busy else if Misplaces(db1.index, k, rs[..n]) then DimMismatch else Success,
                    Verdicts(db2, rs[n..]), status, PutGroups(db, rs, status).1);
      }
    }
  }

  lemma SameDimFront(rs: seq<Request>, n: nat)
    requires n <= |rs| && rs != [] && OneDim(rs[..n], rs[0].dim)
    ensures forall i :: 0 <= i < n ==> rs[i].dim == rs[0].dim
  {
    assert forall i :: 0 <= i < n ==> rs[..n][i] == rs[i];
  }

  lemma NothingDecided(db: DB, status: Status)
    ensures !NoBin(db, []) && Decides([], status, status)
  {
  }

  lemma FirstHasNone(db: DB, rs: seq<Request>)
    requires rs != [] && DimRegistries.IndexOf(db.dims, rs[0].dim) < 0 && !db.cfg.autoCreate
    ensures NoBin(db, rs)
  {
    assert rs[0].dim !in db.dims;
  }

  lemma SortedNoBin(db: DB, rs: seq<Request>)
    ensures NoBin(db, StableSort.Sort(rs, DimKey())) <==> NoBin(db, rs)
  {
    var s := StableSort.Sort(rs, DimKey());
    StableSort.SortMembers(rs, DimKey());
    if NoBin(db, rs) {
      var i :| 0 <= i < |rs| && rs[i].dim !in db.dims;
      assert rs[i] in rs && rs[i] in s;
    }
    if NoBin(db, s) {
      var i :| 0 <= i < |s| && s[i].dim !in db.dims;
      assert s[i] in s && s[i] in rs;
    }
  }

  /** The status of the batch as given, over its groups in order of dim. */
  ghost predicate PutStatus(db: DB, rs: seq<Request>, st: Status)
    requires Inv(db) && RequestsOk(db.cfg, rs)
  {
    SortedRequestsOk(db.cfg, rs);
    SortedNoBin(db, rs);
    if NoBin(db, rs) then st == Invalid else Decides(Verdicts(db, StableSort.Sort(rs, DimKey())), Success, st)
  }

  /** The status of a batch put: INVALID exactly when a dim has no bin and may not be given one.
      Otherwise, of the groups in order of dim, the last one that fails decides: BUSY if its overlay
      refused a write, a mismatch if it took every write and names a feature of another bin. */
  lemma BatchPutStatus(db: DB, rs: seq<Request>)
    requires Inv(db) && RequestsOk(db.cfg, rs)
    ensures PutStatus(db, rs, BatchPut(db, rs).1)
  {
    hide Inv, PutGroups, NoBin, Verdicts, Decides;
    SortedRequestsOk(db.cfg, rs);
    SortedNoBin(db, rs);
    GroupsStatus(db, StableSort.Sort(rs, DimKey()), Success);
  }

  // ----- success: every request is written -----

  /** Every request of the group that names a feature and an embedding is written. */
  ghost predicate TakesAll(db: DB, k: nat, rs: seq<Request>)
    requires GroupOk(db, k, rs)
  {
    && (forall i :: 0 <= i < |rs| && Applies(rs[i], rs[i].feature) ==> Heeds(db.index, k, rs[i]))
    && |TakenBy(db, k, rs)| == |Heeded(db.index, k, rs)|
  }

  lemma TakesAllIff(db: DB, k: nat, rs: seq<Request>)
    requires GroupOk(db, k, rs)
    ensures TakesAll(db, k, rs) <==> !Refuses(db, k, rs) && !Misplaces(db.index, k, rs)
  {
    hide Inv, UsedUp, Ids, PutSorted, Overlaid, TouchedPages, BinOk, Deferred;
    DeferredLooped(db, k, rs);
    DeferredBin(db, k, rs);
    WritesStatus(Deferred(db, k, rs).db.bins[k], Deferred(db, k, rs).deferred);
  }

  /** Every dim has a bin or may be given one, and every group takes every request. */
  ghost predicate AllTaken(db: DB, rs: seq<Request>)
    requires Inv(db) && RequestsOk(db.cfg, rs)
    decreases |rs|
  {
    rs == [] ||
    (&& (DimRegistries.IndexOf(db.dims, rs[0].dim) >= 0 || db.cfg.autoCreate)
     && var n := LeadRun(rs);
        assert EmbOk(db.cfg, rs[0]);
        BinForFacts(db, rs[0].dim);
        var (db1, k) := BinFor(db, rs[0].dim);
        PutGroupFacts(db1, k, rs[..n], Success);
        TakesAll(db1, k, rs[..n]) && AllTaken(PutGroup(db1, k, rs[..n], Success).0, rs[n..]))
  }

  lemma {:induction false} GroupsSucceed(db: DB, rs: seq<Request>, status: Status)
    requires Inv(db) && RequestsOk(db.cfg, rs)
    ensures PutGroups(db, rs, status).1 == Success <==> status == Success && AllTaken(db, rs)
    decreases |rs|
  {
    hide Inv, PutGroup, BinFor, OnlyBin, TakesAll, Refuses, Misplaces;
    if rs != [] && (DimRegistries.IndexOf(db.dims, rs[0].dim) >= 0 || db.cfg.autoCreate) {
      var n := LeadRun(rs);
      assert EmbOk(db.cfg, rs[0]);
      BinForFacts(db, rs[0].dim);
      var (db1, k) := BinFor(db, rs[0].dim);
      PutGroupFacts(db1, k, rs[..n], status);
      SameWhateverStatus(db1, k, rs[..n], status);
      var (db2, st) := PutGroup(db1, k, rs[..n], status);
      GroupDims(db1, db2, k);
      GroupStatus(db1, k, rs[..n], status);
      TakesAllIff(db1, k, rs[..n]);
      GroupsSucceed(db2, rs[n..], st);
    }
  }

  /** A batch put returns success exactly when every request is taken. */
  lemma BatchPutSucceeds(db: DB, rs: seq<Request>)
    requires Inv(db) && RequestsOk(db.cfg, rs)
    ensures RequestsOk(db.cfg, StableSort.Sort(rs, DimKey()))
    ensures BatchPut(db, rs).1 == Success <==> AllTaken(db, StableSort.Sort(rs, DimKey()))
  {
    hide Inv, PutGroups, AllTaken;
    SortedRequestsOk(db.cfg, rs);
    GroupsSucceed(db, StableSort.Sort(rs, DimKey()), Success);
  }

  // ----- outside a checkpoint, from the requests and the store before -----

  /** Request `i` gives its feature a dim that is not the feature's own: the one of the bin it is in, or
      else the lowest dim the batch gives it. */
  ghost predicate WrongDim(db: DB, rs: seq<Request>, i: nat)
    requires i < |rs|
  {
    var f := rs[i].feature;
    && Applies(rs[i], f)
    && if f in db.index then db.index[f].dimIdx < |db.dims| && db.dims[db.index[f].dimIdx] != rs[i].dim
       else exists j :: 0 <= j < |rs| && Applies(rs[j], f) && rs[j].dim < rs[i].dim
  }

  ghost predicate HasWrongDim(db: DB, rs: seq<Request>) {
    exists i :: 0 <= i < |rs| && WrongDim(db, rs, i)
  }

  ghost predicate AllIdle(db: DB) {
    forall i :: 0 <= i < |db.bins| ==> !db.bins[i].inCkpt
  }

  /** In the first group the wrong dims are those of features that are in another bin. */
  lemma FirstWrong(db: DB, k: nat, rs: seq<Request>, n: nat)
    requires Inv(db) && k < |db.bins| && 0 < n <= |rs| && InDimOrder(rs) && db.dims[k] == rs[0].dim
    requires forall i :: 0 <= i < n ==> rs[i].dim == rs[0].dim
    ensures Misplaces(db.index, k, rs[..n]) <==> exists i :: 0 <= i < n && WrongDim(db, rs, i)
  {
    hide Owned, BinOk, SizesOk, Formed, Applies;
    assert forall i :: 0 <= i < n ==> rs[..n][i] == rs[i];
    assert forall i :: 0 <= i < |rs| ==> rs[0].dim <= rs[i].dim;
    forall i | 0 <= i < n && rs[i].feature in db.index
      ensures db.index[rs[i].feature].dimIdx < |db.dims|
      ensures db.index[rs[i].feature].dimIdx != k <==> db.dims[db.index[rs[i].feature].dimIdx] != rs[i].dim
    {
      IndexedBin(db, rs[i].feature);
    }
    if Misplaces(db.index, k, rs[..n]) {
      var i :| 0 <= i < n && Applies(rs[..n][i], rs[..n][i].feature)
               && rs[..n][i].feature in db.index && db.index[rs[..n][i].feature].dimIdx != k;
      assert WrongDim(db, rs, i);
    }
    if i :| 0 <= i < n && WrongDim(db, rs, i) {
      assert Applies(rs[..n][i], rs[..n][i].feature);
    }
  }

  /** In the rest, what is wrong after the first group was wrong before. */
  lemma LaterWrong(db: DB, db2: DB, rs: seq<Request>, n: nat, i: nat)
    requires 0 < n <= i < |rs| && rs[0].dim < rs[i].dim && forall j :: 0 <= j < n ==> rs[j].dim == rs[0].dim
    requires var f := rs[i].feature;
             && (f in db.index ==> f in db2.index && db2.index[f] == db.index[f])
             && (f in db.index ==> db.index[f].dimIdx < |db.dims|) && db.dims <= db2.dims
             && (f in db2.index && f !in db.index ==>
                   Asks(rs[..n], f) && db2.index[f].dimIdx < |db2.dims| && db2.dims[db2.index[f].dimIdx] == rs[0].dim)
             && (Asks(rs[..n], f) ==> f in db2.index)
    ensures WrongDim(db2, rs[n..], i - n) <==> WrongDim(db, rs, i)
  {
    hide Applies;
    var f := rs[i].feature;
    assert rs[n..][i - n] == rs[i];
    assert forall j :: 0 <= j < n ==> rs[..n][j] == rs[j];
    assert forall j :: 0 <= j < |rs[n..]| ==> rs[n..][j] == rs[n + j];
    if f !in db.index && f !in db2.index && WrongDim(db, rs, i) {
      var j :| 0 <= j < |rs| && Applies(rs[j], f) && rs[j].dim < rs[i].dim;
      assert j >= n;
      assert rs[n..][j - n] == rs[j];
    }
    if f !in db.index && f in db2.index {
      var j :| 0 <= j < n && Applies(rs[..n][j], f);
      assert Applies(rs[j], f);
    }
  }

  /** A group outside a checkpoint indexes every feature it asks for that is new. */
  lemma GroupIndexes(db: DB, k: nat, rs: seq<Request>, status: Status, f: nat)
    requires GroupOk(db, k, rs)
    ensures var r := PutGroup(db, k, rs, status).0;
            && (f in r.index && f !in db.index ==> Asks(rs, f) && r.index[f].dimIdx == k)
            && (Asks(rs, f) ==> f in r.index)
  {
    hide Inv, PutGroup, Deferred, PutBatch, Matched, Asks, BinOk;
    PutGroupParts(db, k, rs, status);
    DeferredLooped(db, k, rs);
    var hs := Heeded(db.index, k, rs);
    FeaturesAsked(hs, f);
    if f in db.index {
      assert Grows(db.index, Deferred(db, k, rs).db.index);
    } else {
      HeededAsks(db.index, k, rs, f);
      if Asks(hs, f) {
        HeededIsPlaced(db, k, rs, f);
      }
    }
  }

  lemma {:induction false} HeededAsks(index: map<nat, Place>, k: nat, rs: seq<Request>, f: nat)
    requires f !in index
    ensures Asks(Heeded(index, k, rs), f) <==> Asks(rs, f)
    decreases |rs|
  {
    if rs != [] {
      var s, r := rs[..|rs| - 1], rs[|rs| - 1];
      assert rs == s + [r];
      HeededAsks(index, k, s, f);
      LastEmbMore(s, r, f);
      LastEmbMore(Heeded(index, k, s), r, f);
      assert Heeded(index, k, s) + [] == Heeded(index, k, s);
    }
  }

  lemma WrongSplit(db: DB, rs: seq<Request>, n: nat, db2: DB)
    requires n <= |rs|
    requires forall i :: n <= i < |rs| ==> (WrongDim(db2, rs[n..], i - n) <==> WrongDim(db, rs, i))
    ensures HasWrongDim(db, rs) <==> (exists i :: 0 <= i < n && WrongDim(db, rs, i)) || HasWrongDim(db2, rs[n..])
  {
    hide WrongDim;
    if i :| 0 <= i < |rs[n..]| && WrongDim(db2, rs[n..], i) {
      assert WrongDim(db2, rs[n..], (i + n) - n);
      assert WrongDim(db, rs, i + n);
    }
    if i :| n <= i < |rs| && WrongDim(db, rs, i) {
      assert WrongDim(db2, rs[n..], i - n);
    }
  }

  /** Outside a checkpoint no group is refused, and none begins one. */
  lemma IdleGroup(db: DB, k: nat, rs: seq<Request>, status: Status)
    requires GroupOk(db, k, rs) && AllIdle(db)
    ensures !Refuses(db, k, rs) && AllIdle(PutGroup(db, k, rs, status).0)
  {
    hide Inv, PutGroup, Deferred, BinOk, PutSorted, UsedUp, OnlyBin, TouchedPages;
    DeferredBin(db, k, rs);
    PutGroupParts(db, k, rs, status);
    PutGroupFacts(db, k, rs, status);
    GrownIndex(db, PutGroup(db, k, rs, status).0, k, 0);
    GroupDims(db, PutGroup(db, k, rs, status).0, k);
  }

  lemma IdleBinFor(db: DB, dim: nat)
    requires AllIdle(db) && dim > 0
    ensures AllIdle(BinFor(db, dim).0)
  {
  }

  /** One group, and the wrong dims of the rest. */
  lemma FirstAndLater(db: DB, db1: DB, db2: DB, k: nat, rs: seq<Request>, n: nat)
    requires Inv(db1) && rs != [] && InDimOrder(rs) && n == LeadRun(rs) && k < |db1.bins| && db1.dims[k] == rs[0].dim
    requires db1.index == db.index && db.dims <= db1.dims && (forall f :: f in db.index ==> db.index[f].dimIdx < |db.dims|)
    requires GroupOk(db1, k, rs[..n]) && db2 == PutGroup(db1, k, rs[..n], Success).0 && OnlyBin(db1, db2, k)
    ensures HasWrongDim(db, rs) <==> Misplaces(db1.index, k, rs[..n]) || HasWrongDim(db2, rs[n..])
  {
    hide Inv, PutGroup, OnlyBin, Asks, Misplaces, HasWrongDim;
    SameDimFront(rs, n);
    SizesMatch(db1);
    GroupDims(db1, db2, k);
    FirstWrong(db1, k, rs, n);
    forall i | 0 <= i < |rs|
      ensures WrongDim(db1, rs, i) <==> WrongDim(db, rs, i)
    {
      SameWrong(db, db1, rs, i);
    }
    forall i | n <= i < |rs|
      ensures WrongDim(db2, rs[n..], i - n) <==> WrongDim(db, rs, i)
    {
      GroupIndexes(db1, k, rs[..n], Success, rs[i].feature);
      GrownIndex(db1, db2, k, rs[i].feature);
      LaterDim(rs, n, i);
      LaterWrong(db, db2, rs, n, i);
    }
    WrongSplit(db, rs, n, db2);
  }

  lemma SameWrong(db: DB, db1: DB, rs: seq<Request>, i: nat)
    requires i < |rs| && db1.index == db.index && db.dims <= db1.dims
    requires forall f :: f in db.index ==> db.index[f].dimIdx < |db.dims|
    ensures WrongDim(db1, rs, i) <==> WrongDim(db, rs, i)
  {
  }

  lemma LaterDim(rs: seq<Request>, n: nat, i: nat)
    requires rs != [] && InDimOrder(rs) && n == LeadRun(rs) && n <= i < |rs|
    ensures rs[0].dim < rs[i].dim
  {
  }

  lemma {:induction false} IdleStatus(db: DB, rs: seq<Request>, status: Status)
    requires Inv(db) && RequestsOk(db.cfg, rs) && InDimOrder(rs) && AllIdle(db)
    ensures PutGroups(db, rs, status).1 ==
            if NoBin(db, rs) then Invalid else if HasWrongDim(db, rs) then DimMismatch else status
    decreases |rs|
  {
    hide Inv, PutGroup, BinFor, OnlyBin, Refuses, Misplaces, NoBin, HasWrongDim, InDimOrder, AllIdle;
    if rs == [] {
      NothingDecided(db, status);
      NothingWrong(db);
    } else if DimRegistries.IndexOf(db.dims, rs[0].dim) < 0 && !db.cfg.autoCreate {
      FirstHasNone(db, rs);
    } else {
      var n := LeadRun(rs);
      assert EmbOk(db.cfg, rs[0]);
      BinForFacts(db, rs[0].dim);
      IdleBinFor(db, rs[0].dim);
      var (db1, k) := BinFor(db, rs[0].dim);
      PutGroupFacts(db1, k, rs[..n], status);
      SameWhateverStatus(db1, k, rs[..n], status);
      var (db2, st) := PutGroup(db1, k, rs[..n], status);
      GroupDims(db1, db2, k);
      SameDimFront(rs, n);
      LaterDims(rs);
      LaterBins(db, db1, db2, k, rs, n);
      GroupStatus(db1, k, rs[..n], status);
      IdleGroup(db1, k, rs[..n], status);
      IndexInDims(db);
      FirstAndLater(db, db1, db2, k, rs, n);
      IdleStatus(db2, rs[n..], st);
    }
  }

  lemma NothingWrong(db: DB)
    ensures !HasWrongDim(db, [])
  {
  }

  lemma IndexInDims(db: DB)
    requires Inv(db)
    ensures forall f :: f in db.index ==> db.index[f].dimIdx < |db.dims|
  {
  }

  lemma SortedWrong(db: DB, rs: seq<Request>)
    ensures HasWrongDim(db, StableSort.Sort(rs, DimKey())) <==> HasWrongDim(db, rs)
  {
    StableSort.SortMembers(rs, DimKey());
    WrongMembers(db, rs, StableSort.Sort(rs, DimKey()));
    WrongMembers(db, StableSort.Sort(rs, DimKey()), rs);
  }

  lemma WrongMembers(db: DB, rs: seq<Request>, s: seq<Request>)
    requires forall r :: r in rs <==> r in s
    ensures HasWrongDim(db, rs) ==> HasWrongDim(db, s)
  {
    if i :| 0 <= i < |rs| && WrongDim(db, rs, i) {
      var f := rs[i].feature;
      assert rs[i] in rs && rs[i] in s;
      var k :| 0 <= k < |s| && s[k] == rs[i];
      if f !in db.index {
        var j :| 0 <= j < |rs| && Applies(rs[j], f) && rs[j].dim < rs[i].dim;
        assert rs[j] in rs && rs[j] in s;
        var h :| 0 <= h < |s| && s[h] == rs[j];
        assert Applies(s[h], f) && s[h].dim < s[k].dim;
      }
      assert WrongDim(db, s, k);
    }
  }

  /** The status of a batch put while no bin is in a checkpoint, told from the requests and the store
      before: INVALID exactly when a dim has no bin and may not be given one, else a mismatch exactly
      when a feature is given a dim that is not its own, else success. */
  lemma IdleBatchStatus(db: DB, rs: seq<Request>)
    requires Inv(db) && RequestsOk(db.cfg, rs) && AllIdle(db)
    ensures BatchPut(db, rs).1 == if NoBin(db, rs) then Invalid else if HasWrongDim(db, rs) then DimMismatch else Success
  {
    hide Inv, PutGroups, HasWrongDim, NoBin, AllIdle;
    SortedRequestsOk(db.cfg, rs);
    SortedNoBin(db, rs);
    SortedWrong(db, rs);
    StableSort.SortFacts(rs, DimKey());
    assert InDimOrder(StableSort.Sort(rs, DimKey()));
    IdleStatus(db, StableSort.Sort(rs, DimKey()), Success);
  }
}
