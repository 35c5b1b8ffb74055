/** The database: bins by dim, and the index from features to slots.  Batched puts and deletes
    as functions on the whole state, who owns which slot, and what is read back. */
module Stores {
  import opened Pages
  import opened PageCaches
  import opened Bins
  import opened Arithmetic
  import DimRegistries
  import HashIndexes
  import StableSort

  type Place = HashIndexes.Place

  datatype Option<T> = None | Some(value: T)

  datatype Config = Config(align: nat, pageSize: nat, bufferSize: nat, overlayBudget: nat, autoCreate: bool)

  /** One request of a batch put; feature 0 and a missing embedding are skipped. */
  datatype Request = Request(feature: nat, dim: nat, emb: Option<Bytes>)

  /** `left` are dims whose files are in the directory but which are not registered. */
  datatype DB = DB(cfg: Config, dims: seq<nat>, bins: seq<Bin>, index: map<nat, Place>, left: set<nat>)

  function GeometryFor(cfg: Config, dim: nat): (g: Geometry)
    requires dim > 0
    ensures g.Ok()
  {
    InitGeometry(dim, cfg.align, cfg.pageSize)
  }

  function BufferSize(cfg: Config): nat {
    if cfg.bufferSize > 0 then cfg.bufferSize else 268435456
  }

  /** No write buffer holds more pages than one flush can write. */
  ghost predicate ConfigOk(cfg: Config) {
    var ps := if cfg.pageSize == 0 then 4096 else cfg.pageSize;
    4194304 / ps <= MAX_FLUSH_BATCH && BufferSize(cfg) / ps <= MAX_FLUSH_BATCH
  }

  lemma FewPages(cfg: Config, dim: nat, buffer: nat)
    requires ConfigOk(cfg) && dim > 0 && (buffer <= 4194304 || buffer <= BufferSize(cfg))
    ensures MaxPages(buffer, GeometryFor(cfg, dim).pageSize) <= MAX_FLUSH_BATCH
  {
    var ps := if cfg.pageSize == 0 then 4096 else cfg.pageSize;
    var most := if buffer <= 4194304 then 4194304 else BufferSize(cfg);
    DivMono(buffer, most, ps);
    DivLess(buffer, ps, GeometryFor(cfg, dim).pageSize);
  }

  /** The bin has the layout and the buffer its dim asks for. */
  ghost predicate Formed(b: Bin, cfg: Config, dim: nat)
    requires dim > 0
  {
    b.cache.g == GeometryFor(cfg, dim) && b.vector == 4 * dim && b.cache.maxPages <= MAX_FLUSH_BATCH
  }

  /** `dimbin_init` on files that do not exist yet. */
  function NewBin(cfg: Config, dim: nat, buffer: nat): (b: Bin)
    requires dim > 0
    ensures BinOk(b) && SizesOk(b) && b.cache.g == GeometryFor(cfg, dim) && b.vector == 4 * dim
  {
    var g := GeometryFor(cfg, dim);
    Bin(Cache(g, MaxPages(buffer, g.pageSize), map[], map[]), 0, {}, {}, 0, false, map[], [], cfg.overlayBudget, 4 * dim,
        0, [], map[], 0)
  }

  /** The flush threshold for a buffer of so many bytes. */
  function MaxPages(buffer: nat, pageSize: nat): (n: nat)
    requires pageSize > 0
    ensures n > 0
  {
    if buffer / pageSize == 0 then 1024 else buffer / pageSize
  }

  /** The buffer shared out equally, 256 MB if none is configured. */
  ghost function EqualShare(cfg: Config, n: nat): nat
    requires n > 0
  {
    (if cfg.bufferSize == 0 then 268435456 else cfg.bufferSize) / n
  }

  /** `n` pages fill a buffer of so many bytes; a buffer smaller than a page holds 1024. */
  ghost predicate FillsBuffer(n: nat, bytes: nat, pageSize: nat) {
    if bytes < pageSize then n == 1024 else n * pageSize <= bytes < (n + 1) * pageSize
  }

  lemma PagesFill(bytes: nat, pageSize: nat)
    requires pageSize > 0
    ensures FillsBuffer(MaxPages(bytes, pageSize), bytes, pageSize)
  {
    var q, r := DivMod(bytes, pageSize);
    assert (q + 1) * pageSize == q * pageSize + pageSize;
    if bytes < pageSize {
      DivModUnique(bytes, pageSize, 0, bytes);
    } else {
      MulMono(q, 0, pageSize);
    }
  }

  /** `create_and_register_bin`. */
  function CreateBin(db: DB, dim: nat): (r: DB)
    requires dim > 0
  {
    var share := BufferSize(db.cfg) / (|db.dims| + 1);
    db.(dims := db.dims + [dim],
        bins := db.bins + [NewBin(db.cfg, dim, if share < 4194304 then 4194304 else share)])
  }

  // ----- well-formed databases -----

  ghost predicate Shape(db: DB) {
    && ConfigOk(db.cfg) && |db.bins| == |db.dims| && DimRegistries.Distinct(db.dims)
    && (forall i :: 0 <= i < |db.dims| ==> db.dims[i] > 0)
    && (forall i :: 0 <= i < |db.bins| ==> BinOk(db.bins[i]) && SizesOk(db.bins[i])
                                             && Formed(db.bins[i], db.cfg, db.dims[i]))
  }

  ghost predicate NoDup(s: seq<nat>) {
    forall i, j :: 0 <= i < j < |s| ==> s[i] != s[j]
  }

  /** Bin `i`: a slot below the bump pointer is free, tombstoned, or holds the feature the
      index maps to it; a free slot, and a slot never handed out, has key 0. */
  ghost predicate SlotsOwned(index: map<nat, Place>, i: nat, b: Bin) {
    && NoDup(b.free) && NoDup(b.tombs)
    && (forall s: nat :: s in b.free <==> s < b.bump && KeyAt(b, s) == 0)
    && (forall s: nat :: s in b.tombs ==> KeyAt(b, s) != 0)
    && (forall s: nat {:trigger KeyAt(b, s)} :: KeyAt(b, s) != 0 ==> s < b.bump)
    && (forall s: nat {:trigger KeyAt(b, s)} :: KeyAt(b, s) != 0 && s !in b.tombs ==>
          KeyAt(b, s) in index && index[KeyAt(b, s)] == HashIndexes.Place(i, s))
  }

  /** Every indexed feature is the key of its slot, and the slot is not tombstoned. */
  ghost predicate IndexOwned(index: map<nat, Place>, bins: seq<Bin>) {
    forall f :: f in index ==>
      && f != 0 && index[f].dimIdx < |bins|
      && KeyAt(bins[index[f].dimIdx], index[f].entryIdx) == f
      && index[f].entryIdx !in bins[index[f].dimIdx].tombs
  }

  ghost predicate Owned(db: DB) {
    && IndexOwned(db.index, db.bins)
    && (forall i :: 0 <= i < |db.bins| ==> SlotsOwned(db.index, i, db.bins[i]))
  }

  ghost predicate Inv(db: DB) {
    Shape(db) && Owned(db)
  }

  /** Slot `s` of bin `i` is indexed by one feature, or on the free list once, or tombstoned once. */
  ghost predicate OneOwner(db: DB, i: nat, s: nat)
    requires i < |db.bins|
  {
    var b := db.bins[i];
    var indexed := exists f :: f in db.index && db.index[f] == HashIndexes.Place(i, s);
    && (indexed ==> s !in b.free && s !in b.tombs)
    && (s in b.free ==> s !in b.tombs)
    && (indexed || s in b.free || s in b.tombs)
    && (forall f, h :: f in db.index && h in db.index && db.index[f] == db.index[h] ==> f == h)
    && multiset(b.free)[s] <= 1 && multiset(b.tombs)[s] <= 1
  }

  /** What the invariant means for a slot: exactly one of three, and one owner at most. */
  lemma SlotHasOneOwner(db: DB, i: nat, s: nat)
    requires Inv(db) && i < |db.bins| && s < db.bins[i].bump
    ensures OneOwner(db, i, s)
  {
    var b := db.bins[i];
    assert SlotsOwned(db.index, i, b);
    CountsOnce(b.free, s);
    CountsOnce(b.tombs, s);
    if KeyAt(b, s) != 0 && s !in b.tombs {
      assert db.index[KeyAt(b, s)] == HashIndexes.Place(i, s);
    }
  }

  // ----- batch put -----

  /** The loop state of one dim group: the database, the embedding writes put off, the status. */
  datatype Group = Group(db: DB, deferred: seq<Write>, status: Status)

  /** Bin `k` after a feature took a slot in it: the slot's key is buffered. */
  function Take(db: DB, k: nat, b: Bin, s: nat, f: nat): (r: DB)
    requires k < |db.bins|
  {
    db.(bins := db.bins[k := BufKey(b, s, f)], index := db.index[f := HashIndexes.Place(k, s)])
  }

  /** One request of a group: find or allocate the slot, buffer the key, put off the write. */
  function PutKey(gr: Group, k: nat, r: Request): (n: Group)
    requires k < |gr.db.bins|
    ensures |n.db.bins| == |gr.db.bins|
  {
    if r.feature == 0 || r.emb.None? then gr
    else if r.feature in gr.db.index then
      var place := gr.db.index[r.feature];
      if place.dimIdx != k then gr.(status := DimMismatch)
      else gr.(db := Take(gr.db, k, gr.db.bins[k], place.entryIdx, r.feature),
               deferred := gr.deferred + [Write(place.entryIdx, r.emb.value)])
    else
      var (b, s) := Alloc(gr.db.bins[k]);
      gr.(db := Take(gr.db, k, b, s, r.feature), deferred := gr.deferred + [Write(s, r.emb.value)])
  }

  function PutKeys(gr: Group, k: nat, rs: seq<Request>): (n: Group)
    requires k < |gr.db.bins|
    ensures |n.db.bins| == |gr.db.bins|
  {
    if rs == [] then gr else PutKey(PutKeys(gr, k, rs[..|rs| - 1]), k, rs[|rs| - 1])
  }

  ghost predicate EmbOk(cfg: Config, r: Request) {
    r.dim > 0 && (r.emb.Some? ==> |r.emb.value| == GeometryFor(cfg, r.dim).entrySize)
  }

  ghost predicate RequestsOk(cfg: Config, rs: seq<Request>) {
    forall i :: 0 <= i < |rs| ==> EmbOk(cfg, rs[i])
  }

  /** Every dim asked for is registered, or there are no files of it. */
  ghost predicate FreshDims(db: DB, rs: seq<Request>) {
    forall i :: 0 <= i < |rs| ==> rs[i].dim in db.dims || rs[i].dim !in db.left
  }

  // ----- ownership through a batch put -----

  lemma SlotTaken(index: map<nat, Place>, k: nat, b: Bin, c: Bin, s: nat, f: nat)
    requires SlotsOwned(index, k, b) && f != 0 && f !in index
    requires s < c.bump && KeyAt(b, s) == 0 && c.tombs == b.tombs && c.bump >= b.bump
    requires forall i: nat :: KeyAt(c, i) == if i == s then f else KeyAt(b, i)
    requires NoDup(c.free) && forall i: nat :: i in c.free <==> i < c.bump && KeyAt(c, i) == 0
    ensures SlotsOwned(index[f := HashIndexes.Place(k, s)], k, c)
  {
  }

  lemma TakeOwns(db: DB, k: nat, b: Bin, s: nat, f: nat)
    requires Owned(db) && k < |db.bins| && f != 0 && f !in db.index
    requires s < b.bump && KeyAt(b, s) == 0 && b.tombs == db.bins[k].tombs
    requires forall i: nat :: KeyAt(b, i) == KeyAt(db.bins[k], i)
    requires NoDup(b.free) && forall i: nat :: i in b.free <==> i < b.bump && i != s && KeyAt(b, i) == 0
    requires b.bump >= db.bins[k].bump
    ensures Owned(Take(db, k, b, s, f))
  {
    var r := Take(db, k, b, s, f);
    var c := r.bins[k];
    assert forall i: nat :: KeyAt(c, i) == if i == s then f else KeyAt(db.bins[k], i);
    SlotTaken(db.index, k, db.bins[k], c, s, f);
    forall i | 0 <= i < |r.bins| && i != k
      ensures SlotsOwned(r.index, i, r.bins[i])
    {
      assert SlotsOwned(db.index, i, db.bins[i]);
    }
  }

  ghost predicate SameSlots(a: Bin, b: Bin) {
    a.bump == b.bump && a.free == b.free && a.tombs == b.tombs && a.keys == b.keys
  }

  /** Ownership depends on slots and keys only. */
  lemma SameSlotsOwned(a: DB, b: DB)
    requires Owned(a) && b.index == a.index && |b.bins| == |a.bins|
    requires forall i :: 0 <= i < |a.bins| ==> SameSlots(a.bins[i], b.bins[i])
    ensures Owned(b)
  {
    forall i | 0 <= i < |b.bins|
      ensures SlotsOwned(b.index, i, b.bins[i])
    {
      assert SlotsOwned(a.index, i, a.bins[i]);
      assert forall s: nat :: KeyAt(b.bins[i], s) == KeyAt(a.bins[i], s);
    }
    forall f | f in b.index
      ensures KeyAt(b.bins[b.index[f].dimIdx], b.index[f].entryIdx) == f
    {
      assert SameSlots(a.bins[b.index[f].dimIdx], b.bins[b.index[f].dimIdx]);
    }
  }

  /** Allocating a slot for a new feature. */
  lemma AllocOwns(db: DB, k: nat, f: nat)
    requires Owned(db) && k < |db.bins| && f != 0 && f !in db.index
    ensures var (b, s) := Alloc(db.bins[k]); Owned(Take(db, k, b, s, f))
  {
    var was := db.bins[k];
    var (b, s) := Alloc(was);
    assert SlotsOwned(db.index, k, was);
    assert forall i: nat :: KeyAt(b, i) == KeyAt(was, i);
    if was.free != [] {
      assert was.free == b.free + [s];
      assert s in was.free;
      assert forall i :: 0 <= i < |b.free| ==> b.free[i] != s;
    }
    TakeOwns(db, k, b, s, f);
  }

  /** Writing a feature's own key again changes no key. */
  lemma RetakeOwns(db: DB, f: nat)
    requires Owned(db) && f in db.index
    ensures Owned(Take(db, db.index[f].dimIdx, db.bins[db.index[f].dimIdx], db.index[f].entryIdx, f))
  {
    var k, s := db.index[f].dimIdx, db.index[f].entryIdx;
    var r := Take(db, k, db.bins[k], s, f);
    assert r.index == db.index;
    assert forall i: nat :: KeyAt(r.bins[k], i) == KeyAt(db.bins[k], i);
    forall i | 0 <= i < |r.bins|
      ensures SlotsOwned(r.index, i, r.bins[i])
    {
      assert SlotsOwned(db.index, i, db.bins[i]);
    }
  }

  lemma PutKeyOwns(gr: Group, k: nat, r: Request)
    requires Owned(gr.db) && k < |gr.db.bins|
    ensures Owned(PutKey(gr, k, r).db)
  {
    if r.feature != 0 && r.emb.Some? {
      if r.feature !in gr.db.index {
        AllocOwns(gr.db, k, r.feature);
      } else if gr.db.index[r.feature].dimIdx == k {
        RetakeOwns(gr.db, r.feature);
      }
    }
  }

  // ----- the writes put off by a group -----

  predicate Applies(r: Request, f: nat) {
    r.feature == f && f != 0 && r.emb.Some?
  }

  ghost predicate Asks(rs: seq<Request>, f: nat) {
    exists i :: 0 <= i < |rs| && Applies(rs[i], f)
  }

  /** The last embedding the batch gives for `f`. */
  ghost function LastEmb(rs: seq<Request>, f: nat): (e: Bytes)
    requires Asks(rs, f)
  {
    if Applies(rs[|rs| - 1], f) then rs[|rs| - 1].emb.value else
      assert Asks(rs[..|rs| - 1], f) by {
        var i :| 0 <= i < |rs| && Applies(rs[i], f);
        assert rs[..|rs| - 1][i] == rs[i];
      }
      LastEmb(rs[..|rs| - 1], f)
  }

  lemma LastEmbMore(s: seq<Request>, r: Request, f: nat)
    ensures Asks(s + [r], f) <==> Applies(r, f) || Asks(s, f)
    ensures Applies(r, f) ==> LastEmb(s + [r], f) == r.emb.value
    ensures !Applies(r, f) && Asks(s, f) ==> LastEmb(s + [r], f) == LastEmb(s, f)
  {
    var rs := s + [r];
    assert rs[|s|] == r && rs[..|s|] == s;
    assert forall i :: 0 <= i < |s| ==> rs[i] == s[i];
  }

  /** Only slot bookkeeping and keys of the bin differ. */
  ghost predicate SameData(a: Bin, b: Bin) {
    && b == a.(bump := b.bump, free := b.free, keys := b.keys, dataSize := b.dataSize, keySize := b.keySize)
    && a.bump <= b.bump && a.dataSize <= b.dataSize && a.keySize <= b.keySize
    && (SizesOk(a) ==> SizesOk(b))
  }

  ghost predicate Grows(a: map<nat, Place>, b: map<nat, Place>) {
    forall f :: f in a ==> f in b && b[f] == a[f]
  }

  /** Bin `k` took slots and keys; nothing else in the database differs, and no feature moved. */
  ghost predicate OnlySlots(a: DB, b: DB, k: nat) {
    && b == a.(bins := b.bins, index := b.index)
    && |a.bins| == |b.bins| && k < |a.bins|
    && (forall i :: 0 <= i < |a.bins| && i != k ==> b.bins[i] == a.bins[i])
    && SameData(a.bins[k], b.bins[k])
    && Grows(a.index, b.index)
  }

  /** Every feature asked for has a slot in bin `k`, and its last write is the last asked for. */
  ghost predicate Answered(gr: Group, k: nat, rs: seq<Request>) {
    forall f {:trigger Asks(rs, f)} :: Asks(rs, f) ==> AnsweredFor(gr, k, rs, f)
  }

  ghost predicate AnsweredFor(gr: Group, k: nat, rs: seq<Request>, f: nat)
    requires Asks(rs, f)
  {
    && f in gr.db.index && gr.db.index[f].dimIdx == k
    && Names(gr.deferred, gr.db.index[f].entryIdx)
    && LastData(gr.deferred, gr.db.index[f].entryIdx) == LastEmb(rs, f)
  }

  /** A request that applies: the group gains one write, to the feature's slot in bin `k`. */
  lemma PutKeyApplies(gr: Group, k: nat, r: Request)
    requires Owned(gr.db) && k < |gr.db.bins| && r.feature != 0 && r.emb.Some?
    requires r.feature in gr.db.index ==> gr.db.index[r.feature].dimIdx == k
    ensures var n := PutKey(gr, k, r);
            && OnlySlots(gr.db, n.db, k) && n.status == gr.status
            && r.feature in n.db.index && n.db.index[r.feature].dimIdx == k
            && n.deferred == gr.deferred + [Write(n.db.index[r.feature].entryIdx, r.emb.value)]
            && (forall f :: f in n.db.index ==> f == r.feature || f in gr.db.index)
  {
  }

  lemma PutKeySkips(gr: Group, k: nat, r: Request)
    requires k < |gr.db.bins|
    requires r.feature == 0 || r.emb.None? || (r.feature in gr.db.index && gr.db.index[r.feature].dimIdx != k)
    ensures PutKey(gr, k, r) == gr.(status := PutKey(gr, k, r).status)
    ensures PutKey(gr, k, r).status == Success ==> gr.status == Success && !(r.feature != 0 && r.emb.Some?)
  {
  }

  lemma OwnersDiffer(db: DB, f: nat, h: nat)
    requires Owned(db) && f in db.index && h in db.index && f != h && db.index[f].dimIdx == db.index[h].dimIdx
    ensures db.index[f].entryIdx != db.index[h].entryIdx
  {
  }

  lemma AnsweredMore(gr: Group, k: nat, s: seq<Request>, r: Request)
    requires Owned(gr.db) && k < |gr.db.bins| && Answered(gr, k, s) && r.feature != 0 && r.emb.Some?
    requires r.feature in gr.db.index ==> gr.db.index[r.feature].dimIdx == k
    ensures Answered(PutKey(gr, k, r), k, s + [r])
  {
    hide Owned, PutKey, LastEmb, LastData, Names, Asks;
    var n := PutKey(gr, k, r);
    PutKeyApplies(gr, k, r);
    PutKeyOwns(gr, k, r);
    forall f | Asks(s + [r], f)
      ensures AnsweredFor(n, k, s + [r], f)
    {
      LastEmbMore(s, r, f);
      LastDataMore(gr.deferred, Write(n.db.index[r.feature].entryIdx, r.emb.value),
                   if f in n.db.index then n.db.index[f].entryIdx else 0);
      if f != r.feature {
        assert AnsweredFor(gr, k, s, f);
        OwnersDiffer(n.db, f, r.feature);
      }
    }
  }

  lemma OnlySlotsShape(a: DB, b: DB, k: nat)
    requires Shape(a) && OnlySlots(a, b, k)
    ensures Shape(b)
  {
    hide DimRegistries.Distinct;
    forall i | 0 <= i < |b.bins|
      ensures BinOk(b.bins[i]) && Formed(b.bins[i], b.cfg, b.dims[i])
    {
      assert BinOk(a.bins[i]);
    }
  }

  lemma OnlySlotsTrans(a: DB, b: DB, c: DB, k: nat)
    requires OnlySlots(a, b, k) && OnlySlots(b, c, k)
    ensures OnlySlots(a, c, k)
  {
  }

  lemma OnlySlotsRefl(a: DB, k: nat)
    requires k < |a.bins|
    ensures OnlySlots(a, a, k)
  {
  }

  ghost predicate OneDim(rs: seq<Request>, dim: nat) {
    forall i :: 0 <= i < |rs| ==> rs[i].dim == dim
  }

  /** What the key loop of a group achieves. */
  ghost predicate KeysPut(start: Group, k: nat, rs: seq<Request>, n: Group) {
    && Inv(n.db) && OnlySlots(start.db, n.db, k)
    && Fits(start.db.bins[k].cache.g, n.deferred)
    && (n.status == Success ==> start.status == Success && Answered(n, k, rs))
  }

  lemma KeysPutMore(start: Group, k: nat, s: seq<Request>, r: Request, gr: Group)
    requires k < |start.db.bins| && KeysPut(start, k, s, gr)
    requires r.emb.Some? ==> |r.emb.value| == start.db.bins[k].cache.g.entrySize
    ensures KeysPut(start, k, s + [r], PutKey(gr, k, r))
  {
    hide Owned, Shape, PutKey, Answered, OnlySlots;
    SameBins(start.db, gr.db, k);
    var n := PutKey(gr, k, r);
    if r.feature == 0 || r.emb.None? || (r.feature in gr.db.index && gr.db.index[r.feature].dimIdx != k) {
      PutKeySkips(gr, k, r);
      AnsweredSkips(gr, n, k, s, r);
    } else {
      PutKeyApplies(gr, k, r);
      PutKeyOwns(gr, k, r);
      OnlySlotsShape(gr.db, n.db, k);
      OnlySlotsTrans(start.db, gr.db, n.db, k);
      if gr.status == Success {
        AnsweredMore(gr, k, s, r);
      }
    }
  }

  lemma SameBins(a: DB, b: DB, k: nat)
    requires OnlySlots(a, b, k)
    ensures |a.bins| == |b.bins| && k < |a.bins| && b.dims == a.dims && b.cfg == a.cfg
    ensures b.bins[k].cache == a.bins[k].cache
  {
  }

  lemma AnsweredSkips(gr: Group, n: Group, k: nat, s: seq<Request>, r: Request)
    requires n == gr.(status := n.status)
    ensures Answered(gr, k, s) && !(r.feature != 0 && r.emb.Some?) ==> Answered(n, k, s + [r])
  {
    if Answered(gr, k, s) && !(r.feature != 0 && r.emb.Some?) {
      forall f | Asks(s + [r], f)
        ensures AnsweredFor(n, k, s + [r], f)
      {
        LastEmbMore(s, r, f);
        assert AnsweredFor(gr, k, s, f);
      }
    }
  }

  lemma {:induction false} PutKeysFacts(start: Group, k: nat, rs: seq<Request>)
    requires Inv(start.db) && k < |start.db.bins| && start.deferred == []
    requires OneDim(rs, start.db.dims[k]) && RequestsOk(start.db.cfg, rs)
    ensures KeysPut(start, k, rs, PutKeys(start, k, rs))
    decreases |rs|
  {
    if rs == [] {
      OnlySlotsRefl(start.db, k);
      assert forall f :: !Asks(rs, f);
    } else {
      var s, r := rs[..|rs| - 1], rs[|rs| - 1];
      assert rs == s + [r];
      PutKeysFacts(start, k, s);
      KeysPutMore(start, k, s, r, PutKeys(start, k, s));
    }
  }

  // ----- one dim group, and the whole batch -----

  ghost predicate GroupOk(db: DB, k: nat, rs: seq<Request>) {
    Inv(db) && k < |db.bins| && OneDim(rs, db.dims[k]) && RequestsOk(db.cfg, rs)
  }

  function Reserved(db: DB, k: nat, count: nat): (r: DB)
    requires Shape(db) && k < |db.bins|
  {
    db.(bins := db.bins[k := Reserve(db.bins[k], count)])
  }

  lemma ReservedKeeps(db: DB, k: nat, count: nat)
    requires Inv(db) && k < |db.bins|
    ensures Inv(Reserved(db, k, count)) && OnlySlots(db, Reserved(db, k, count), k)
  {
    OnlySlotsShape(db, Reserved(db, k, count), k);
    SameSlotsOwned(db, Reserved(db, k, count));
  }

  /** A dim group of `graveldb_batch_put`: reserve, the key loop, then the embedding batch. */
  function PutGroup(db: DB, k: nat, rs: seq<Request>, status: Status): (r: (DB, Status))
    requires GroupOk(db, k, rs)
  {
    ReservedKeeps(db, k, |rs|);
    var start := Group(Reserved(db, k, |rs|), [], status);
    PutKeysFacts(start, k, rs);
    var gr := PutKeys(start, k, rs);
    if gr.deferred == [] then (gr.db, gr.status) else
      var (b, wrote) := PutBatch(gr.db.bins[k], gr.deferred);
      (gr.db.(bins := gr.db.bins[k := b]), if wrote == Success then gr.status else wrote)
  }

  /** Only bin `k` and the index differ, and no feature moved. */
  ghost predicate OnlyBin(a: DB, b: DB, k: nat) {
    && b == a.(bins := b.bins, index := b.index)
    && |a.bins| == |b.bins| && k < |a.bins|
    && (forall i :: 0 <= i < |a.bins| && i != k ==> b.bins[i] == a.bins[i])
    && Grows(a.index, b.index)
  }

  /** Writing embeddings moves no slot: ownership is untouched. */
  lemma PutBatchOwns(db: DB, k: nat, ws: seq<Write>)
    requires Inv(db) && k < |db.bins| && Fits(db.bins[k].cache.g, ws)
    ensures Inv(db.(bins := db.bins[k := PutBatch(db.bins[k], ws).0]))
  {
    hide Owned, SlotsOwned, BinOk, PutSorted, TouchedPages, Overlaid, Accepted, DimRegistries.Distinct;
    PutBatchReads(db.bins[k], ws, 0);
    SameSlotsOwned(db, db.(bins := db.bins[k := PutBatch(db.bins[k], ws).0]));
  }

  /** Every feature asked for is indexed in bin `k` and reads back its last embedding. */
  ghost predicate ReadsBack(db: DB, k: nat, rs: seq<Request>)
    requires Shape(db)
  {
    forall f {:trigger Asks(rs, f)} :: Asks(rs, f) ==>
      && f in db.index && db.index[f].dimIdx == k < |db.bins|
      && Read(db.bins[k], db.index[f].entryIdx) == LastEmb(rs, f)
  }

  lemma BatchAnswers(gr: Group, k: nat, rs: seq<Request>)
    requires Inv(gr.db) && k < |gr.db.bins| && Fits(gr.db.bins[k].cache.g, gr.deferred) && Answered(gr, k, rs)
    requires PutBatch(gr.db.bins[k], gr.deferred).1 == Success
    ensures var r := gr.db.(bins := gr.db.bins[k := PutBatch(gr.db.bins[k], gr.deferred).0]);
            Shape(r) && ReadsBack(r, k, rs)
  {
    hide Owned, PutBatch, Asks, LastEmb, Names, LastData;
    var r := gr.db.(bins := gr.db.bins[k := PutBatch(gr.db.bins[k], gr.deferred).0]);
    PutBatchOwns(gr.db, k, gr.deferred);
    forall f | Asks(rs, f)
      ensures f in r.index && r.index[f].dimIdx == k && Read(r.bins[k], r.index[f].entryIdx) == LastEmb(rs, f)
    {
      assert AnsweredFor(gr, k, rs, f);
      PutBatchReads(gr.db.bins[k], gr.deferred, r.index[f].entryIdx);
    }
  }

  /** A dim group keeps every invariant, touches no other bin, and when all is well every
      feature in it reads back the last embedding given for it. */
  lemma PutGroupFacts(db: DB, k: nat, rs: seq<Request>, status: Status)
    requires GroupOk(db, k, rs)
    ensures var (r, st) := PutGroup(db, k, rs, status);
            && Inv(r) && OnlyBin(db, r, k)
            && (st == Success ==> status == Success && ReadsBack(r, k, rs))
  {
    hide Owned, Shape, PutBatch, Answered, OnlySlots, PutKeys, BinOk;
    ReservedKeeps(db, k, |rs|);
    var start := Group(Reserved(db, k, |rs|), [], status);
    PutKeysFacts(start, k, rs);
    var gr := PutKeys(start, k, rs);
    OnlySlotsTrans(db, start.db, gr.db, k);
    GroupFrame(db, gr, k, gr.db.bins);
    SameBins(start.db, gr.db, k);
    if gr.deferred == [] {
      NothingAsked(gr, k, rs);
    } else {
      BinsAreOk(gr.db, k);
      GroupFrame(db, gr, k, gr.db.bins[k := PutBatch(gr.db.bins[k], gr.deferred).0]);
      PutBatchOwns(gr.db, k, gr.deferred);
      if gr.status == Success && PutBatch(gr.db.bins[k], gr.deferred).1 == Success {
        BatchAnswers(gr, k, rs);
      }
    }
  }

  lemma BinsAreOk(db: DB, k: nat)
    requires Shape(db) && k < |db.bins|
    ensures BinOk(db.bins[k]) && db.bins[k].cache.g == GeometryFor(db.cfg, db.dims[k])
  {
  }

  lemma GroupFrame(db: DB, gr: Group, k: nat, bins: seq<Bin>)
    requires OnlySlots(db, gr.db, k) && |bins| == |gr.db.bins|
    requires forall i :: 0 <= i < |bins| && i != k ==> bins[i] == gr.db.bins[i]
    ensures OnlyBin(db, gr.db.(bins := bins), k)
  {
  }

  lemma NothingAsked(gr: Group, k: nat, rs: seq<Request>)
    requires Inv(gr.db) && gr.deferred == []
    ensures Answered(gr, k, rs) ==> ReadsBack(gr.db, k, rs)
  {
    assert Answered(gr, k, rs) ==> forall f :: Asks(rs, f) ==> AnsweredFor(gr, k, rs, f);
  }

  /** How many requests at the front share the first one's dim. */
  function LeadRun(rs: seq<Request>): (n: nat)
    requires rs != []
    ensures 0 < n <= |rs| && OneDim(rs[..n], rs[0].dim)
    ensures n < |rs| ==> rs[n].dim != rs[0].dim
  {
    if |rs| == 1 || rs[1].dim != rs[0].dim then 1 else
      var n := LeadRun(rs[1..]);
      assert forall i :: 1 <= i <= n ==> rs[i] == rs[1..][..n][i - 1];
      n + 1
  }

  /** The bin for a dim, created if the dim is new. */
  function BinFor(db: DB, dim: nat): (r: (DB, nat))
    requires dim > 0
  {
    var k := DimRegistries.IndexOf(db.dims, dim);
    if k >= 0 then (db, k) else (CreateBin(db, dim), |db.dims|)
  }

  /** The group loop of `graveldb_batch_put`, over requests sorted by dim. */
  function PutGroups(db: DB, rs: seq<Request>, status: Status): (r: (DB, Status))
    requires Inv(db) && RequestsOk(db.cfg, rs)
    decreases |rs|
  {
    if rs == [] then (db, status)
    else if DimRegistries.IndexOf(db.dims, rs[0].dim) < 0 && !db.cfg.autoCreate then (db, Invalid)
    else
      var n := LeadRun(rs);
      assert EmbOk(db.cfg, rs[0]);
      BinForFacts(db, rs[0].dim);
      var (db1, k) := BinFor(db, rs[0].dim);
      PutGroupFacts(db1, k, rs[..n], status);
      var (db2, st) := PutGroup(db1, k, rs[..n], status);
      PutGroups(db2, rs[n..], st)
  }

  function DimKey(): Request -> int {
    (r: Request) => r.dim
  }

  /** `graveldb_batch_put`. */
  function BatchPut(db: DB, rs: seq<Request>): (r: (DB, Status))
    requires Inv(db) && RequestsOk(db.cfg, rs)
  {
    SortedRequestsOk(db.cfg, rs);
    PutGroups(db, StableSort.Sort(rs, DimKey()), Success)
  }

  lemma SortedRequestsOk(cfg: Config, rs: seq<Request>)
    requires RequestsOk(cfg, rs)
    ensures RequestsOk(cfg, StableSort.Sort(rs, DimKey()))
  {
    StableSort.SortFacts(rs, DimKey());
    var s := StableSort.Sort(rs, DimKey());
    forall i | 0 <= i < |s|
      ensures EmbOk(cfg, s[i])
    {
      assert s[i] in multiset(s) && s[i] in multiset(rs);
    }
  }

  /** Adding an empty bin for a new dim. */
  lemma CreateBinKeeps(db: DB, dim: nat)
    requires Inv(db) && dim > 0 && dim !in db.dims
    ensures Inv(CreateBin(db, dim))
  {
    var r := CreateBin(db, dim);
    var share := BufferSize(db.cfg) / (|db.dims| + 1);
    DivLess(BufferSize(db.cfg), 1, |db.dims| + 1);
    FewPages(db.cfg, dim, if share < 4194304 then 4194304 else share);
    assert Owned(r) by {
      forall i | 0 <= i < |r.bins|
        ensures SlotsOwned(r.index, i, r.bins[i])
      {
        if i < |db.bins| {
          assert SlotsOwned(db.index, i, db.bins[i]);
        }
      }
    }
  }

  lemma BinForFacts(db: DB, dim: nat)
    requires Inv(db) && dim > 0
    ensures var (r, k) := BinFor(db, dim);
            Inv(r) && k < |r.bins| && r.dims[k] == dim && r.cfg == db.cfg && r.left == db.left && r.index == db.index
            && db.dims <= r.dims && db.bins <= r.bins
  {
    hide Inv;
    if DimRegistries.IndexOf(db.dims, dim) < 0 {
      CreateBinKeeps(db, dim);
      SizesMatch(CreateBin(db, dim));
    } else {
      SizesMatch(db);
    }
  }

  lemma SizesMatch(db: DB)
    requires Inv(db)
    ensures |db.bins| == |db.dims|
  {
  }

  // ----- read your writes -----

  ghost predicate InDimOrder(rs: seq<Request>) {
    forall i, j :: 0 <= i < j < |rs| ==> rs[i].dim <= rs[j].dim
  }

  ghost predicate AsksDim(rs: seq<Request>, dim: nat) {
    exists i :: 0 <= i < |rs| && rs[i].dim == dim
  }

  /** Bins of dims the batch does not mention are untouched, and no feature moved. */
  ghost predicate Extends(a: DB, b: DB, rs: seq<Request>) {
    && b.cfg == a.cfg && b.left == a.left && a.dims <= b.dims && |a.bins| == |a.dims| <= |b.bins| == |b.dims|
    && Grows(a.index, b.index)
    && (forall i :: 0 <= i < |a.bins| && !AsksDim(rs, a.dims[i]) ==> b.bins[i] == a.bins[i])
  }

  /** The feature is indexed in the bin of the dim it was given with, and reads back. */
  ghost predicate BackFor(db: DB, rs: seq<Request>, f: nat)
    requires Shape(db) && Asks(rs, f)
  {
    && f in db.index && db.index[f].dimIdx < |db.bins|
    && Read(db.bins[db.index[f].dimIdx], db.index[f].entryIdx) == LastEmb(rs, f)
    && (forall i :: 0 <= i < |rs| && Applies(rs[i], f) ==> rs[i].dim == db.dims[db.index[f].dimIdx])
  }

  ghost predicate AllBack(db: DB, rs: seq<Request>)
    requires Shape(db)
  {
    forall f {:trigger Asks(rs, f)} :: Asks(rs, f) ==> BackFor(db, rs, f)
  }

  lemma {:induction false} LastEmbSplit(a: seq<Request>, b: seq<Request>, f: nat)
    ensures Asks(a + b, f) <==> Asks(a, f) || Asks(b, f)
    ensures Asks(a + b, f) ==> LastEmb(a + b, f) == if Asks(b, f) then LastEmb(b, f) else LastEmb(a, f)
    decreases |b|
  {
    if b == [] {
      assert a + b == a;
    } else {
      var s, r := b[..|b| - 1], b[|b| - 1];
      assert b == s + [r] && a + b == (a + s) + [r];
      LastEmbSplit(a, s, f);
      LastEmbMore(s, r, f);
      LastEmbMore(a + s, r, f);
    }
  }

  /** Later groups concern other dims, so what a group wrote stays. */
  lemma BackMore(db2: DB, db3: DB, k: nat, a: seq<Request>, b: seq<Request>, f: nat)
    requires Shape(db2) && Shape(db3) && Extends(db2, db3, b) && k < |db2.bins|
    requires OneDim(a, db2.dims[k]) && !AsksDim(b, db2.dims[k])
    requires ReadsBack(db2, k, a) && AllBack(db3, b) && Asks(a + b, f)
    ensures BackFor(db3, a + b, f)
  {
    hide Shape, Read, LastEmb, BinOk;
    LastEmbSplit(a, b, f);
    if Asks(a, f) {
      assert f in db2.index && db2.index[f].dimIdx == k;
      assert f in db3.index && db3.index[f] == db2.index[f];
      assert db3.dims[k] == db2.dims[k] && db3.bins[k] == db2.bins[k];
      assert !Asks(b, f);
      assert forall i :: 0 <= i < |b| ==> !Applies(b[i], f);
      assert forall i :: 0 <= i < |a + b| && Applies((a + b)[i], f) ==> i < |a| && (a + b)[i] == a[i];
    } else {
      assert BackFor(db3, b, f);
      assert forall i :: 0 <= i < |a| ==> !Applies(a[i], f);
      assert forall i :: 0 <= i < |a + b| && Applies((a + b)[i], f) ==> i >= |a| && (a + b)[i] == b[i - |a|];
    }
  }

  lemma ExtendsMore(db: DB, db1: DB, db2: DB, db3: DB, k: nat, rs: seq<Request>, n: nat)
    requires 0 < n <= |rs| && |db.bins| == |db.dims| && |db1.bins| == |db1.dims|
    requires db1.cfg == db.cfg && db1.left == db.left && db1.index == db.index && db.dims <= db1.dims && db.bins <= db1.bins
    requires k < |db1.bins| && db1.dims[k] == rs[0].dim && OnlyBin(db1, db2, k) && Extends(db2, db3, rs[n..])
    ensures Extends(db, db3, rs)
  {
    forall i | 0 <= i < |db.bins| && !AsksDim(rs, db.dims[i])
      ensures db3.bins[i] == db.bins[i]
    {
      assert i != k by {
        assert rs[0].dim == db1.dims[k];
      }
      assert !AsksDim(rs[n..], db2.dims[i]) by {
        assert forall j :: 0 <= j < |rs[n..]| ==> rs[n..][j] == rs[n + j];
      }
    }
  }

  lemma LaterDims(rs: seq<Request>)
    requires rs != [] && InDimOrder(rs)
    ensures InDimOrder(rs[LeadRun(rs)..]) && !AsksDim(rs[LeadRun(rs)..], rs[0].dim)
  {
    var n := LeadRun(rs);
    forall j | 0 <= j < |rs[n..]|
      ensures rs[n..][j].dim != rs[0].dim
    {
      assert rs[n..][j] == rs[n + j] && rs[n].dim <= rs[n + j].dim;
    }
  }

  /** The group loop keeps the invariant and touches only the bins of the dims asked for; when
      its status is success, every feature asked for reads back. */
  lemma {:induction false} PutGroupsFacts(db: DB, rs: seq<Request>, status: Status)
    requires Inv(db) && RequestsOk(db.cfg, rs) && InDimOrder(rs)
    ensures var (r, st) := PutGroups(db, rs, status);
            && Inv(r) && Extends(db, r, rs)
            && (st == Success ==> status == Success && AllBack(r, rs))
    decreases |rs|
  {
    hide Inv, Shape, PutGroup, BinFor, OnlyBin, Extends, AllBack, InDimOrder;
    if rs == [] {
      NoRequests(db);
    } else if DimRegistries.IndexOf(db.dims, rs[0].dim) < 0 && !db.cfg.autoCreate {
      Unchanged(db, rs);
    } else {
      PutFirstGroup(db, rs, status);
    }
  }

  lemma NoRequests(db: DB)
    requires Inv(db)
    ensures Extends(db, db, []) && AllBack(db, [])
  {
  }

  lemma Unchanged(db: DB, rs: seq<Request>)
    requires Inv(db)
    ensures Extends(db, db, rs)
  {
  }

  lemma {:induction false} PutFirstGroup(db: DB, rs: seq<Request>, status: Status)
    requires Inv(db) && RequestsOk(db.cfg, rs) && InDimOrder(rs) && rs != []
    requires DimRegistries.IndexOf(db.dims, rs[0].dim) >= 0 || db.cfg.autoCreate
    ensures var (r, st) := PutGroups(db, rs, status);
            && Inv(r) && Extends(db, r, rs)
            && (st == Success ==> status == Success && AllBack(r, rs))
    decreases |rs|, 0
  {
    hide Inv, Shape, PutGroup, BinFor, OnlyBin, Extends, AllBack, InDimOrder;
    var n := LeadRun(rs);
    assert EmbOk(db.cfg, rs[0]);
    BinForFacts(db, rs[0].dim);
    SizesMatch(db);
    var (db1, k) := BinFor(db, rs[0].dim);
    SizesMatch(db1);
    PutGroupFacts(db1, k, rs[..n], status);
    var (db2, st) := PutGroup(db1, k, rs[..n], status);
    LaterDims(rs);
    GroupDims(db1, db2, k);
    PutGroupsFacts(db2, rs[n..], st);
    var (db3, end) := PutGroups(db2, rs[n..], st);
    ExtendsMore(db, db1, db2, db3, k, rs, n);
    if end == Success {
      GroupsBack(db2, db3, k, rs, n);
    }
  }

  lemma GroupDims(a: DB, b: DB, k: nat)
    requires OnlyBin(a, b, k)
    ensures b.cfg == a.cfg && b.dims == a.dims && |b.bins| == |a.bins|
  {
  }

  lemma GroupsBack(db2: DB, db3: DB, k: nat, rs: seq<Request>, n: nat)
    requires Inv(db2) && Inv(db3) && n <= |rs| && k < |db2.bins| && Extends(db2, db3, rs[n..])
    requires OneDim(rs[..n], db2.dims[k]) && !AsksDim(rs[n..], db2.dims[k])
    requires ReadsBack(db2, k, rs[..n]) && AllBack(db3, rs[n..])
    ensures AllBack(db3, rs)
  {
    hide Extends, ReadsBack, Owned, BinOk;
    assert rs == rs[..n] + rs[n..];
    forall f | Asks(rs, f)
      ensures BackFor(db3, rs, f)
    {
      BackMore(db2, db3, k, rs[..n], rs[n..], f);
    }
  }

  /** If every request for `f` has dim `d`, its last embedding is decided among those of dim `d`. */
  lemma {:induction false} LastEmbInDim(rs: seq<Request>, d: nat, f: nat)
    requires forall i :: 0 <= i < |rs| && Applies(rs[i], f) ==> rs[i].dim == d
    ensures var mine := StableSort.WithKey(rs, DimKey(), d);
            && (Asks(rs, f) <==> Asks(mine, f))
            && (Asks(rs, f) ==> LastEmb(rs, f) == LastEmb(mine, f))
    decreases |rs|
  {
    hide Asks, LastEmb, Applies;
    if rs == [] {
      assert StableSort.WithKey(rs, DimKey(), d) == rs;
    } else {
      var s, r := rs[..|rs| - 1], rs[|rs| - 1];
      assert rs == s + [r];
      assert forall i :: 0 <= i < |s| ==> s[i] == rs[i];
      LastEmbInDim(s, d, f);
      LastEmbMore(s, r, f);
      var before := StableSort.WithKey(s, DimKey(), d);
      LastEmbMore(before, r, f);
      assert StableSort.WithKey(rs, DimKey(), d) == if r.dim == d then before + [r] else before;
    }
  }

  /** Sorting the requests by dim keeps the last embedding of a feature with one dim. */
  lemma SortKeepsLastEmb(rs: seq<Request>, d: nat, f: nat)
    requires forall i :: 0 <= i < |rs| && Applies(rs[i], f) ==> rs[i].dim == d
    ensures var s := StableSort.Sort(rs, DimKey());
            && (Asks(s, f) <==> Asks(rs, f))
            && (Asks(rs, f) ==> LastEmb(s, f) == LastEmb(rs, f))
  {
    hide Asks, LastEmb;
    var s := StableSort.Sort(rs, DimKey());
    StableSort.SortMembers(rs, DimKey());
    forall i | 0 <= i < |s| && Applies(s[i], f)
      ensures s[i].dim == d
    {
      assert s[i] in s && s[i] in rs;
    }
    StableSort.SortStable(rs, DimKey(), d);
    LastEmbInDim(rs, d, f);
    LastEmbInDim(s, d, f);
  }

  /** What holds for the sorted requests holds for the requests as given. */
  lemma BackInOrder(r: DB, rs: seq<Request>, f: nat)
    requires Shape(r) && AllBack(r, StableSort.Sort(rs, DimKey())) && Asks(rs, f)
    ensures BackFor(r, rs, f)
  {
    hide BinOk, DimRegistries.Distinct, GeometryFor, LastEmb, Read, Applies;
    var s := StableSort.Sort(rs, DimKey());
    StableSort.SortMembers(rs, DimKey());
    var i :| 0 <= i < |rs| && Applies(rs[i], f);
    assert rs[i] in rs && rs[i] in s;
    var j :| 0 <= j < |s| && s[j] == rs[i];
    assert Asks(s, f) && BackFor(r, s, f);
    var d := r.dims[r.index[f].dimIdx];
    forall i | 0 <= i < |rs| && Applies(rs[i], f)
      ensures rs[i].dim == d
    {
      assert rs[i] in rs && rs[i] in s;
    }
    SortKeepsLastEmb(rs, d, f);
  }

  /** Read your writes: a batch put keeps the invariant, and when it returns success every
      feature asked for is indexed in the bin of its dim and reads back the last embedding
      given for it in batch order. */
  lemma BatchPutReadsBack(db: DB, rs: seq<Request>)
    requires Inv(db) && RequestsOk(db.cfg, rs)
    ensures var (r, st) := BatchPut(db, rs);
            Inv(r) && (st == Success ==> forall f :: Asks(rs, f) ==> BackFor(r, rs, f))
  {
    hide Owned, Shape, PutGroups, Extends, BackFor;
    var s := StableSort.Sort(rs, DimKey());
    SortedRequestsOk(db.cfg, rs);
    StableSort.SortFacts(rs, DimKey());
    assert InDimOrder(s);
    PutGroupsFacts(db, s, Success);
    var (r, st) := BatchPut(db, rs);
    if st == Success {
      forall f | Asks(rs, f)
        ensures BackFor(r, rs, f)
      {
        BackInOrder(r, rs, f);
      }
    }
  }

  /** Dims are only ever added, after the others. */
  lemma BatchPutDims(db: DB, rs: seq<Request>)
    requires Inv(db) && RequestsOk(db.cfg, rs)
    ensures var r := BatchPut(db, rs).0; db.dims <= r.dims && |r.bins| == |r.dims| && r.left == db.left
  {
    hide Inv, PutGroups;
    var s := StableSort.Sort(rs, DimKey());
    SortedRequestsOk(db.cfg, rs);
    StableSort.SortFacts(rs, DimKey());
    assert InDimOrder(s);
    PutGroupsFacts(db, s, Success);
  }

  // ----- what a batch put leaves alone -----

  /** Every write put off goes to the slot of a feature the group asks for. */
  ghost predicate OnlyAsked(gr: Group, k: nat, rs: seq<Request>) {
    forall i :: 0 <= i < |gr.deferred| ==> SlotOfAsked(gr.db, k, rs, gr.deferred[i].id)
  }

  ghost predicate SlotOfAsked(db: DB, k: nat, rs: seq<Request>, s: nat) {
    exists f :: Asks(rs, f) && f in db.index && db.index[f] == HashIndexes.Place(k, s)
  }

  lemma OnlyAskedMore(gr: Group, k: nat, s: seq<Request>, r: Request)
    requires Owned(gr.db) && k < |gr.db.bins| && OnlyAsked(gr, k, s)
    ensures OnlyAsked(PutKey(gr, k, r), k, s + [r])
  {
    hide Owned;
    var n := PutKey(gr, k, r);
    forall i | 0 <= i < |n.deferred|
      ensures SlotOfAsked(n.db, k, s + [r], n.deferred[i].id)
    {
      if i < |gr.deferred| {
        assert SlotOfAsked(gr.db, k, s, gr.deferred[i].id);
        var f :| Asks(s, f) && f in gr.db.index && gr.db.index[f] == HashIndexes.Place(k, gr.deferred[i].id);
        LastEmbMore(s, r, f);
      } else {
        LastEmbMore(s, r, r.feature);
      }
    }
  }

  lemma {:induction false} PutKeysOnlyAsked(start: Group, k: nat, rs: seq<Request>)
    requires Inv(start.db) && k < |start.db.bins| && start.deferred == []
    requires OneDim(rs, start.db.dims[k]) && RequestsOk(start.db.cfg, rs)
    ensures OnlyAsked(PutKeys(start, k, rs), k, rs)
    decreases |rs|
  {
    if rs != [] {
      var s, r := rs[..|rs| - 1], rs[|rs| - 1];
      assert rs == s + [r];
      PutKeysOnlyAsked(start, k, s);
      PutKeysFacts(start, k, s);
      OnlyAskedMore(PutKeys(start, k, s), k, s, r);
    }
  }

  /** Two loop states alike in all that the requests for `fs` of a group of bin `k` look at. */
  ghost predicate Alike(a: Group, b: Group, k: nat, fs: set<nat>) {
    && k < |a.db.bins| && k < |b.db.bins| && a.db.bins[k] == b.db.bins[k] && a.deferred == b.deferred
    && forall f :: f in fs ==>
         (f in a.db.index <==> f in b.db.index) && (f in a.db.index ==> a.db.index[f] == b.db.index[f])
  }

  lemma PutKeyAlike(a: Group, b: Group, k: nat, fs: set<nat>, r: Request)
    requires Alike(a, b, k, fs) && (Applies(r, r.feature) ==> r.feature in fs)
    ensures Alike(PutKey(a, k, r), PutKey(b, k, r), k, fs)
  {
  }

  /** The key loop depends on its bin and on where the features asked for are, on nothing else. */
  lemma {:induction false} PutKeysAlike(a: Group, b: Group, k: nat, fs: set<nat>, rs: seq<Request>)
    requires k < |a.db.bins| && k < |b.db.bins| && Alike(a, b, k, fs)
    requires forall i :: 0 <= i < |rs| && Applies(rs[i], rs[i].feature) ==> rs[i].feature in fs
    ensures Alike(PutKeys(a, k, rs), PutKeys(b, k, rs), k, fs)
    decreases |rs|
  {
    hide Alike;
    if rs != [] {
      PutKeysAlike(a, b, k, fs, rs[..|rs| - 1]);
      PutKeyAlike(PutKeys(a, k, rs[..|rs| - 1]), PutKeys(b, k, rs[..|rs| - 1]), k, fs, rs[|rs| - 1]);
    }
  }

  /** What the slot and key loop of a group leaves: its bin, and the writes put off. */
  ghost function Deferred(db: DB, k: nat, rs: seq<Request>): (gr: Group)
    requires GroupOk(db, k, rs)
    ensures k < |gr.db.bins| && BinOk(gr.db.bins[k])
  {
    ReservedKeeps(db, k, |rs|);
    PutKeysFacts(Group(Reserved(db, k, |rs|), [], Success), k, rs);
    PutKeys(Group(Reserved(db, k, |rs|), [], Success), k, rs)
  }

  /** A slot not written by a batch keeps its value: the bin is in a checkpoint, or the batch keeps
      the slot's page. */
  ghost predicate KeptInBin(b: Bin, ws: seq<Write>, s: nat)
    requires BinOk(b)
  {
    b.inCkpt || Kept(b.cache, ExtentOf(b), Touched(b.cache.g.epp, ws), s / b.cache.g.epp)
  }

  /** Slot `s` of bin `k`, not written by the group, keeps its value. */
  ghost predicate KeptByGroup(db: DB, k: nat, rs: seq<Request>, s: nat)
    requires GroupOk(db, k, rs)
  {
    KeptInBin(Deferred(db, k, rs).db.bins[k], Deferred(db, k, rs).deferred, s)
  }

  /** The slot is safe from a batch: its bin is in a checkpoint, its page is reloaded, or its page is
      buffered and the pages the batch touches fit into the buffer. */
  ghost predicate Resident(b: Bin, ws: seq<Write>, s: nat)
    requires BinOk(b)
  {
    var p := s / b.cache.g.epp;
    || b.inCkpt
    || Reloads(b.cache.g, ExtentOf(b), p)
    || (p in b.cache.buf && Flushless(b.cache.buf.Keys, Touched(b.cache.g.epp, ws), b.cache.maxPages))
  }

  lemma ResidentIsKept(b: Bin, mid: Bin, ws: seq<Write>, s: nat)
    requires BinOk(b) && BinOk(mid) && SameData(b, mid) && Resident(b, ws, s)
    ensures KeptInBin(mid, ws, s)
  {
    hide Touched, Flushless, Below, FileOk;
    DivMono(b.bump, mid.bump, b.cache.g.epp);
    FlushlessBelow(b.cache.buf.Keys, Touched(b.cache.g.epp, ws), b.cache.maxPages, s / b.cache.g.epp);
  }

  lemma FlushlessBelow(buf: set<nat>, t: set<nat>, most: nat, p: nat)
    ensures Flushless(buf, t, most) ==> Flushless(buf, Below(t, p), most)
  {
    SubsetSize(Below(t, p) - buf, t - buf);
  }

  /** The key loop leaves the cache of its bin as it was. */
  lemma DeferredBin(db: DB, k: nat, rs: seq<Request>)
    requires GroupOk(db, k, rs)
    ensures SameData(db.bins[k], Deferred(db, k, rs).db.bins[k])
  {
    hide Owned, PutKeys;
    ReservedKeeps(db, k, |rs|);
    var start := Group(Reserved(db, k, |rs|), [], Success);
    PutKeysFacts(start, k, rs);
    OnlySlotsTrans(db, start.db, PutKeys(start, k, rs).db, k);
  }

  /** The status a group starts from makes no difference to what it writes. */
  lemma StatusApart(db: DB, k: nat, rs: seq<Request>, status: Status)
    requires GroupOk(db, k, rs)
    ensures var gr := PutKeys(Group(Reserved(db, k, |rs|), [], status), k, rs);
            gr.db.bins[k] == Deferred(db, k, rs).db.bins[k] && gr.deferred == Deferred(db, k, rs).deferred
  {
    hide PutKeys, Owned;
    ReservedKeeps(db, k, |rs|);
    var start := Group(Reserved(db, k, |rs|), [], Success);
    PutKeysAlike(start.(status := status), start, k, set r | r in rs :: r.feature, rs);
  }

  lemma PutBatchExact(b: Bin, ws: seq<Write>, s: nat)
    requires BinOk(b) && Fits(b.cache.g, ws) && !Names(ws, s)
    ensures BinOk(PutBatch(b, ws).0)
    ensures Read(PutBatch(b, ws).0, s) ==
            if KeptInBin(b, ws, s) then Read(b, s) else Zeros(b.cache.g.entrySize)
  {
    hide Kept, Touched;
    PutBatchReads(b, ws, s);
    var done := ws[..Accepted(b, ws)];
    assert forall i :: 0 <= i < |done| ==> done[i] == ws[i];
  }

  lemma NothingTouched(b: Bin, s: nat)
    requires BinOk(b)
    ensures KeptInBin(b, [], s)
  {
  }

  /** The exact effect of a dim group on a feature of its bin that it does not ask for: unchanged if
      its slot is kept, zeros if not. */
  lemma PutGroupExact(db: DB, k: nat, rs: seq<Request>, status: Status, f: nat)
    requires GroupOk(db, k, rs) && f in db.index && db.index[f].dimIdx == k && !Asks(rs, f)
    ensures var r, s := PutGroup(db, k, rs, status).0, db.index[f].entryIdx;
            && Shape(r) && k < |r.bins|
            && Read(r.bins[k], s) ==
                 if KeptByGroup(db, k, rs, s) then Read(db.bins[k], s) else Zeros(db.bins[k].cache.g.entrySize)
  {
    hide Owned, PutKeys, PutBatch, DimRegistries.Distinct, Names, Asks, BinOk, KeptInBin, Read;
    var s := db.index[f].entryIdx;
    ReservedKeeps(db, k, |rs|);
    var start := Group(Reserved(db, k, |rs|), [], status);
    PutKeysFacts(start, k, rs);
    PutKeysOnlyAsked(start, k, rs);
    var gr := PutKeys(start, k, rs);
    OnlySlotsTrans(db, start.db, gr.db, k);
    SameRead(db.bins[k], gr.db.bins[k], s);
    StatusApart(db, k, rs, status);
    NotAsked(gr, k, rs, f);
    if gr.deferred != [] {
      PutBatchExact(gr.db.bins[k], gr.deferred, s);
    } else {
      NothingTouched(gr.db.bins[k], s);
    }
    PutGroupFacts(db, k, rs, status);
  }

  lemma SameRead(a: Bin, b: Bin, s: nat)
    requires BinOk(a) && BinOk(b) && SameData(a, b)
    ensures Read(a, s) == Read(b, s)
  {
  }

  lemma NotAsked(gr: Group, k: nat, rs: seq<Request>, f: nat)
    requires Owned(gr.db) && OnlyAsked(gr, k, rs)
    requires f in gr.db.index && gr.db.index[f].dimIdx == k && !Asks(rs, f)
    ensures !Names(gr.deferred, gr.db.index[f].entryIdx)
  {
    forall i | 0 <= i < |gr.deferred|
      ensures gr.deferred[i].id != gr.db.index[f].entryIdx
    {
      assert SlotOfAsked(gr.db, k, rs, gr.deferred[i].id);
      var h :| Asks(rs, h) && h in gr.db.index && gr.db.index[h] == HashIndexes.Place(k, gr.deferred[i].id);
      OwnersDiffer(gr.db, f, h);
    }
  }
}
