/** Closing and opening: the index is rebuilt by scanning the key files, bin by bin. */
module Reopening {
  import opened Pages
  import opened PageCaches
  import opened Bins
  import opened Stores
  import opened Arithmetic
  import DimRegistries
  import HashIndexes

  /** A slot of a key file and the feature it names; 0 for none. */
  datatype KeySlot = KeySlot(place: Place, id: nat)

  /** The index and the free lists as the scan builds them. */
  datatype Rebuilt = Rebuilt(index: map<nat, Place>, free: seq<seq<nat>>)

  ghost predicate InRange(st: Rebuilt) {
    forall id :: id in st.index ==> st.index[id].dimIdx < |st.free|
  }

  function Freed(free: seq<seq<nat>>, p: Place): (r: seq<seq<nat>>)
    requires p.dimIdx < |free|
    ensures |r| == |free|
  {
    free[p.dimIdx := free[p.dimIdx] + [p.entryIdx]]
  }

  /** One step of the scan.  An empty slot is freed.  A feature already found in another bin is
      dropped, and both its slots are freed. */
  function Visit(st: Rebuilt, k: KeySlot): (r: Rebuilt)
    requires k.place.dimIdx < |st.free| && InRange(st)
    ensures |r.free| == |st.free| && InRange(r)
  {
    if k.id == 0 then st.(free := Freed(st.free, k.place))
    else if k.id in st.index && st.index[k.id].dimIdx != k.place.dimIdx then
      Rebuilt(st.index - {k.id}, Freed(Freed(st.free, st.index[k.id]), k.place))
    else st.(index := st.index[k.id := k.place])
  }

  ghost predicate BinsBelow(ks: seq<KeySlot>, n: nat) {
    forall i :: 0 <= i < |ks| ==> ks[i].place.dimIdx < n
  }

  function VisitAll(n: nat, ks: seq<KeySlot>): (r: Rebuilt)
    requires BinsBelow(ks, n)
    ensures |r.free| == n && InRange(r)
  {
    if ks == [] then Rebuilt(map[], seq(n, _ => [])) else Visit(VisitAll(n, ks[..|ks| - 1]), ks[|ks| - 1])
  }

  /** The slots of the key file of bin `i`, and of the first bins together, in scan order. */
  function SlotsOf(i: nat, file: seq<nat>): (r: seq<KeySlot>) {
    seq(|file|, e requires 0 <= e < |file| => KeySlot(HashIndexes.Place(i, e), file[e]))
  }

  function Slots(files: seq<seq<nat>>): (r: seq<KeySlot>)
    ensures BinsBelow(r, |files|)
  {
    if files == [] then [] else Slots(files[..|files| - 1]) + SlotsOf(|files| - 1, files[|files| - 1])
  }

  lemma VisitAllMore(n: nat, s: seq<KeySlot>, k: KeySlot)
    requires BinsBelow(s, n) && k.place.dimIdx < n
    ensures BinsBelow(s + [k], n) && VisitAll(n, s + [k]) == Visit(VisitAll(n, s), k)
  {
    assert (s + [k])[..|s|] == s;
  }

  /** `rebuild_index_from_keys`. */
  method Rebuild(files: seq<seq<nat>>) returns (st: Rebuilt)
    ensures st == VisitAll(|files|, Slots(files))
  {
    hide Visit;
    st := Rebuilt(map[], seq(|files|, _ => []));
    assert files[..0] == [];
    for i := 0 to |files|
      invariant BinsBelow(Slots(files[..i]), |files|)
      invariant st == VisitAll(|files|, Slots(files[..i]))
    {
      st := ScanFile(st, i, files[i], |files|, Slots(files[..i]));
      assert files[..i + 1][..i] == files[..i];
    }
    assert files[..|files|] == files;
  }

  /** The scan of one key file. */
  method ScanFile(before: Rebuilt, i: nat, file: seq<nat>, ghost n: nat, ghost front: seq<KeySlot>) returns (st: Rebuilt)
    requires i < n && BinsBelow(front, n) && before == VisitAll(n, front)
    ensures BinsBelow(front + SlotsOf(i, file), n) && st == VisitAll(n, front + SlotsOf(i, file))
  {
    hide VisitAll, Visit;
    st := before;
    ghost var all := SlotsOf(i, file);
    assert front + all[..0] == front;
    for e := 0 to |file|
      invariant BinsBelow(front + all[..e], n) && st == VisitAll(n, front + all[..e])
    {
      VisitAllMore(n, front + all[..e], all[e]);
      assert front + all[..e + 1] == front + all[..e] + [all[e]];
      st := Visit(st, KeySlot(HashIndexes.Place(i, e), file[e]));
    }
    assert all[..|file|] == all;
  }

  // ----- which occurrence of a feature survives -----

  /** What the scan remembers of one feature: its latest slot, unless the slot before it was in
      another bin. */
  ghost function Survivor(ks: seq<KeySlot>, id: nat): (p: Option<Place>) {
    if ks == [] then None
    else
      var before, k := Survivor(ks[..|ks| - 1], id), ks[|ks| - 1];
      if k.id != id then before
      else if before.Some? && before.value.dimIdx != k.place.dimIdx then None
      else Some(k.place)
  }

  /** The index holds exactly the survivors, whatever the key files contain. */
  lemma {:induction false} IndexIsSurvivors(n: nat, ks: seq<KeySlot>, id: nat)
    requires BinsBelow(ks, n) && id != 0
    ensures id in VisitAll(n, ks).index <==> Survivor(ks, id).Some?
    ensures id in VisitAll(n, ks).index ==> VisitAll(n, ks).index[id] == Survivor(ks, id).value
    decreases |ks|
  {
    if ks != [] {
      IndexIsSurvivors(n, ks[..|ks| - 1], id);
    }
  }

  lemma {:induction false} ZeroNeverIndexed(n: nat, ks: seq<KeySlot>)
    requires BinsBelow(ks, n)
    ensures 0 !in VisitAll(n, ks).index
    decreases |ks|
  {
    if ks != [] {
      ZeroNeverIndexed(n, ks[..|ks| - 1]);
    }
  }

  ghost predicate Occurs(ks: seq<KeySlot>, id: nat) {
    exists i :: 0 <= i < |ks| && ks[i].id == id
  }

  lemma {:induction false} AbsentDoesNotSurvive(ks: seq<KeySlot>, id: nat)
    requires !Occurs(ks, id)
    ensures Survivor(ks, id) == None
    decreases |ks|
  {
    if ks != [] {
      assert !Occurs(ks[..|ks| - 1], id) by {
        assert forall i :: 0 <= i < |ks| - 1 ==> ks[..|ks| - 1][i] == ks[i];
      }
      AbsentDoesNotSurvive(ks[..|ks| - 1], id);
    }
  }

  /** A feature in one slot survives there. */
  lemma {:induction false} OnceSurvives(ks: seq<KeySlot>, j: nat)
    requires j < |ks| && forall i :: 0 <= i < |ks| && i != j ==> ks[i].id != ks[j].id
    ensures Survivor(ks, ks[j].id) == Some(ks[j].place)
    decreases |ks|
  {
    var s := ks[..|ks| - 1];
    if j == |s| {
      AbsentDoesNotSurvive(s, ks[j].id);
    } else {
      assert s[j] == ks[j];
      OnceSurvives(s, j);
    }
  }

  /** A feature in one slot of each of two bins survives in neither. */
  lemma {:induction false} TwiceIsDropped(ks: seq<KeySlot>, i: nat, j: nat)
    requires i < j < |ks| && ks[i].id == ks[j].id && ks[i].place.dimIdx != ks[j].place.dimIdx
    requires forall h :: 0 <= h < |ks| && h != i && h != j ==> ks[h].id != ks[j].id
    ensures Survivor(ks, ks[j].id) == None
    decreases |ks|
  {
    var s := ks[..|ks| - 1];
    if j == |s| {
      assert s[i] == ks[i];
      OnceSurvives(s, i);
    } else {
      assert s[i] == ks[i] && s[j] == ks[j];
      TwiceIsDropped(s, i, j);
    }
  }

  // ----- key files in which no feature occurs twice -----

  ghost predicate Unique(ks: seq<KeySlot>) {
    forall i, j :: 0 <= i < j < |ks| && ks[i].id == ks[j].id ==> ks[i].id == 0
  }

  /** The empty slots of bin `b`, in scan order. */
  ghost function EmptyIn(ks: seq<KeySlot>, b: nat): seq<nat> {
    if ks == [] then []
    else
      var k := ks[|ks| - 1];
      EmptyIn(ks[..|ks| - 1], b) + if k.id == 0 && k.place.dimIdx == b then [k.place.entryIdx] else []
  }

  /** Without conflicts exactly the empty slots are freed, in ascending order. */
  lemma {:induction false} FreeIsEmpty(n: nat, ks: seq<KeySlot>, b: nat)
    requires BinsBelow(ks, n) && Unique(ks) && b < n
    ensures VisitAll(n, ks).free[b] == EmptyIn(ks, b)
    decreases |ks|
  {
    if ks != [] {
      var s, k := ks[..|ks| - 1], ks[|ks| - 1];
      assert forall i :: 0 <= i < |s| ==> s[i] == ks[i];
      FreeIsEmpty(n, s, b);
      if k.id != 0 {
        assert !Occurs(s, k.id);
        AbsentDoesNotSurvive(s, k.id);
        IndexIsSurvivors(n, s, k.id);
      }
    }
  }

  // ----- the slots of a list of key files -----

  ghost predicate InFiles(files: seq<seq<nat>>, k: KeySlot) {
    && k.place.dimIdx < |files| && k.place.entryIdx < |files[k.place.dimIdx]|
    && files[k.place.dimIdx][k.place.entryIdx] == k.id
  }

  ghost predicate DistinctPlaces(ks: seq<KeySlot>) {
    forall i, j :: 0 <= i < j < |ks| ==> ks[i].place != ks[j].place
  }

  /** The scan meets every slot of every file once. */
  lemma {:induction false} SlotsAreAll(files: seq<seq<nat>>)
    ensures forall k :: k in Slots(files) <==> InFiles(files, k)
    ensures DistinctPlaces(Slots(files))
    decreases |files|
  {
    if files != [] {
      var n, front, file := |files| - 1, files[..|files| - 1], files[|files| - 1];
      SlotsAreAll(front);
      var a, b := Slots(front), SlotsOf(n, file);
      forall k: KeySlot
        ensures k in Slots(files) <==> InFiles(files, k)
      {
        assert k in Slots(files) <==> k in a || k in b;
        if k.place.dimIdx == n && k.place.entryIdx < |file| {
          assert b[k.place.entryIdx].place == k.place;
        }
      }
      forall i, j | 0 <= i < j < |a + b|
        ensures (a + b)[i].place != (a + b)[j].place
      {
        if i < |a| <= j {
          assert a[i] in a && InFiles(front, a[i]);
        }
      }
    }
  }

  /** The positions of the zeros, ascending. */
  ghost function ZeroSlots(file: seq<nat>): seq<nat> {
    if file == [] then []
    else ZeroSlots(file[..|file| - 1]) + if file[|file| - 1] == 0 then [|file| - 1] else []
  }

  lemma {:induction false} EmptyInConcat(a: seq<KeySlot>, b: seq<KeySlot>, i: nat)
    ensures EmptyIn(a + b, i) == EmptyIn(a, i) + EmptyIn(b, i)
    decreases |b|
  {
    if b == [] {
      assert a + b == a;
    } else {
      assert (a + b)[..|a + b| - 1] == a + b[..|b| - 1];
      EmptyInConcat(a, b[..|b| - 1], i);
    }
  }

  lemma {:induction false} EmptyInOne(n: nat, file: seq<nat>, i: nat)
    ensures EmptyIn(SlotsOf(n, file), i) == if i == n then ZeroSlots(file) else []
    decreases |file|
  {
    if file != [] {
      assert SlotsOf(n, file)[..|file| - 1] == SlotsOf(n, file[..|file| - 1]);
      EmptyInOne(n, file[..|file| - 1], i);
    }
  }

  lemma {:induction false} EmptyInFiles(files: seq<seq<nat>>, i: nat)
    ensures EmptyIn(Slots(files), i) == if i < |files| then ZeroSlots(files[i]) else []
    decreases |files|
  {
    if files != [] {
      EmptyInFiles(files[..|files| - 1], i);
      EmptyInConcat(Slots(files[..|files| - 1]), SlotsOf(|files| - 1, files[|files| - 1]), i);
      EmptyInOne(|files| - 1, files[|files| - 1], i);
    }
  }

  lemma {:induction false} ZeroSlotsAre(file: seq<nat>)
    ensures forall s: nat :: s in ZeroSlots(file) <==> s < |file| && file[s] == 0
    ensures forall i, j :: 0 <= i < j < |ZeroSlots(file)| ==> ZeroSlots(file)[i] < ZeroSlots(file)[j]
    ensures forall i :: 0 <= i < |ZeroSlots(file)| ==> ZeroSlots(file)[i] < |file|
    decreases |file|
  {
    if file != [] {
      ZeroSlotsAre(file[..|file| - 1]);
    }
  }

  // ----- the round trip -----

  ghost predicate Closeable(db: DB, zs: seq<Sizes>) {
    && Inv(db) && |zs| == |db.bins|
    && (forall i :: 0 <= i < |db.bins| ==>
          && !db.bins[i].inCkpt
          && db.bins[i].dataSize <= zs[i].data && db.bins[i].keySize <= zs[i].keys)
  }

  /** The key file of a closed bin: `graveldb_close` has flushed every buffered key. */
  function KeyFile(b: Bin, z: Sizes): (file: seq<nat>)
    requires b.cache.g.entrySize > 0
  {
    seq(SlotCount(z, b.cache.g.entrySize), s requires s >= 0 => KeyAt(b, s))
  }

  function KeyFiles(db: DB, zs: seq<Sizes>): (files: seq<seq<nat>>)
    requires Closeable(db, zs)
  {
    seq(|db.bins|, i requires 0 <= i < |db.bins| =>
      assert Ok(db.bins[i].cache);
      KeyFile(db.bins[i], zs[i]))
  }

  /** A bin as `graveldb_open` leaves it, over the files its last owner closed: its share of the write
      buffer is recomputed, and the slots the scan freed are on the free list. */
  function OpenedBin(b: Bin, z: Sizes, free: seq<nat>, generation: nat, maxPages: nat, budget: nat): (r: Bin)
    requires b.cache.g.entrySize > 0
  {
    FreeAll(BeforeScan(b, z, generation, maxPages, budget), free)
  }

  function BeforeScan(b: Bin, z: Sizes, generation: nat, maxPages: nat, budget: nat): (r: Bin)
    requires b.cache.g.entrySize > 0
  {
    Bin(Flush(b.cache).(maxPages := maxPages), z.data, {}, {}, generation, false, map[], [], budget, b.vector,
        SlotCount(z, b.cache.g.entrySize), [], b.keys, z.keys)
  }

  /** The pages one bin of `db` buffers after an open: the buffer is shared out equally. */
  function PageShare(db: DB, i: nat): (n: nat)
    requires Shape(db) && i < |db.bins|
    ensures n > 0
  {
    assert Ok(db.bins[i].cache);
    MaxPages(BufferSize(db.cfg) / |db.bins|, db.bins[i].cache.g.pageSize)
  }

  /** `graveldb_open` over the files of `db`, whose index it does not see. */
  function Opened(db: DB, zs: seq<Sizes>, generations: seq<nat>): (r: DB)
    requires Closeable(db, zs) && |generations| == |db.bins|
  {
    var st := VisitAll(|db.bins|, Slots(KeyFiles(db, zs)));
    db.(index := st.index,
        bins := seq(|db.bins|, i requires 0 <= i < |db.bins| =>
          assert Ok(db.bins[i].cache);
          OpenedBin(db.bins[i], zs[i], st.free[i], generations[i], PageShare(db, i), db.cfg.overlayBudget)))
  }

  // ----- the dims the open lists -----

  predicate SameLayout(a: Config, b: Config) {
    a.align == b.align && a.pageSize == b.pageSize
  }

  /** The files of a dim: those of its bin, or none yet. */
  function BinOn(db: DB, dim: nat): (b: Bin)
    requires |db.bins| == |db.dims| && dim > 0
  {
    var k := DimRegistries.IndexOf(db.dims, dim);
    if k >= 0 then db.bins[k] else NewBin(db.cfg, dim, 0)
  }

  /** Every dim, and every listed dim, is a dim, and none is listed twice. */
  predicate Listing(db: DB, listed: seq<nat>) {
    && |db.bins| == |db.dims| && (forall j :: 0 <= j < |listed| ==> listed[j] > 0)
    && (forall i, j :: 0 <= i < j < |listed| ==> listed[i] != listed[j])
  }

  /** The features whose dim is listed, in the bin of that dim. */
  function ListedIndex(db: DB, listed: seq<nat>): (m: map<nat, Place>) {
    map f | f in db.index && IsListed(db, listed, f) ::
      HashIndexes.Place(DimRegistries.IndexOf(listed, db.dims[db.index[f].dimIdx]), db.index[f].entryIdx)
  }

  predicate IsListed(db: DB, listed: seq<nat>, f: nat)
    requires f in db.index
  {
    db.index[f].dimIdx < |db.dims| && db.dims[db.index[f].dimIdx] in listed
  }

  /** The part of a closed store that an open with these dims has before it. */
  function Picked(db: DB, cfg: Config, listed: seq<nat>): (p: DB)
    requires Listing(db, listed)
    ensures |p.bins| == |p.dims| == |listed|
  {
    DB(cfg, listed, seq(|listed|, j requires 0 <= j < |listed| => BinOn(db, listed[j])), ListedIndex(db, listed),
       (set d | d in db.left + (set d | d in db.dims) && d !in listed))
  }

  /** The dims listed are registered or have no files, the page layout is the one the files were
      written with, and the files are no shorter than what was written. */
  ghost predicate Fitting(db: DB, cfg: Config, listed: seq<nat>, zs: seq<Sizes>) {
    && ConfigOk(cfg) && SameLayout(db.cfg, cfg)
    && Listing(db, listed) && (forall j :: 0 <= j < |listed| ==> listed[j] !in db.left)
    && |zs| == |listed|
    && forall j :: 0 <= j < |listed| ==> Holding(BinOn(db, listed[j]), zs[j])
  }

  /** A store closed outside a checkpoint, and what it is opened with. */
  ghost predicate Openable(db: DB, cfg: Config, listed: seq<nat>, zs: seq<Sizes>) {
    Inv(db) && (forall i :: 0 <= i < |db.bins| ==> !db.bins[i].inCkpt) && Fitting(db, cfg, listed, zs)
  }

  ghost predicate Holding(b: Bin, z: Sizes) {
    b.dataSize <= z.data && b.keySize <= z.keys
  }

  /** The database after `graveldb_close` and `graveldb_open` with these dims. */
  function Reopened(db: DB, cfg: Config, listed: seq<nat>, zs: seq<Sizes>, generations: seq<nat>): (r: DB)
    requires Openable(db, cfg, listed, zs) && |generations| == |listed|
  {
    PickedCloseable(db, cfg, listed, zs);
    Opened(Picked(db, cfg, listed), zs, generations)
  }

  lemma BinOnFacts(db: DB, cfg: Config, listed: seq<nat>, j: nat)
    requires Inv(db) && (forall i :: 0 <= i < |db.bins| ==> !db.bins[i].inCkpt)
    requires SameLayout(db.cfg, cfg) && Listing(db, listed) && j < |listed|
    ensures var b := BinOn(db, listed[j]);
            BinOk(b) && SizesOk(b) && !b.inCkpt && Formed(b, cfg, listed[j]) && SlotsOwned(ListedIndex(db, listed), j, b)
  {
    hide BinOk, SizesOk, SlotsOwned, ListedIndex, Owned;
    BinOnOwned(db, listed, j);
  }

  lemma BinOnOwned(db: DB, listed: seq<nat>, j: nat)
    requires Inv(db) && Listing(db, listed) && j < |listed|
    ensures SlotsOwned(ListedIndex(db, listed), j, BinOn(db, listed[j]))
  {
    hide Shape, BinOk, SizesOk, IndexOwned;
    DimRegistries.IndexOfAt(listed, j);
    var k := DimRegistries.IndexOf(db.dims, listed[j]);
    if k >= 0 {
      assert SlotsOwned(db.index, k, db.bins[k]);
    }
  }

  lemma PickedCloseable(db: DB, cfg: Config, listed: seq<nat>, zs: seq<Sizes>)
    requires Openable(db, cfg, listed, zs)
    ensures Closeable(Picked(db, cfg, listed), zs)
  {
    hide BinOk, SizesOk, SlotsOwned, BinOn, Inv;
    var p := Picked(db, cfg, listed);
    forall j | 0 <= j < |listed|
      ensures BinOk(p.bins[j]) && SizesOk(p.bins[j]) && !p.bins[j].inCkpt && Formed(p.bins[j], cfg, listed[j])
      ensures SlotsOwned(p.index, j, p.bins[j]) && Holding(p.bins[j], zs[j])
    {
      BinOnFacts(db, cfg, listed, j);
    }
    PickedOwned(db, cfg, listed);
    PickedInv(p);
  }

  lemma PickedInv(p: DB)
    requires ConfigOk(p.cfg) && Listing(p, p.dims) && IndexOwned(p.index, p.bins)
    requires forall j :: 0 <= j < |p.bins| ==>
               BinOk(p.bins[j]) && SizesOk(p.bins[j]) && Formed(p.bins[j], p.cfg, p.dims[j]) && SlotsOwned(p.index, j, p.bins[j])
    ensures Inv(p)
  {
    hide BinOk, SizesOk, SlotsOwned;
  }

  lemma PickedOwned(db: DB, cfg: Config, listed: seq<nat>)
    requires Inv(db) && Listing(db, listed)
    ensures IndexOwned(ListedIndex(db, listed), Picked(db, cfg, listed).bins)
    ensures var p := Picked(db, cfg, listed);
            forall f :: f in p.index ==> p.index[f].entryIdx == db.index[f].entryIdx
                                         && p.bins[p.index[f].dimIdx] == db.bins[db.index[f].dimIdx]
  {
    hide Shape, SlotsOwned;
    var m := ListedIndex(db, listed);
    forall f | f in m
      ensures m[f].dimIdx < |listed| && BinOn(db, listed[m[f].dimIdx]) == db.bins[db.index[f].dimIdx]
    {
      DistinctDims(db);
      DimRegistries.IndexOfAt(db.dims, db.index[f].dimIdx);
    }
  }

  lemma DistinctDims(db: DB)
    requires Inv(db)
    ensures DimRegistries.Distinct(db.dims) && |db.bins| == |db.dims|
  {
  }

  /** No slot handed out is beyond what the reopened bin scans. */
  lemma EnoughSlots(b: Bin, z: Sizes)
    requires BinOk(b) && SizesOk(b) && b.dataSize <= z.data && b.keySize <= z.keys
    ensures b.bump <= SlotCount(z, b.cache.g.entrySize)
  {
    var es := b.cache.g.entrySize;
    DivMono(b.bump * es, z.data, es);
    DivModUnique(b.bump * es, es, b.bump, 0);
    DivMono(b.bump * 8, z.keys, 8);
  }

  lemma SlotNames(db: DB, zs: seq<Sizes>, k: KeySlot)
    requires Closeable(db, zs) && InFiles(KeyFiles(db, zs), k) && k.id != 0
    ensures k.id in db.index && db.index[k.id] == k.place
  {
    var b := db.bins[k.place.dimIdx];
    assert SlotsOwned(db.index, k.place.dimIdx, b) && b.tombs == [];
    assert KeyAt(b, k.place.entryIdx) == k.id;
  }

  lemma FeatureNamed(db: DB, zs: seq<Sizes>, f: nat)
    requires Closeable(db, zs) && f in db.index
    ensures InFiles(KeyFiles(db, zs), KeySlot(db.index[f], f))
  {
    var i, s := db.index[f].dimIdx, db.index[f].entryIdx;
    assert SlotsOwned(db.index, i, db.bins[i]) && KeyAt(db.bins[i], s) == f;
    EnoughSlots(db.bins[i], zs[i]);
  }

  /** The key files of a closed database name every indexed feature once, in its slot, and
      nothing else. */
  lemma KeyFilesHold(db: DB, zs: seq<Sizes>)
    requires Closeable(db, zs)
    ensures var ks := Slots(KeyFiles(db, zs));
            && Unique(ks)
            && (forall k :: k in ks && k.id != 0 ==> k.id in db.index && db.index[k.id] == k.place)
            && (forall f :: f in db.index ==> KeySlot(db.index[f], f) in ks)
  {
    hide Closeable, KeyFiles, Slots, InFiles;
    var ks := Slots(KeyFiles(db, zs));
    SlotsAreAll(KeyFiles(db, zs));
    forall k | k in ks && k.id != 0
      ensures k.id in db.index && db.index[k.id] == k.place
    {
      SlotNames(db, zs, k);
    }
    forall f | f in db.index
      ensures KeySlot(db.index[f], f) in ks
    {
      FeatureNamed(db, zs, f);
    }
    assert forall i :: 0 <= i < |ks| ==> ks[i] in ks;
  }

  lemma SurvivorOccurs(ks: seq<KeySlot>, id: nat)
    ensures Survivor(ks, id).Some? ==> Occurs(ks, id)
  {
    if !Occurs(ks, id) {
      AbsentDoesNotSurvive(ks, id);
    }
  }

  /** A scan in which every feature occurs once builds the map from features to slots. */
  lemma UniqueScan(n: nat, ks: seq<KeySlot>, m: map<nat, Place>)
    requires BinsBelow(ks, n) && Unique(ks) && 0 !in m
    requires forall k :: k in ks && k.id != 0 ==> k.id in m && m[k.id] == k.place
    requires forall f :: f in m ==> KeySlot(m[f], f) in ks
    ensures VisitAll(n, ks).index == m
  {
    hide VisitAll, Survivor;
    var index := VisitAll(n, ks).index;
    ZeroNeverIndexed(n, ks);
    forall f | f in m
      ensures f in index && index[f] == m[f]
    {
      var j :| 0 <= j < |ks| && ks[j] == KeySlot(m[f], f);
      OnceSurvives(ks, j);
      IndexIsSurvivors(n, ks, f);
    }
    forall f | f in index
      ensures f in m
    {
      IndexIsSurvivors(n, ks, f);
      SurvivorOccurs(ks, f);
      var j :| 0 <= j < |ks| && ks[j].id == f;
      assert ks[j] in ks;
    }
  }

  lemma IndexComesBack(db: DB, zs: seq<Sizes>)
    requires Closeable(db, zs)
    ensures VisitAll(|db.bins|, Slots(KeyFiles(db, zs))).index == db.index
  {
    KeyFilesHold(db, zs);
    UniqueScan(|db.bins|, Slots(KeyFiles(db, zs)), db.index);
  }

  /** A reopened bin: exactly the slots without a feature are free, once each, ascending; every
      key and every embedding is as it was. */
  lemma BinComesBack(db: DB, zs: seq<Sizes>, i: nat, free: seq<nat>, generation: nat, maxPages: nat, budget: nat)
    requires Closeable(db, zs) && i < |db.bins| && free == ZeroSlots(KeyFiles(db, zs)[i]) && maxPages > 0
    ensures var b, r := db.bins[i], OpenedBin(db.bins[i], zs[i], free, generation, maxPages, budget);
            && BinOk(r) && SizesOk(r) && r.cache.g == b.cache.g && r.free == free && r.bump >= b.bump
            && (forall s: nat :: KeyAt(r, s) == KeyAt(b, s)) && (forall s: nat :: Read(r, s) == Read(b, s))
            && SlotsOwned(db.index, i, r)
  {
    var b, z := db.bins[i], zs[i];
    var c := BeforeScan(b, z, generation, maxPages, budget);
    EnoughSlots(b, z);
    FlushKeeps(b.cache);
    RoomForSlots(z, b.cache.g.entrySize);
    FreeAllFrame(c, free);
    ZeroSlotsAre(KeyFiles(db, zs)[i]);
    assert SlotsOwned(db.index, i, b) && b.tombs == [];
    ScanOwns(db.index, i, b, FreeAll(c, free), KeyFiles(db, zs)[i]);
  }

  /** Freeing exactly the slots whose key is 0 leaves every slot owned. */
  lemma ScanOwns(index: map<nat, Place>, i: nat, b: Bin, r: Bin, file: seq<nat>)
    requires SlotsOwned(index, i, b) && b.tombs == [] == r.tombs && b.bump <= r.bump == |file|
    requires forall s: nat :: s < |file| ==> file[s] == KeyAt(b, s)
    requires r.free == ZeroSlots(file) && forall s: nat :: KeyAt(r, s) == if s in r.free then 0 else KeyAt(b, s)
    ensures SlotsOwned(index, i, r) && forall s: nat :: KeyAt(r, s) == KeyAt(b, s)
  {
    ZeroSlotsAre(file);
    assert forall s: nat :: KeyAt(r, s) == KeyAt(b, s);
  }

  lemma OpenedIsIdle(b: Bin, z: Sizes, free: seq<nat>, generation: nat, maxPages: nat, budget: nat)
    requires b.cache.g.entrySize > 0
    ensures var r := OpenedBin(b, z, free, generation, maxPages, budget);
            && r.tombs == [] && !r.inCkpt && r.active == {} && r.frozen == {} && r.cache.buf == map[] && r.vector == b.vector
            && r.cache.maxPages == maxPages && r.budget == budget && r.generation == generation
            && r.dataSize == z.data && r.keySize == z.keys && MostSlots(r.bump, z, b.cache.g.entrySize)
  {
    RoomForSlots(z, b.cache.g.entrySize);
    FreeAllFrame(BeforeScan(b, z, generation, maxPages, budget), free);
  }

  /** As many slots as both files have room for. */
  ghost predicate MostSlots(n: nat, z: Sizes, entrySize: nat) {
    && n * entrySize <= z.data && n * 8 <= z.keys
    && ((n + 1) * entrySize > z.data || (n + 1) * 8 > z.keys)
  }

  /** Bin `i` of the reopened database: all of its state. */
  ghost predicate CameBack(db: DB, zs: seq<Sizes>, generations: seq<nat>, r: DB, i: nat)
    requires Closeable(db, zs) && i < |db.bins| == |r.bins| == |generations|
  {
    var b, c := db.bins[i], r.bins[i];
    && BinOk(b) && BinOk(c) && SizesOk(c) && c.cache.g == b.cache.g && c.free == ZeroSlots(KeyFiles(db, zs)[i])
    && SlotsOwned(db.index, i, c) && c.tombs == [] && c.vector == b.vector
    && !c.inCkpt && c.active == {} && c.frozen == {} && c.cache.buf == map[] && c.cache.maxPages == PageShare(db, i)
    && FillsBuffer(c.cache.maxPages, EqualShare(db.cfg, |db.bins|), c.cache.g.pageSize)
    && c.generation == generations[i] && c.budget == db.cfg.overlayBudget
    && c.dataSize == zs[i].data && c.keySize == zs[i].keys && MostSlots(c.bump, zs[i], c.cache.g.entrySize)
    && (forall s: nat :: KeyAt(c, s) == KeyAt(b, s)) && (forall s: nat :: Read(c, s) == Read(b, s))
  }

  lemma EachCameBack(db: DB, zs: seq<Sizes>, generations: seq<nat>, i: nat)
    requires Closeable(db, zs) && |generations| == |db.bins| && i < |db.bins|
    ensures CameBack(db, zs, generations, Opened(db, zs, generations), i)
  {
    hide SlotsOwned, BinOk, KeyAt, ZeroSlots, OpenedBin, DimRegistries.Distinct, Read, SizesOk, Slots, VisitAll, MostSlots,
         PageShare, FillsBuffer;
    var files := KeyFiles(db, zs);
    KeyFilesHold(db, zs);
    FreeIsEmpty(|db.bins|, Slots(files), i);
    EmptyInFiles(files, i);
    BinComesBack(db, zs, i, ZeroSlots(files[i]), generations[i], PageShare(db, i), db.cfg.overlayBudget);
    OpenedIsIdle(db.bins[i], zs[i], ZeroSlots(files[i]), generations[i], PageShare(db, i), db.cfg.overlayBudget);
    ShareFills(db, i);
  }

  lemma ShareFills(db: DB, i: nat)
    requires Shape(db) && i < |db.bins|
    ensures FillsBuffer(PageShare(db, i), EqualShare(db.cfg, |db.bins|), db.bins[i].cache.g.pageSize)
  {
    hide SizesOk, DimRegistries.Distinct, MaxPages, FillsBuffer, Formed, ConfigOk;
    PagesFill(BufferSize(db.cfg) / |db.bins|, db.bins[i].cache.g.pageSize);
  }

  lemma ShareIsSmall(db: DB, i: nat)
    requires Shape(db) && i < |db.bins|
    ensures PageShare(db, i) <= MAX_FLUSH_BATCH
  {
    hide BinOk, SizesOk, DimRegistries.Distinct, MaxPages;
    DivLess(BufferSize(db.cfg), 1, |db.bins|);
    FewPages(db.cfg, db.dims[i], BufferSize(db.cfg) / |db.bins|);
  }

  lemma AllCameBack(db: DB, zs: seq<Sizes>, generations: seq<nat>, r: DB)
    requires Closeable(db, zs) && |generations| == |db.bins| && r == db.(bins := r.bins) && |r.bins| == |db.bins|
    requires forall i :: 0 <= i < |db.bins| ==> CameBack(db, zs, generations, r, i)
    ensures Inv(r)
  {
    hide SlotsOwned, BinOk, KeyAt, ZeroSlots, DimRegistries.Distinct, Read, SizesOk, KeyFiles, PageShare, ConfigOk, MostSlots, FillsBuffer;
    forall i | 0 <= i < |r.bins|
      ensures BinOk(r.bins[i]) && SizesOk(r.bins[i]) && Formed(r.bins[i], r.cfg, r.dims[i])
      ensures SlotsOwned(r.index, i, r.bins[i])
    {
      assert CameBack(db, zs, generations, r, i);
      ShareIsSmall(db, i);
    }
    forall f | f in r.index
      ensures KeyAt(r.bins[r.index[f].dimIdx], r.index[f].entryIdx) == f
      ensures r.index[f].entryIdx !in r.bins[r.index[f].dimIdx].tombs
    {
      assert CameBack(db, zs, generations, r, r.index[f].dimIdx);
    }
  }

  /** Closing and opening with some dims: exactly the features of those dims, in the same slots of
      the bins of those dims, with the same embeddings, and every other slot on a free list. */
  lemma ReopenRoundTrip(db: DB, cfg: Config, listed: seq<nat>, zs: seq<Sizes>, generations: seq<nat>)
    requires Openable(db, cfg, listed, zs) && |generations| == |listed|
    ensures var p, r := Picked(db, cfg, listed), Reopened(db, cfg, listed, zs, generations);
            && Inv(r) && r == p.(bins := r.bins) && Closeable(p, zs) && |r.bins| == |listed|
            && r.dims == listed && r.index == ListedIndex(db, listed)
            && forall j :: 0 <= j < |listed| ==> CameBack(p, zs, generations, r, j)
  {
    hide CameBack, Closeable, Slots, VisitAll, KeyFiles, Inv;
    var p, r := Picked(db, cfg, listed), Reopened(db, cfg, listed, zs, generations);
    PickedCloseable(db, cfg, listed, zs);
    IndexComesBack(p, zs);
    forall j | 0 <= j < |listed|
      ensures CameBack(p, zs, generations, r, j)
    {
      EachCameBack(p, zs, generations, j);
    }
    AllCameBack(p, zs, generations, r);
  }

  /** Listing the registered dims in their order, and more dims after them, moves no feature. */
  lemma SameOrderSamePlaces(db: DB, listed: seq<nat>)
    requires Inv(db) && Listing(db, listed) && db.dims <= listed
    ensures ListedIndex(db, listed) == db.index
  {
    hide Shape, SlotsOwned;
    DistinctDims(db);
    forall f | f in db.index
      ensures IsListed(db, listed, f) && DimRegistries.IndexOf(listed, db.dims[db.index[f].dimIdx]) == db.index[f].dimIdx
    {
      DimRegistries.IndexOfAt(listed, db.index[f].dimIdx);
    }
  }
}
