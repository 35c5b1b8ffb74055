/** Batched deletes: outside a checkpoint the slot goes to the free list and its key is zeroed;
    during one the slot is tombstoned and both happen when the checkpoint ends. */
module Deletions {
  import opened Bins
  import opened Stores
  import DimRegistries
  import HashIndexes

  /** One step of `graveldb_batch_delete`. */
  function DeleteOne(db: DB, f: nat): (r: DB)
    requires Inv(db)
  {
    if f == 0 || f !in db.index then db else
      var k, s := db.index[f].dimIdx, db.index[f].entryIdx;
      var b := if db.bins[k].inCkpt then Tombstone(db.bins[k], s) else FreeEntry(db.bins[k], s);
      db.(bins := db.bins[k := b], index := db.index - {f})
  }

  /** A slot that loses its owner becomes free, or a tombstone. */
  lemma DeleteSlots(db: DB, f: nat)
    requires Inv(db) && f in db.index
    ensures var k := db.index[f].dimIdx; SlotsOwned(DeleteOne(db, f).index, k, DeleteOne(db, f).bins[k])
  {
    hide Shape;
    var k, s := db.index[f].dimIdx, db.index[f].entryIdx;
    var b, c := db.bins[k], DeleteOne(db, f).bins[k];
    assert SlotsOwned(db.index, k, b);
    assert KeyAt(b, s) == f;
    if b.inCkpt {
      assert forall i: nat :: KeyAt(c, i) == KeyAt(b, i);
    } else {
      assert forall i: nat :: KeyAt(c, i) == if i == s then 0 else KeyAt(b, i);
      assert forall i :: 0 <= i < |b.free| ==> b.free[i] in b.free;
    }
    assert forall i :: 0 <= i < |b.tombs| ==> b.tombs[i] in b.tombs;
  }

  lemma DeleteOthers(db: DB, f: nat, h: nat)
    requires Inv(db) && f in db.index && h in db.index && h != f
    ensures var r := DeleteOne(db, f);
            && KeyAt(r.bins[db.index[h].dimIdx], db.index[h].entryIdx) == h
            && db.index[h].entryIdx !in r.bins[db.index[h].dimIdx].tombs
  {
    hide Shape;
    if db.index[h].dimIdx == db.index[f].dimIdx {
      OwnersDiffer(db, f, h);
    }
  }

  /** Another bin: the index loses a feature that no slot of this bin holds. */
  lemma OtherBin(db: DB, f: nat, i: nat)
    requires Inv(db) && f in db.index && i < |db.bins| && i != db.index[f].dimIdx
    ensures SlotsOwned(db.index - {f}, i, db.bins[i])
  {
    var b := db.bins[i];
    assert SlotsOwned(db.index, i, b);
    forall s: nat | KeyAt(b, s) != 0 && s !in b.tombs
      ensures KeyAt(b, s) in db.index - {f}
    {
      assert db.index[KeyAt(b, s)] == HashIndexes.Place(i, s);
    }
  }

  lemma SlotLost(b: Bin, s: nat)
    requires BinOk(b)
    ensures var c := if b.inCkpt then Tombstone(b, s) else FreeEntry(b, s);
            BinOk(c) && c.cache == b.cache && c.vector == b.vector && (SizesOk(b) ==> SizesOk(c)) && forall i :: Read(c, i) == Read(b, i)
  {
  }

  lemma IndexedBin(db: DB, f: nat)
    requires Inv(db) && f in db.index
    ensures f != 0 && db.index[f].dimIdx < |db.bins|
  {
  }

  lemma DeleteShape(db: DB, f: nat)
    requires Inv(db)
    ensures Shape(DeleteOne(db, f))
    ensures |DeleteOne(db, f).bins| == |db.bins|
    ensures forall i, s :: 0 <= i < |db.bins| ==> Read(DeleteOne(db, f).bins[i], s) == Read(db.bins[i], s)
  {
    hide Owned, BinOk, SizesOk, Read, DimRegistries.Distinct, Tombstone, FreeEntry, GeometryFor;
    if f in db.index {
      IndexedBin(db, f);
      SlotLost(db.bins[db.index[f].dimIdx], db.index[f].entryIdx);
    }
  }

  /** Deleting keeps the invariant and changes no stored embedding. */
  lemma DeleteOneOwns(db: DB, f: nat)
    requires Inv(db)
    ensures Inv(DeleteOne(db, f))
  {
    hide SlotsOwned, BinOk, KeyAt;
    DeleteShape(db, f);
    var r := DeleteOne(db, f);
    if f in db.index {
      DeleteSlots(db, f);
      forall i | 0 <= i < |r.bins|
        ensures SlotsOwned(r.index, i, r.bins[i])
      {
        if i != db.index[f].dimIdx {
          OtherBin(db, f, i);
        }
      }
      forall h | h in r.index
        ensures KeyAt(r.bins[r.index[h].dimIdx], r.index[h].entryIdx) == h
        ensures r.index[h].entryIdx !in r.bins[r.index[h].dimIdx].tombs
      {
        DeleteOthers(db, f, h);
      }
    }
  }

  /** `graveldb_batch_delete`. */
  function BatchDelete(db: DB, fs: seq<nat>): (r: DB)
    requires Inv(db)
    decreases |fs|
  {
    if fs == [] then db else
      DeleteOneOwns(db, fs[0]);
      BatchDelete(DeleteOne(db, fs[0]), fs[1..])
  }

  /** The features named are gone, every other keeps its place and its embedding, and the
      ownership invariant holds. */
  lemma {:induction false} BatchDeleteFacts(db: DB, fs: seq<nat>)
    requires Inv(db)
    ensures var r := BatchDelete(db, fs);
            && Inv(r) && |r.bins| == |db.bins| && r.dims == db.dims && r.cfg == db.cfg
            && r.index == db.index - (set f | f in fs)
            && (forall i, s :: 0 <= i < |db.bins| ==> Read(r.bins[i], s) == Read(db.bins[i], s))
    decreases |fs|
  {
    hide Owned, BinOk, Read;
    if fs == [] {
      assert db.index - (set f | f in fs) == db.index;
    } else {
      var next := DeleteOne(db, fs[0]);
      DeleteOneOwns(db, fs[0]);
      DeleteShape(db, fs[0]);
      BatchDeleteFacts(next, fs[1..]);
      ZeroNotIndexed(db);
      assert (set f | f in fs) == {fs[0]} + (set f | f in fs[1..]);
      assert next.index == db.index - {fs[0]};
      assert db.index - {fs[0]} - (set f | f in fs[1..]) == db.index - (set f | f in fs);
    }
  }

  lemma ZeroNotIndexed(db: DB)
    requires Inv(db)
    ensures 0 !in db.index
  {
  }

  // ----- where a deleted slot goes -----

  /** The slot of feature `f`, which was deleted: outside a checkpoint it is free and its key is zero;
      during one it is tombstoned, keeps its key and is not free. */
  ghost predicate SlotGiven(b: Bin, s: nat, f: nat) {
    if b.inCkpt then s in b.tombs && KeyAt(b, s) == f && s !in b.free
    else s in b.free && KeyAt(b, s) == 0
  }

  lemma DeletedSlot(db: DB, f: nat)
    requires Inv(db) && f in db.index
    ensures var k, s, r := db.index[f].dimIdx, db.index[f].entryIdx, DeleteOne(db, f);
            k < |r.bins| && r.bins[k].inCkpt == db.bins[k].inCkpt && SlotGiven(r.bins[k], s, f)
  {
    hide Shape;
    var k := db.index[f].dimIdx;
    assert SlotsOwned(db.index, k, db.bins[k]);
  }

  lemma StaysGiven(db: DB, f: nat, k: nat, s: nat, h: nat)
    requires Inv(db) && k < |db.bins| && SlotGiven(db.bins[k], s, f) && f != 0
    ensures var r := DeleteOne(db, h);
            k < |r.bins| && r.bins[k].inCkpt == db.bins[k].inCkpt && SlotGiven(r.bins[k], s, f)
  {
    hide Shape;
    assert SlotsOwned(db.index, k, db.bins[k]);
    if h in db.index {
      IndexedBin(db, h);
    }
  }

  lemma {:induction false} BatchStaysGiven(db: DB, fs: seq<nat>, f: nat, k: nat, s: nat)
    requires Inv(db) && k < |db.bins| && SlotGiven(db.bins[k], s, f) && f != 0
    ensures var r := BatchDelete(db, fs);
            k < |r.bins| && r.bins[k].inCkpt == db.bins[k].inCkpt && SlotGiven(r.bins[k], s, f)
    decreases |fs|
  {
    hide Inv, SlotGiven, DeleteOne;
    if fs != [] {
      DeleteOneOwns(db, fs[0]);
      StaysGiven(db, f, k, s, fs[0]);
      BatchStaysGiven(DeleteOne(db, fs[0]), fs[1..], f, k, s);
    }
  }

  lemma OtherStays(db: DB, f: nat, h: nat)
    requires Inv(db) && f in db.index && h != f
    ensures var r := DeleteOne(db, h); f in r.index && r.index[f] == db.index[f] && |r.bins| == |db.bins|
    ensures DeleteOne(db, h).bins[db.index[f].dimIdx].inCkpt == db.bins[db.index[f].dimIdx].inCkpt
  {
    hide Shape;
  }

  /** After a batch delete the slot of every feature named is free, or tombstoned if its bin is in a
      checkpoint: it is not handed out again before the checkpoint ends. */
  lemma {:induction false} DeletedSlots(db: DB, fs: seq<nat>, f: nat)
    requires Inv(db) && f in fs && f in db.index
    ensures var k, s, r := db.index[f].dimIdx, db.index[f].entryIdx, BatchDelete(db, fs);
            k < |r.bins| && k < |db.bins| && r.bins[k].inCkpt == db.bins[k].inCkpt && SlotGiven(r.bins[k], s, f)
    decreases |fs|
  {
    hide Inv, SlotGiven, DeleteOne;
    IndexedBin(db, f);
    DeleteOneOwns(db, fs[0]);
    if fs[0] == f {
      DeletedSlot(db, f);
      BatchStaysGiven(DeleteOne(db, f), fs[1..], f, db.index[f].dimIdx, db.index[f].entryIdx);
    } else {
      OtherStays(db, f, fs[0]);
      DeletedSlots(DeleteOne(db, fs[0]), fs[1..], f);
    }
  }
}
