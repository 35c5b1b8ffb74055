/** The bin as an object: key store, dirty tracker, write buffer and overlay, updated in place.
    Each method is proved to do to the bin's value what the function of the same name does. */
module DimBins {
  import opened Pages
  import opened DirtyTrackers
  import opened KeyStores
  import opened Arithmetic
  import B = Bins
  import P = PageCaches
  import FlushRuns
  import StableSort


  class DimBin {
    const g: Geometry
    const maxPages: nat
    const budget: nat
    const vector: nat
    const dirty: DirtyTracker
    const store: KeyStore
    var file: File
    var buf: File
    var dataSize: nat
    var inCkpt: bool
    var overlay: map<nat, Bytes>
    var tombs: seq<nat>
    var bump: nat
    var free: seq<nat>
    var flushNeeded: bool
    ghost var keys: map<nat, nat>

    ghost function Repr(): set<object> {
      {this, dirty, store, store.tree, store.tree.arena}
    }

    /** The value of the bin. */
    ghost function Model(): B.Bin
      reads this, dirty, store
    {
      B.Bin(P.Cache(g, maxPages, file, buf), dataSize, dirty.marked, dirty.frozen, dirty.generation,
            inCkpt, overlay, tombs, budget, vector, bump, free, keys, store.fileSize)
    }

    ghost predicate Valid()
      reads Repr()
    {
      && maxPages <= B.MAX_FLUSH_BATCH
      && B.BinOk(Model()) && B.SizesOk(Model())
      && TrackerOk() && KeysOk()
    }

    ghost predicate TrackerOk()
      reads dirty
    {
      && dirty.Valid() && dirty.active.span >= 4096
      && (forall p :: p in dirty.marked ==> p < dirty.capacity)
      && (forall p :: p in dirty.frozen ==> p < dirty.capacity)
    }

    ghost predicate KeysOk()
      reads this`keys, store, store.tree, store.tree.arena
    {
      store.Valid() && forall i: nat :: store.View(i) == if i in keys then keys[i] else 0
    }

    /** `dimbin_init` over existing files. */
    constructor (g: Geometry, dim: nat, bufferSize: nat, budget: nat, file: File, dataBytes: nat, keyFile: seq<nat>)
      requires g.Ok() && FileOk(g, file) && bufferSize / g.pageSize <= B.MAX_FLUSH_BATCH
      ensures Valid() && fresh(Repr() - {this})
      ensures this.g == g && vector == 4 * dim && this.file == file && buf == map[] && !inCkpt && free == [] && dirty.marked == {}
      ensures bump == B.SlotCount(B.Sizes(dataBytes, KEY_BYTES * |keyFile|), g.entrySize)
      ensures forall i: nat :: B.KeyAt(Model(), i) == ReadSlot(keyFile, i)
    {
      hide KeyStore.Valid, DirtyTracker.Valid, B.SlotCount;
      var pages := if bufferSize / g.pageSize == 0 then 1024 else bufferSize / g.pageSize;
      var slots := B.SlotCount(B.Sizes(dataBytes, KEY_BYTES * |keyFile|), g.entrySize);
      B.RoomForSlots(B.Sizes(dataBytes, KEY_BYTES * |keyFile|), g.entrySize);
      this.g, maxPages, this.budget, vector := g, pages, budget, 4 * dim;
      dirty := new DirtyTracker(if slots > 0 then (slots + g.epp - 1) / g.epp else 1024);
      store := new KeyStore(pages, g.epp, keyFile);
      this.file, buf, dataSize := file, map[], dataBytes;
      inCkpt, overlay, tombs, bump, free, flushNeeded := false, map[], [], slots, [], false;
      keys := map i | 0 <= i < |keyFile| :: keyFile[i];
    }

    method FlushKeys()
      requires KeysOk()
      modifies store, store.tree
      ensures KeysOk() && store.tree.contents == map[] && store.fileSize == old(store.fileSize)
    {
      hide KeyStore.Valid;
      store.FlushKeys();
    }

    method FlushPages()
      requires |buf| <= B.MAX_FLUSH_BATCH
      modifies this`file, this`buf
      ensures file == old(file) + old(buf) && buf == map[]
    {
      if |buf| > 0 {
        var pages := FlushRuns.SortedPages(buf.Keys);
        file := FlushRuns.WriteBuffered(file, buf, pages);
        buf := map[];
      } else {
        assert file + buf == file;
      }
    }

    /** `dimbin_flush`: keys first, then every buffered page. */
    method Flush()
      requires Valid()
      modifies this`file, this`buf, this`flushNeeded, store, store.tree
      ensures Valid() && Model() == B.FlushBin(old(Model()))
      ensures store.tree.contents == map[] && buf == map[]
    {
      hide TrackerOk, KeysOk, B.SizesOk;
      ghost var m := Model();
      B.FlushBinKeeps(m);
      SizesKept(m, B.FlushBin(m));
      FlushKeys();
      flushNeeded := false;
      FlushPages();
    }

    // ----- slots and keys -----

    method ExtendKeys(newSize: nat)
      requires KeysOk() && store.fileSize <= newSize
      modifies store
      ensures KeysOk() && store.fileSize == newSize
    {
      hide KeyStore.Valid;
      store.Extend(newSize);
    }

    method WriteKey(id: nat, feature: nat)
      requires KeysOk() && (id + 1) * KEY_BYTES <= store.fileSize
      modifies this`keys, store, store.tree, store.tree.arena
      ensures KeysOk() && store.fileSize == old(store.fileSize) && keys == old(keys)[id := feature]
    {
      hide KeyStore.Valid;
      store.BufKey(id, feature);
      keys := keys[id := feature];
    }

    /** `dimbin_reserve`. */
    method Reserve(count: nat)
      requires Valid()
      modifies this`dataSize, store
      ensures Valid() && Model() == B.Reserve(old(Model()), count)
    {
      hide TrackerOk, KeysOk, B.SizesOk;
      B.ReserveSizes(Model(), count);
      var required := (bump + count) * g.entrySize;
      if dataSize < required {
        var size := if dataSize > 0 then 2 * dataSize else 256 * g.pageSize;
        dataSize := DoubleUntil(size, required);
      }
      var keyRequired := (bump + count) * KEY_BYTES;
      if store.fileSize < keyRequired {
        var size := if store.fileSize > 0 then 2 * store.fileSize else 8192;
        size := DoubleUntil(size, keyRequired);
        ExtendKeys(size);
      }
    }

    /** Both files grow, each doubling once. */
    method GrowFor(slots: nat)
      requires KeysOk()
      modifies this`dataSize, store
      ensures KeysOk() && dataSize == B.GrownOnce(old(dataSize), 256 * g.pageSize, slots * g.entrySize)
      ensures store.fileSize == B.GrownOnce(old(store.fileSize), 8192, slots * KEY_BYTES)
    {
      hide KeysOk;
      var required := slots * g.entrySize;
      if dataSize < required {
        var size := if dataSize > 0 then 2 * dataSize else 256 * g.pageSize;
        dataSize := if size < required then 2 * required else size;
      }
      var keyRequired := slots * KEY_BYTES;
      if store.fileSize < keyRequired {
        var size := if store.fileSize > 0 then 2 * store.fileSize else 8192;
        ExtendKeys(if size < keyRequired then 2 * keyRequired else size);
      }
    }

    /** `dimbin_alloc_entry`. */
    method AllocEntry() returns (id: nat)
      requires Valid()
      modifies this`free, this`bump, this`dataSize, store
      ensures Valid() && (Model(), id) == B.Alloc(old(Model()))
    {
      hide TrackerOk, KeysOk, B.SizesOk, B.GrownOnce, FileOk;
      B.AllocSizes(Model());
      if |free| > 0 {
        id := free[|free| - 1];
        free := free[..|free| - 1];
      } else {
        id := bump;
        bump := bump + 1;
        GrowFor(bump);
      }
    }

    /** `dimbin_buf_key`, for a slot that was handed out. */
    method BufKey(id: nat, feature: nat)
      requires Valid() && id < bump
      modifies this`keys, store, store.tree, store.tree.arena
      ensures Valid() && Model() == B.BufKey(old(Model()), id, feature)
    {
      hide TrackerOk, KeysOk;
      WriteKey(id, feature);
    }

    /** `dimbin_free_entry`. */
    method FreeEntry(id: nat)
      requires Valid() && id < bump
      modifies this`free, this`keys, store, store.tree, store.tree.arena
      ensures Valid() && Model() == B.FreeEntry(old(Model()), id)
    {
      hide TrackerOk, KeysOk;
      free := free + [id];
      WriteKey(id, 0);
    }

    // ----- writing -----

    /** `write_buf_ensure_page`. */
    method EnsurePage(p: nat)
      requires Valid() && !inCkpt
      modifies this`file, this`buf, this`flushNeeded, store, store.tree
      ensures Valid() && p in buf
      ensures Model() == old(Model()).(cache := P.EnsurePage(old(Model()).cache, B.ExtentOf(old(Model())), p))
    {
      hide TrackerOk, KeysOk, B.SizesOk, B.BinOk, FileOk;
      ghost var m := Model();
      CacheOk(m);
      EnsureKeeps(m, p);
      if p !in buf {
        if |buf| >= maxPages {
          Flush();
        }
        CacheOk(Model());
        LoadPage(p);
      }
    }

    /** Load the page from the file, or start it as zeros. */
    method LoadPage(p: nat)
      requires FileOk(g, file) && g.Ok()
      modifies this`buf
      ensures buf == old(buf)[p := if P.Reloads(g, P.Extent(bump, dataSize), p) then PageOf(g, file, p)
                                   else Zeros(g.pageSize)]
    {
      var firstCommitted := bump / g.epp;
      if p < firstCommitted && p * g.pageSize < dataSize {
        buf := buf[p := PageOf(g, file, p)];
      } else {
        buf := buf[p := Zeros(g.pageSize)];
      }
    }

    /** Room in the dirty tracker for page `p`. */
    method EnsureTracked(p: nat)
      requires TrackerOk()
      modifies dirty
      ensures TrackerOk() && p < dirty.capacity && dirty.marked == old(dirty.marked)
      ensures dirty.frozen == old(dirty.frozen) && dirty.generation == old(dirty.generation)
    {
      hide DirtyTracker.Valid;
      if p >= dirty.capacity {
        dirty.Resize(if p < 1024 then 1024 else (p + 1) * 2);
      }
    }

    method MarkDirty(p: nat)
      requires TrackerOk() && p < dirty.capacity && p < MAX_PAGE
      modifies dirty
      ensures TrackerOk() && dirty.marked == old(dirty.marked) + {p}
      ensures dirty.frozen == old(dirty.frozen) && dirty.generation == old(dirty.generation)
    {
      hide DirtyTracker.Valid;
      SegmentFits(p, dirty.active.span);
      dirty.Mark(p);
    }

    /** One page of `dimbin_put_batch`: load it once, copy all its entries, mark it. */
    method PutPage(group: seq<P.Write>, p: nat)
      requires Valid() && !inCkpt && P.Fits(g, group) && group != [] && P.OnPage(g.epp, group, p) && p < MAX_PAGE
      modifies this`file, this`buf, this`flushNeeded, store, store.tree, dirty
      ensures Valid()
      ensures var m := old(Model());
              Model() == m.(cache := P.PutAll(m.cache, B.ExtentOf(m), group), active := m.active + {p})
    {
      hide TrackerOk, KeysOk, B.SizesOk, B.BinOk, FileOk, P.PutAll, P.EnsurePage, P.FillPage;
      ghost var m := Model();
      CacheOk(m);
      P.GroupWrites(m.cache, B.ExtentOf(m), p, group);
      PutKeeps(m, group, {p});
      EnsureTracked(p);
      EnsurePage(p);
      CacheOk(Model());
      var page := CopyEntries(g, buf[p], group);
      buf := buf[p := page];
      MarkDirty(p);
    }

    /** `dimbin_put_batch` during a checkpoint: into the overlay until it is full. */
    method PutOverlay(ws: seq<P.Write>) returns (status: B.Status)
      requires Valid() && inCkpt && P.Fits(g, ws)
      modifies this`overlay
      ensures Valid() && (Model(), status) == B.PutBatch(old(Model()), ws)
    {
      hide TrackerOk, KeysOk, B.SizesOk, B.BinOk, B.Accepted, B.Overlaid;
      B.PutBatchReads(Model(), ws, 0);
      SizesKept(Model(), B.PutBatch(Model(), ws).0);
      overlay, status := FillOverlay(overlay, budget, vector, ws, Model());
    }

    /** The page loop of `dimbin_put_batch`, over entries sorted by page. */
    method PutPages(sorted: seq<P.Write>)
      requires Valid() && !inCkpt && P.Fits(g, sorted) && P.InPageOrder(g.epp, sorted) && InReach(g.epp, sorted)
      modifies this`file, this`buf, this`flushNeeded, store, store.tree, dirty
      ensures Valid() && Model() == WrittenTo(old(Model()), sorted)
    {
      hide TrackerOk, KeysOk, B.SizesOk, B.BinOk, FileOk, P.PutAll, P.Touched, P.InPageOrder;
      ghost var m := Model();
      NothingWritten(m);
      assert sorted[..0] == [];
      CacheOk(m);
      var gi := 0;
      while gi < |sorted|
        invariant 0 <= gi <= |sorted| && Valid() && !inCkpt && P.Fits(g, sorted[..gi])
        invariant Model() == WrittenTo(m, sorted[..gi])
      {
        var p := sorted[gi].id / g.epp;
        var gj := PageEnd(g.epp, sorted, gi);
        WrittenToMore(m, sorted, gi, gj, p);
        PutPage(sorted[gi..gj], p);
        gi := gj;
      }
      assert sorted[..gi] == sorted;
    }

    /** `dimbin_put_batch`. */
    method PutBatch(ws: seq<P.Write>) returns (status: B.Status)
      requires Valid() && P.Fits(g, ws) && InReach(g.epp, ws)
      modifies this, store, store.tree, dirty
      ensures Valid() && (Model(), status) == B.PutBatch(old(Model()), ws)
    {
      hide TrackerOk, KeysOk, B.SizesOk, B.BinOk, FileOk, P.PutAll, P.Touched, P.InPageOrder, B.PutBatch, InReach;
      if inCkpt {
        status := PutOverlay(ws);
      } else {
        CacheOk(Model());
        var sorted := SortByPage(g.epp, ws);
        SortedBatch(Model(), ws);
        PutPages(sorted);
        if |buf| >= maxPages * 3 / 4 {
          flushNeeded := true;
        }
        status := B.Success;
      }
    }

    // ----- checkpoint begin and end -----

    method SwapTracker()
      requires TrackerOk()
      modifies dirty
      ensures TrackerOk() && dirty.marked == {} && dirty.frozen == old(dirty.marked)
      ensures dirty.generation == old(dirty.generation) + 1
    {
      hide DirtyTracker.Valid;
      dirty.Swap();
    }

    /** `dimbin_checkpoint_begin`. */
    method Begin()
      requires Valid() && !inCkpt
      modifies this, store, store.tree, dirty
      ensures Valid() && Model() == B.Begin(old(Model()))
    {
      hide TrackerOk, KeysOk, B.SizesOk, B.BinOk;
      B.BeginReads(Model());
      SizesKept(Model(), B.Begin(Model()));
      Flush();
      SwapTracker();
      overlay, tombs, inCkpt := map[], [], true;
    }

    /** `dirty_tracker_scan_ckpt` as the dump uses it: the capacity cuts no frozen page off. */
    method ScanFrozen(most: nat) returns (scan: seq<nat>)
      requires Valid()
      ensures FirstOf(scan, Model().frozen, most)
    {
      hide B.BinOk, B.SizesOk, KeysOk, DirtyTracker.Valid, FirstOf;
      scan := dirty.ScanCkpt(most);
      assert BelowLimit(dirty.frozen, dirty.capacity) == dirty.frozen;
    }

    /** `overlay_tombstone`. */
    method Tombstone(id: nat)
      requires Valid() && inCkpt
      modifies this`tombs
      ensures Valid() && Model() == B.Tombstone(old(Model()), id)
    {
      tombs := tombs + [id];
    }

    /** The replay loop of `dimbin_checkpoint_end`. */
    method ReplayChunks(order: seq<P.Write>)
      requires Valid() && !inCkpt && P.Fits(g, order) && InReach(g.epp, order)
      modifies this, store, store.tree, dirty
      ensures Valid() && Model() == Replayed(old(Model()), order)
    {
      hide TrackerOk, KeysOk, B.SizesOk, B.BinOk, FileOk, P.Touched, B.Replay, B.PutBatch;
      ghost var m := Model();
      CacheOk(m);
      assert order[0..] == order;
      if |order| == 0 {
        NothingReplayed(m);
        return;
      }
      var pos := 0;
      while pos < |order|
        invariant 0 <= pos <= |order| && Valid() && !inCkpt && P.Ok(Model().cache)
        invariant if pos < |order| then Replayed(Model(), order[pos..]) == Replayed(m, order)
                  else Model() == Replayed(m, order)
      {
        var end := if |order| - pos > B.REPLAY_CHUNK then pos + B.REPLAY_CHUNK else |order|;
        ChunkReplayed(Model(), order[pos..]);
        var chunk := order[pos..end];
        assert chunk == order[pos..][..end - pos] && order[end..] == order[pos..][end - pos..];
        var status := PutBatch(chunk);
        CacheOk(Model());
        pos := end;
      }
    }

    /** The free loop of `dimbin_checkpoint_end`. */
    method FreeEntries(ids: seq<nat>)
      requires Valid() && forall i :: 0 <= i < |ids| ==> ids[i] < bump
      modifies this`free, this`keys, store, store.tree, store.tree.arena
      ensures Valid() && Model() == B.FreeAll(old(Model()), ids)
    {
      hide TrackerOk, KeysOk, B.SizesOk, B.BinOk, B.FreeEntry;
      ghost var m := Model();
      assert ids[0..] == ids;
      for i := 0 to |ids|
        invariant Valid() && bump == old(bump) && B.FreeAll(Model(), ids[i..]) == B.FreeAll(m, ids)
      {
        assert ids[i..][1..] == ids[i + 1..];
        FreeEntry(ids[i]);
      }
    }

    /** `dimbin_checkpoint_end`.  `order` is the overlay as its table stores it. */
    method End(order: seq<P.Write>)
      requires Valid() && inCkpt && B.Enumerates(order, overlay) && P.Fits(g, order) && InReach(g.epp, order)
      requires forall i :: 0 <= i < |tombs| ==> tombs[i] < bump
      modifies Repr()
      ensures Valid() && Model() == B.End(old(Model()), order)
    {
      hide TrackerOk, KeysOk, B.SizesOk, B.Replay, P.Touched, B.FreeAll, FileOk, InReach, B.Enumerates;
      ghost var m := Model();
      EndIsReplay(m, order);
      var dead := tombs;
      overlay, tombs, inCkpt := map[], [], false;
      SizesKept(m, Model());
      ReplayChunks(order);
      FreeEntries(dead);
    }
  }

  /** Emptying the overlay first makes no difference. */
  lemma EndIsReplay(m: B.Bin, order: seq<P.Write>)
    requires B.BinOk(m) && P.Fits(m.cache.g, order)
    ensures B.End(m, order) ==
            B.FreeAll(Replayed(m.(overlay := map[], tombs := [], inCkpt := false), order), m.tombs)
  {
    hide B.Replay, P.Touched;
    var c := m.(inCkpt := false, cache := B.Replay(m.cache, B.ExtentOf(m), order),
                active := m.active + B.TouchedPages(m.cache.g.epp, order));
    FreeAllApart(c, m.tombs);
  }

  lemma {:induction false} FreeAllApart(b: B.Bin, ids: seq<nat>)
    ensures B.FreeAll(b, ids).(overlay := map[], tombs := []) == B.FreeAll(b.(overlay := map[], tombs := []), ids)
    decreases |ids|
  {
    if ids != [] {
      FreeAllApart(B.FreeEntry(b, ids[0]), ids[1..]);
    }
  }

  /** The bin after replaying the overlay. */
  ghost function Replayed(m: B.Bin, order: seq<P.Write>): B.Bin
    requires P.Ok(m.cache) && P.Fits(m.cache.g, order)
  {
    m.(cache := B.Replay(m.cache, B.ExtentOf(m), order), active := m.active + P.Touched(m.cache.g.epp, order))
  }

  lemma NothingReplayed(m: B.Bin)
    requires B.BinOk(m)
    ensures Replayed(m, []) == m
  {
    assert m.active + P.Touched(m.cache.g.epp, []) == m.active;
    assert StableSort.Sort([], P.PageKey(m.cache.g.epp)) == [];
  }

  /** The first chunk of a replay, and what is left. */
  lemma ChunkReplayed(m: B.Bin, ws: seq<P.Write>)
    requires B.BinOk(m) && !m.inCkpt && P.Fits(m.cache.g, ws)
    ensures |ws| <= B.REPLAY_CHUNK ==> ws[..|ws|] == ws && B.PutBatch(m, ws) == (Replayed(m, ws), B.Success)
    ensures |ws| > B.REPLAY_CHUNK ==>
              var s, t := ws[..B.REPLAY_CHUNK], ws[B.REPLAY_CHUNK..];
              var n := B.PutBatch(m, s).0;
              P.Ok(n.cache) && n.cache.g == m.cache.g && Replayed(n, t) == Replayed(m, ws)
  {
    hide P.PutSorted, P.Touched, FileOk;
    if |ws| > B.REPLAY_CHUNK {
      B.SplitNames(ws, B.REPLAY_CHUNK, m.cache.g.epp, 0);
      var s, t := ws[..B.REPLAY_CHUNK], ws[B.REPLAY_CHUNK..];
      var epp := m.cache.g.epp;
      assert m.active + P.Touched(epp, s) + P.Touched(epp, t) == m.active + P.Touched(epp, ws);
    }
  }

  /** Every page number fits the dirty tracker. */
  ghost predicate InReach(epp: nat, ws: seq<P.Write>)
    requires epp > 0
  {
    forall i :: 0 <= i < |ws| ==> ws[i].id / epp < MAX_PAGE
  }

  /** The bin after writing `ws` in the order given. */
  ghost function WrittenTo(m: B.Bin, ws: seq<P.Write>): B.Bin
    requires P.Ok(m.cache) && P.Fits(m.cache.g, ws)
  {
    m.(cache := P.PutAll(m.cache, B.ExtentOf(m), ws), active := m.active + P.Touched(m.cache.g.epp, ws))
  }

  lemma NothingWritten(m: B.Bin)
    requires B.BinOk(m)
    ensures WrittenTo(m, []) == m
  {
    assert m.active + P.Touched(m.cache.g.epp, []) == m.active;
  }

  lemma WrittenToMore(m: B.Bin, ws: seq<P.Write>, i: nat, j: nat, p: nat)
    requires P.Ok(m.cache) && P.Fits(m.cache.g, ws) && i < j <= |ws| && P.OnPage(m.cache.g.epp, ws[i..j], p)
    ensures P.Fits(m.cache.g, ws[..i]) && P.Fits(m.cache.g, ws[..j]) && P.Fits(m.cache.g, ws[i..j])
    ensures var k := WrittenTo(m, ws[..i]);
            WrittenTo(m, ws[..j]) == k.(cache := P.PutAll(k.cache, B.ExtentOf(k), ws[i..j]), active := k.active + {p})
  {
    hide P.PutAll, P.Touched, FileOk;
    assert ws[..j] == ws[..i] + ws[i..j];
    P.PutAllConcat(m.cache, B.ExtentOf(m), ws[..i], ws[i..j]);
    TouchedGroup(m.cache.g.epp, ws, i, j, p);
    assert m.active + P.Touched(m.cache.g.epp, ws[..i]) + {p} == m.active + P.Touched(m.cache.g.epp, ws[..j]);
  }

  lemma TouchedGroup(epp: nat, ws: seq<P.Write>, i: nat, j: nat, p: nat)
    requires epp > 0 && i < j <= |ws| && P.OnPage(epp, ws[i..j], p)
    ensures P.Touched(epp, ws[..j]) == P.Touched(epp, ws[..i]) + {p}
  {
    assert P.Touched(epp, ws[i..j]) == {p} by {
      assert ws[i..j][0] in ws[i..j];
    }
    B.SplitNames(ws[..j], i, epp, 0);
    assert ws[..j][..i] == ws[..i] && ws[..j][i..] == ws[i..j];
  }

  /** Where the group of entries on one page ends. */
  method PageEnd(epp: nat, ws: seq<P.Write>, i: nat) returns (j: nat)
    requires epp > 0 && i < |ws|
    ensures i < j <= |ws| && P.OnPage(epp, ws[i..j], ws[i].id / epp)
    ensures j < |ws| ==> ws[j].id / epp != ws[i].id / epp
  {
    j := i + 1;
    while j < |ws| && ws[j].id / epp == ws[i].id / epp
      invariant i < j <= |ws| && forall k :: i <= k < j ==> ws[k].id / epp == ws[i].id / epp
    {
      j := j + 1;
    }
  }

  method SortByPage(epp: nat, ws: seq<P.Write>) returns (r: seq<P.Write>)
    requires epp > 0
    ensures r == StableSort.Sort(ws, P.PageKey(epp))
  {
    var a := new P.Write[|ws|](i requires 0 <= i < |ws| => ws[i]);
    assert a[..] == ws;
    StableSort.InsertionSort(a, P.PageKey(epp));
    r := a[..];
  }

  /** Writing the sorted entries is the batch of the specification. */
  lemma SortedBatch(m: B.Bin, ws: seq<P.Write>)
    requires B.BinOk(m) && !m.inCkpt && P.Fits(m.cache.g, ws) && InReach(m.cache.g.epp, ws)
    ensures var s := StableSort.Sort(ws, P.PageKey(m.cache.g.epp));
            && P.Fits(m.cache.g, s) && P.InPageOrder(m.cache.g.epp, s) && InReach(m.cache.g.epp, s)
            && B.PutBatch(m, ws) == (WrittenTo(m, s), B.Success)
  {
    var epp := m.cache.g.epp;
    var s := StableSort.Sort(ws, P.PageKey(epp));
    P.SortFits(m.cache.g, ws);
    P.SortInPageOrder(ws, epp);
    P.SortKeepsLast(ws, epp, 0);
    StableSort.SortFacts(ws, P.PageKey(epp));
    forall i | 0 <= i < |s|
      ensures s[i].id / epp < MAX_PAGE
    {
      assert s[i] in multiset(s) && s[i] in multiset(ws);
    }
  }

  /** The overlay loop: stop at the first write that finds the budget used up. */
  method FillOverlay(overlay: map<nat, Bytes>, budget: nat, vector: nat, ws: seq<P.Write>, ghost b: B.Bin)
    returns (r: map<nat, Bytes>, status: B.Status)
    requires b.overlay == overlay && b.budget == budget && b.vector == vector
    ensures r == B.Overlaid(overlay, ws[..B.Accepted(b, ws)])
    ensures status == if B.Accepted(b, ws) == |ws| then B.Success else B.Busy
  {
    hide B.OverlayFull;
    r := overlay;
    assert ws[0..] == ws && b.(overlay := r) == b;
    for n := 0 to |ws|
      invariant r == B.Overlaid(overlay, ws[..n])
      invariant B.Accepted(b, ws) == n + B.Accepted(b.(overlay := r), ws[n..])
    {
      FullWith(b, r);
      if budget != 0 && |r| * (vector + B.OVERLAY_SLOT_BYTES) >= budget {
        return r, B.Busy;
      }
      assert ws[..n + 1][..n] == ws[..n] && ws[n..][1..] == ws[n + 1..];
      r := r[ws[n].id := ws[n].data];
    }
    status := B.Success;
  }

  lemma FullWith(b: B.Bin, m: map<nat, Bytes>)
    ensures B.OverlayFull(b.(overlay := m)) <==> b.budget != 0 && |m| * (b.vector + B.OVERLAY_SLOT_BYTES) >= b.budget
  {
  }

  lemma CacheOk(m: B.Bin)
    requires B.BinOk(m)
    ensures P.Ok(m.cache) && forall p :: p in m.cache.buf ==> |m.cache.buf[p]| == m.cache.g.pageSize
  {
  }

  lemma EnsureKeeps(m: B.Bin, p: nat)
    requires B.BinOk(m) && !m.inCkpt
    ensures var r := m.(cache := P.EnsurePage(m.cache, B.ExtentOf(m), p));
            B.BinOk(r) && (B.SizesOk(m) ==> B.SizesOk(r))
  {
    hide P.EnsurePage;
  }

  lemma PutKeeps(m: B.Bin, ws: seq<P.Write>, touched: set<nat>)
    requires B.BinOk(m) && !m.inCkpt && P.Fits(m.cache.g, ws)
    ensures var r := m.(cache := P.PutAll(m.cache, B.ExtentOf(m), ws), active := m.active + touched);
            B.BinOk(r) && (B.SizesOk(m) ==> B.SizesOk(r))
  {
    hide P.PutAll;
  }

  /** The copy loop. */
  method CopyEntries(g: Geometry, page: Page, group: seq<P.Write>) returns (r: Page)
    requires g.Ok() && |page| == g.pageSize && P.Fits(g, group)
    ensures r == P.FillPage(g, page, group)
  {
    r := page;
    for k := 0 to |group|
      invariant P.Fits(g, group[..k]) && r == P.FillPage(g, page, group[..k])
    {
      assert group[..k + 1][..k] == group[..k];
      r := SetEntry(g, r, group[k].id % g.epp, group[k].data);
    }
    assert group[..|group|] == group;
  }

  lemma SegmentFits(p: nat, span: nat)
    requires p < MAX_PAGE && span >= 4096
    ensures p / span < MAX_SEGMENTS
  {
    var q, r := DivMod(p, span);
    MulMono(MAX_SEGMENTS, q, span);
    MulMono(4096, span, MAX_SEGMENTS);
  }

  /** The doubling loop of `dimbin_reserve`. */
  method DoubleUntil(size: nat, required: nat) returns (r: nat)
    requires size > 0
    ensures r == B.Doubled(size, required)
  {
    r := size;
    while r < required
      invariant r > 0 && B.Doubled(r, required) == B.Doubled(size, required)
      decreases required - r
    {
      r := 2 * r;
    }
  }

  lemma SizesKept(a: B.Bin, b: B.Bin)
    requires b.bump == a.bump && b.dataSize >= a.dataSize && b.keySize >= a.keySize && b.cache.g == a.cache.g
    ensures B.SizesOk(a) ==> B.SizesOk(b)
  {
  }
}
