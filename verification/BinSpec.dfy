/** A storage bin as a value, with its operations as functions: writing through the buffer or,
    during a checkpoint, into the overlay; beginning and ending a checkpoint; handing out and
    taking back slots. */
module Bins {
  import opened Pages
  import opened PageCaches
  import opened Arithmetic

  const REPLAY_CHUNK := 1024
  const OVERLAY_SLOT_BYTES := 16
  const MAX_FLUSH_BATCH := 65536  // pages one flush can write

  datatype Status = Success | Busy | Invalid | DimMismatch

  datatype Bin = Bin(
    cache: Cache,  // the data file behind the write buffer
    dataSize: nat,  // tracked size of the data file, in bytes
    active: set<nat>,  // pages dirtied since the last checkpoint began
    frozen: set<nat>,  // pages dirtied between the two checkpoints before that
    generation: nat,
    inCkpt: bool,
    overlay: map<nat, Bytes>,  // entries written during the checkpoint
    tombs: seq<nat>,  // slots deleted during the checkpoint
    budget: nat,  // overlay budget in bytes; 0 for none
    vector: nat,  // bytes of one vector, without alignment
    bump: nat,  // slots handed out so far
    free: seq<nat>,  // slots to hand out again
    keys: map<nat, nat>,  // the feature of each slot: the key file under the key buffer
    keySize: nat)  // tracked size of the key file, in bytes

  ghost predicate BinOk(b: Bin) {
    && Ok(b.cache)
    && (b.inCkpt ==> b.cache.buf == map[])
    && (!b.inCkpt ==> b.overlay == map[] && b.tombs == [])
    && (forall id :: id in b.overlay ==> |b.overlay[id]| == b.cache.g.entrySize)
  }

  /** The same layout, buffer and vector size. */
  ghost predicate SameForm(a: Bin, b: Bin) {
    b.cache.g == a.cache.g && b.cache.maxPages == a.cache.maxPages && b.vector == a.vector
  }

  function ExtentOf(b: Bin): Extent {
    Extent(b.bump, b.dataSize)
  }

  /** A read tries the overlay, then the write buffer, then the file. */
  function Read(b: Bin, id: nat): (e: Bytes)
    requires BinOk(b)
    ensures |e| == b.cache.g.entrySize
  {
    if b.inCkpt && id in b.overlay then b.overlay[id] else Entry(b.cache, id)
  }

  // ----- flush and put -----

  function FlushBin(b: Bin): (r: Bin) {
    b.(cache := Flush(b.cache))
  }

  lemma FlushBinKeeps(b: Bin)
    requires BinOk(b)
    ensures BinOk(FlushBin(b))
    ensures forall id :: Read(FlushBin(b), id) == Read(b, id)
  {
    FlushKeeps(b.cache);
  }

  /** `overlay_full`: each entry costs its vector and a slot. */
  predicate OverlayFull(b: Bin) {
    b.budget != 0 && |b.overlay| * (b.vector + OVERLAY_SLOT_BYTES) >= b.budget
  }

  /** How many writes the overlay takes before it is full. */
  function Accepted(b: Bin, ws: seq<Write>): (n: nat)
    ensures n <= |ws|
    decreases |ws|
  {
    if ws == [] || OverlayFull(b) then 0
    else 1 + Accepted(b.(overlay := b.overlay[ws[0].id := ws[0].data]), ws[1..])
  }

  ghost function Ids(ws: seq<Write>): set<nat> {
    set w | w in ws :: w.id
  }

  /** The overlay has used up its budget: 16 bytes and one vector for every entry. */
  ghost predicate UsedUp(b: Bin, entries: set<nat>) {
    b.budget != 0 && |entries| * (b.vector + 16) >= b.budget
  }

  /** Which writes the overlay takes: those before the first one that finds the budget used up. */
  lemma {:induction false} AcceptedExact(b: Bin, ws: seq<Write>)
    ensures forall i :: 0 <= i < Accepted(b, ws) ==> !UsedUp(b, b.overlay.Keys + Ids(ws[..i]))
    ensures Accepted(b, ws) < |ws| ==> UsedUp(b, b.overlay.Keys + Ids(ws[..Accepted(b, ws)]))
    decreases |ws|
  {
    hide UsedUp, Ids, OverlayFull;
    NothingOverlaid(b);
    assert ws[..0] == [];
    if ws != [] && !OverlayFull(b) {
      var c, n := b.(overlay := b.overlay[ws[0].id := ws[0].data]), Accepted(b, ws);
      AcceptedExact(c, ws[1..]);
      forall i | 0 <= i < n
        ensures !UsedUp(b, b.overlay.Keys + Ids(ws[..i]))
      {
        if i > 0 {
          FirstOverlaid(b, c, ws, i);
        }
      }
      if n < |ws| {
        FirstOverlaid(b, c, ws, n);
      }
    }
  }

  lemma NothingOverlaid(b: Bin)
    ensures UsedUp(b, b.overlay.Keys + Ids([])) <==> OverlayFull(b)
  {
    assert b.overlay.Keys + Ids([]) == b.overlay.Keys;
  }

  lemma FirstOverlaid(b: Bin, c: Bin, ws: seq<Write>, i: nat)
    requires 0 < i <= |ws| && c == b.(overlay := b.overlay[ws[0].id := ws[0].data])
    ensures UsedUp(b, b.overlay.Keys + Ids(ws[..i])) <==> UsedUp(c, c.overlay.Keys + Ids(ws[1..][..i - 1]))
  {
    hide Ids;
    assert ws[..i] == [ws[0]] + ws[1..][..i - 1];
    FirstId(ws[0], ws[1..][..i - 1]);
    assert b.overlay.Keys + Ids(ws[..i]) == c.overlay.Keys + Ids(ws[1..][..i - 1]);
  }

  lemma FirstId(w: Write, t: seq<Write>)
    ensures Ids([w] + t) == {w.id} + Ids(t)
  {
    assert ([w] + t)[0] == w;
    assert forall v :: v in [w] + t <==> v == w || v in t;
  }

  function Overlaid(m: map<nat, Bytes>, ws: seq<Write>): (r: map<nat, Bytes>) {
    if ws == [] then m else Overlaid(m, ws[..|ws| - 1])[ws[|ws| - 1].id := ws[|ws| - 1].data]
  }

  /** `dimbin_put_batch`. */
  function PutBatch(b: Bin, ws: seq<Write>): (r: (Bin, Status))
    requires BinOk(b) && Fits(b.cache.g, ws)
  {
    if b.inCkpt then
      var n := Accepted(b, ws);
      (b.(overlay := Overlaid(b.overlay, ws[..n])), if n == |ws| then Success else Busy)
    else
      (b.(cache := PutSorted(b.cache, ExtentOf(b), ws), active := b.active + TouchedPages(b.cache.g.epp, ws)), Success)
  }

  function TouchedPages(epp: nat, ws: seq<Write>): (t: set<nat>)
    requires epp > 0
    ensures t == Touched(epp, ws)
  {
    set w | w in ws :: w.id / epp
  }

  lemma {:induction false} OverlaidAt(m: map<nat, Bytes>, ws: seq<Write>)
    ensures forall id :: id in Overlaid(m, ws) <==> id in m || Names(ws, id)
    ensures forall id :: id in Overlaid(m, ws) ==>
                           Overlaid(m, ws)[id] == if Names(ws, id) then LastData(ws, id) else m[id]
    decreases |ws|
  {
    if ws != [] {
      var s, w := ws[..|ws| - 1], ws[|ws| - 1];
      assert ws == s + [w];
      OverlaidAt(m, s);
      forall id: nat
        ensures Names(ws, id) <==> id == w.id || Names(s, id)
        ensures Names(ws, id) ==> LastData(ws, id) == if id == w.id then w.data else LastData(s, id)
      {
        LastDataMore(s, w, id);
      }
    }
  }

  /** What a batch does to every read, in and out of a checkpoint. */
  lemma PutBatchReads(b: Bin, ws: seq<Write>, id: nat)
    requires BinOk(b) && Fits(b.cache.g, ws)
    ensures BinOk(PutBatch(b, ws).0)
    ensures !b.inCkpt ==> PutBatch(b, ws).1 == Success && Read(PutBatch(b, ws).0, id) == After(b.cache, ExtentOf(b), ws, id)
    ensures b.inCkpt ==> var done := ws[..Accepted(b, ws)];
                         && (PutBatch(b, ws).1 == Success <==> done == ws)
                         && Read(PutBatch(b, ws).0, id) == if Names(done, id) then LastData(done, id) else Read(b, id)
  {
    if b.inCkpt {
      var done := ws[..Accepted(b, ws)];
      OverlaidAt(b.overlay, done);
      forall i | i in Overlaid(b.overlay, done)
        ensures |Overlaid(b.overlay, done)[i]| == b.cache.g.entrySize
      {
        if Names(done, i) {
          LastDataIn(done, i);
        }
      }
    } else {
      PutSortedReads(b.cache, ExtentOf(b), ws, id);
    }
  }

  lemma {:induction false} LastDataIn(ws: seq<Write>, id: nat)
    requires Names(ws, id)
    ensures exists i :: 0 <= i < |ws| && ws[i] == Write(id, LastData(ws, id))
    decreases |ws|
  {
    if ws[|ws| - 1].id != id {
      LastDataMore(ws[..|ws| - 1], ws[|ws| - 1], id);
      assert ws == ws[..|ws| - 1] + [ws[|ws| - 1]];
      LastDataIn(ws[..|ws| - 1], id);
    } else {
      assert ws[|ws| - 1] == Write(id, LastData(ws, id));
    }
  }

  // ----- slots -----

  /** The growth rule of the two files: double until the requirement is met. */
  function Doubled(size: nat, required: nat): (r: nat)
    requires size > 0
    ensures r >= size && r >= required
    decreases if size < required then required - size else 0
  {
    if size >= required then size else Doubled(2 * size, required)
  }

  function Grown(size: nat, initial: nat, required: nat): (r: nat)
    requires initial > 0
    ensures r >= size && r >= required
  {
    if size >= required then size else Doubled(if size > 0 then 2 * size else initial, required)
  }

  /** A file that was too short has been doubled, from its size or from `initial`, just often enough. */
  ghost predicate Enlarged(was: nat, initial: nat, required: nat, now: nat) {
    if was >= required then now == was
    else
      exists k {:trigger IsPow2(k)} :: IsPow2(k) && now == (if was > 0 then 2 * was else initial) * k >= required
                                       && (k == 1 || now < 2 * required)
  }

  lemma {:induction false} DoubledExact(size: nat, required: nat) returns (k: nat)
    requires size > 0
    ensures IsPow2(k) && Doubled(size, required) == size * k && (k == 1 || Doubled(size, required) < 2 * required)
    decreases if size < required then required - size else 0
  {
    if size >= required {
      k := 1;
    } else {
      var j := DoubledExact(2 * size, required);
      k := 2 * j;
      assert 2 * size * j == size * k;
      assert IsPow2(k);
    }
  }

  lemma GrownExact(was: nat, initial: nat, required: nat)
    requires initial > 0
    ensures Enlarged(was, initial, required, Grown(was, initial, required))
  {
    if was < required {
      var k := DoubledExact(if was > 0 then 2 * was else initial, required);
    }
  }

  /** `dimbin_reserve`. */
  function Reserve(b: Bin, count: nat): (r: Bin)
    requires Ok(b.cache)
  {
    b.(dataSize := Grown(b.dataSize, 256 * b.cache.g.pageSize, (b.bump + count) * b.cache.g.entrySize),
       keySize := Grown(b.keySize, 8192, (b.bump + count) * 8))
  }

  /** The growth rule of `dimbin_alloc_entry`, which doubles once. */
  function GrownOnce(size: nat, initial: nat, required: nat): (r: nat)
    ensures r >= size && r >= required
  {
    if size >= required then size else
      var n := if size > 0 then 2 * size else initial;
      if n < required then 2 * required else n
  }

  /** `dimbin_alloc_entry`: a freed slot if there is one, else the next new one. */
  function Alloc(b: Bin): (r: (Bin, nat))
  {
    if b.free != [] then (b.(free := b.free[..|b.free| - 1]), b.free[|b.free| - 1])
    else
      (b.(bump := b.bump + 1,
          dataSize := GrownOnce(b.dataSize, 256 * b.cache.g.pageSize, (b.bump + 1) * b.cache.g.entrySize),
          keySize := GrownOnce(b.keySize, 8192, (b.bump + 1) * 8)), b.bump)
  }

  /** Both files are long enough for every slot handed out. */
  ghost predicate SizesOk(b: Bin) {
    b.bump * b.cache.g.entrySize <= b.dataSize && b.bump * 8 <= b.keySize
  }

  lemma AllocSizes(b: Bin)
    requires SizesOk(b)
    ensures SizesOk(Alloc(b).0)
  {
  }

  lemma ReserveSizes(b: Bin, count: nat)
    requires Ok(b.cache) && SizesOk(b)
    ensures SizesOk(Reserve(b, count))
  {
  }

  /** The sizes fstat reports for the two files of a bin. */
  datatype Sizes = Sizes(data: nat, keys: nat)

  /** The bump pointer `dimbin_init` derives: as many slots as both files have room for. */
  function SlotCount(z: Sizes, entrySize: nat): (n: nat)
    requires entrySize > 0
  {
    if z.keys / 8 < z.data / entrySize then z.keys / 8 else z.data / entrySize
  }

  /** The slot count is the largest both files have room for. */
  lemma RoomForSlots(z: Sizes, entrySize: nat)
    requires entrySize > 0
    ensures var n := SlotCount(z, entrySize);
            && n * entrySize <= z.data && n * 8 <= z.keys
            && ((n + 1) * entrySize > z.data || (n + 1) * 8 > z.keys)
  {
    var n := SlotCount(z, entrySize);
    MulMono(n, z.data / entrySize, entrySize);
    var q, r := DivMod(z.data, entrySize);
    assert (q + 1) * entrySize == q * entrySize + entrySize;
  }

  function BufKey(b: Bin, id: nat, feature: nat): (r: Bin) {
    b.(keys := b.keys[id := feature])
  }

  /** `dimbin_free_entry`. */
  function FreeEntry(b: Bin, id: nat): (r: Bin) {
    BufKey(b.(free := b.free + [id]), id, 0)
  }

  /** The slot freed last is handed out first; with none free, the next one never used. */
  lemma FreedFirst(b: Bin, id: nat)
    ensures var (r, s) := Alloc(FreeEntry(b, id)); s == id && r == BufKey(b, id, 0)
    ensures b.free == [] ==> var (r, s) := Alloc(b); s == b.bump && r.bump == b.bump + 1 && r.free == []
  {
    assert FreeEntry(b, id).free[..|b.free|] == b.free;
  }

  function FreeAll(b: Bin, ids: seq<nat>): (r: Bin)
    decreases |ids|
  {
    if ids == [] then b else FreeAll(FreeEntry(b, ids[0]), ids[1..])
  }

  function Tombstone(b: Bin, id: nat): (r: Bin) {
    b.(tombs := b.tombs + [id])
  }

  function KeyAt(b: Bin, id: nat): (k: nat) {
    if id in b.keys then b.keys[id] else 0
  }

  // ----- checkpoint begin and end -----

  /** `dimbin_checkpoint_begin`. */
  function Begin(b: Bin): (r: Bin)
  {
    b.(cache := Flush(b.cache), frozen := b.active, active := {}, generation := b.generation + 1,
       overlay := map[], tombs := [], inCkpt := true)
  }

  /** Beginning a checkpoint changes no read. */
  lemma BeginReads(b: Bin)
    requires BinOk(b) && !b.inCkpt
    ensures BinOk(Begin(b))
    ensures forall id :: Read(Begin(b), id) == Read(b, id)
  {
    FlushKeeps(b.cache);
  }

  /** The replay loop of `dimbin_checkpoint_end`, in chunks. */
  function Replay(c: Cache, x: Extent, ws: seq<Write>): (r: Cache)
    requires Ok(c) && Fits(c.g, ws)
    ensures Ok(r) && r.g == c.g && r.maxPages == c.maxPages
    decreases |ws|
  {
    if |ws| <= REPLAY_CHUNK then PutSorted(c, x, ws)
    else Replay(PutSorted(c, x, ws[..REPLAY_CHUNK]), x, ws[REPLAY_CHUNK..])
  }

  /** `order` enumerates the overlay, as its hash table happens to store it. */
  ghost predicate Enumerates(order: seq<Write>, overlay: map<nat, Bytes>) {
    && (forall i :: 0 <= i < |order| ==> order[i].id in overlay && overlay[order[i].id] == order[i].data)
    && (forall id :: id in overlay ==> Names(order, id))
    && (forall i, j :: 0 <= i < j < |order| ==> order[i].id != order[j].id)
  }

  /** `dimbin_checkpoint_end`: replay the overlay, then free the tombstoned slots. */
  function End(b: Bin, order: seq<Write>): (r: Bin)
    requires BinOk(b) && Fits(b.cache.g, order)
  {
    var c := b.(inCkpt := false, cache := Replay(b.cache, ExtentOf(b), order),
                active := b.active + TouchedPages(b.cache.g.epp, order));
    FreeAll(c, b.tombs).(overlay := map[], tombs := [])
  }

  // ----- what the end of a checkpoint does to every read -----

  ghost predicate DistinctIds(ws: seq<Write>) {
    forall i, j :: 0 <= i < j < |ws| ==> ws[i].id != ws[j].id
  }

  lemma SplitNames(ws: seq<Write>, k: nat, epp: nat, id: nat)
    requires k <= |ws| && epp > 0
    ensures Names(ws, id) <==> Names(ws[..k], id) || Names(ws[k..], id)
    ensures Touched(epp, ws) == Touched(epp, ws[..k]) + Touched(epp, ws[k..])
    ensures DistinctIds(ws) ==> DistinctIds(ws[..k]) && DistinctIds(ws[k..]) && !(Names(ws[..k], id) && Names(ws[k..], id))
  {
    assert ws == ws[..k] + ws[k..];
    if Names(ws, id) {
      var i :| 0 <= i < |ws| && ws[i].id == id;
      assert if i < k then ws[..k][i].id == id else ws[k..][i - k].id == id;
    }
    assert forall w :: w in ws <==> w in ws[..k] || w in ws[k..];
  }

  /** Distinct ids: the data for an id is wherever the id is. */
  lemma OnlyData(ws: seq<Write>, i: nat)
    requires DistinctIds(ws) && i < |ws|
    ensures LastData(ws, ws[i].id) == ws[i].data
  {
    LastDataIn(ws, ws[i].id);
  }

  /** Whether entry `id` comes through the replay.  A chunk that does not write the entry must leave
      its page alone, reload it, or find it buffered, unless a later chunk writes the entry. */
  ghost predicate Lasts(c: Cache, x: Extent, ws: seq<Write>, id: nat)
    requires Ok(c) && Fits(c.g, ws)
    decreases |ws|
  {
    if |ws| <= 1024 then ChunkLasts(c, x, ws, id)
    else
      && (Names(ws[1024..], id) || ChunkLasts(c, x, ws[..1024], id))
      && Lasts(PutSorted(c, x, ws[..1024]), x, ws[1024..], id)
  }

  ghost predicate ChunkLasts(c: Cache, x: Extent, ws: seq<Write>, id: nat)
    requires Ok(c)
  {
    Names(ws, id) || Kept(c, x, Touched(c.g.epp, ws), id / c.g.epp)
  }

  /** The exact effect of the replay on every entry, for any storage order of the overlay. */
  lemma {:induction false} ReplayReads(c: Cache, x: Extent, ws: seq<Write>, id: nat)
    requires Ok(c) && Fits(c.g, ws) && DistinctIds(ws)
    ensures Entry(Replay(c, x, ws), id) ==
            if !Lasts(c, x, ws, id) then Zeros(c.g.entrySize)
            else if Names(ws, id) then LastData(ws, id) else Entry(c, id)
    decreases |ws|
  {
    hide Names, LastData, Touched, PutSorted, Entry, Kept, DistinctIds, Zeros, FileOk;
    if |ws| <= REPLAY_CHUNK {
      PutSortedReads(c, x, ws, id);
    } else {
      var s, t := ws[..REPLAY_CHUNK], ws[REPLAY_CHUNK..];
      SplitNames(ws, REPLAY_CHUNK, c.g.epp, id);
      PutSortedReads(c, x, s, id);
      ReplayReads(PutSorted(c, x, s), x, t, id);
      if Names(ws, id) {
        FoundInPart(ws, REPLAY_CHUNK, id);
      }
    }
  }

  /** An entry of a page that is reloaded, or not touched, lasts. */
  lemma {:induction false} ReplayReloads(c: Cache, x: Extent, ws: seq<Write>, id: nat)
    requires Ok(c) && Fits(c.g, ws)
    requires Reloads(c.g, x, id / c.g.epp) || id / c.g.epp !in Touched(c.g.epp, ws)
    ensures Lasts(c, x, ws, id)
    decreases |ws|
  {
    hide Names, Touched, PutSorted, FileOk;
    if |ws| > REPLAY_CHUNK {
      SplitNames(ws, REPLAY_CHUNK, c.g.epp, id);
      ReplayReloads(PutSorted(c, x, ws[..REPLAY_CHUNK]), x, ws[REPLAY_CHUNK..], id);
    }
  }

  lemma FoundInPart(ws: seq<Write>, k: nat, id: nat)
    requires k <= |ws| && DistinctIds(ws) && Names(ws, id)
    ensures Names(ws[..k], id) ==> LastData(ws[..k], id) == LastData(ws, id)
    ensures Names(ws[k..], id) ==> LastData(ws[k..], id) == LastData(ws, id)
  {
    SplitNames(ws, k, 1, id);
    if Names(ws[..k], id) {
      LastDataIn(ws[..k], id);
      var i :| 0 <= i < k && ws[..k][i] == Write(id, LastData(ws[..k], id));
      OnlyData(ws, i);
    }
    if Names(ws[k..], id) {
      LastDataIn(ws[k..], id);
      var i :| 0 <= i < |ws[k..]| && ws[k..][i] == Write(id, LastData(ws[k..], id));
      OnlyData(ws, k + i);
    }
  }

  /** An entry that is not replayed, on a page that is replayed into but neither reloaded nor
      buffered, is lost. */
  lemma {:induction false} ReplayZeroes(c: Cache, x: Extent, ws: seq<Write>, id: nat)
    requires Ok(c) && Fits(c.g, ws) && !Names(ws, id)
    requires id / c.g.epp in Touched(c.g.epp, ws) && !Reloads(c.g, x, id / c.g.epp) && id / c.g.epp !in c.buf
    ensures !Lasts(c, x, ws, id)
    decreases |ws|
  {
    hide Names, Touched, PutSorted, Reloads, FileOk;
    if |ws| > REPLAY_CHUNK {
      var s, t := ws[..REPLAY_CHUNK], ws[REPLAY_CHUNK..];
      SplitNames(ws, REPLAY_CHUNK, c.g.epp, id);
      PutSortedProgress(c, x, s);
      if id / c.g.epp !in Touched(c.g.epp, s) {
        ReplayZeroes(PutSorted(c, x, s), x, t, id);
      }
    }
  }

  lemma FlushlessParts(buf: set<nat>, t: set<nat>, u: set<nat>, most: nat, p: nat)
    requires Flushless(buf, t + u, most)
    ensures Flushless(buf, t, most) && Flushless(buf + t, u, most) && Flushless(buf, Below(t, p), most)
  {
    SubsetSize(t - buf, t + u - buf);
    SubsetSize(Below(t, p) - buf, t + u - buf);
    assert buf + t == buf + (t - buf);
    assert t + u - buf == (t - buf) + (u - (buf + t));
  }

  lemma SubsetSize(a: set<nat>, b: set<nat>)
    requires a <= b
    ensures |a| <= |b|
  {
    assert b == a + (b - a);
  }

  /** One chunk that fits into the buffer, with the pages `u` touched later: what was buffered is
      kept, what is touched is buffered, and the rest still fits. */
  lemma FlushlessChunk(c: Cache, x: Extent, ws: seq<Write>, u: set<nat>, id: nat)
    requires Ok(c) && Fits(c.g, ws) && Flushless(c.buf.Keys, Touched(c.g.epp, ws) + u, c.maxPages)
    ensures var r := PutSorted(c, x, ws);
            && Flushless(r.buf.Keys, u, c.maxPages)
            && (Names(ws, id) || id / c.g.epp in c.buf ==> id / c.g.epp in r.buf && ChunkLasts(c, x, ws, id))
  {
    hide PutSorted, Reloads, FileOk, Touched, Flushless, Below, Names;
    FlushlessParts(c.buf.Keys, Touched(c.g.epp, ws), u, c.maxPages, id / c.g.epp);
    PutSortedProgress(c, x, ws);
    NamedPage(c.g.epp, ws, id);
    assert id / c.g.epp in c.buf ==> id / c.g.epp in c.buf.Keys;
  }

  /** While every touched page fits into the buffer, the replay loses nothing it wrote. */
  lemma {:induction false} ReplayFlushless(c: Cache, x: Extent, ws: seq<Write>, id: nat)
    requires Ok(c) && Fits(c.g, ws) && Flushless(c.buf.Keys, Touched(c.g.epp, ws), c.maxPages)
    requires Names(ws, id) || id / c.g.epp in c.buf
    ensures Lasts(c, x, ws, id)
    decreases |ws|
  {
    hide Names, Touched, PutSorted, FileOk, Flushless, ChunkLasts;
    if |ws| <= REPLAY_CHUNK {
      assert Touched(c.g.epp, ws) + {} == Touched(c.g.epp, ws);
      FlushlessChunk(c, x, ws, {}, id);
    } else {
      var s, t := ws[..REPLAY_CHUNK], ws[REPLAY_CHUNK..];
      SplitNames(ws, REPLAY_CHUNK, c.g.epp, id);
      FlushlessChunk(c, x, s, Touched(c.g.epp, t), id);
      ReplayFlushless(PutSorted(c, x, s), x, t, id);
    }
  }

  lemma {:induction false} FreeAllFrame(b: Bin, ids: seq<nat>)
    ensures FreeAll(b, ids) == b.(free := b.free + ids, keys := FreeAll(b, ids).keys)
    ensures forall i :: KeyAt(FreeAll(b, ids), i) == if i in ids then 0 else KeyAt(b, i)
    decreases |ids|
  {
    if ids == [] {
      assert b.free + ids == b.free;
    } else {
      FreeAllFrame(FreeEntry(b, ids[0]), ids[1..]);
      assert b.free + [ids[0]] + ids[1..] == b.free + ids;
      assert forall i :: i in ids <==> i == ids[0] || i in ids[1..];
    }
  }

  lemma EndFrame(b: Bin, order: seq<Write>)
    requires BinOk(b) && Fits(b.cache.g, order)
    ensures BinOk(End(b, order)) && !End(b, order).inCkpt
    ensures End(b, order).cache == Replay(b.cache, ExtentOf(b), order)
    ensures End(b, order) == b.(cache := End(b, order).cache, active := b.active + Touched(b.cache.g.epp, order),
                                inCkpt := false, overlay := map[], tombs := [], free := b.free + b.tombs,
                                keys := End(b, order).keys)
    ensures forall i :: KeyAt(End(b, order), i) == if i in b.tombs then 0 else KeyAt(b, i)
  {
    hide Replay, Touched, FileOk;
    FreeAllFrame(b.(inCkpt := false, cache := Replay(b.cache, ExtentOf(b), order),
                    active := b.active + TouchedPages(b.cache.g.epp, order)), b.tombs);
  }

  /** What the overlay holds is what the replay writes. */
  lemma EnumeratedData(order: seq<Write>, overlay: map<nat, Bytes>, id: nat)
    requires Enumerates(order, overlay)
    ensures DistinctIds(order) && (Names(order, id) <==> id in overlay)
    ensures id in overlay ==> LastData(order, id) == overlay[id]
  {
    if id in overlay {
      LastDataIn(order, id);
    }
  }

  /** What ending a checkpoint does to every read: an entry keeps its value if it lasts through the
      replay and reads as zeros if not.  An entry not written during the checkpoint lasts unless its
      page is replayed into and not reloaded.  An entry written during the checkpoint lasts on a page
      that is reloaded, and on any page as long as the replayed pages fit into the write buffer. */
  lemma EndReads(b: Bin, order: seq<Write>, id: nat)
    requires BinOk(b) && b.inCkpt && Enumerates(order, b.overlay)
    ensures Fits(b.cache.g, order) && BinOk(End(b, order)) && !End(b, order).inCkpt
    ensures Read(End(b, order), id) ==
            if Lasts(b.cache, ExtentOf(b), order, id) then Read(b, id) else Zeros(b.cache.g.entrySize)
    ensures var g, t := b.cache.g, Touched(b.cache.g.epp, order);
            var lost := id / g.epp in t && !Reloads(g, ExtentOf(b), id / g.epp);
            && (id !in b.overlay ==> (Lasts(b.cache, ExtentOf(b), order, id) <==> !lost))
            && (id in b.overlay && (!lost || |t| <= b.cache.maxPages) ==> Lasts(b.cache, ExtentOf(b), order, id))
  {
    assert Fits(b.cache.g, order);
    hide End, Entry, Reloads, Touched, Names, LastData, Enumerates, Replay, FileOk, Lasts;
    var x, t := ExtentOf(b), Touched(b.cache.g.epp, order);
    EndFrame(b, order);
    EnumeratedData(order, b.overlay, id);
    ReplayReads(b.cache, x, order, id);
    if id / b.cache.g.epp !in t || Reloads(b.cache.g, x, id / b.cache.g.epp) {
      ReplayReloads(b.cache, x, order, id);
    } else if id in b.overlay {
      assert t - {} == t;
      if |t| <= b.cache.maxPages {
        ReplayFlushless(b.cache, x, order, id);
      }
    } else {
      ReplayZeroes(b.cache, x, order, id);
    }
  }

  // ----- which entries come through, in plain terms -----

  /** The whole page is below the bump pointer and begins inside the data file. */
  ghost predicate FullPage(b: Bin, p: nat) {
    (p + 1) * b.cache.g.epp <= b.bump && p * b.cache.g.pageSize < b.dataSize
  }

  /** The slot is on such a page. */
  ghost predicate OnFullPage(b: Bin, s: nat) {
    b.cache.g.epp > 0 && FullPage(b, s / b.cache.g.epp)
  }

  /** Some write goes to page `p`. */
  ghost predicate WritesTo(b: Bin, ws: seq<Write>, p: nat)
    requires b.cache.g.epp > 0
  {
    exists i :: 0 <= i < |ws| && ws[i].id / b.cache.g.epp == p
  }

  /** The buffer has room for what it holds and for every page written to. */
  ghost predicate RoomFor(b: Bin, ws: seq<Write>)
    requires b.cache.g.epp > 0
  {
    |b.cache.buf.Keys + Touched(b.cache.g.epp, ws)| <= b.cache.maxPages
  }

  lemma FullPageReloads(b: Bin, p: nat)
    requires b.cache.g.epp > 0
    ensures Reloads(b.cache.g, ExtentOf(b), p) <==> FullPage(b, p)
  {
    var epp := b.cache.g.epp;
    var q, r := DivMod(b.bump, epp);
    MulMono(p + 1, q, epp);
    MulMono(q + 1, p + 1, epp);
    assert (q + 1) * epp == q * epp + epp;
  }

  lemma WritesTouch(b: Bin, ws: seq<Write>, p: nat)
    requires b.cache.g.epp > 0
    ensures p in Touched(b.cache.g.epp, ws) <==> WritesTo(b, ws, p)
  {
    if WritesTo(b, ws, p) {
      var i :| 0 <= i < |ws| && ws[i].id / b.cache.g.epp == p;
      assert ws[i] in ws;
    }
  }

  lemma RoomIsFlushless(b: Bin, ws: seq<Write>, p: nat)
    requires b.cache.g.epp > 0 && RoomFor(b, ws)
    ensures var t := Touched(b.cache.g.epp, ws);
            Flushless(b.cache.buf.Keys, t, b.cache.maxPages) && Flushless(b.cache.buf.Keys, Below(t, p), b.cache.maxPages)
    ensures b.cache.buf == map[] ==> |Touched(b.cache.g.epp, ws)| <= b.cache.maxPages
  {
    hide Touched, Flushless, Below;
    RoomInSets(b.cache.buf.Keys, Touched(b.cache.g.epp, ws), b.cache.maxPages, p);
  }

  lemma RoomInSets(buf: set<nat>, t: set<nat>, most: nat, p: nat)
    requires |buf + t| <= most
    ensures Flushless(buf, t, most) && Flushless(buf, Below(t, p), most) && (buf == {} ==> |t| <= most)
  {
    SubsetSize(Below(t, p) - buf, t - buf);
    assert buf + t == buf + (t - buf);
  }

  /** What becomes of an entry on page `p` that a batch outside a checkpoint does not name. */
  ghost predicate UnnamedFate(b: Bin, ws: seq<Write>, p: nat, was: Bytes, now: Bytes)
    requires b.cache.g.epp > 0
  {
    && (FullPage(b, p) || !WritesTo(b, ws, p) ==> now == was)
    && (!FullPage(b, p) && WritesTo(b, ws, p) && p !in b.cache.buf ==> now == seq(b.cache.g.entrySize, _ => 0))
    && (p in b.cache.buf && RoomFor(b, ws) ==> now == was)
  }

  /** An entry that a batch outside a checkpoint does not name: unchanged on a full page and on a page
      not written to; zeros on a page written to that is neither full nor buffered; and unchanged on a
      buffered page as long as the buffer has room for all the batch writes to. */
  lemma UnnamedAfterBatch(b: Bin, ws: seq<Write>, id: nat)
    requires BinOk(b) && !b.inCkpt && Fits(b.cache.g, ws) && !Names(ws, id)
    ensures var p, r := id / b.cache.g.epp, PutBatch(b, ws).0;
            BinOk(r) && UnnamedFate(b, ws, p, Read(b, id), Read(r, id))
  {
    hide Reloads, Touched, FullPage, WritesTo, PutBatch, RoomFor, Flushless, Below, Entry, FileOk;
    var p := id / b.cache.g.epp;
    PutBatchReads(b, ws, id);
    FullPageReloads(b, p);
    WritesTouch(b, ws, p);
    if RoomFor(b, ws) {
      RoomIsFlushless(b, ws, p);
    }
  }

  /** Something was written to the page of slot `s` during the checkpoint. */
  ghost predicate OverlaidPage(b: Bin, s: nat)
    requires b.cache.g.epp > 0
  {
    exists i :: i in b.overlay && i / b.cache.g.epp == s / b.cache.g.epp
  }

  lemma OverlaidIsWritten(b: Bin, order: seq<Write>, s: nat)
    requires b.cache.g.epp > 0 && Enumerates(order, b.overlay)
    ensures OverlaidPage(b, s) <==> WritesTo(b, order, s / b.cache.g.epp)
  {
    var p := s / b.cache.g.epp;
    if OverlaidPage(b, s) {
      var i :| i in b.overlay && i / b.cache.g.epp == p;
      var k :| 0 <= k < |order| && order[k].id == i;
    }
    if WritesTo(b, order, p) {
      var k :| 0 <= k < |order| && order[k].id / b.cache.g.epp == p;
      assert order[k].id in b.overlay;
    }
  }

  /** Every entry after the end of a checkpoint.  One that was not written during it is unchanged on a
      full page and on a page nothing was written to, and zeros otherwise.  One that was written is
      unchanged on a full page, and on any page when all that was written fits into the write buffer. */
  lemma EntryAfterEnd(b: Bin, order: seq<Write>, id: nat)
    requires BinOk(b) && b.inCkpt && Enumerates(order, b.overlay)
    ensures Fits(b.cache.g, order) && BinOk(End(b, order))
    ensures var now := Read(End(b, order), id);
            && (id !in b.overlay ==>
                  now == if OnFullPage(b, id) || !OverlaidPage(b, id) then Read(b, id) else seq(b.cache.g.entrySize, _ => 0))
            && (id in b.overlay && (OnFullPage(b, id) || RoomFor(b, order)) ==> now == b.overlay[id])
  {
    hide Reloads, Touched, FullPage, End, Lasts, Enumerates, WritesTo, RoomFor, Entry, FileOk, Fits, OverlaidPage;
    var p := id / b.cache.g.epp;
    EndReads(b, order, id);
    FullPageReloads(b, p);
    WritesTouch(b, order, p);
    OverlaidIsWritten(b, order, id);
    if RoomFor(b, order) {
      RoomIsFlushless(b, order, p);
    }
  }
}
