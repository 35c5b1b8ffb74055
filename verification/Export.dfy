/** The full export: a phase machine that reads keys in batches, reads the embeddings of live
    slots in coalesced ranges and writes them out, and the parser of what it writes. */
module Exports {
  import opened Pages
  import opened Wire
  import opened Arithmetic
  import opened KeyStores

  datatype Item = Item(id: nat, emb: Bytes)

  /** The slots below `n` that hold a feature, each with the entry at its linear offset, ascending. */
  function Live(g: Geometry, file: File, keys: seq<nat>, n: nat): (r: seq<Item>)
    requires g.Ok() && FileOk(g, file)
  {
    if n == 0 then []
    else
      Live(g, file, keys, n - 1)
      + if ReadSlot(keys, n - 1) != 0 then [Item(ReadSlot(keys, n - 1), LinearRead(g, file, n - 1))] else []
  }

  function EncodeItem(x: Item): (b: Bytes) {
    PutU64(x.id) + x.emb
  }

  function EncodeItems(xs: seq<Item>): (b: Bytes) {
    if xs == [] then [] else EncodeItems(xs[..|xs| - 1]) + EncodeItem(xs[|xs| - 1])
  }

  function Trailer(count: nat): (b: Bytes)
    ensures |b| == 12
  {
    PutU32(EXPORT_MAGIC) + PutU64(count)
  }

  lemma {:induction false} EncodeConcat(a: seq<Item>, b: seq<Item>)
    ensures EncodeItems(a + b) == EncodeItems(a) + EncodeItems(b)
    decreases |b|
  {
    hide EncodeItem;
    if b == [] {
      assert a + b == a;
    } else {
      assert (a + b)[..|a + b| - 1] == a + b[..|b| - 1];
      EncodeConcat(a, b[..|b| - 1]);
    }
  }

  // ----- one batch -----

  datatype ReadOp = ReadOp(id: nat, slot: nat)

  /** The live slots of `[from, end)`. */
  function OpsOf(keys: seq<nat>, from: nat, end: nat): (r: seq<ReadOp>)
    requires from <= end
    ensures |r| <= end - from
    ensures forall i :: 0 <= i < |r| ==> from <= r[i].slot < end && r[i].id == ReadSlot(keys, r[i].slot) != 0
  {
    if from == end then []
    else OpsOf(keys, from, end - 1) + if ReadSlot(keys, end - 1) != 0 then [ReadOp(ReadSlot(keys, end - 1), end - 1)] else []
  }

  function ItemsOf(g: Geometry, file: File, ops: seq<ReadOp>): (r: seq<Item>)
    requires g.Ok() && FileOk(g, file)
  {
    seq(|ops|, i requires 0 <= i < |ops| => Item(ops[i].id, LinearRead(g, file, ops[i].slot)))
  }

  lemma {:induction false} LiveMore(g: Geometry, file: File, keys: seq<nat>, from: nat, end: nat)
    requires g.Ok() && FileOk(g, file) && from <= end
    ensures Live(g, file, keys, end) == Live(g, file, keys, from) + ItemsOf(g, file, OpsOf(keys, from, end))
    decreases end
  {
    if from != end {
      LiveMore(g, file, keys, from, end - 1);
    }
  }

  /** Every live slot is there... */
  lemma {:induction false} OpsAreAll(keys: seq<nat>, from: nat, end: nat, s: nat)
    requires from <= s < end && ReadSlot(keys, s) != 0
    ensures ReadOp(ReadSlot(keys, s), s) in OpsOf(keys, from, end)
    decreases end
  {
    if s < end - 1 {
      OpsAreAll(keys, from, end - 1, s);
    }
  }

  /** ...once, and in slot order. */
  lemma {:induction false} OpsAscend(keys: seq<nat>, from: nat, end: nat, i: nat, j: nat)
    requires from <= end && i < j < |OpsOf(keys, from, end)|
    ensures OpsOf(keys, from, end)[i].slot < OpsOf(keys, from, end)[j].slot
    decreases end
  {
    var before := OpsOf(keys, from, end - 1);
    if j < |before| {
      OpsAscend(keys, from, end - 1, i, j);
    } else {
      assert before[i].slot < end - 1;
    }
  }

  /** What an export emits: one item for each slot below the bump pointer whose key is not zero,
      in slot order, with the bytes at the slot's linear offset; the slot's own embedding when pages hold
      no slack. */
  lemma LiveIsExact(g: Geometry, file: File, keys: seq<nat>, n: nat)
    requires g.Ok() && FileOk(g, file)
    ensures var ops := OpsOf(keys, 0, n);
            && Live(g, file, keys, n) == ItemsOf(g, file, ops)
            && (forall i, j :: 0 <= i < j < |ops| ==> ops[i].slot < ops[j].slot)
            && (forall s: nat :: s < n && ReadSlot(keys, s) != 0 <==> ReadOp(ReadSlot(keys, s), s) in ops)
            && (g.pageSize == g.epp * g.entrySize ==>
                  forall i :: 0 <= i < |ops| ==> Live(g, file, keys, n)[i] == Item(ops[i].id, PagedRead(g, file, ops[i].slot)))
  {
    hide LinearRead, PagedRead, OpsOf, Live, ItemsOf;
    var ops := OpsOf(keys, 0, n);
    LiveMore(g, file, keys, 0, n);
    forall s: nat | s < n && ReadSlot(keys, s) != 0
      ensures ReadOp(ReadSlot(keys, s), s) in ops
    {
      OpsAreAll(keys, 0, n, s);
    }
    forall i, j | 0 <= i < j < |ops|
      ensures ops[i].slot < ops[j].slot
    {
      OpsAscend(keys, 0, n, i, j);
    }
    NoneLive(g, file, keys);
    assert [] + ItemsOf(g, file, ops) == ItemsOf(g, file, ops);
    ItemsPaged(g, file, ops);
  }

  lemma NoneLive(g: Geometry, file: File, keys: seq<nat>)
    requires g.Ok() && FileOk(g, file)
    ensures Live(g, file, keys, 0) == []
  {
  }

  lemma ItemsPaged(g: Geometry, file: File, ops: seq<ReadOp>)
    requires g.Ok() && FileOk(g, file)
    ensures |ItemsOf(g, file, ops)| == |ops|
    ensures g.pageSize == g.epp * g.entrySize ==>
              forall i :: 0 <= i < |ops| ==> ItemsOf(g, file, ops)[i] == Item(ops[i].id, PagedRead(g, file, ops[i].slot))
  {
    hide LinearRead, PagedRead;
    if g.pageSize == g.epp * g.entrySize {
      forall i | 0 <= i < |ops|
        ensures ItemsOf(g, file, ops)[i] == Item(ops[i].id, PagedRead(g, file, ops[i].slot))
      {
        LinearIsPaged(g, file, ops[i].slot);
      }
    }
  }

  /** The key scan of a batch. */
  method ScanKeys(batch: seq<nat>, start: nat, ghost keys: seq<nat>) returns (ops: seq<ReadOp>)
    requires forall i :: 0 <= i < |batch| ==> batch[i] == ReadSlot(keys, start + i)
    ensures ops == OpsOf(keys, start, start + |batch|)
  {
    ops := [];
    for i := 0 to |batch|
      invariant ops == OpsOf(keys, start, start + i)
    {
      if batch[i] != 0 {
        ops := ops + [ReadOp(batch[i], start + i)];
      }
    }
  }

  /** A range of consecutive slots, read into the pool at op position `at`. */
  datatype Range = Range(start: nat, count: nat, at: nat)

  /** How many ops the ranges account for. */
  function Covered(ranges: seq<Range>): (n: nat) {
    if ranges == [] then 0 else ranges[|ranges| - 1].at + ranges[|ranges| - 1].count
  }

  /** The ranges tile the first `n` ops: each starts where the one before ended, and holds
      consecutive slots. */
  ghost predicate Tiles(ranges: seq<Range>, ops: seq<ReadOp>, n: nat) {
    && n <= |ops| && Covered(ranges) == n
    && forall r :: 0 <= r < |ranges| ==> Fits(ranges[r], ops) && ranges[r].at == Covered(ranges[..r])
  }

  ghost predicate Fits(r: Range, ops: seq<ReadOp>) {
    && r.count > 0 && r.at + r.count <= |ops|
    && forall i :: r.at <= i < r.at + r.count ==> ops[i].slot == r.start + (i - r.at)
  }

  /** `export_build_coalesced_ranges`. */
  method BuildRanges(ops: seq<ReadOp>) returns (ranges: seq<Range>)
    ensures Tiles(ranges, ops, |ops|)
  {
    ranges := [];
    if |ops| == 0 {
      return;
    }
    ranges := [Range(ops[0].slot, 1, 0)];
    assert ranges[..0] == [];
    for i := 1 to |ops|
      invariant |ranges| > 0 && Tiles(ranges, ops, i)
    {
      var cur := ranges[|ranges| - 1];
      if ops[i].slot == cur.start + cur.count {
        ExtendRange(ranges, ops, i);
        ranges := ranges[..|ranges| - 1] + [cur.(count := cur.count + 1)];
      } else {
        AddRange(ranges, ops, i);
        ranges := ranges + [Range(ops[i].slot, 1, i)];
      }
    }
  }

  lemma ExtendRange(ranges: seq<Range>, ops: seq<ReadOp>, i: nat)
    requires |ranges| > 0 && i < |ops| && Tiles(ranges, ops, i)
    requires ops[i].slot == ranges[|ranges| - 1].start + ranges[|ranges| - 1].count
    ensures var cur := ranges[|ranges| - 1];
            Tiles(ranges[..|ranges| - 1] + [cur.(count := cur.count + 1)], ops, i + 1)
  {
    var cur := ranges[|ranges| - 1];
    var next := ranges[..|ranges| - 1] + [cur.(count := cur.count + 1)];
    forall r | 0 <= r < |next|
      ensures Fits(next[r], ops) && next[r].at == Covered(next[..r])
    {
      assert next[..r] == ranges[..r];
      assert Fits(ranges[r], ops);
    }
  }

  lemma AddRange(ranges: seq<Range>, ops: seq<ReadOp>, i: nat)
    requires i < |ops| && Tiles(ranges, ops, i)
    ensures Tiles(ranges + [Range(ops[i].slot, 1, i)], ops, i + 1)
  {
    var next := ranges + [Range(ops[i].slot, 1, i)];
    forall r | 0 <= r < |next|
      ensures Fits(next[r], ops) && next[r].at == Covered(next[..r])
    {
      assert next[..r] == ranges[..r];
      if r < |ranges| {
        assert Fits(ranges[r], ops);
      } else {
        assert ranges[..r] == ranges;
      }
    }
  }

  /** Op `i`'s buffer holds the entry of its slot. */
  ghost predicate Loaded(g: Geometry, file: File, ops: seq<ReadOp>, pool: seq<Byte>, i: nat)
    requires g.Ok() && FileOk(g, file) && i < |ops|
  {
    var at := i * g.entrySize;
    at + g.entrySize <= |pool| && pool[at..at + g.entrySize] == LinearRead(g, file, ops[i].slot)
  }

  /** `after` is `before` with the file's bytes from `off` on copied into `[base, end)`. */
  ghost predicate Copied(g: Geometry, file: File, before: seq<Byte>, after: seq<Byte>, base: nat, end: nat, off: nat)
    requires g.Ok() && FileOk(g, file)
  {
    && base <= end <= |after| == |before|
    && (forall j :: 0 <= j < |after| ==> after[j] == if base <= j < end then ByteAt(g, file, off + (j - base)) else before[j])
  }

  /** One coalesced read: the bytes of `count` slots, from the first slot's linear offset on. */
  method ReadRange(g: Geometry, file: File, pool: array<Byte>, r: Range)
    requires g.Ok() && FileOk(g, file) && (r.at + r.count) * g.entrySize <= pool.Length
    modifies pool
    ensures Copied(g, file, old(pool[..]), pool[..], r.at * g.entrySize, (r.at + r.count) * g.entrySize, r.start * g.entrySize)
  {
    var base, end, off := r.at * g.entrySize, (r.at + r.count) * g.entrySize, r.start * g.entrySize;
    MulMono(r.at, r.at + r.count, g.entrySize);
    forall i | base <= i < end {
      pool[i] := ByteAt(g, file, off + (i - base));
    }
  }

  lemma CopiedLoads(g: Geometry, file: File, ops: seq<ReadOp>, before: seq<Byte>, after: seq<Byte>,
                    base: nat, end: nat, off: nat, i: nat, at: nat)
    requires g.Ok() && FileOk(g, file) && Copied(g, file, before, after, base, end, off)
    requires i < |ops| && at == i * g.entrySize && at + g.entrySize <= end
    requires if at < base then at + g.entrySize <= base && Loaded(g, file, ops, before, i)
             else ops[i].slot * g.entrySize == off + (at - base)
    ensures Loaded(g, file, ops, after, i)
  {
    assert at < base ==> after[at..at + g.entrySize] == before[at..at + g.entrySize];
    assert at >= base ==> after[at..at + g.entrySize] == LinearRead(g, file, ops[i].slot);
  }

  /** Where op `i` lies in the pool and, when the range covers it, in the file. */
  lemma OpOffsets(r: Range, i: nat, es: nat)
    requires i < r.at + r.count
    ensures i * es + es <= (r.at + r.count) * es
    ensures i < r.at ==> i * es + es <= r.at * es
    ensures i >= r.at ==> r.at * es <= i * es && (r.start + (i - r.at)) * es == r.start * es + (i * es - r.at * es)
  {
    MulMono(i + 1, r.at + r.count, es);
    if i < r.at {
      MulMono(i + 1, r.at, es);
    } else {
      MulMono(r.at, i, es);
    }
  }

  lemma RangeLoads(g: Geometry, file: File, ops: seq<ReadOp>, before: seq<Byte>, after: seq<Byte>, r: Range, i: nat)
    requires g.Ok() && FileOk(g, file) && Fits(r, ops)
    requires Copied(g, file, before, after, r.at * g.entrySize, (r.at + r.count) * g.entrySize, r.start * g.entrySize)
    requires i < r.at + r.count && (i < r.at ==> Loaded(g, file, ops, before, i))
    ensures Loaded(g, file, ops, after, i)
  {
    hide Copied, Loaded, FileOk;
    var es := g.entrySize;
    OpOffsets(r, i, es);
    assert i >= r.at ==> ops[i].slot == r.start + (i - r.at);
    CopiedLoads(g, file, ops, before, after, r.at * es, (r.at + r.count) * es, r.start * es, i, i * es);
  }

  /** The read loop over the ranges: every op's buffer is filled. */
  method ReadRanges(g: Geometry, file: File, pool: array<Byte>, ranges: seq<Range>, ghost ops: seq<ReadOp>)
    requires g.Ok() && FileOk(g, file) && Tiles(ranges, ops, |ops|) && |ops| * g.entrySize <= pool.Length
    modifies pool
    ensures forall i :: 0 <= i < |ops| ==> Loaded(g, file, ops, pool[..], i)
  {
    for r := 0 to |ranges|
      invariant forall i :: 0 <= i < Covered(ranges[..r]) ==> i < |ops| && Loaded(g, file, ops, pool[..], i)
    {
      ghost var before := pool[..];
      var rng := ranges[r];
      assert Fits(rng, ops) && rng.at == Covered(ranges[..r]);
      MulMono(rng.at + rng.count, |ops|, g.entrySize);
      ReadRange(g, file, pool, rng);
      assert Covered(ranges[..r + 1]) == rng.at + rng.count <= |ops|;
      forall i | 0 <= i < rng.at + rng.count
        ensures Loaded(g, file, ops, pool[..], i)
      {
        RangeLoads(g, file, ops, before, pool[..], rng, i);
      }
    }
    assert ranges[..|ranges|] == ranges;
  }

  /** The output loop: id, then embedding, for every op. */
  method WriteItems(g: Geometry, file: File, pool: array<Byte>, ops: seq<ReadOp>) returns (out: Bytes)
    requires g.Ok() && FileOk(g, file)
    requires forall i :: 0 <= i < |ops| ==> Loaded(g, file, ops, pool[..], i)
    ensures out == EncodeItems(ItemsOf(g, file, ops))
  {
    hide EncodeItem, LinearRead, PutLE;
    out := [];
    ghost var all := ItemsOf(g, file, ops);
    for i := 0 to |ops|
      invariant out == EncodeItems(all[..i])
    {
      assert Loaded(g, file, ops, pool[..], i);
      assert all[..i + 1][..i] == all[..i];
      WrittenItem(all[i]);
      MulMono(i, i + 1, g.entrySize);
      out := out + PutU64(ops[i].id) + pool[i * g.entrySize..(i + 1) * g.entrySize];
    }
    assert all[..|ops|] == all;
  }

  lemma WrittenItem(x: Item)
    ensures EncodeItem(x) == PutU64(x.id) + x.emb
  {
  }

  // ----- the phase machine -----

  datatype Phase = Idle | KeyRead | EmbRead | Output

  /** A full export of one bin.  The key file and the data file do not change while it runs. */
  class Export {
    const g: Geometry
    const file: File
    const keys: seq<nat>
    const bump: nat  // the bump pointer when the export began
    const batch: nat
    const header: ExportHeader
    const pool: array<Byte>
    var phase: Phase
    var cursor: nat
    var scanDone: bool
    var headerWritten: bool
    var start: nat
    var keyBatch: seq<nat>
    var ops: seq<ReadOp>
    var dump: Bytes
    var count: nat

    /** Slots below this are written out. */
    ghost function Done(): nat
      reads this
    {
      if phase == Idle then cursor else start
    }

    ghost predicate Valid()
      reads this, pool
    {
      && g.Ok() && FileOk(g, file)
      && batch > 0 && pool.Length == batch * g.entrySize
      && start <= cursor <= bump && cursor - start <= batch && (scanDone ==> cursor == bump)
      && (!headerWritten ==> phase == Idle && cursor == 0 && !scanDone)
      && dump == (if headerWritten then EncodeExportHeader(header) else []) + EncodeItems(Live(g, file, keys, Done()))
      && count == |Live(g, file, keys, Done())|
      && PhaseOk()
    }

    ghost predicate PhaseOk()
      reads this, pool
      requires g.Ok() && FileOk(g, file) && start <= cursor
    {
      match phase
      case Idle => true
      case KeyRead => |keyBatch| == cursor - start && forall i :: 0 <= i < |keyBatch| ==> keyBatch[i] == ReadSlot(keys, start + i)
      case EmbRead => ops == OpsOf(keys, start, cursor) && forall i :: 0 <= i < |ops| ==> Loaded(g, file, ops, pool[..], i)
      case Output => ops == OpsOf(keys, start, cursor) && forall i :: 0 <= i < |ops| ==> Loaded(g, file, ops, pool[..], i)
    }

    /** `graveldb_ckpt_export_begin`, full mode. */
    constructor (g: Geometry, file: File, keys: seq<nat>, bump: nat, batchEntries: nat, header: ExportHeader)
      requires g.Ok() && FileOk(g, file)
      ensures Valid() && fresh(pool) && phase == Idle && cursor == 0 && !scanDone && dump == []
      ensures this.g == g && this.file == file && this.keys == keys && this.bump == bump && this.header == header
    {
      var size := if batchEntries == 0 then 256 else batchEntries;
      this.g, this.file, this.keys, this.bump, batch, this.header := g, file, keys, bump, size, header;
      MulMono(0, size, g.entrySize);
      pool := new Byte[size * g.entrySize](_ => 0);
      phase, cursor, scanDone, headerWritten, start := Idle, 0, false, false, 0;
      keyBatch, ops, dump, count := [], [], [], 0;
    }

    /** IDLE: read the next batch of keys. */
    method ReadKeys()
      requires Valid() && phase == Idle && headerWritten && !scanDone
      modifies this`phase, this`cursor, this`scanDone, this`start, this`keyBatch
      ensures Valid() && phase == KeyRead && start == old(cursor)
      ensures cursor > old(cursor) || scanDone
    {
      hide Live, EncodeItems, EncodeExportHeader;
      var first, end := cursor, if cursor + batch > bump then bump else cursor + batch;
      start := first;
      keyBatch := seq<nat>(end - first, i requires 0 <= i < end - first => ReadSlot(keys, first + i));
      cursor := end;
      if cursor >= bump {
        scanDone := true;
      }
      phase := KeyRead;
    }

    /** KEY_READ: pick the live slots and read their embeddings. */
    method ReadEmbeddings()
      requires Valid() && phase == KeyRead
      modifies this`phase, this`ops, this`start, pool
      ensures Valid() && (phase == EmbRead || phase == Idle) && (phase == EmbRead ==> start == old(start))
    {
      hide EncodeItems, EncodeExportHeader, LinearRead, Live, OpsOf, Loaded;
      ops := ScanKeys(keyBatch, start, keys);
      LiveMore(g, file, keys, start, cursor);
      if |ops| == 0 {
        assert Live(g, file, keys, cursor) == Live(g, file, keys, start) + [] == Live(g, file, keys, start);
        start, phase := cursor, Idle;
      } else {
        var ranges := BuildRanges(ops);
        MulMono(|ops|, batch, g.entrySize);
        ReadRanges(g, file, pool, ranges, ops);
        phase := EmbRead;
      }
    }

    /** OUTPUT: append the batch to the dump. */
    method WriteOut()
      requires Valid() && phase == Output
      modifies this`phase, this`ops, this`start, this`dump, this`count
      ensures Valid() && phase == Idle
    {
      hide EncodeItems, EncodeExportHeader, LinearRead, Live;
      var out := WriteItems(g, file, pool, ops);
      LiveMore(g, file, keys, start, cursor);
      EncodeConcat(Live(g, file, keys, start), ItemsOf(g, file, ops));
      dump := dump + out;
      count := count + |ops|;
      start, ops, phase := cursor, [], Idle;
    }

    method WriteHeader()
      requires Valid() && !headerWritten
      modifies this`dump, this`headerWritten
      ensures Valid() && headerWritten
    {
      hide EncodeExportHeader;
      dump, headerWritten := EncodeExportHeader(header), true;
    }

    /** EMB_READ: the reads are complete. */
    method ReadsComplete()
      requires Valid() && phase == EmbRead
      modifies this`phase
      ensures Valid() && phase == Output
    {
      hide EncodeExportHeader, EncodeItems, Live, Loaded;
      phase := Output;
    }

    /** `graveldb_ckpt_export_step`: false while there is more to do. */
    method Step() returns (finished: bool)
      requires Valid()
      modifies this, pool
      ensures Valid() && finished == (phase == Idle && scanDone) && (finished ==> headerWritten)
      ensures !finished ==> StepsLeft(bump, cursor, phase, scanDone) < old(StepsLeft(bump, cursor, phase, scanDone))
    {
      hide EncodeExportHeader, EncodeItems, Live, PhaseOk;
      if !(scanDone && phase == Idle) {
        if !headerWritten {
          WriteHeader();
        }
        match phase {
          case Idle => ReadKeys();
          case KeyRead => ReadEmbeddings();
          case EmbRead => ReadsComplete();
          case Output => WriteOut();
        }
      }
      finished := phase == Idle && scanDone;
    }

    /** `graveldb_ckpt_export_end`: the trailer. */
    method Finish()
      requires Valid() && phase == Idle && scanDone && headerWritten
      modifies this`dump
      ensures dump == FullDump(header, Live(g, file, keys, bump))
    {
      dump := dump + (PutU32(EXPORT_MAGIC) + PutU64(count));
    }
  }

  /** At most four steps per batch remain. */
  ghost function StepsLeft(bump: nat, cursor: nat, phase: Phase, scanDone: bool): int {
    4 * (bump - cursor) + (if scanDone then 0 else 4)
    + match phase
      case Idle => 0
      case KeyRead => 3
      case EmbRead => 2
      case Output => 1
  }

  /** Header, items, trailer. */
  function FullDump(h: ExportHeader, xs: seq<Item>): (b: Bytes) {
    EncodeExportHeader(h) + EncodeItems(xs) + Trailer(|xs|)
  }

  /** Stepping an export to its end: for every batch size the dump holds every live slot below the
      bump pointer once, ascending. */
  method RunExport(e: Export)
    requires e.Valid() && e.phase == Idle && e.cursor == 0 && !e.scanDone
    modifies e, e.pool
    ensures e.dump == FullDump(e.header, Live(e.g, e.file, e.keys, e.bump))
  {
    var finished := e.Step();
    while !finished
      invariant e.Valid() && finished == (e.phase == Idle && e.scanDone) && (finished ==> e.headerWritten)
      decreases StepsLeft(e.bump, e.cursor, e.phase, e.scanDone)
    {
      finished := e.Step();
    }
    e.Finish();
  }

  // ----- parsing -----

  datatype Parsed = Parsed(items: seq<Item>, ok: bool)

  /** The entry loop of `graveldb_ckpt_parse`: stop at the trailer magic or at the end, fail on a
      partial entry. */
  function ParseItems(b: Bytes, entrySize: nat): (r: Parsed)
    decreases |b|
  {
    if |b| < 8 then Parsed([], |b| == 0)
    else if U32At(b, 0) == EXPORT_MAGIC then Parsed([], true)
    else if |b| < 8 + entrySize then Parsed([], false)
    else
      var rest := ParseItems(b[8 + entrySize..], entrySize);
      Parsed([Item(U64At(b, 0), b[8..8 + entrySize])] + rest.items, rest.ok)
  }

  datatype ParseResult = Corrupt | Dump(header: ExportHeader, items: seq<Item>, ok: bool)

  method ParseLoop(b: Bytes, first: nat, entrySize: nat) returns (items: seq<Item>, ok: bool)
    requires first <= |b|
    ensures Parsed(items, ok) == ParseItems(b[first..], entrySize)
  {
    hide GetLE, ParseItems;
    var pos := first;
    items := [];
    while pos + 8 + entrySize <= |b| && U32At(b, pos) != EXPORT_MAGIC
      invariant first <= pos <= |b|
      invariant var rest := ParseItems(b[pos..], entrySize);
                ParseItems(b[first..], entrySize) == Parsed(items + rest.items, rest.ok)
      decreases |b| - pos
    {
      ItemAt(b, pos, entrySize);
      var x := Item(U64At(b, pos), b[pos + 8..pos + 8 + entrySize]);
      ghost var rest := ParseItems(b[pos + 8 + entrySize..], entrySize);
      assert items + ([x] + rest.items) == (items + [x]) + rest.items;
      items := items + [x];
      pos := pos + 8 + entrySize;
    }
    ok := pos == |b| || (pos + 8 <= |b| && U32At(b, pos) == EXPORT_MAGIC);
    ParseStops(b, pos, entrySize);
    assert items + [] == items;
  }

  lemma ParseStops(b: Bytes, pos: nat, entrySize: nat)
    requires pos <= |b| && (pos + 8 + entrySize > |b| || U32At(b, pos) == EXPORT_MAGIC)
    ensures ParseItems(b[pos..], entrySize) ==
            Parsed([], pos == |b| || (pos + 8 <= |b| && U32At(b, pos) == EXPORT_MAGIC))
  {
    if pos + 8 <= |b| {
      assert b[pos..][0..4] == b[pos..pos + 4];
    }
  }

  /** `graveldb_ckpt_parse`. */
  method Parse(b: Bytes) returns (r: ParseResult)
    ensures r.Corrupt? <==>
              |b| < EXPORT_HEADER || DecodeExportHeader(b).magic != EXPORT_MAGIC || DecodeExportHeader(b).version != 1
    ensures r.Dump? ==>
              && r.header == DecodeExportHeader(b)
              && Parsed(r.items, r.ok) == ParseItems(b[EXPORT_HEADER..], r.header.entrySize)
  {
    hide ParseItems, GetLE;
    if |b| < EXPORT_HEADER {
      return Corrupt;
    }
    var h := DecodeExportHeader(b);
    if h.magic != EXPORT_MAGIC || h.version != 1 {
      return Corrupt;
    }
    var items, ok := ParseLoop(b, EXPORT_HEADER, h.entrySize);
    r := Dump(h, items, ok);
  }

  lemma ItemAt(b: Bytes, pos: nat, entrySize: nat)
    requires pos + 8 + entrySize <= |b| && U32At(b, pos) != EXPORT_MAGIC
    ensures var rest := ParseItems(b[pos + 8 + entrySize..], entrySize);
            ParseItems(b[pos..], entrySize) ==
              Parsed([Item(U64At(b, pos), b[pos + 8..pos + 8 + entrySize])] + rest.items, rest.ok)
  {
    var t := b[pos..];
    assert t[0..4] == b[pos..pos + 4] && t[0..8] == b[pos..pos + 8];
    assert t[8..8 + entrySize] == b[pos + 8..pos + 8 + entrySize];
    assert t[8 + entrySize..] == b[pos + 8 + entrySize..];
  }

  ghost predicate LooksLikeTrailer(x: Item) {
    x.id % U32 == EXPORT_MAGIC
  }

  /** The items before the first whose id looks like the trailer. */
  ghost function UpToTrailer(xs: seq<Item>): (r: seq<Item>)
    ensures r <= xs
  {
    if xs == [] || LooksLikeTrailer(xs[0]) then [] else [xs[0]] + UpToTrailer(xs[1..])
  }

  lemma {:induction false} UpToTrailerIsAll(xs: seq<Item>)
    ensures UpToTrailer(xs) == xs <==> forall i :: 0 <= i < |xs| ==> !LooksLikeTrailer(xs[i])
    decreases |xs|
  {
    if xs != [] {
      UpToTrailerIsAll(xs[1..]);
      assert xs == [xs[0]] + xs[1..];
      assert (forall i :: 0 <= i < |xs| ==> !LooksLikeTrailer(xs[i])) <==>
             !LooksLikeTrailer(xs[0]) && forall i :: 0 <= i < |xs[1..]| ==> !LooksLikeTrailer(xs[1..][i]);
    }
  }

  ghost predicate ItemsOk(xs: seq<Item>, entrySize: nat) {
    forall i :: 0 <= i < |xs| ==> xs[i].id < U64 && |xs[i].emb| == entrySize
  }

  lemma EncodeCons(xs: seq<Item>)
    requires xs != []
    ensures EncodeItems(xs) == EncodeItem(xs[0]) + EncodeItems(xs[1..])
  {
    hide EncodeItem;
    assert xs == [xs[0]] + xs[1..];
    EncodeConcat([xs[0]], xs[1..]);
    assert [xs[0]][..0] == [];
  }

  /** The first item of an encoded list is read back. */
  lemma FirstItem(x: Item, rest: Bytes)
    requires x.id < U64
    ensures var b := EncodeItem(x) + rest;
            && U32At(b, 0) == x.id % U32 && U64At(b, 0) == x.id
            && b[8..8 + |x.emb|] == x.emb && b[8 + |x.emb|..] == rest
  {
    hide PutLE, GetLE;
    var b := EncodeItem(x) + rest;
    Widths();
    LowHalf(x.id);
    GetPut(x.id, 8);
    assert b[0..8] == PutU64(x.id);
    assert b[0..4] == PutU64(x.id)[0..4];
  }

  lemma {:induction false} ParseOfItems(xs: seq<Item>, entrySize: nat, count: nat)
    requires ItemsOk(xs, entrySize)
    ensures ParseItems(EncodeItems(xs) + Trailer(count), entrySize) == Parsed(UpToTrailer(xs), true)
    decreases |xs|
  {
    hide EncodeItem, PutLE, GetLE;
    if xs == [] {
      TrailerIsSeen(count);
      assert EncodeItems(xs) + Trailer(count) == Trailer(count);
    } else {
      var rest := EncodeItems(xs[1..]) + Trailer(count);
      EncodeCons(xs);
      assert EncodeItems(xs) + Trailer(count) == EncodeItem(xs[0]) + rest;
      FirstItem(xs[0], rest);
      WrittenItem(xs[0]);
      ParseOfItems(xs[1..], entrySize, count);
    }
  }

  lemma TrailerIsSeen(count: nat)
    ensures U32At(Trailer(count), 0) == EXPORT_MAGIC
  {
    Widths();
    GetPut(EXPORT_MAGIC, 4);
    assert Trailer(count)[0..4] == PutU32(EXPORT_MAGIC);
  }

  lemma DumpParts(h: ExportHeader, xs: seq<Item>)
    ensures var body := EncodeItems(xs) + Trailer(|xs|);
            FullDump(h, xs) == EncodeExportHeader(h) + body && FullDump(h, xs)[EXPORT_HEADER..] == body
  {
    hide EncodeExportHeader, EncodeItems;
    var body := EncodeItems(xs) + Trailer(|xs|);
    assert FullDump(h, xs) == EncodeExportHeader(h) + body;
    assert (EncodeExportHeader(h) + body)[EXPORT_HEADER..] == body;
  }

  /** Export then parse: the header comes back, and the items up to the first id whose low half is
      the trailer magic. */
  lemma ParseOfDump(h: ExportHeader, xs: seq<Item>)
    requires h.InRange() && h.magic == EXPORT_MAGIC && h.version == 1 && ItemsOk(xs, h.entrySize)
    ensures |FullDump(h, xs)| >= EXPORT_HEADER && DecodeExportHeader(FullDump(h, xs)) == h
    ensures ParseItems(FullDump(h, xs)[EXPORT_HEADER..], h.entrySize) == Parsed(UpToTrailer(xs), true)
  {
    hide EncodeExportHeader, EncodeItems, ParseItems, DecodeExportHeader, FullDump, UpToTrailer, Trailer;
    DumpParts(h, xs);
    ExportHeaderRoundTrip(h, EncodeItems(xs) + Trailer(|xs|));
    ParseOfItems(xs, h.entrySize, |xs|);
  }

  /** The parser returns every item exactly when no id's low half is the trailer magic. */
  lemma ParseIsComplete(h: ExportHeader, xs: seq<Item>)
    requires h.InRange() && h.magic == EXPORT_MAGIC && h.version == 1 && ItemsOk(xs, h.entrySize)
    ensures |FullDump(h, xs)| >= EXPORT_HEADER
    ensures ParseItems(FullDump(h, xs)[EXPORT_HEADER..], h.entrySize).items == xs <==>
              forall i :: 0 <= i < |xs| ==> !LooksLikeTrailer(xs[i])
  {
    hide ParseItems, FullDump, UpToTrailer, LooksLikeTrailer;
    ParseOfDump(h, xs);
    UpToTrailerIsAll(xs);
  }

  /** A dump cut off in an entry: the entries before it come back, and the parse reports the damage.  One
      cut off between entries is taken for complete. */
  lemma {:induction false} ParseOfCut(xs: seq<Item>, entrySize: nat, part: Bytes)
    requires ItemsOk(xs, entrySize) && (forall i :: 0 <= i < |xs| ==> !LooksLikeTrailer(xs[i]))
    requires |part| < 8 + entrySize && (|part| >= 8 ==> U32At(part, 0) != 0x434B4558)
    ensures ParseItems(EncodeItems(xs) + part, entrySize) == Parsed(xs, part == [])
    decreases |xs|
  {
    hide EncodeItem, PutLE, GetLE, LooksLikeTrailer;
    if xs == [] {
      assert EncodeItems(xs) + part == part;
    } else {
      var rest := EncodeItems(xs[1..]) + part;
      EncodeCons(xs);
      assert EncodeItems(xs) + part == EncodeItem(xs[0]) + rest;
      FirstItem(xs[0], rest);
      WrittenItem(xs[0]);
      NoTrailer(xs[0]);
      ParseOfCut(xs[1..], entrySize, part);
      assert xs == [xs[0]] + xs[1..];
    }
  }

  lemma NoTrailer(x: Item)
    requires !LooksLikeTrailer(x)
    ensures x.id % U32 != EXPORT_MAGIC
  {
  }

  // ----- the dump, byte by byte -----

  /** Where item `i` begins, from the first item on. */
  ghost function Spot(i: nat, entrySize: nat): (at: nat) {
    i * (8 + entrySize)
  }

  lemma Spots(i: nat, n: nat, entrySize: nat)
    ensures Spot(0, entrySize) == 0 && Spot(n + 1, entrySize) == Spot(n, entrySize) + 8 + entrySize
    ensures i < n ==> Spot(i, entrySize) + 8 + entrySize <= Spot(n, entrySize)
  {
    MulMono(i + 1, n, 8 + entrySize);
  }

  ghost predicate LiesAt(b: Bytes, at: nat, x: Item) {
    at + 8 + |x.emb| <= |b| && b[at..at + 8] == PutU64(x.id) && b[at + 8..at + 8 + |x.emb|] == x.emb
  }

  lemma LiesInFront(a: Bytes, b: Bytes, at: nat, x: Item)
    requires LiesAt(a, at, x)
    ensures LiesAt(a + b, at, x)
  {
    hide PutLE;
    assert (a + b)[at..at + 8] == a[at..at + 8];
    assert (a + b)[at + 8..at + 8 + |x.emb|] == a[at + 8..at + 8 + |x.emb|];
  }

  lemma LiesBehind(a: Bytes, b: Bytes, at: nat, x: Item)
    requires LiesAt(b, at, x)
    ensures LiesAt(a + b, |a| + at, x)
  {
    hide PutLE;
    assert (a + b)[|a| + at..|a| + at + 8] == b[at..at + 8];
    assert (a + b)[|a| + at + 8..|a| + at + 8 + |x.emb|] == b[at + 8..at + 8 + |x.emb|];
  }

  lemma OneLies(x: Item)
    ensures LiesAt(EncodeItem(x), 0, x)
  {
    hide PutLE;
    assert EncodeItem(x)[0..8] == PutU64(x.id);
  }

  /** Items of one size lie one after the other. */
  lemma {:induction false} ItemLies(xs: seq<Item>, entrySize: nat, i: nat)
    requires ItemsOk(xs, entrySize)
    ensures |EncodeItems(xs)| == Spot(|xs|, entrySize)
    ensures i < |xs| ==> LiesAt(EncodeItems(xs), Spot(i, entrySize), xs[i])
    decreases |xs|
  {
    hide Spot, LiesAt, EncodeItem;
    Spots(0, 0, entrySize);
    if xs != [] {
      var n := |xs| - 1;
      Spots(i, n, entrySize);
      ItemLies(xs[..n], entrySize, i);
      WrittenItem(xs[n]);
      if i < n {
        LiesInFront(EncodeItems(xs[..n]), EncodeItem(xs[n]), Spot(i, entrySize), xs[i]);
      } else if i == n {
        OneLies(xs[n]);
        LiesBehind(EncodeItems(xs[..n]), EncodeItem(xs[n]), 0, xs[n]);
      }
    }
  }

  lemma ReadsItem(b: Bytes, at: nat, x: Item)
    requires LiesAt(b, at, x) && x.id < U64
    ensures at + 8 + |x.emb| <= |b| && U64At(b, at) == x.id && b[at + 8..at + 8 + |x.emb|] == x.emb
  {
    Widths();
    GetPut(x.id, 8);
  }

  lemma EndsWith(a: Bytes, count: nat)
    requires count < U64
    ensures var b := a + Trailer(count);
            |b| == |a| + 12 && U32At(b, |a|) == 0x434B4558 && U64At(b, |a| + 4) == count
  {
    hide PutLE, GetLE;
    var b := a + Trailer(count);
    Widths();
    GetPut(0x434B4558, 4);
    GetPut(count, 8);
    assert b[|a|..|a| + 4] == PutU32(0x434B4558);
    assert b[|a| + 4..|a| + 4 + 8] == PutU64(count);
  }

  /** A dump is 48 bytes of header, for every item eight bytes of id and its embedding, four bytes of
      magic, and in its last eight bytes the number of items. */
  lemma DumpLayout(h: ExportHeader, xs: seq<Item>, i: nat)
    requires h.InRange() && ItemsOk(xs, h.entrySize) && |xs| < U64
    ensures var b, end := FullDump(h, xs), 48 + Spot(|xs|, h.entrySize);
            && |b| == end + 12 && b[..48] == EncodeExportHeader(h)
            && U32At(b, end) == 0x434B4558 && U64At(b, end + 4) == |xs|
    ensures i < |xs| ==>
              var b, at := FullDump(h, xs), 48 + Spot(i, h.entrySize);
              && at + 8 + h.entrySize <= |b| && U64At(b, at) == xs[i].id && b[at + 8..at + 8 + h.entrySize] == xs[i].emb
  {
    hide EncodeExportHeader, EncodeItems, Trailer, Spot, LiesAt;
    var head, items := EncodeExportHeader(h), EncodeItems(xs);
    ItemLies(xs, h.entrySize, i);
    EndsWith(head + items, |xs|);
    assert FullDump(h, xs)[..48] == head;
    if i < |xs| {
      var at := Spot(i, h.entrySize);
      LiesInFront(items, Trailer(|xs|), at, xs[i]);
      LiesBehind(head, items + Trailer(|xs|), at, xs[i]);
      assert head + (items + Trailer(|xs|)) == FullDump(h, xs);
      ReadsItem(FullDump(h, xs), 48 + at, xs[i]);
    }
  }
}
