/** Little-endian integers and the fixed-size headers of the checkpoint files. */
module Wire {
  import opened Pages
  import opened Arithmetic

  function Pow256(n: nat): (p: nat)
    ensures p >= 1
  {
    if n == 0 then 1 else 256 * Pow256(n - 1)
  }

  const U64 := 0x1_0000_0000_0000_0000

  lemma Widths()
    ensures Pow256(4) == U32 && Pow256(8) == U64
  {
    assert Pow256(2) == 65536;
    assert Pow256(4) == 65536 * Pow256(2);
    assert Pow256(6) == 65536 * Pow256(4);
    assert Pow256(8) == 65536 * Pow256(6);
  }

  /** The low `n` bytes of `v`, least significant first. */
  function PutLE(v: nat, n: nat): (b: Bytes)
    ensures |b| == n
    decreases n
  {
    if n == 0 then [] else [v % 256] + PutLE(v / 256, n - 1)
  }

  function GetLE(b: Bytes): (v: nat) {
    if b == [] then 0 else b[0] + 256 * GetLE(b[1..])
  }

  /** Reading back what was written: the value, cut to the width. */
  lemma {:induction false} GetPut(v: nat, n: nat)
    requires v < Pow256(n)
    ensures GetLE(PutLE(v, n)) == v
    decreases n
  {
    if n > 0 {
      assert v / 256 < Pow256(n - 1);
      GetPut(v / 256, n - 1);
      assert PutLE(v, n)[1..] == PutLE(v / 256, n - 1);
    }
  }

  /** Byte `i` holds the bits from `8 * i` on. */
  lemma {:induction false} ByteOfPut(v: nat, n: nat, i: nat)
    requires i < n
    ensures PutLE(v, n)[i] == v / Pow256(i) % 256
    decreases n
  {
    if i > 0 {
      ByteOfPut(v / 256, n - 1, i - 1);
      DivTwice(v, 256, Pow256(i - 1));
    }
  }

  function PutU32(v: nat): (b: Bytes)
    ensures |b| == 4
  {
    PutLE(v, 4)
  }

  function PutU64(v: nat): (b: Bytes)
    ensures |b| == 8
  {
    PutLE(v, 8)
  }

  function U32At(b: Bytes, at: nat): (v: nat)
    requires at + 4 <= |b|
  {
    GetLE(b[at..at + 4])
  }

  function U64At(b: Bytes, at: nat): (v: nat)
    requires at + 8 <= |b|
  {
    GetLE(b[at..at + 8])
  }

  /** The low half of a 64-bit value is its first four bytes. */
  lemma LowHalf(v: nat)
    ensures PutU64(v)[..4] == PutU32(v) && U32At(PutU64(v), 0) == v % U32
  {
    assert PutU64(v)[..4] == PutU32(v) by {
      PrefixOfPut(v, 8, 4);
    }
    Widths();
    GetPutMod(v, 4);
    assert PutU64(v)[0..4] == PutU64(v)[..4];
  }

  lemma {:induction false} PrefixOfPut(v: nat, n: nat, k: nat)
    requires k <= n
    ensures PutLE(v, n)[..k] == PutLE(v, k)
    decreases k
  {
    if k > 0 {
      PrefixOfPut(v / 256, n - 1, k - 1);
      assert PutLE(v, n)[..k] == [v % 256] + PutLE(v / 256, n - 1)[..k - 1];
    }
  }

  /** Writing more than fits keeps the remainder. */
  lemma {:induction false} GetPutMod(v: nat, n: nat)
    ensures GetLE(PutLE(v, n)) == v % Pow256(n)
    decreases n
  {
    if n > 0 {
      GetPutMod(v / 256, n - 1);
      assert PutLE(v, n)[1..] == PutLE(v / 256, n - 1);
      var p := Pow256(n - 1);
      var q, r := DivMod(v / 256, p);
      MulParts(q, p, r, 256);
      assert q * (p * 256) == q * (256 * p);
      DivModUnique(v, 256 * p, q, 256 * r + v % 256);
    }
  }

  // ----- the delta header -----

  const DELTA_MAGIC := 0x44454C54
  const DELTA_HEADER := 40
  const COUNT_AT := 32  // where the number of entries is patched in

  datatype DeltaHeader = DeltaHeader(magic: nat, version: nat, generation: nat, dim: nat, entrySize: nat,
                                     bump: nat, entries: nat, checksum: nat)
  {
    ghost predicate InRange() {
      && magic < U32 && version < U32 && generation < U64 && dim < U32 && entrySize < U32
      && bump < U64 && entries < U32 && checksum < U32
    }
  }

  function EncodeDeltaHeader(h: DeltaHeader): (b: Bytes)
    ensures |b| == DELTA_HEADER
  {
    PutU32(h.magic) + PutU32(h.version) + PutU64(h.generation) + PutU32(h.dim) + PutU32(h.entrySize)
    + PutU64(h.bump) + PutU32(h.entries) + PutU32(h.checksum)
  }

  function DecodeDeltaHeader(b: Bytes): (h: DeltaHeader)
    requires |b| >= DELTA_HEADER
  {
    DeltaHeader(U32At(b, 0), U32At(b, 4), U64At(b, 8), U32At(b, 16), U32At(b, 20), U64At(b, 24), U32At(b, 32), U32At(b, 36))
  }

  lemma DeltaHeaderRoundTrip(h: DeltaHeader, rest: Bytes)
    requires h.InRange()
    ensures DecodeDeltaHeader(EncodeDeltaHeader(h) + rest) == h
    ensures var b := EncodeDeltaHeader(h);
            && b[0..4] == PutU32(h.magic) && b[4..8] == PutU32(h.version) && b[8..16] == PutU64(h.generation)
            && b[16..20] == PutU32(h.dim) && b[20..24] == PutU32(h.entrySize) && b[24..32] == PutU64(h.bump)
            && b[32..36] == PutU32(h.entries) && b[36..40] == PutU32(h.checksum)
  {
    hide PutLE, GetLE;
    Widths();
    GetPut(h.magic, 4);
    GetPut(h.version, 4);
    GetPut(h.generation, 8);
    GetPut(h.dim, 4);
    GetPut(h.entrySize, 4);
    GetPut(h.bump, 8);
    GetPut(h.entries, 4);
    GetPut(h.checksum, 4);
    var b := EncodeDeltaHeader(h) + rest;
    assert b[0..4] == PutU32(h.magic);
    assert b[4..8] == PutU32(h.version);
    assert b[8..16] == PutU64(h.generation);
    assert b[16..20] == PutU32(h.dim);
    assert b[20..24] == PutU32(h.entrySize);
    assert b[24..32] == PutU64(h.bump);
    assert b[32..36] == PutU32(h.entries);
    assert b[36..40] == PutU32(h.checksum);
    assert forall i, j :: 0 <= i <= j <= DELTA_HEADER ==> b[i..j] == EncodeDeltaHeader(h)[i..j];
  }

  /** A positioned write into a file that is long enough. */
  function Patch(b: Bytes, at: nat, new_: Bytes): (r: Bytes)
    requires at + |new_| <= |b|
    ensures |r| == |b|
  {
    b[..at] + new_ + b[at + |new_|..]
  }

  /** Patching the count into a finished file is the same as having written it in the header. */
  lemma PatchedCount(h: DeltaHeader, n: nat, rest: Bytes)
    ensures Patch(EncodeDeltaHeader(h) + rest, COUNT_AT, PutU32(n)) == EncodeDeltaHeader(h.(entries := n)) + rest
  {
    hide PutLE;
    var b := EncodeDeltaHeader(h) + rest;
    var front := PutU32(h.magic) + PutU32(h.version) + PutU64(h.generation) + PutU32(h.dim) + PutU32(h.entrySize)
                 + PutU64(h.bump);
    assert b == front + PutU32(h.entries) + (PutU32(h.checksum) + rest);
    assert b[..32] == front && b[36..] == PutU32(h.checksum) + rest;
  }

  // ----- the export header -----

  const EXPORT_MAGIC := 0x434B4558
  const EXPORT_HEADER := 48

  datatype ExportHeader = ExportHeader(magic: nat, version: nat, kind: nat, generation: nat, dim: nat, entrySize: nat,
                                       entries: nat, baseGen: nat, checksum: nat)
  {
    ghost predicate InRange() {
      && magic < U32 && version < U32 && kind < U32 && generation < U64 && dim < U32 && entrySize < U32
      && entries < U64 && baseGen < U64 && checksum < U32
    }
  }

  function EncodeExportHeader(h: ExportHeader): (b: Bytes)
    ensures |b| == EXPORT_HEADER
  {
    PutU32(h.magic) + PutU32(h.version) + PutU32(h.kind) + PutU64(h.generation) + PutU32(h.dim) + PutU32(h.entrySize)
    + PutU64(h.entries) + PutU64(h.baseGen) + PutU32(h.checksum)
  }

  function DecodeExportHeader(b: Bytes): (h: ExportHeader)
    requires |b| >= EXPORT_HEADER
  {
    ExportHeader(U32At(b, 0), U32At(b, 4), U32At(b, 8), U64At(b, 12), U32At(b, 20), U32At(b, 24), U64At(b, 28),
                 U64At(b, 36), U32At(b, 44))
  }

  lemma ExportHeaderRoundTrip(h: ExportHeader, rest: Bytes)
    requires h.InRange()
    ensures DecodeExportHeader(EncodeExportHeader(h) + rest) == h
    ensures var b := EncodeExportHeader(h);
            && b[0..4] == PutU32(h.magic) && b[4..8] == PutU32(h.version) && b[8..12] == PutU32(h.kind)
            && b[12..20] == PutU64(h.generation) && b[20..24] == PutU32(h.dim) && b[24..28] == PutU32(h.entrySize)
            && b[28..36] == PutU64(h.entries) && b[36..44] == PutU64(h.baseGen) && b[44..48] == PutU32(h.checksum)
  {
    hide PutLE, GetLE;
    Widths();
    GetPut(h.magic, 4);
    GetPut(h.version, 4);
    GetPut(h.kind, 4);
    GetPut(h.generation, 8);
    GetPut(h.dim, 4);
    GetPut(h.entrySize, 4);
    GetPut(h.entries, 8);
    GetPut(h.baseGen, 8);
    GetPut(h.checksum, 4);
    var b := EncodeExportHeader(h) + rest;
    assert b[0..4] == PutU32(h.magic);
    assert b[4..8] == PutU32(h.version);
    assert b[8..12] == PutU32(h.kind);
    assert b[12..20] == PutU64(h.generation);
    assert b[20..24] == PutU32(h.dim);
    assert b[24..28] == PutU32(h.entrySize);
    assert b[28..36] == PutU64(h.entries);
    assert b[36..44] == PutU64(h.baseGen);
    assert b[44..48] == PutU32(h.checksum);
    assert forall i, j :: 0 <= i <= j <= EXPORT_HEADER ==> b[i..j] == EncodeExportHeader(h)[i..j];
  }
}
