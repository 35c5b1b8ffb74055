/** Delta files as bytes: what a checkpoint writes, and the replay that reads it back. */
module DeltaFiles {
  import opened Pages
  import opened DeltaChains
  import opened Arithmetic
  import opened Wire

  datatype ReplayStatus = Replayed | Corrupt | Mismatched

  function Concat(pages: seq<Page>): (b: Bytes) {
    if pages == [] then [] else Concat(pages[..|pages| - 1]) + pages[|pages| - 1]
  }

  /** A dirty run: first page, page count, then the pages. */
  function EncodeRun(r: Run): (b: Bytes) {
    PutU32(r.start) + PutU32(|r.pages|) + Concat(r.pages)
  }

  function EncodeRuns(rs: seq<Run>): (b: Bytes)
    decreases |rs|
  {
    if rs == [] then [] else EncodeRun(rs[0]) + EncodeRuns(rs[1..])
  }

  /** The file a finished dump leaves. */
  function EncodeDelta(h: DeltaHeader, rs: seq<Run>): (b: Bytes) {
    EncodeDeltaHeader(h.(entries := |rs|)) + EncodeRuns(rs)
  }

  /** The file while it is being written: the count is still 0. */
  function Unfinished(h: DeltaHeader, rs: seq<Run>): (b: Bytes) {
    EncodeDeltaHeader(h.(entries := 0)) + EncodeRuns(rs)
  }

  ghost predicate RunsOk(g: Geometry, rs: seq<Run>) {
    forall i :: 0 <= i < |rs| ==> RunFits(g, rs[i])
  }

  ghost predicate RunFits(g: Geometry, r: Run) {
    r.start < U32 && |r.pages| < U32 && forall i :: 0 <= i < |r.pages| ==> |r.pages[i]| == g.pageSize
  }

  /** Appends the runs of one dump step to a delta file. */
  method AppendRuns(file: Bytes, rs: seq<Run>) returns (b: Bytes)
    ensures b == file + EncodeRuns(rs)
  {
    hide PutLE, Concat;
    b := file;
    assert rs[..0] == [];
    for i := 0 to |rs|
      invariant b == file + EncodeRuns(rs[..i])
    {
      RunsMore(rs[..i], rs[i]);
      assert rs[..i + 1] == rs[..i] + [rs[i]];
      b := b + (PutU32(rs[i].start) + PutU32(|rs[i].pages|) + Concat(rs[i].pages));
    }
    assert rs[..|rs|] == rs;
  }

  /** The writer: a header with count 0, the runs as they are dumped, then the count patched in. */
  method WriteDelta(h: DeltaHeader, rs: seq<Run>) returns (b: Bytes)
    ensures b == EncodeDelta(h, rs)
  {
    hide EncodeDeltaHeader, PutLE, EncodeRuns;
    b := AppendRuns(EncodeDeltaHeader(h.(entries := 0)), rs);
    PatchedCount(h.(entries := 0), |rs|, EncodeRuns(rs));
    b := Patch(b, COUNT_AT, PutU32(|rs|));
  }

  lemma {:induction false} RunsJoin(a: seq<Run>, b: seq<Run>)
    ensures EncodeRuns(a + b) == EncodeRuns(a) + EncodeRuns(b)
    decreases |b|
  {
    hide EncodeRun;
    if b == [] {
      assert a + b == a;
    } else {
      var s, r := b[..|b| - 1], b[|b| - 1];
      LastApart(a, b, s, r);
      RunsJoin(a, s);
      RunsMore(a + s, r);
      RunsMore(s, r);
      Regroup(EncodeRuns(a), EncodeRuns(s), EncodeRun(r));
    }
  }

  lemma LastApart(a: seq<Run>, b: seq<Run>, s: seq<Run>, r: Run)
    requires b != [] && s == b[..|b| - 1] && r == b[|b| - 1]
    ensures b == s + [r] && a + b == (a + s) + [r]
  {
  }

  lemma Regroup(a: Bytes, b: Bytes, c: Bytes)
    ensures (a + b) + c == a + (b + c)
  {
  }

  lemma {:induction false} RunsMore(rs: seq<Run>, r: Run)
    ensures EncodeRuns(rs + [r]) == EncodeRuns(rs) + EncodeRun(r)
    decreases |rs|
  {
    if rs == [] {
      assert (rs + [r])[1..] == [];
    } else {
      assert (rs + [r])[1..] == rs[1..] + [r];
      RunsMore(rs[1..], r);
    }
  }

  /** `count` pages read from one buffer. */
  function Pieces(b: Bytes, size: nat, count: nat): (pages: seq<Page>)
    requires |b| == count * size
    ensures |pages| == count
  {
    if count == 0 then [] else
      assert (count - 1) * size + size == count * size;
      Pieces(b[..(count - 1) * size], size, count - 1) + [b[(count - 1) * size..]]
  }

  lemma {:induction false} PiecesOfConcat(pages: seq<Page>, size: nat)
    requires forall i :: 0 <= i < |pages| ==> |pages[i]| == size
    ensures |Concat(pages)| == |pages| * size && Pieces(Concat(pages), size, |pages|) == pages
    decreases |pages|
  {
    if pages != [] {
      var s, n := pages[..|pages| - 1], |pages|;
      PiecesOfConcat(s, size);
      assert (n - 1) * size + size == n * size;
      assert Concat(pages)[..(n - 1) * size] == Concat(s);
      assert Concat(pages)[(n - 1) * size..] == pages[n - 1];
      assert pages == s + [pages[n - 1]];
    }
  }

  /** `ckpt_replay_delta`: check the header, then write each run to its place.  A file that ends
      early is replayed as far as it goes. */
  method ReplayDelta(g: Geometry, dim: nat, f: File, bump: nat, b: Bytes, ghost h: DeltaHeader, ghost rs: seq<Run>)
    returns (status: ReplayStatus, r: File, newBump: nat)
    ensures |b| < DELTA_HEADER ==> status == Corrupt
    ensures |b| >= DELTA_HEADER && (DecodeDeltaHeader(b).magic != DELTA_MAGIC || DecodeDeltaHeader(b).version != 1) ==>
              status == Corrupt
    ensures |b| >= DELTA_HEADER && DecodeDeltaHeader(b).magic == DELTA_MAGIC && DecodeDeltaHeader(b).version == 1 ==>
              if DecodeDeltaHeader(b).dim != dim then status == Mismatched
              else status == Replayed && newBump == Later(bump, DecodeDeltaHeader(b).bump)
    ensures status != Replayed ==> r == f && newBump == bump
    ensures b == EncodeDelta(h, rs) && RunsOk(g, rs) && h.(entries := |rs|).InRange() && h.dim == dim
            && h.magic == DELTA_MAGIC && h.version == 1 ==>
              status == Replayed && r == ReplayRuns(f, rs) && newBump == Later(bump, h.bump)
    ensures b == Unfinished(h, rs) && h.(entries := 0).InRange() && h.dim == dim && h.magic == DELTA_MAGIC && h.version == 1 ==>
              status == Replayed && r == f && newBump == Later(bump, h.bump)
  {
    r, newBump := f, bump;
    if |b| < DELTA_HEADER {
      return Corrupt, r, newBump;
    }
    var d := DecodeDeltaHeader(b);
    if d.magic != DELTA_MAGIC || d.version != 1 {
      WrittenHeader(b, h, rs);
      return Corrupt, r, newBump;
    }
    WrittenHeader(b, h, rs);
    if d.dim != dim {
      return Mismatched, r, newBump;
    }
    r := ReplayEntries(g, f, b, d.entries, h, rs);
    newBump := Later(bump, d.bump);
    status := Replayed;
  }

  function Later(a: nat, b: nat): nat {
    if b > a then b else a
  }

  lemma WrittenHeader(b: Bytes, h: DeltaHeader, rs: seq<Run>)
    ensures b == EncodeDelta(h, rs) && h.(entries := |rs|).InRange() ==>
              |b| >= DELTA_HEADER && DecodeDeltaHeader(b) == h.(entries := |rs|)
    ensures b == Unfinished(h, rs) && h.(entries := 0).InRange() ==>
              |b| >= DELTA_HEADER && DecodeDeltaHeader(b) == h.(entries := 0)
  {
    if h.(entries := 0).InRange() {
      DeltaHeaderRoundTrip(h.(entries := 0), EncodeRuns(rs));
    }
    if h.(entries := |rs|).InRange() {
      DeltaHeaderRoundTrip(h.(entries := |rs|), EncodeRuns(rs));
    }
  }

  /** Where the entry at `pos` ends. */
  function EntryEnd(g: Geometry, b: Bytes, pos: nat): (end: nat)
    requires pos + 8 <= |b|
    ensures end == pos + 8 + U32At(b, pos + 4) * g.pageSize >= pos + 8
  {
    MulMono(0, U32At(b, pos + 4), g.pageSize);
    pos + 8 + U32At(b, pos + 4) * g.pageSize
  }

  predicate EntryFits(g: Geometry, b: Bytes, pos: nat) {
    pos + 8 <= |b| && EntryEnd(g, b, pos) <= |b|
  }

  /** The run stored at `pos`. */
  function RunAt(g: Geometry, b: Bytes, pos: nat): (r: Run)
    requires EntryFits(g, b, pos)
  {
    Run(U32At(b, pos), Pieces(b[pos + 8..EntryEnd(g, b, pos)], g.pageSize, U32At(b, pos + 4)))
  }

  /** The entry loop of the replay. */
  method ReplayEntries(g: Geometry, f: File, b: Bytes, entries: nat, ghost h: DeltaHeader, ghost rs: seq<Run>)
    returns (r: File)
    requires |b| >= DELTA_HEADER
    ensures b == EncodeDelta(h, rs) && RunsOk(g, rs) && entries == |rs| ==> r == ReplayRuns(f, rs)
    ensures entries == 0 ==> r == f
  {
    hide PutLE, GetLE, Pieces, EncodeDelta, EncodeRuns, WritePages, ReplayRuns;
    r := f;
    var pos := DELTA_HEADER;
    Unread(g, f, b, entries, h, rs);
    for e := 0 to entries
      invariant DELTA_HEADER <= pos <= |b| && (e == 0 ==> r == f)
      invariant Good(g, b, entries, h, rs) ==> ReadSoFar(f, b, pos, rs, e, r)
    {
      EntryReplayed(g, f, b, entries, h, rs, pos, e, r);
      if !EntryFits(g, b, pos) {
        return r;
      }
      r := WritePages(r, Spread(RunAt(g, b, pos)));
      pos := EntryEnd(g, b, pos);
    }
    assert Good(g, b, entries, h, rs) ==> rs[..entries] == rs;
  }

  ghost predicate Good(g: Geometry, b: Bytes, entries: nat, h: DeltaHeader, rs: seq<Run>) {
    b == EncodeDelta(h, rs) && RunsOk(g, rs) && entries == |rs|
  }

  /** The first `e` runs are replayed and the rest of the file holds the others. */
  ghost predicate ReadSoFar(f: File, b: Bytes, pos: nat, rs: seq<Run>, e: nat, r: File) {
    pos <= |b| && e <= |rs| && b[pos..] == EncodeRuns(rs[e..]) && r == ReplayRuns(f, rs[..e])
  }

  lemma Unread(g: Geometry, f: File, b: Bytes, entries: nat, h: DeltaHeader, rs: seq<Run>)
    requires |b| >= DELTA_HEADER
    ensures Good(g, b, entries, h, rs) ==> ReadSoFar(f, b, DELTA_HEADER, rs, 0, f)
  {
    assert Good(g, b, entries, h, rs) ==> b[DELTA_HEADER..] == EncodeRuns(rs);
    assert rs[0..] == rs && rs[..0] == [];
  }

  lemma EntryReplayed(g: Geometry, f: File, b: Bytes, entries: nat, h: DeltaHeader, rs: seq<Run>,
                      pos: nat, e: nat, r: File)
    requires e < entries
    ensures Good(g, b, entries, h, rs) && ReadSoFar(f, b, pos, rs, e, r) ==>
              && EntryFits(g, b, pos)
              && ReadSoFar(f, b, EntryEnd(g, b, pos), rs, e + 1, WritePages(r, Spread(RunAt(g, b, pos))))
  {
    hide EntryEnd, RunAt, EncodeDelta, EncodeRuns, ReplayRuns, WritePages, Spread;
    if Good(g, b, entries, h, rs) && ReadSoFar(f, b, pos, rs, e, r) {
      NextEntry(g, b, pos, rs[e..]);
      assert rs[e..][1..] == rs[e + 1..];
      ReplayMore(f, rs, e);
    }
  }

  lemma ReplayMore(f: File, rs: seq<Run>, e: nat)
    requires e < |rs|
    ensures ReplayRuns(f, rs[..e + 1]) == WritePages(ReplayRuns(f, rs[..e]), Spread(rs[e]))
  {
    assert rs[..e + 1][..e] == rs[..e];
  }

  /** Reading one written run back. */
  lemma NextEntry(g: Geometry, b: Bytes, pos: nat, rs: seq<Run>)
    requires pos <= |b| && rs != [] && RunsOk(g, rs) && b[pos..] == EncodeRuns(rs)
    ensures EntryFits(g, b, pos) && RunAt(g, b, pos) == rs[0] && b[EntryEnd(g, b, pos)..] == EncodeRuns(rs[1..])
  {
    hide PutLE, GetLE, Pieces, Concat;
    var run := rs[0];
    assert RunFits(g, run);
    PiecesOfConcat(run.pages, g.pageSize);
    Widths();
    GetPut(run.start, 4);
    GetPut(|run.pages|, 4);
    Cut(b, pos, PutU32(run.start), PutU32(|run.pages|), Concat(run.pages), EncodeRuns(rs[1..]));
  }

  lemma Cut(b: Bytes, pos: nat, w: Bytes, x: Bytes, y: Bytes, z: Bytes)
    requires pos <= |b| && b[pos..] == w + x + y + z && |w| == |x| == 4
    ensures |b| == pos + 8 + |y| + |z|
    ensures b[pos..pos + 4] == w && b[pos + 4..pos + 4 + 4] == x
    ensures b[pos + 8..pos + 8 + |y|] == y && b[pos + 8 + |y|..] == z
  {
    var t := b[pos..];
    assert b[pos..pos + 4] == t[..4];
    assert b[pos + 4..pos + 8] == t[4..8];
    assert b[pos + 8..pos + 8 + |y|] == t[8..8 + |y|];
    assert b[pos + 8 + |y|..] == t[8 + |y|..];
  }
}
