/** Delta files: the dirty pages of a checkpoint dumped as runs of consecutive pages, and the
    chain of deltas that rebuilds every frozen image. */
module DeltaChains {
  import opened Pages
  import opened PageCaches
  import opened Bins
  import StableSort

  /** Consecutive pages from `start` on. */
  datatype Run = Run(start: nat, pages: seq<Page>)

  datatype PageWrite = PageWrite(no: nat, page: Page)

  /** The pages of a run, and of a list of runs, in order. */
  function Spread(r: Run): (ps: seq<PageWrite>) {
    seq(|r.pages|, i requires 0 <= i < |r.pages| => PageWrite(r.start + i, r.pages[i]))
  }

  function Flatten(rs: seq<Run>): (ps: seq<PageWrite>) {
    if rs == [] then [] else Flatten(rs[..|rs| - 1]) + Spread(rs[|rs| - 1])
  }

  function WritePages(f: File, ps: seq<PageWrite>): (r: File) {
    if ps == [] then f else WritePages(f, ps[..|ps| - 1])[ps[|ps| - 1].no := ps[|ps| - 1].page]
  }

  /** `ckpt_replay_delta`: one positioned write per run. */
  function ReplayRuns(f: File, rs: seq<Run>): (r: File) {
    if rs == [] then f else WritePages(ReplayRuns(f, rs[..|rs| - 1]), Spread(rs[|rs| - 1]))
  }

  lemma {:induction false} FlattenConcat(a: seq<Run>, b: seq<Run>)
    ensures Flatten(a + b) == Flatten(a) + Flatten(b)
    decreases |b|
  {
    if b == [] {
      assert a + b == a;
    } else {
      assert (a + b)[..|a + b| - 1] == a + b[..|b| - 1];
      FlattenConcat(a, b[..|b| - 1]);
    }
  }

  lemma {:induction false} WritePagesConcat(f: File, a: seq<PageWrite>, b: seq<PageWrite>)
    ensures WritePages(f, a + b) == WritePages(WritePages(f, a), b)
    decreases |b|
  {
    if b == [] {
      assert a + b == a;
    } else {
      assert (a + b)[..|a + b| - 1] == a + b[..|b| - 1];
      WritePagesConcat(f, a, b[..|b| - 1]);
    }
  }

  /** How pages are grouped into runs does not matter to a replay. */
  lemma {:induction false} ReplayIsWrites(f: File, rs: seq<Run>)
    ensures ReplayRuns(f, rs) == WritePages(f, Flatten(rs))
    decreases |rs|
  {
    if rs != [] {
      ReplayIsWrites(f, rs[..|rs| - 1]);
      WritePagesConcat(f, Flatten(rs[..|rs| - 1]), Spread(rs[|rs| - 1]));
    }
  }

  // ----- dumping -----

  /** No run is empty. */
  ghost predicate Solid(rs: seq<Run>) {
    forall i :: 0 <= i < |rs| ==> rs[i].pages != []
  }

  /** The dirty pages, as the file shows them. */
  function Dumped(g: Geometry, f: File, blocks: seq<nat>): (ps: seq<PageWrite>)
    requires FileOk(g, f)
    ensures |ps| == |blocks|
  {
    seq(|blocks|, i requires 0 <= i < |blocks| => PageWrite(blocks[i], PageOf(g, f, blocks[i])))
  }

  function Min(a: nat, b: nat): nat {
    if a < b then a else b
  }

  /** One positioned read of `count` pages. */
  function ReadRun(g: Geometry, f: File, start: nat, count: nat): (r: Run)
    requires FileOk(g, f)
    ensures r.start == start && |r.pages| == count
  {
    Run(start, seq(count, i requires 0 <= i < count => PageOf(g, f, start + i)))
  }

  /** Where the run of consecutive pages starting at `from` ends. */
  method RunEnd(blocks: seq<nat>, from: nat) returns (j: nat)
    requires from < |blocks|
    ensures from < j <= |blocks|
    ensures forall i :: from <= i < j ==> blocks[i] == blocks[from] + (i - from)
    ensures j < |blocks| ==> blocks[j] != blocks[j - 1] + 1
  {
    j := from + 1;
    while j < |blocks| && blocks[j] == blocks[j - 1] + 1
      invariant from < j <= |blocks|
      invariant forall i :: from <= i < j ==> blocks[i] == blocks[from] + (i - from)
    {
      j := j + 1;
    }
  }

  lemma RunAppended(g: Geometry, f: File, blocks: seq<nat>, runs: seq<Run>, from: nat, cursor: nat, j: nat)
    requires FileOk(g, f) && from <= cursor < j <= |blocks|
    requires Flatten(runs) == Dumped(g, f, blocks)[from..cursor]
    requires forall i :: cursor <= i < j ==> blocks[i] == blocks[cursor] + (i - cursor)
    ensures Flatten(runs + [ReadRun(g, f, blocks[cursor], j - cursor)]) == Dumped(g, f, blocks)[from..j]
  {
    var run, all := ReadRun(g, f, blocks[cursor], j - cursor), Dumped(g, f, blocks);
    assert Spread(run) == all[cursor..j];
    FlattenConcat(runs, [run]);
    assert [run][..0] == [];
    assert all[from..j] == all[from..cursor] + all[cursor..j];
  }

  lemma NothingDumped(g: Geometry, f: File, blocks: seq<nat>, from: nat)
    requires FileOk(g, f) && from <= |blocks|
    ensures Flatten([]) == Dumped(g, f, blocks)[from..from]
  {
  }

  /** The dump loop of one checkpoint step: runs of consecutive dirty pages, read from the file,
      the last one cut so that at most `budget` pages are dumped. */
  method DumpStep(g: Geometry, f: File, blocks: seq<nat>, from: nat, budget: nat) returns (cursor: nat, runs: seq<Run>)
    requires FileOk(g, f) && from <= |blocks|
    ensures cursor == Min(|blocks|, from + budget)
    ensures Flatten(runs) == Dumped(g, f, blocks)[from..cursor]
    ensures Solid(runs)
  {
    hide Dumped, Flatten;
    cursor, runs := from, [];
    NothingDumped(g, f, blocks, from);
    var done := 0;
    while cursor < |blocks| && done < budget
      invariant from <= cursor <= |blocks| && done == cursor - from <= budget
      invariant Flatten(runs) == Dumped(g, f, blocks)[from..cursor]
      invariant Solid(runs)
    {
      var j := RunEnd(blocks, cursor);
      if done + (j - cursor) > budget {
        j := cursor + (budget - done);
      }
      RunAppended(g, f, blocks, runs, from, cursor, j);
      runs := runs + [ReadRun(g, f, blocks[cursor], j - cursor)];
      done, cursor := done + (j - cursor), j;
    }
  }

  /** The dump loop of the blocking checkpoint: no budget. */
  method DumpAll(g: Geometry, f: File, blocks: seq<nat>) returns (runs: seq<Run>)
    requires FileOk(g, f)
    ensures Flatten(runs) == Dumped(g, f, blocks) && Solid(runs)
  {
    var cursor := 0;
    runs := [];
    while cursor < |blocks|
      invariant 0 <= cursor <= |blocks|
      invariant Flatten(runs) == Dumped(g, f, blocks)[0..cursor] && Solid(runs)
    {
      var j := RunEnd(blocks, cursor);
      RunAppended(g, f, blocks, runs, 0, cursor, j);
      runs := runs + [ReadRun(g, f, blocks[cursor], j - cursor)];
      cursor := j;
    }
    assert Dumped(g, f, blocks)[0..|blocks|] == Dumped(g, f, blocks);
  }

  // ----- images -----

  /** Two files show the same pages. */
  ghost predicate SameImage(g: Geometry, a: File, b: File)
    requires FileOk(g, a) && FileOk(g, b)
  {
    forall p: nat :: PageOf(g, a, p) == PageOf(g, b, p)
  }

  ghost predicate PagesOk(g: Geometry, ps: seq<PageWrite>) {
    forall i :: 0 <= i < |ps| ==> |ps[i].page| == g.pageSize
  }

  /** Writing the dirty pages of `now` over an image that agrees with it elsewhere gives `now`. */
  lemma {:induction false} DumpRestores(g: Geometry, was: File, now: File, blocks: seq<nat>, p: nat)
    requires FileOk(g, was) && FileOk(g, now)
    ensures var r := WritePages(was, Dumped(g, now, blocks));
            FileOk(g, r) && PageOf(g, r, p) == if p in blocks then PageOf(g, now, p) else PageOf(g, was, p)
    decreases |blocks|
  {
    if blocks != [] {
      var s := blocks[..|blocks| - 1];
      assert Dumped(g, now, blocks)[..|blocks| - 1] == Dumped(g, now, s);
      DumpRestores(g, was, now, s, p);
      assert blocks == s + [blocks[|blocks| - 1]];
    }
  }

  // ----- the history of a bin -----

  ghost predicate Rising(s: seq<nat>) {
    forall i, j :: 0 <= i < j < |s| ==> s[i] < s[j]
  }

  /** A set of pages in ascending order. */
  ghost function Listed(s: set<nat>): (r: seq<nat>)
    ensures Rising(r) && forall p :: p in r <==> p in s
    decreases |s|
  {
    if s == {} then [] else
      HasLargest(s);
      var m :| m in s && forall p :: p in s ==> p <= m;
      Listed(s - {m}) + [m]
  }

  lemma {:induction false} HasLargest(s: set<nat>)
    requires s != {}
    ensures exists m :: m in s && forall p :: p in s ==> p <= m
    decreases |s|
  {
    var x :| x in s;
    if s != {x} {
      HasLargest(s - {x});
      var m :| m in s - {x} && forall p :: p in s - {x} ==> p <= m;
      var top := if m < x then x else m;
      forall p | p in s
        ensures p <= top
      {
        assert p != x ==> p in s - {x};
      }
    }
  }

  /** The last page of an ascending list is its largest, and occurs once. */
  lemma RisingLast(a: seq<nat>, s: seq<nat>, m: nat)
    requires a == s + [m] && Rising(a)
    ensures Rising(s) && (forall p :: p in s ==> p < m) && (forall p :: p in a <==> p in s || p == m)
  {
    assert forall i :: 0 <= i < |s| ==> s[i] == a[i];
    forall p | p in s
      ensures p < m
    {
      var i :| 0 <= i < |s| && s[i] == p;
      assert a[i] == p && a[|s|] == m;
    }
  }

  /** Two ascending lists of the same pages are the same list. */
  lemma {:induction false} ListedOnce(a: seq<nat>, b: seq<nat>)
    requires Rising(a) && Rising(b) && forall p :: p in a <==> p in b
    ensures a == b
    decreases |a|
  {
    hide Rising;
    assert (|a| > 0 ==> a[0] in a) && (|b| > 0 ==> b[0] in b);
    if a != [] {
      var s, m, t, n := a[..|a| - 1], a[|a| - 1], b[..|b| - 1], b[|b| - 1];
      RisingLast(a, s, m);
      RisingLast(b, t, n);
      assert m in b && n in a;
      ListedOnce(s, t);
    }
  }

  /** The data file and the generation at the start of the session, the images frozen by the
      checkpoints since, the pages dirty and the bump pointer when each began, the deltas completed,
      and the bump pointer when the file of each delta was created. */
  datatype History =
    History(base: File, first: nat, images: seq<File>, dirty: seq<set<nat>>, deltas: seq<seq<Run>>,
            marks: seq<nat>, heads: seq<nat>)

  ghost function Replayed(f: File, deltas: seq<seq<Run>>): File {
    if deltas == [] then f else ReplayRuns(Replayed(f, deltas[..|deltas| - 1]), deltas[|deltas| - 1])
  }

  /** The image frozen by checkpoint `k`; checkpoint 0 is the start of the session. */
  ghost function ImageAt(h: History, k: nat): File
    requires k <= |h.images|
  {
    if k == 0 then h.base else h.images[k - 1]
  }

  ghost predicate HistoryOk(g: Geometry, h: History) {
    && FileOk(g, h.base) && (forall k :: 0 <= k < |h.images| ==> FileOk(g, h.images[k]))
    && |h.deltas| <= |h.images| == |h.dirty|
  }

  /** Replaying the first `k` deltas onto the base gives the image frozen by checkpoint `k`, and delta
      `k` holds exactly that checkpoint's dirty pages. */
  ghost predicate ChainAt(g: Geometry, h: History, k: nat)
    requires HistoryOk(g, h) && k <= |h.deltas|
  {
    && FileOk(g, Replayed(h.base, h.deltas[..k])) && SameImage(g, Replayed(h.base, h.deltas[..k]), ImageAt(h, k))
    && (k > 0 ==> Solid(h.deltas[k - 1]) && Flatten(h.deltas[k - 1]) == Dumped(g, h.images[k - 1], Listed(h.dirty[k - 1])))
  }

  ghost predicate Chain(g: Geometry, h: History) {
    HistoryOk(g, h) && forall k :: 0 <= k <= |h.deltas| ==> ChainAt(g, h, k)
  }

  /** The step that extends the chain: the new delta dumps every page in which the new image
      differs from the one before. */
  lemma ChainMore(g: Geometry, h: History, runs: seq<Run>)
    requires Chain(g, h) && |h.images| == |h.deltas| + 1 && Solid(runs)
    requires Flatten(runs) == Dumped(g, h.images[|h.deltas|], Listed(h.dirty[|h.deltas|]))
    requires forall p: nat :: p !in h.dirty[|h.deltas|] ==>
               PageOf(g, h.images[|h.deltas|], p) == PageOf(g, ImageAt(h, |h.deltas|), p)
    ensures Chain(g, h.(deltas := h.deltas + [runs]))
  {
    var n, now, r := |h.deltas|, h.images[|h.deltas|], h.(deltas := h.deltas + [runs]);
    var was, blocks := Replayed(h.base, h.deltas), Listed(h.dirty[|h.deltas|]);
    assert h.deltas[..n] == h.deltas;
    assert ChainAt(g, h, n);
    assert r.deltas[..n] == h.deltas && r.deltas[..n + 1] == r.deltas;
    forall p: nat
      ensures FileOk(g, ReplayRuns(was, runs)) && PageOf(g, ReplayRuns(was, runs), p) == PageOf(g, now, p)
    {
      ReplayIsWrites(was, runs);
      DumpRestores(g, was, now, blocks, p);
    }
    forall k | 0 <= k <= n + 1
      ensures ChainAt(g, r, k)
    {
      if k <= n {
        assert r.deltas[..k] == h.deltas[..k];
        assert ChainAt(g, h, k);
      } else {
        DumpRestores(g, was, now, blocks, 0);
      }
    }
  }

  // ----- which pages a batch may change -----

  /** From `c` to `r` only pages in `s` were buffered or changed in the file. */
  ghost predicate Confined(c: Cache, s: set<nat>, r: Cache) {
    && Ok(c) && Ok(r) && r.g == c.g && r.buf.Keys <= s
    && forall p: nat :: p !in s ==> PageOf(c.g, r.file, p) == PageOf(c.g, c.file, p)
  }

  lemma PutOneConfined(c: Cache, x: Extent, w: Write, s: set<nat>)
    requires Ok(c) && |w.data| == c.g.entrySize && c.buf.Keys <= s && w.id / c.g.epp in s
    ensures Confined(c, s, PutOne(c, x, w))
  {
    PutOneBuffers(c, x, w, w.id / c.g.epp);
  }

  lemma {:induction false} PutAllConfined(c: Cache, x: Extent, ws: seq<Write>, s: set<nat>)
    requires Ok(c) && Fits(c.g, ws) && c.buf.Keys <= s && Touched(c.g.epp, ws) <= s
    ensures Confined(c, s, PutAll(c, x, ws))
    decreases |ws|
  {
    if ws != [] {
      var t, w := ws[..|ws| - 1], ws[|ws| - 1];
      assert ws == t + [w];
      TouchedMore(c.g.epp, t, w);
      PutAllConfined(c, x, t, s);
      PutOneConfined(PutAll(c, x, t), x, w, s);
    }
  }

  lemma PutSortedConfined(c: Cache, x: Extent, ws: seq<Write>, s: set<nat>)
    requires Ok(c) && Fits(c.g, ws) && c.buf.Keys <= s && Touched(c.g.epp, ws) <= s
    ensures Confined(c, s, PutSorted(c, x, ws))
  {
    SortKeepsLast(ws, c.g.epp, 0);
    SortFits(c.g, ws);
    PutAllConfined(c, x, StableSort.Sort(ws, PageKey(c.g.epp)), s);
  }

  lemma {:induction false} ReplayConfined(c: Cache, x: Extent, ws: seq<Write>, s: set<nat>)
    requires Ok(c) && Fits(c.g, ws) && c.buf.Keys <= s && Touched(c.g.epp, ws) <= s
    ensures Confined(c, s, Replay(c, x, ws))
    decreases |ws|
  {
    if |ws| <= REPLAY_CHUNK {
      PutSortedConfined(c, x, ws, s);
    } else {
      SplitNames(ws, REPLAY_CHUNK, c.g.epp, 0);
      PutSortedConfined(c, x, ws[..REPLAY_CHUNK], s);
      ReplayConfined(PutSorted(c, x, ws[..REPLAY_CHUNK]), x, ws[REPLAY_CHUNK..], s);
    }
  }

  // ----- a bin and its history -----

  /** Outside a checkpoint: every page in which the file differs from the last frozen image, and
      every buffered page, is in the active dirty set. */
  ghost predicate Clean(b: Bin, h: History)
    requires HistoryOk(b.cache.g, h) && BinOk(b)
  {
    && b.cache.buf.Keys <= b.active
    && forall p: nat :: p !in b.active ==>
         PageOf(b.cache.g, b.cache.file, p) == PageOf(b.cache.g, ImageAt(h, |h.images|), p)
  }

  /** During a checkpoint: the file is the image frozen when it began, nothing is dirty, and the
      frozen set covers every page changed since the image before. */
  ghost predicate Frozen(b: Bin, h: History)
    requires HistoryOk(b.cache.g, h) && BinOk(b)
  {
    && |h.images| > 0 && b.active == {} && b.frozen == h.dirty[|h.images| - 1]
    && SameImage(b.cache.g, b.cache.file, h.images[|h.images| - 1])
    && (forall p: nat :: p !in b.frozen ==>
          PageOf(b.cache.g, b.cache.file, p) == PageOf(b.cache.g, ImageAt(h, |h.images| - 1), p))
  }

  ghost predicate Tracks(b: Bin, h: History) {
    && BinOk(b) && Chain(b.cache.g, h) && b.generation == h.first + |h.images|
    && (!b.inCkpt ==> |h.deltas| == |h.images| && Clean(b, h))
    && (b.inCkpt ==> |h.images| <= |h.deltas| + 1 && Frozen(b, h))
  }

  /** Beginning freezes the flushed file as the next image. */
  function BegunHistory(b: Bin, h: History): History {
    h.(images := h.images + [Begin(b).cache.file], dirty := h.dirty + [b.active], marks := h.marks + [b.bump])
  }

  lemma ImagesMore(g: Geometry, h: History, f: File, d: set<nat>)
    requires Chain(g, h) && FileOk(g, f)
    ensures var r := h.(images := h.images + [f], dirty := h.dirty + [d]);
            Chain(g, r) && forall k :: 0 <= k <= |h.images| ==> ImageAt(r, k) == ImageAt(h, k)
  {
    var r := h.(images := h.images + [f], dirty := h.dirty + [d]);
    forall k | 0 <= k <= |r.deltas|
      ensures ChainAt(g, r, k)
    {
      assert ChainAt(g, h, k);
    }
  }

  /** The bump pointers a history records make no difference to the chain. */
  lemma ChainNoted(g: Geometry, h: History, t: History)
    requires Chain(g, h) && t == h.(marks := t.marks, heads := t.heads)
    ensures Chain(g, t) && forall k :: 0 <= k <= |h.images| ==> ImageAt(t, k) == ImageAt(h, k)
  {
    forall k | 0 <= k <= |t.deltas|
      ensures ChainAt(g, t, k)
    {
      assert ChainAt(g, h, k);
    }
  }

  lemma TracksNoted(b: Bin, h: History, t: History)
    requires Tracks(b, h) && t == h.(marks := t.marks, heads := t.heads)
    ensures Tracks(b, t)
  {
    hide Chain;
    ChainNoted(b.cache.g, h, t);
  }

  lemma BeginTracks(b: Bin, h: History)
    requires Tracks(b, h) && !b.inCkpt
    ensures Tracks(Begin(b), BegunHistory(b, h))
  {
    hide ChainAt;
    BeginReads(b);
    ImagesMore(b.cache.g, h, Begin(b).cache.file, b.active);
    ChainNoted(b.cache.g, BegunHistory(b, h).(marks := h.marks), BegunHistory(b, h));
  }

  /** A completed dump extends the chain. */
  lemma DumpTracks(b: Bin, h: History, runs: seq<Run>)
    requires Tracks(b, h) && b.inCkpt && |h.images| == |h.deltas| + 1 && Solid(runs)
    requires Flatten(runs) == Dumped(b.cache.g, b.cache.file, Listed(b.frozen))
    ensures Tracks(b, h.(deltas := h.deltas + [runs]))
  {
    var g, now, blocks := b.cache.g, h.images[|h.deltas|], Listed(b.frozen);
    assert Dumped(g, b.cache.file, blocks) == Dumped(g, now, blocks) by {
      assert forall i :: 0 <= i < |blocks| ==> PageOf(g, b.cache.file, blocks[i]) == PageOf(g, now, blocks[i]);
    }
    ChainMore(g, h, runs);
  }

  lemma PutBatchTracks(b: Bin, h: History, ws: seq<Write>)
    requires Tracks(b, h) && Fits(b.cache.g, ws)
    ensures Tracks(PutBatch(b, ws).0, h)
  {
    PutBatchReads(b, ws, 0);
    if !b.inCkpt {
      PutSortedConfined(b.cache, ExtentOf(b), ws, b.active + Touched(b.cache.g.epp, ws));
    }
  }

  lemma FlushTracks(b: Bin, h: History)
    requires Tracks(b, h)
    ensures Tracks(FlushBin(b), h)
    ensures b.inCkpt ==> FlushBin(b).cache == b.cache
  {
    FlushBinKeeps(b);
    assert b.inCkpt ==> b.cache.file + map[] == b.cache.file;
  }

  lemma EndTracks(b: Bin, h: History, order: seq<Write>)
    requires Tracks(b, h) && Fits(b.cache.g, order)
    requires b.inCkpt ==> |h.deltas| == |h.images|
    ensures Tracks(End(b, order), h)
  {
    hide End, Replay, Touched, ChainAt, PageOf;
    EndFrame(b, order);
    var s := b.active + Touched(b.cache.g.epp, order);
    ReplayConfined(b.cache, ExtentOf(b), order, s);
  }

  // ----- recovery -----

  /** A delta file as the directory lists it. */
  datatype DeltaFile = DeltaFile(generation: nat, runs: seq<Run>)

  /** The file after replaying, in the order given, what is newer than the base. */
  ghost function Newer(f: File, ds: seq<DeltaFile>, base: nat): File {
    if ds == [] then f
    else
      var g, d := Newer(f, ds[..|ds| - 1], base), ds[|ds| - 1];
      if d.generation > base then ReplayRuns(g, d.runs) else g
  }

  /** The delta files a session has left: one per completed delta. */
  ghost function Files(h: History): (r: seq<DeltaFile>)
    ensures |r| == |h.deltas|
  {
    seq(|h.deltas|, i requires 0 <= i < |h.deltas| => DeltaFile(h.first + i + 1, h.deltas[i]))
  }

  ghost predicate NewestLast(a: seq<DeltaFile>) {
    forall i, j :: 0 <= i < j < |a| ==> a[i].generation < a[j].generation
  }

  lemma WithoutLast(a: seq<DeltaFile>, r: seq<DeltaFile>, x: DeltaFile)
    requires NewestLast(a) && a == r + [x]
    ensures NewestLast(r) && (forall d :: d in a <==> d in r || d == x)
    ensures forall d :: d in r ==> d.generation < x.generation
  {
    assert a[|r|] == x;
    assert forall i :: 0 <= i < |r| ==> r[i] == a[i];
  }

  /** Listings of the same files, in order of generation, are the same. */
  lemma {:induction false} SortedIsUnique(a: seq<DeltaFile>, b: seq<DeltaFile>)
    requires NewestLast(a) && NewestLast(b) && forall d :: d in a <==> d in b
    ensures a == b
    decreases |a|
  {
    hide NewestLast;
    assert b != [] ==> b[0] in b;
    if a != [] {
      assert a[0] in a && a[0] in b;
      var r, x, s, y := a[..|a| - 1], a[|a| - 1], b[..|b| - 1], b[|b| - 1];
      assert a == r + [x] && b == s + [y];
      WithoutLast(a, r, x);
      WithoutLast(b, s, y);
      assert x in a && y in b;
      assert x == y by {
        assert (x in s || x == y) && (y in r || y == x);
      }
      forall d: DeltaFile
        ensures d in r <==> d in s
      {
        assert d in a <==> d in b;
        assert d in r || d in s ==> d.generation < x.generation;
      }
      SortedIsUnique(r, s);
    }
  }

  /** What a recovery from the base makes use of. */
  ghost predicate Matters(d: DeltaFile, base: nat) {
    d.generation > base && d.runs != []
  }

  ghost function Mattering(ds: seq<DeltaFile>, base: nat): (r: seq<DeltaFile>) {
    if ds == [] then []
    else Mattering(ds[..|ds| - 1], base) + if Matters(ds[|ds| - 1], base) then [ds[|ds| - 1]] else []
  }

  lemma NewerMore(f: File, r: seq<DeltaFile>, x: DeltaFile, base: nat)
    ensures Newer(f, r + [x], base) == if x.generation > base then ReplayRuns(Newer(f, r, base), x.runs) else Newer(f, r, base)
    ensures Mattering(r + [x], base) == if Matters(x, base) then Mattering(r, base) + [x] else Mattering(r, base)
  {
    assert (r + [x])[..|r|] == r;
    assert Mattering(r, base) + [] == Mattering(r, base);
  }

  lemma {:induction false} MatteringReplays(f: File, ds: seq<DeltaFile>, base: nat)
    ensures Newer(f, ds, base) == Newer(f, Mattering(ds, base), base)
    decreases |ds|
  {
    if ds != [] {
      hide ReplayRuns, Newer, Mattering;
      var r, x := ds[..|ds| - 1], ds[|ds| - 1];
      assert ds == r + [x];
      MatteringReplays(f, r, base);
      NewerMore(f, r, x, base);
      NewerMore(f, Mattering(r, base), x, base);
      NothingReplayed(Newer(f, r, base));
    }
  }

  lemma {:induction false} MatteringRises(ds: seq<DeltaFile>, base: nat)
    requires NewestLast(ds)
    ensures NewestLast(Mattering(ds, base))
    ensures forall d :: d in Mattering(ds, base) <==> d in ds && Matters(d, base)
    decreases |ds|
  {
    if ds != [] {
      hide Mattering, Newer, ReplayRuns;
      var r, x := ds[..|ds| - 1], ds[|ds| - 1];
      assert ds == r + [x];
      WithoutLast(ds, r, x);
      MatteringRises(r, base);
      NewerMore(map[], r, x, base);
      assert forall i :: 0 <= i < |Mattering(r, base)| ==> Mattering(r, base)[i] in Mattering(r, base);
    }
  }

  lemma NothingReplayed(f: File)
    ensures ReplayRuns(f, []) == f
  {
  }

  /** Replaying, in generation order, the deltas newer than image `m` onto that image gives every
      later image in turn. */
  lemma {:induction false} NewerRebuilds(g: Geometry, h: History, f: File, m: nat, n: nat)
    requires Chain(g, h) && m <= n <= |h.deltas| && FileOk(g, f) && SameImage(g, f, ImageAt(h, m))
    ensures var r := Newer(f, Files(h)[..n], h.first + m);
            FileOk(g, r) && SameImage(g, r, ImageAt(h, n))
    decreases n
  {
    if n > m {
      assert Files(h)[..n][..n - 1] == Files(h)[..n - 1];
      NewerRebuilds(g, h, f, m, n - 1);
      assert ChainAt(g, h, n - 1) && ChainAt(g, h, n);
      assert h.deltas[..n][..n - 1] == h.deltas[..n - 1];
      SameReplay(g, Newer(f, Files(h)[..n - 1], h.first + m), Replayed(h.base, h.deltas[..n - 1]), h.deltas[n - 1]);
    } else {
      NothingNewer(f, Files(h)[..n], h.first + m);
    }
  }

  lemma {:induction false} NothingNewer(f: File, ds: seq<DeltaFile>, base: nat)
    requires forall i :: 0 <= i < |ds| ==> ds[i].generation <= base
    ensures Newer(f, ds, base) == f
    decreases |ds|
  {
    if ds != [] {
      NothingNewer(f, ds[..|ds| - 1], base);
    }
  }

  lemma {:induction false} WritesAgree(g: Geometry, a: File, b: File, ps: seq<PageWrite>, p: nat)
    requires FileOk(g, a) && FileOk(g, b) && PageOf(g, a, p) == PageOf(g, b, p) && PagesOk(g, ps)
    ensures FileOk(g, WritePages(a, ps)) && FileOk(g, WritePages(b, ps))
    ensures PageOf(g, WritePages(a, ps), p) == PageOf(g, WritePages(b, ps), p)
    decreases |ps|
  {
    if ps != [] {
      WritesAgree(g, a, b, ps[..|ps| - 1], p);
    }
  }

  /** A replay onto files showing the same pages gives files showing the same pages. */
  lemma SameReplay(g: Geometry, a: File, b: File, runs: seq<Run>)
    requires FileOk(g, a) && FileOk(g, b) && SameImage(g, a, b) && PagesOk(g, Flatten(runs))
    ensures FileOk(g, ReplayRuns(a, runs)) && FileOk(g, ReplayRuns(b, runs))
    ensures SameImage(g, ReplayRuns(a, runs), ReplayRuns(b, runs))
  {
    ReplayIsWrites(a, runs);
    ReplayIsWrites(b, runs);
    WritesAgree(g, a, b, Flatten(runs), 0);
    forall p: nat
      ensures PageOf(g, ReplayRuns(a, runs), p) == PageOf(g, ReplayRuns(b, runs), p)
    {
      WritesAgree(g, a, b, Flatten(runs), p);
    }
  }

  /** Recovery: from the image of checkpoint `m`, and delta files in order of generation of which those
      that matter are the session's, the image of the last completed checkpoint is rebuilt. */
  lemma RecoverRebuilds(g: Geometry, h: History, f: File, m: nat, ds: seq<DeltaFile>)
    requires Chain(g, h) && m <= |h.deltas| && FileOk(g, f) && SameImage(g, f, ImageAt(h, m))
    requires NewestLast(ds) && forall d :: Matters(d, h.first + m) ==> (d in ds <==> d in Files(h))
    ensures var r := Newer(f, ds, h.first + m);
            FileOk(g, r) && SameImage(g, r, ImageAt(h, |h.deltas|))
  {
    hide Newer, Mattering, Matters, Chain;
    MatteringReplays(f, ds, h.first + m);
    MatteringReplays(f, Files(h), h.first + m);
    MatteringRises(ds, h.first + m);
    MatteringRises(Files(h), h.first + m);
    SortedIsUnique(Mattering(ds, h.first + m), Mattering(Files(h), h.first + m));
    assert Files(h)[..|h.deltas|] == Files(h);
    NewerRebuilds(g, h, f, m, |h.deltas|);
  }
}
