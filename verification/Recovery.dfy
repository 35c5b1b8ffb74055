/** Recovery from the delta files themselves: after any run, cut short at any moment, what is in a bin's
    directory rebuilds its last completed image byte for byte. */
module Recovery {
  import opened Pages
  import opened Arithmetic
  import opened Wire
  import opened Bins
  import opened DeltaChains
  import opened DeltaFiles
  import opened StableSort
  import opened Directories
  import opened DeltaRuns
  import opened DirtyTrackers
  import C = Checkpoints
  import Stores

  /** A delta file as the directory lists it. */
  datatype RawFile = RawFile(generation: nat, bytes: Bytes)

  /** What a file is known to hold: a complete delta, one that was being written, or anything. */
  datatype Content =
    | Full(header: DeltaHeader, runs: seq<Run>)
    | Partial(header: DeltaHeader, runs: seq<Run>)
    | Other

  function RawAge(): RawFile -> int {
    (x: RawFile) => x.generation
  }

  /** The file can be read back: every field fits its width. */
  ghost predicate Readable(g: Geometry, dim: nat, x: RawFile, w: Content) {
    && !w.Other? && w.header.generation == x.generation && w.header.dim == dim
    && w.header.magic == DELTA_MAGIC && w.header.version == 1
    && if w.Full? then RunsOk(g, w.runs) && w.header.(entries := |w.runs|).InRange() && x.bytes == EncodeDelta(w.header, w.runs)
       else w.header.(entries := 0).InRange() && x.bytes == Unfinished(w.header, w.runs)
  }

  /** The files newer than the base hold `ws`. */
  ghost predicate Holds(g: Geometry, dim: nat, files: seq<RawFile>, ws: seq<Content>, base: nat) {
    |ws| == |files| && forall i :: 0 <= i < |files| && files[i].generation > base ==> Readable(g, dim, files[i], ws[i])
  }

  /** The files as deltas: one that is not complete replays as nothing. */
  ghost function Deltas(files: seq<RawFile>, ws: seq<Content>): (ds: seq<DeltaFile>)
    requires |ws| == |files|
    ensures |ds| == |files|
  {
    seq(|files|, i requires 0 <= i < |files| => DeltaFile(files[i].generation, if ws[i].Full? then ws[i].runs else []))
  }

  /** The bump pointer after the headers of what is newer than the base. */
  ghost function Raised(bump: nat, files: seq<RawFile>, ws: seq<Content>, base: nat): nat
    requires |ws| == |files|
  {
    if files == [] then bump
    else
      var n := |files| - 1;
      var b := Raised(bump, files[..n], ws[..n], base);
      if files[n].generation > base && !ws[n].Other? then Later(b, ws[n].header.bump) else b
  }

  /** `ckpt_recover` for one bin: sort the listing by generation, and replay what is newer than the
      base.  A file that cannot be read changes nothing. */
  method Recover(g: Geometry, dim: nat, f: File, bump: nat, listing: seq<RawFile>, base: nat, ghost ws: seq<Content>)
    returns (r: File, newBump: nat)
    ensures var files := Sort(listing, RawAge());
            Holds(g, dim, files, ws, base) ==>
              r == Newer(f, Deltas(files, ws), base) && newBump == Raised(bump, files, ws, base)
  {
    hide ReplayRuns, Sort, EncodeDelta, RunsOk, Unfinished;
    var a := new RawFile[|listing|](i requires 0 <= i < |listing| => listing[i]);
    assert a[..] == listing;
    InsertionSort(a, RawAge());
    ghost var files := Sort(listing, RawAge());
    ghost var good := Holds(g, dim, files, ws, base);
    r, newBump := f, bump;
    for i := 0 to a.Length
      invariant a[..] == files
      invariant good ==> r == Newer(f, Deltas(files[..i], ws[..i]), base) && newBump == Raised(bump, files[..i], ws[..i], base)
    {
      ghost var w := At(ws, i);
      if good {
        NextFile(f, bump, files, ws, i, base);
      }
      if a[i].generation > base {
        var status;
        status, r, newBump := ReplayDelta(g, dim, r, newBump, a[i].bytes, HeaderIn(w), RunsIn(w));
      }
    }
    assert good ==> files[..a.Length] == files && ws[..a.Length] == ws;
  }

  ghost function At(ws: seq<Content>, i: nat): Content {
    if i < |ws| then ws[i] else Other
  }

  ghost function HeaderIn(w: Content): DeltaHeader {
    if w.Other? then DeltaHeader(0, 0, 0, 0, 0, 0, 0, 0) else w.header
  }

  ghost function RunsIn(w: Content): seq<Run> {
    if w.Other? then [] else w.runs
  }

  lemma NextFile(f: File, bump: nat, files: seq<RawFile>, ws: seq<Content>, i: nat, base: nat)
    requires i < |files| == |ws| && (files[i].generation > base ==> !ws[i].Other?)
    ensures var r := Newer(f, Deltas(files[..i], ws[..i]), base);
            Newer(f, Deltas(files[..i + 1], ws[..i + 1]), base) ==
              if files[i].generation > base && ws[i].Full? then ReplayRuns(r, ws[i].runs) else r
    ensures var b := Raised(bump, files[..i], ws[..i], base);
            Raised(bump, files[..i + 1], ws[..i + 1], base) ==
              if files[i].generation > base then Later(b, ws[i].header.bump) else b
  {
    hide ReplayRuns;
    assert files[..i + 1][..i] == files[..i] && ws[..i + 1][..i] == ws[..i];
    assert Deltas(files[..i + 1], ws[..i + 1])[..i] == Deltas(files[..i], ws[..i]);
    NothingReplayed(Newer(f, Deltas(files[..i], ws[..i]), base));
  }

  /** The highest of a bump pointer and those in the headers of the files newer than the base. */
  ghost predicate Highest(n: nat, bump: nat, files: seq<RawFile>, base: nat) {
    && n >= bump && (forall x :: x in files && x.generation > base ==> |x.bytes| >= DELTA_HEADER && n >= BumpIn(x.bytes))
    && (n == bump || exists x :: x in files && x.generation > base && |x.bytes| >= DELTA_HEADER && n == BumpIn(x.bytes))
  }

  ghost function BumpIn(file: Bytes): nat
    requires |file| >= DELTA_HEADER
  {
    DecodeDeltaHeader(file).bump
  }

  lemma ReadableBump(g: Geometry, dim: nat, x: RawFile, w: Content)
    requires Readable(g, dim, x, w)
    ensures |x.bytes| >= DELTA_HEADER && BumpIn(x.bytes) == w.header.bump
  {
    WrittenHeader(x.bytes, w.header, w.runs);
  }

  lemma HighestMore(n: nat, bump: nat, s: seq<RawFile>, x: RawFile, base: nat)
    requires Highest(n, bump, s, base) && (x.generation > base ==> |x.bytes| >= DELTA_HEADER)
    ensures Highest(if x.generation > base then Later(n, BumpIn(x.bytes)) else n, bump, s + [x], base)
  {
    hide BumpIn;
    assert (s + [x])[|s|] == x;
    assert forall y :: y in s + [x] <==> y in s || y == x;
  }

  lemma {:induction false} RaisedIsHighest(g: Geometry, dim: nat, bump: nat, files: seq<RawFile>, ws: seq<Content>, base: nat)
    requires Holds(g, dim, files, ws, base)
    ensures Highest(Raised(bump, files, ws, base), bump, files, base)
    decreases |files|
  {
    if files != [] {
      hide Readable, BumpIn, Highest;
      var n := |files| - 1;
      RaisedIsHighest(g, dim, bump, files[..n], ws[..n], base);
      assert files == files[..n] + [files[n]];
      if files[n].generation > base {
        ReadableBump(g, dim, files[n], ws[n]);
        NotOther(g, dim, files[n], ws[n]);
      }
      HighestMore(Raised(bump, files[..n], ws[..n], base), bump, files[..n], files[n], base);
    }
  }

  lemma NotOther(g: Geometry, dim: nat, x: RawFile, w: Content)
    requires Readable(g, dim, x, w)
    ensures !w.Other?
  {
  }

  // ----- what a run has written can be read -----

  lemma {:induction false} RunsInFlatten(rs: seq<Run>, k: nat, i: nat)
    requires k < |rs| && i < |rs[k].pages|
    ensures PageWrite(rs[k].start + i, rs[k].pages[i]) in Flatten(rs)
    decreases |rs|
  {
    if k < |rs| - 1 {
      RunsInFlatten(rs[..|rs| - 1], k, i);
    } else {
      assert Spread(rs[k])[i] == PageWrite(rs[k].start + i, rs[k].pages[i]);
    }
  }

  lemma {:induction false} FewRuns(rs: seq<Run>)
    requires Solid(rs)
    ensures |rs| <= |Flatten(rs)|
    decreases |rs|
  {
    if rs != [] {
      FewRuns(rs[..|rs| - 1]);
    }
  }

  lemma {:induction false} RisingBound(s: seq<nat>, limit: nat)
    requires Rising(s) && forall p :: p in s ==> p < limit
    ensures |s| <= limit
    decreases |s|
  {
    if s != [] {
      var r, m := s[..|s| - 1], s[|s| - 1];
      RisingLast(s, r, m);
      assert m in s;
      RisingBound(r, m);
    }
  }

  lemma PageInDump(g: Geometry, image: File, blocks: seq<nat>, rs: seq<Run>, k: nat, i: nat)
    requires FileOk(g, image) && Flatten(rs) == Dumped(g, image, blocks) && k < |rs| && i < |rs[k].pages|
    ensures rs[k].start + i in blocks && |rs[k].pages[i]| == g.pageSize
  {
    hide Flatten;
    RunsInFlatten(rs, k, i);
    var j :| 0 <= j < |blocks| && Dumped(g, image, blocks)[j] == PageWrite(rs[k].start + i, rs[k].pages[i]);
  }

  /** A dump of pages below the tracker's limit can be encoded. */
  lemma {:induction false} DumpedOk(g: Geometry, image: File, blocks: seq<nat>, rs: seq<Run>)
    requires FileOk(g, image) && Solid(rs) && Flatten(rs) == Dumped(g, image, blocks) && Rising(blocks)
    requires forall p :: p in blocks ==> p < MAX_PAGE
    ensures RunsOk(g, rs) && |rs| < U32
  {
    hide Flatten, Dumped;
    FewRuns(rs);
    RisingBound(blocks, MAX_PAGE);
    forall k | 0 <= k < |rs|
      ensures RunFits(g, rs[k])
    {
      var n := |rs[k].pages|;
      PageInDump(g, image, blocks, rs, k, 0);
      PageInDump(g, image, blocks, rs, k, n - 1);
      forall i | 0 <= i < n
        ensures |rs[k].pages[i]| == g.pageSize
      {
        PageInDump(g, image, blocks, rs, k, i);
      }
    }
  }

  // ----- a directory, listed -----

  /** The listing holds every file of the directory once, in any order. */
  ghost predicate Lists(listing: seq<RawFile>, d: Dir) {
    && (forall i :: 0 <= i < |listing| ==> listing[i].generation in d && listing[i].bytes == d[listing[i].generation])
    && (forall n :: n in d ==> exists i :: 0 <= i < |listing| && listing[i].generation == n)
    && (forall i, j :: 0 <= i < j < |listing| ==> listing[i].generation != listing[j].generation)
  }

  lemma SameListing(s: seq<RawFile>, listing: seq<RawFile>, d: Dir)
    requires Lists(listing, d) && (forall x :: x in s <==> x in listing)
    requires forall i, j :: 0 <= i < j < |s| ==> s[i].generation != s[j].generation
    ensures Lists(s, d)
  {
    forall i | 0 <= i < |s|
      ensures s[i].generation in d && s[i].bytes == d[s[i].generation]
    {
      assert s[i] in s && s[i] in listing;
    }
    forall n | n in d
      ensures exists i :: 0 <= i < |s| && s[i].generation == n
    {
      var i :| 0 <= i < |listing| && listing[i].generation == n;
      assert listing[i] in listing && listing[i] in s;
    }
  }

  /** Sorting a listing: the same files, generations rising. */
  lemma SortedListing(listing: seq<RawFile>, d: Dir)
    requires Lists(listing, d)
    ensures var s := Sort(listing, RawAge());
            && Lists(s, d) && (forall x :: x in s <==> x in listing)
            && forall i, j :: 0 <= i < j < |s| ==> s[i].generation < s[j].generation
  {
    hide Sort, Lists;
    var s := Sort(listing, RawAge());
    SortFacts(listing, RawAge());
    SortMembers(listing, RawAge());
    forall i, j | 0 <= i < j < |s|
      ensures s[i].generation < s[j].generation
    {
      assert RawAge()(s[i]) <= RawAge()(s[j]);
      assert s[i] in s && s[j] in s;
      OneOfEach(listing, d, s[i], s[j]);
      CountsTwice(s, i, j);
    }
    SameListing(s, listing, d);
  }

  lemma OneOfEach(listing: seq<RawFile>, d: Dir, x: RawFile, y: RawFile)
    requires Lists(listing, d) && x in listing && y in listing
    ensures x.generation == y.generation ==> x == y
    ensures multiset(listing)[x] <= 1
  {
    CountsOnce(listing, x);
  }

  /** Every number that goes into a delta file fits its field. */
  ghost predicate InFields(dim: nat, b: Bin, h: History) {
    && dim < U32 && b.cache.g.entrySize < U32 && b.bump < U64 && b.generation < U64
    && forall k, p :: 0 <= k < |h.dirty| && p in h.dirty[k] ==> p < MAX_PAGE
  }

  /** What the file of generation `n` holds. */
  ghost predicate Describes(w: Content, d: Dir, dim: nat, b: Bin, h: History, n: nat)
    requires n in d
  {
    if n <= h.first then w == Other
    else
      && n <= h.first + |h.heads| && !w.Other? && Headed(w.header, dim, b, n, h.heads[n - h.first - 1])
      && if n <= h.first + |h.deltas| then
           w.Full? && w.runs == h.deltas[n - h.first - 1] && d[n] == EncodeDelta(w.header, w.runs)
         else w.Partial? && d[n] == Unfinished(w.header, w.runs)
  }

  lemma Described(d: Dir, dim: nat, b: Bin, h: History, part: Stores.Option<seq<Run>>, n: nat)
    requires DirOk(d, dim, b, h, part) && n in d
    ensures exists w :: Describes(w, d, dim, b, h, n)
  {
    hide EncodeDelta, Unfinished, Headed;
    if n <= h.first {
      assert Describes(Other, d, dim, b, h, n);
    } else if n <= h.first + |h.deltas| {
      assert InFile(d, dim, b, h, n - h.first - 1);
      var hd :| Headed(hd, dim, b, n, h.heads[n - h.first - 1]) && d[n] == EncodeDelta(hd, h.deltas[n - h.first - 1]);
      assert Describes(Full(hd, h.deltas[n - h.first - 1]), d, dim, b, h, n);
    } else {
      assert n == h.first + |h.deltas| + 1;
      var hd :| Headed(hd, dim, b, n, h.heads[|h.deltas|]) && d[n] == Unfinished(hd, part.value);
      assert Describes(Partial(hd, part.value), d, dim, b, h, n);
    }
  }

  ghost function ContentOf(d: Dir, dim: nat, b: Bin, h: History, part: Stores.Option<seq<Run>>, n: nat): (w: Content)
    requires DirOk(d, dim, b, h, part) && n in d
    ensures Describes(w, d, dim, b, h, n)
  {
    hide Describes, DirOk;
    Described(d, dim, b, h, part, n);
    var w :| Describes(w, d, dim, b, h, n);
    w
  }

  ghost function Contents(d: Dir, dim: nat, b: Bin, h: History, part: Stores.Option<seq<Run>>, files: seq<RawFile>): (ws: seq<Content>)
    requires DirOk(d, dim, b, h, part) && forall i :: 0 <= i < |files| ==> files[i].generation in d
    ensures |ws| == |files|
  {
    seq(|files|, i requires 0 <= i < |files| => ContentOf(d, dim, b, h, part, files[i].generation))
  }

  lemma FileReadable(d: Dir, dim: nat, b: Bin, h: History, part: Stores.Option<seq<Run>>, n: nat)
    requires DirOk(d, dim, b, h, part) && n in d && n > h.first && Tracks(b, h) && InFields(dim, b, h)
    ensures Readable(b.cache.g, dim, RawFile(n, d[n]), ContentOf(d, dim, b, h, part, n))
  {
    hide Flatten, Dumped, EncodeDelta, Unfinished, RunsOk, BinOk, DirOk;
    var w := ContentOf(d, dim, b, h, part, n);
    NoNewer(d, dim, b, h, part, n);
    NotedIn(d, dim, b, h, part);
    if w.Full? {
      var k := n - h.first - 1;
      assert ChainAt(b.cache.g, h, k + 1);
      DumpedOk(b.cache.g, h.images[k], Listed(h.dirty[k]), h.deltas[k]);
    }
  }

  lemma NoNewer(d: Dir, dim: nat, b: Bin, h: History, part: Stores.Option<seq<Run>>, n: nat)
    requires DirOk(d, dim, b, h, part) && n in d && Tracks(b, h)
    ensures n <= h.first || n <= b.generation
  {
  }

  lemma DirHolds(d: Dir, dim: nat, b: Bin, h: History, part: Stores.Option<seq<Run>>, files: seq<RawFile>, base: nat)
    requires DirOk(d, dim, b, h, part) && Lists(files, d) && Tracks(b, h) && InFields(dim, b, h) && base >= h.first
    ensures Holds(b.cache.g, dim, files, Contents(d, dim, b, h, part, files), base)
  {
    hide DirOk, Tracks, InFields, Readable;
    forall i | 0 <= i < |files| && files[i].generation > base
      ensures Readable(b.cache.g, dim, files[i], Contents(d, dim, b, h, part, files)[i])
    {
      FileReadable(d, dim, b, h, part, files[i].generation);
      assert files[i] == RawFile(files[i].generation, d[files[i].generation]);
    }
  }

  /** The deltas that matter in the directory are those of the history. */
  lemma SameDeltas(d: Dir, dim: nat, b: Bin, h: History, part: Stores.Option<seq<Run>>, files: seq<RawFile>, m: nat)
    requires DirOk(d, dim, b, h, part) && Lists(files, d) && m <= |h.deltas|
    ensures var ds := Deltas(files, Contents(d, dim, b, h, part, files));
            forall x :: Matters(x, h.first + m) ==> (x in ds <==> x in Files(h))
  {
    hide DirOk, EncodeDelta, Unfinished, Headed, ContentOf;
    var ds := Deltas(files, Contents(d, dim, b, h, part, files));
    forall x | Matters(x, h.first + m) && x in ds
      ensures x in Files(h)
    {
      var i :| 0 <= i < |ds| && ds[i] == x;
      assert ContentOf(d, dim, b, h, part, files[i].generation).Full?;
      assert Files(h)[x.generation - h.first - 1] == x;
    }
    forall x | Matters(x, h.first + m) && x in Files(h)
      ensures x in ds
    {
      FoundInDir(d, dim, b, h, part, files, x);
    }
  }

  lemma FoundInDir(d: Dir, dim: nat, b: Bin, h: History, part: Stores.Option<seq<Run>>, files: seq<RawFile>, x: DeltaFile)
    requires DirOk(d, dim, b, h, part) && Lists(files, d) && x in Files(h)
    ensures x in Deltas(files, Contents(d, dim, b, h, part, files))
  {
    hide DirOk, EncodeDelta, Unfinished, Headed, ContentOf;
    var k :| 0 <= k < |h.deltas| && Files(h)[k] == x;
    NotedIn(d, dim, b, h, part);
    HeaderThere(d, dim, b, h, part, k);
    var i :| 0 <= i < |files| && files[i].generation == h.first + k + 1;
    assert Deltas(files, Contents(d, dim, b, h, part, files))[i] == x;
  }

  /** Recovering from a directory, onto any image of the history. */
  lemma DirRebuilds(d: Dir, dim: nat, b: Bin, h: History, part: Stores.Option<seq<Run>>, files: seq<RawFile>, f: File, m: nat)
    requires DirOk(d, dim, b, h, part) && Lists(files, d) && Chain(b.cache.g, h) && m <= |h.deltas|
    requires forall i, j :: 0 <= i < j < |files| ==> files[i].generation < files[j].generation
    requires FileOk(b.cache.g, f) && SameImage(b.cache.g, f, ImageAt(h, m))
    ensures var r := Newer(f, Deltas(files, Contents(d, dim, b, h, part, files)), h.first + m);
            FileOk(b.cache.g, r) && SameImage(b.cache.g, r, ImageAt(h, |h.deltas|))
  {
    hide Newer, Chain, DirOk, Lists;
    ListedAreThere(files, d);
    SameDeltas(d, dim, b, h, part, files, m);
    RecoverRebuilds(b.cache.g, h, f, m, Deltas(files, Contents(d, dim, b, h, part, files)));
  }

  lemma ListedAreThere(files: seq<RawFile>, d: Dir)
    requires Lists(files, d)
    ensures forall i :: 0 <= i < |files| ==> files[i].generation in d
  {
  }

  /** After any run, cut short at any moment: the delta files in the directory of bin `i`, as bytes and
      listed in any order, replayed by `ckpt_recover` onto any file that shows the image of checkpoint
      `m`, rebuild the image of the last completed checkpoint, also when a delta is half written.  The
      bump pointer becomes the largest of `bump` and the pointers recorded when the newer files were
      created, and is not below the pointer at the begin of any newer completed checkpoint. */
  method RecoverAfterRun(g: Geometry, dim: nat, f: File, bump: nat, listing: seq<RawFile>, base: nat,
                         ghost db: Stores.DB, ghost dirs: seq<Dir>, ghost ops: seq<C.Op>, ghost i: nat, ghost m: nat)
    returns (r: File, newBump: nat)
    requires C.JustOpened(db) && Settled(db, dirs) && C.RunOk(C.Started(db), ops)
    requires var last := C.Reached(C.Started(db), ops);
             && i < |last.hist| == |last.db.bins| == |last.db.dims| && g == last.db.bins[i].cache.g && dim == last.db.dims[i]
             && InFields(dim, last.db.bins[i], last.hist[i])
             && i < |SessionDirs(db, dirs, ops)| && Lists(listing, SessionDirs(db, dirs, ops)[i])
             && var h := last.hist[i];
                && m <= |h.deltas| <= |h.images| && base == h.first + m
                && FileOk(g, f) && FileOk(g, ImageAt(h, m)) && SameImage(g, f, ImageAt(h, m))
    ensures var h := C.Reached(C.Started(db), ops).hist[i];
            FileOk(g, r) && FileOk(g, ImageAt(h, |h.deltas|)) && SameImage(g, r, ImageAt(h, |h.deltas|))
    ensures var h := C.Reached(C.Started(db), ops).hist[i];
            && m <= |h.deltas| <= |h.heads| && |h.deltas| <= |h.marks| && Largest(newBump, bump, h.heads[m..])
            && forall k :: m <= k < |h.deltas| ==> newBump >= h.heads[k] >= h.marks[k]
  {
    hide C.JustOpened, C.RunOk, C.Reached, Newer, Sort, SameImage, FileOk, ImageAt, Highest, DirOk, Lists, InFields,
         Holds, Raised, C.SysInv, Tracks, Settled, Largest;
    ghost var last, d := C.Reached(C.Started(db), ops), SessionDirs(db, dirs, ops)[i];
    ghost var b, h, part, files := last.db.bins[i], last.hist[i], Part(last.prog, i), Sort(listing, RawAge());
    C.RunKeepsInv(C.Started(db), ops);
    SettledOk(db, dirs);
    RunKeepsDirs(C.Started(db), ops, dirs);
    C.TracksChain(last, i);
    ImageOk(g, h, |h.deltas|);
    SortedListing(listing, d);
    ListedAreThere(files, d);
    DirHolds(d, dim, b, h, part, files, base);
    DirRebuilds(d, dim, b, h, part, files, f, m);
    r, newBump := Recover(g, dim, f, bump, listing, base, Contents(d, dim, b, h, part, files));
    RaisedIsHighest(g, dim, bump, files, Contents(d, dim, b, h, part, files), base);
    HighestInAny(newBump, bump, files, listing, base);
    NotedIn(d, dim, b, h, part);
    HighestIsLargest(d, dim, b, h, part, listing, newBump, bump, m);
    AboveLastMark(b, h, part, newBump, bump, m);
  }

  /** The largest of `bump` and the bump pointers in `heads`. */
  ghost predicate Largest(n: nat, bump: nat, heads: seq<nat>) {
    n >= bump && (forall k :: 0 <= k < |heads| ==> n >= heads[k]) && (n == bump || n in heads)
  }

  /** The header of generation `n` holds the bump pointer recorded when its file was created. */
  lemma HeaderHolds(d: Dir, dim: nat, b: Bin, h: History, part: Stores.Option<seq<Run>>, n: nat)
    requires DirOk(d, dim, b, h, part) && n in d && n > h.first && Tracks(b, h) && InFields(dim, b, h)
    ensures n <= h.first + |h.heads| && |d[n]| >= DELTA_HEADER && BumpIn(d[n]) == h.heads[n - h.first - 1]
  {
    hide DirOk, Tracks, InFields, Readable, BumpIn, EncodeDelta, Unfinished;
    FileReadable(d, dim, b, h, part, n);
    ReadableBump(b.cache.g, dim, RawFile(n, d[n]), ContentOf(d, dim, b, h, part, n));
  }

  /** There is a file for every bump pointer recorded. */
  lemma HeaderThere(d: Dir, dim: nat, b: Bin, h: History, part: Stores.Option<seq<Run>>, k: nat)
    requires DirOk(d, dim, b, h, part) && k < |h.heads|
    ensures h.first + k + 1 in d
  {
    hide IsComplete, IsBegun;
    if k < |h.deltas| {
      assert InFile(d, dim, b, h, k);
    }
  }

  /** What the newer files name are the bump pointers recorded since the base. */
  lemma HighestIsLargest(d: Dir, dim: nat, b: Bin, h: History, part: Stores.Option<seq<Run>>, listing: seq<RawFile>,
                         n: nat, bump: nat, m: nat)
    requires DirOk(d, dim, b, h, part) && Lists(listing, d) && Tracks(b, h) && InFields(dim, b, h) && m <= |h.heads|
    requires Highest(n, bump, listing, h.first + m)
    ensures Largest(n, bump, h.heads[m..])
  {
    hide DirOk, Tracks, InFields, BumpIn;
    forall k | 0 <= k < |h.heads[m..]|
      ensures n >= h.heads[m..][k]
    {
      HeaderThere(d, dim, b, h, part, m + k);
      HeaderHolds(d, dim, b, h, part, h.first + m + k + 1);
      var i :| 0 <= i < |listing| && listing[i].generation == h.first + m + k + 1;
      assert listing[i] in listing;
    }
    if x :| x in listing && x.generation > h.first + m && |x.bytes| >= DELTA_HEADER && n == BumpIn(x.bytes) {
      HeaderHolds(d, dim, b, h, part, x.generation);
      assert h.heads[m..][x.generation - h.first - 1 - m] == n;
    }
  }

  /** The pointer at the begin of the last completed checkpoint is not above it. */
  lemma AboveLastMark(b: Bin, h: History, part: Stores.Option<seq<Run>>, n: nat, bump: nat, m: nat)
    requires Noted(b, h, part) && m <= |h.heads| && Largest(n, bump, h.heads[m..])
    ensures forall k :: m <= k < |h.deltas| ==> n >= h.heads[k] >= h.marks[k]
  {
    assert forall k :: m <= k < |h.heads| ==> h.heads[m..][k - m] == h.heads[k];
  }

  /** Which files there are decides, not how they are listed. */
  lemma HighestInAny(n: nat, bump: nat, files: seq<RawFile>, listing: seq<RawFile>, base: nat)
    requires Highest(n, bump, files, base) && forall x :: x in files <==> x in listing
    ensures Highest(n, bump, listing, base)
  {
    hide BumpIn;
  }

  lemma ImageOk(g: Geometry, h: History, k: nat)
    requires Chain(g, h) && k <= |h.images|
    ensures FileOk(g, ImageAt(h, k))
  {
  }

  // ----- what the recorded bump pointers are -----

  lemma NotedAt(db: Stores.DB, dirs: seq<Dir>, ops: seq<C.Op>, i: nat)
    requires C.JustOpened(db) && Settled(db, dirs) && C.RunOk(C.Started(db), ops) && i < |C.Reached(C.Started(db), ops).hist|
    ensures var sys := C.Reached(C.Started(db), ops);
            && |sys.hist| == |sys.db.bins| && Noted(sys.db.bins[i], sys.hist[i], Part(sys.prog, i))
            && C.SysInv(sys) && (sys.prog.open ==> sys.prog.phase == C.Dumping)
  {
    hide C.JustOpened, C.RunOk, C.Reached, C.SysInv, Settled, DirOk, Noted;
    var start := C.Started(db);
    SettledOk(db, dirs);
    RunKeepsDirs(start, ops, dirs);
    C.RunKeepsInv(start, ops);
    var sys, all := C.Reached(start, ops), RunDirs(start, ops, dirs);
    StepShape(sys);
    NotedIn(all[i], sys.db.dims[i], sys.db.bins[i], sys.hist[i], Part(sys.prog, i));
  }

  /** Over every run: what is recorded for the checkpoint that operation `m` begins for bin `i` is the
      bin's bump pointer before that operation. */
  lemma MarkIsBegin(db: Stores.DB, dirs: seq<Dir>, ops: seq<C.Op>, m: nat, i: nat)
    requires C.JustOpened(db) && Settled(db, dirs) && C.RunOk(C.Started(db), ops) && m < |ops|
    requires Begins(Before(C.Started(db), ops, m), ops[m], i)
    ensures var sys, last := Before(C.Started(db), ops, m), C.Reached(C.Started(db), ops);
            var j := |sys.hist[i].images|;
            && i < |last.hist| && j < |last.hist[i].marks| && last.hist[i].marks[j] == sys.db.bins[i].bump
  {
    hide C.JustOpened, C.RunOk, C.Reached, C.SysInv, C.Apply, AllContinue, Settled;
    RunSplit(C.Started(db), ops, m);
    NotedAt(db, dirs, ops[..m], i);
    RestOfRun(Before(C.Started(db), ops, m), ops[m..]);
    assert ops[m..][0] == ops[m];
    BegunFrom(Before(C.Started(db), ops, m), ops[m], i, C.Reached(C.Started(db), ops));
  }

  /** And what is recorded for the delta whose file operation `m` creates is the bump pointer before
      that operation. */
  lemma HeadIsCreation(db: Stores.DB, dirs: seq<Dir>, ops: seq<C.Op>, m: nat, i: nat)
    requires C.JustOpened(db) && Settled(db, dirs) && C.RunOk(C.Started(db), ops) && m < |ops|
    requires Creates(Before(C.Started(db), ops, m), ops[m], i)
    ensures var sys, last := Before(C.Started(db), ops, m), C.Reached(C.Started(db), ops);
            var j := |sys.hist[i].deltas|;
            && i < |last.hist| && j < |last.hist[i].heads| && last.hist[i].heads[j] == sys.db.bins[i].bump
  {
    hide C.JustOpened, C.RunOk, C.Reached, C.SysInv, C.Apply, AllContinue, Settled;
    RunSplit(C.Started(db), ops, m);
    NotedAt(db, dirs, ops[..m], i);
    RestOfRun(Before(C.Started(db), ops, m), ops[m..]);
    assert ops[m..][0] == ops[m];
    CreatedFrom(Before(C.Started(db), ops, m), ops[m], i, C.Reached(C.Started(db), ops));
  }
}
