/** The data file behind its write buffer: loading, writing and flushing pages, and the exact
    effect of a page-ordered batch of writes on every entry. */
module PageCaches {
  import opened Pages
  import opened Arithmetic
  import StableSort

  datatype Write = Write(id: nat, data: Bytes)

  /** The data file, the buffered pages over it, and the buffer's flush threshold. */
  datatype Cache = Cache(g: Geometry, maxPages: nat, file: File, buf: File)

  /** What `write_buf_ensure_page` consults: slots handed out, and the tracked file size. */
  datatype Extent = Extent(bump: nat, dataSize: nat)

  ghost predicate Ok(c: Cache) {
    c.g.Ok() && 0 < c.maxPages && FileOk(c.g, c.file) && FileOk(c.g, c.buf) && |c.buf| <= c.maxPages
  }

  // ----- reading -----

  /** The page as the write buffer and the file show it. */
  function PageSeen(c: Cache, p: nat): (r: Page)
    requires FileOk(c.g, c.file) && FileOk(c.g, c.buf)
    ensures |r| == c.g.pageSize
  {
    if p in c.buf then c.buf[p] else PageOf(c.g, c.file, p)
  }

  /** An entry is read from the buffered page if there is one, else from the file. */
  function Entry(c: Cache, id: nat): (e: Bytes)
    requires Ok(c)
    ensures |e| == c.g.entrySize
  {
    EntryAt(c.g, PageSeen(c, id / c.g.epp), id % c.g.epp)
  }

  // ----- flushing -----

  /** The page side of `dimbin_flush`: buffered pages go to the file and the buffer empties. */
  function Flush(c: Cache): (r: Cache) {
    c.(file := c.file + c.buf, buf := map[])
  }

  /** A flush moves bytes and changes no read. */
  lemma FlushKeeps(c: Cache)
    requires Ok(c)
    ensures Ok(Flush(c))
    ensures forall p :: PageSeen(Flush(c), p) == PageSeen(c, p)
    ensures forall id :: Entry(Flush(c), id) == Entry(c, id)
  {
    hide EntryAt;
  }

  // ----- writing -----

  /** A page is loaded from the file only if it lies wholly below the bump pointer and starts
      inside the tracked file size; otherwise it starts as zeros. */
  predicate Reloads(g: Geometry, x: Extent, p: nat)
    requires g.epp > 0
  {
    p < x.bump / g.epp && p * g.pageSize < x.dataSize
  }

  /** `write_buf_ensure_page`: flush if the buffer is full, then load or zero the page. */
  function EnsurePage(c: Cache, x: Extent, p: nat): (r: Cache)
    requires Ok(c)
    ensures Ok(r) && p in r.buf && r.g == c.g && r.maxPages == c.maxPages
  {
    if p in c.buf then c else
      var d := if |c.buf| >= c.maxPages then Flush(c) else c;
      d.(buf := d.buf[p := if Reloads(c.g, x, p) then PageOf(c.g, d.file, p) else Zeros(c.g.pageSize)])
  }

  ghost predicate Fits(g: Geometry, ws: seq<Write>) {
    forall i :: 0 <= i < |ws| ==> |ws[i].data| == g.entrySize
  }

  /** One entry of `dimbin_put_batch`: copy it into its page. */
  function PutOne(c: Cache, x: Extent, w: Write): (r: Cache)
    requires Ok(c) && |w.data| == c.g.entrySize
    ensures Ok(r) && r.g == c.g && r.maxPages == c.maxPages
  {
    var p := w.id / c.g.epp;
    var d := EnsurePage(c, x, p);
    d.(buf := d.buf[p := SetEntry(c.g, d.buf[p], w.id % c.g.epp, w.data)])
  }

  function PutAll(c: Cache, x: Extent, ws: seq<Write>): (r: Cache)
    requires Ok(c) && Fits(c.g, ws)
    ensures Ok(r) && r.g == c.g && r.maxPages == c.maxPages
  {
    if ws == [] then c else PutOne(PutAll(c, x, ws[..|ws| - 1]), x, ws[|ws| - 1])
  }

  function PageKey(epp: nat): Write -> int
    requires epp > 0
  {
    (w: Write) => w.id / epp
  }

  /** `dimbin_put_batch` outside a checkpoint: entries are written in page order. */
  function PutSorted(c: Cache, x: Extent, ws: seq<Write>): (r: Cache)
    requires Ok(c) && Fits(c.g, ws)
    ensures Ok(r) && r.g == c.g && r.maxPages == c.maxPages
  {
    SortFits(c.g, ws);
    PutAll(c, x, StableSort.Sort(ws, PageKey(c.g.epp)))
  }

  lemma SortFits(g: Geometry, ws: seq<Write>)
    requires g.epp > 0 && Fits(g, ws)
    ensures Fits(g, StableSort.Sort(ws, PageKey(g.epp)))
  {
    StableSort.SortFacts(ws, PageKey(g.epp));
    var s := StableSort.Sort(ws, PageKey(g.epp));
    forall i | 0 <= i < |s|
      ensures |s[i].data| == g.entrySize
    {
      assert s[i] in multiset(s) && s[i] in multiset(ws);
    }
  }

  // ----- what a batch does to every entry -----

  ghost function Touched(epp: nat, ws: seq<Write>): set<nat>
    requires epp > 0
  {
    set w | w in ws :: w.id / epp
  }

  ghost predicate Names(ws: seq<Write>, id: nat) {
    exists i :: 0 <= i < |ws| && ws[i].id == id
  }

  /** The last data the batch gives for `id`. */
  ghost function LastData(ws: seq<Write>, id: nat): (d: Bytes)
    requires Names(ws, id)
  {
    if ws[|ws| - 1].id == id then ws[|ws| - 1].data else
      assert Names(ws[..|ws| - 1], id) by {
        var i :| 0 <= i < |ws| && ws[i].id == id;
        assert ws[..|ws| - 1][i].id == id;
      }
      LastData(ws[..|ws| - 1], id)
  }

  /** The touched pages `t` all fit into the buffer beside what it held. */
  ghost predicate Flushless(buf: set<nat>, t: set<nat>, most: nat) {
    |buf| + |t - buf| <= most
  }

  ghost function Below(t: set<nat>, p: nat): set<nat> {
    set q | q in t && q < p
  }

  /** The rest of page `p` survives the batch: the batch does not touch the page, or the page
      is reloaded, or it is buffered and no flush happens before the batch reaches it. */
  ghost predicate Kept(c: Cache, x: Extent, t: set<nat>, p: nat)
    requires c.g.epp > 0
  {
    || p !in t
    || Reloads(c.g, x, p)
    || (p in c.buf && Flushless(c.buf.Keys, Below(t, p), c.maxPages))
  }

  /** What entry `id` reads after the batch. */
  ghost function After(c: Cache, x: Extent, ws: seq<Write>, id: nat): Bytes
    requires Ok(c)
  {
    if Names(ws, id) then LastData(ws, id)
    else if Kept(c, x, Touched(c.g.epp, ws), id / c.g.epp) then Entry(c, id)
    else Zeros(c.g.entrySize)
  }

  lemma EnsurePageSeen(c: Cache, x: Extent, p: nat, q: nat)
    requires Ok(c)
    ensures PageSeen(EnsurePage(c, x, p), q) ==
            if q == p && p !in c.buf && !Reloads(c.g, x, p) then Zeros(c.g.pageSize) else PageSeen(c, q)
  {
  }

  lemma SameEntry(a: nat, b: nat, epp: nat)
    requires epp > 0
    ensures a / epp == b / epp && a % epp == b % epp <==> a == b
  {
    var q, r := DivMod(a, epp);
    var s, t := DivMod(b, epp);
  }

  /** One write, seen by every reader: the entry named, and the rest of its page zeroed
      exactly when the page is neither buffered nor reloaded. */
  lemma PutOneReads(c: Cache, x: Extent, w: Write, id: nat)
    requires Ok(c) && |w.data| == c.g.entrySize
    ensures Entry(PutOne(c, x, w), id) ==
            if id == w.id then w.data
            else if id / c.g.epp == w.id / c.g.epp && w.id / c.g.epp !in c.buf && !Reloads(c.g, x, w.id / c.g.epp)
              then Zeros(c.g.entrySize)
            else Entry(c, id)
  {
    hide EnsurePage, SetEntry, EntryAt, Reloads;
    var g, p, q := c.g, w.id / c.g.epp, id / c.g.epp;
    var d := EnsurePage(c, x, p);
    EnsurePageSeen(c, x, p, q);
    if q == p {
      SameEntry(w.id, id, g.epp);
      SetEntryReads(g, d.buf[p], w.id % g.epp, w.data, id % g.epp);
      ZeroEntry(g, id % g.epp);
    }
  }

  ghost predicate InPageOrder(epp: nat, ws: seq<Write>)
    requires epp > 0
  {
    forall i, j :: 0 <= i < j < |ws| ==> ws[i].id / epp <= ws[j].id / epp
  }

  /** The buffer's pages `now`, after the pages `t` were touched. */
  ghost predicate Buffered(buf: set<nat>, t: set<nat>, most: nat, now: set<nat>) {
    if Flushless(buf, t, most) then now == buf + t else now <= t
  }

  /** How far a batch in page order has got: what is buffered, and whether it has flushed. */
  ghost predicate Progress(c: Cache, ws: seq<Write>, r: Cache)
    requires c.g.epp > 0
  {
    var t := Touched(c.g.epp, ws);
    && (ws != [] ==> ws[|ws| - 1].id / c.g.epp in r.buf)
    && Buffered(c.buf.Keys, t, c.maxPages, r.buf.Keys)
    && FileKept(c, t, r.file)
  }

  ghost predicate FileKept(c: Cache, t: set<nat>, file: File) {
    Flushless(c.buf.Keys, t, c.maxPages) ==> file == c.file
  }

  lemma TouchedMore(epp: nat, s: seq<Write>, w: Write)
    requires epp > 0
    ensures Touched(epp, s + [w]) == Touched(epp, s) + {w.id / epp}
  {
    var ws := s + [w];
    assert forall v :: v in ws <==> v in s || v == w;
    forall p | p in Touched(epp, s)
      ensures p in Touched(epp, ws)
    {
      var v :| v in s && v.id / epp == p;
      assert v in ws;
    }
    assert w in ws;
  }

  /** In page order, a page already touched is the page touched last. */
  lemma LastPage(epp: nat, s: seq<Write>, w: Write)
    requires epp > 0 && InPageOrder(epp, s + [w])
    ensures InPageOrder(epp, s)
    ensures forall q :: q in Touched(epp, s) ==> q <= w.id / epp && s != [] && q <= s[|s| - 1].id / epp <= w.id / epp
  {
    var ws := s + [w];
    assert forall i :: 0 <= i < |s| ==> ws[i] == s[i];
    assert ws[|s|] == w;
    forall q | q in Touched(epp, s)
      ensures q <= w.id / epp && s != [] && q <= s[|s| - 1].id / epp <= w.id / epp
    {
      var v :| v in s && v.id / epp == q;
      var i :| 0 <= i < |s| && s[i] == v;
      assert ws[i] == v && ws[|s| - 1] == s[|s| - 1];
    }
  }

  lemma PutAllMore(c: Cache, x: Extent, s: seq<Write>, w: Write)
    requires Ok(c) && Fits(c.g, s) && |w.data| == c.g.entrySize
    ensures Fits(c.g, s + [w]) && PutAll(c, x, s + [w]) == PutOne(PutAll(c, x, s), x, w)
  {
    assert (s + [w])[..|s|] == s;
  }

  /** What one write does to the buffer's page set. */
  lemma PutOneBuffers(c: Cache, x: Extent, w: Write, p: nat)
    requires Ok(c) && |w.data| == c.g.entrySize && p == w.id / c.g.epp
    ensures PutOne(c, x, w).buf.Keys == (if p in c.buf || |c.buf| < c.maxPages then c.buf.Keys else {}) + {p}
    ensures PutOne(c, x, w).file == if p in c.buf || |c.buf| < c.maxPages then c.file else c.file + c.buf
  {
    hide SetEntry, Reloads, FileOk;
  }

  /** Counting the pages brought in when a new page is touched. */
  lemma MissingMore(buf: set<nat>, t: set<nat>, p: nat)
    requires p !in t
    ensures |buf + t| == |buf| + |t - buf|
    ensures |t + {p} - buf| == |t - buf| + if p in buf then 0 else 1
  {
    assert buf + t == buf + (t - buf);
    if p in buf {
      assert t + {p} - buf == t - buf;
    } else {
      assert t + {p} - buf == t - buf + {p};
    }
  }

  /** Touching a new page: the buffer grows, or is full and is flushed. */
  lemma NewPage(buf: set<nat>, t: set<nat>, p: nat, now: set<nat>, most: nat)
    requires p !in t && |now| <= most && |buf| <= most && Buffered(buf, t, most, now)
    ensures Buffered(buf, t + {p}, most, (if p in now || |now| < most then now else {}) + {p})
    ensures Flushless(buf, t + {p}, most) ==> Flushless(buf, t, most) && (p in now || |now| < most)
  {
    MissingMore(buf, t, p);
  }

  lemma ProgressMore(c: Cache, x: Extent, s: seq<Write>, w: Write, d: Cache)
    requires Ok(c) && Ok(d) && |w.data| == c.g.entrySize && d.g == c.g && d.maxPages == c.maxPages
    requires InPageOrder(c.g.epp, s + [w]) && Progress(c, s, d)
    ensures Progress(c, s + [w], PutOne(d, x, w))
  {
    hide PutOne, Touched, InPageOrder, FileOk, Buffered, Flushless;
    var p, t := w.id / c.g.epp, Touched(c.g.epp, s);
    TouchedMore(c.g.epp, s, w);
    LastPage(c.g.epp, s, w);
    PutOneBuffers(d, x, w, p);
    var r := PutOne(d, x, w);
    assert Buffered(c.buf.Keys, t + {p}, c.maxPages, r.buf.Keys) && FileKept(c, t + {p}, r.file) by {
      if p in t {
        assert p == s[|s| - 1].id / c.g.epp;
        assert p in d.buf;
        assert t + {p} == t && d.buf.Keys + {p} == d.buf.Keys;
      } else {
        NewPage(c.buf.Keys, t, p, d.buf.Keys, c.maxPages);
      }
    }
    assert (s + [w])[|s + [w]| - 1] == w && p in r.buf.Keys;
  }

  lemma {:induction false} PutAllProgress(c: Cache, x: Extent, ws: seq<Write>)
    requires Ok(c) && Fits(c.g, ws) && InPageOrder(c.g.epp, ws)
    ensures Progress(c, ws, PutAll(c, x, ws))
    decreases |ws|
  {
    if ws == [] {
      assert Touched(c.g.epp, ws) - c.buf.Keys == {};
    } else {
      var s, w := ws[..|ws| - 1], ws[|ws| - 1];
      assert ws == s + [w];
      LastPage(c.g.epp, s, w);
      PutAllProgress(c, x, s);
      PutAllMore(c, x, s, w);
      ProgressMore(c, x, s, w, PutAll(c, x, s));
    }
  }

  /** Touching page `p` last: which pages' remaining entries survive. */
  lemma KeptMore(c: Cache, x: Extent, t: set<nat>, p: nat, q: nat, now: set<nat>)
    requires c.g.epp > 0 && Buffered(c.buf.Keys, t, c.maxPages, now)
    requires (forall r :: r in t ==> r <= p) && (p in t ==> p in now)
    ensures Kept(c, x, t + {p}, q) <==>
              Kept(c, x, t, q) && !(q == p && p !in now && !Reloads(c.g, x, p))
  {
    hide Reloads;
    if q in t {
      assert Below(t + {p}, q) == Below(t, q);
    } else if q == p {
      assert Below(t + {p}, p) == t;
    }
  }

  lemma LastDataMore(s: seq<Write>, w: Write, id: nat)
    ensures Names(s + [w], id) <==> id == w.id || Names(s, id)
    ensures id == w.id ==> LastData(s + [w], id) == w.data
    ensures id != w.id && Names(s, id) ==> LastData(s + [w], id) == LastData(s, id)
  {
    var ws := s + [w];
    assert ws[|s|] == w && ws[..|s|] == s;
    assert forall i :: 0 <= i < |s| ==> ws[i] == s[i];
  }

  lemma NamedPage(epp: nat, ws: seq<Write>, id: nat)
    requires epp > 0
    ensures Names(ws, id) ==> id / epp in Touched(epp, ws)
  {
    if Names(ws, id) {
      var i :| 0 <= i < |ws| && ws[i].id == id;
      assert ws[i] in ws;
    }
  }

  lemma ReadsMore(c: Cache, x: Extent, s: seq<Write>, w: Write, d: Cache, id: nat)
    requires Ok(c) && Ok(d) && |w.data| == c.g.entrySize && d.g == c.g && d.maxPages == c.maxPages
    requires InPageOrder(c.g.epp, s + [w]) && Progress(c, s, d)
    requires Entry(d, id) == After(c, x, s, id)
    ensures Entry(PutOne(d, x, w), id) == After(c, x, s + [w], id)
  {
    hide PutOne, Entry, Touched, InPageOrder, Kept, Reloads, Buffered;
    var p, q, t := w.id / c.g.epp, id / c.g.epp, Touched(c.g.epp, s);
    TouchedMore(c.g.epp, s, w);
    LastPage(c.g.epp, s, w);
    LastDataMore(s, w, id);
    NamedPage(c.g.epp, s, id);
    if p in t {
      assert p == s[|s| - 1].id / c.g.epp;
    }
    KeptMore(c, x, t, p, q, d.buf.Keys);
    PutOneReads(d, x, w, id);
  }

  lemma {:induction false} PutAllReads(c: Cache, x: Extent, ws: seq<Write>, id: nat)
    requires Ok(c) && Fits(c.g, ws) && InPageOrder(c.g.epp, ws)
    ensures Entry(PutAll(c, x, ws), id) == After(c, x, ws, id)
    decreases |ws|
  {
    if ws != [] {
      var s, w := ws[..|ws| - 1], ws[|ws| - 1];
      assert ws == s + [w];
      LastPage(c.g.epp, s, w);
      PutAllReads(c, x, s, id);
      PutAllProgress(c, x, s);
      PutAllMore(c, x, s, w);
      ReadsMore(c, x, s, w, PutAll(c, x, s), id);
    }
  }

  // ----- sorting by page loses nothing -----

  /** The last data for an entry is decided among the writes to its page. */
  lemma {:induction false} LastDataInPage(ws: seq<Write>, epp: nat, id: nat)
    requires epp > 0
    ensures var mine := StableSort.WithKey(ws, PageKey(epp), id / epp);
            && (Names(ws, id) <==> Names(mine, id))
            && (Names(ws, id) ==> LastData(ws, id) == LastData(mine, id))
    decreases |ws|
  {
    hide LastData, Names;
    if ws == [] {
      assert StableSort.WithKey(ws, PageKey(epp), id / epp) == ws;
    } else {
      var s, w := ws[..|ws| - 1], ws[|ws| - 1];
      assert ws == s + [w];
      LastDataInPage(s, epp, id);
      LastDataMore(s, w, id);
      var before := StableSort.WithKey(s, PageKey(epp), id / epp);
      LastDataMore(before, w, id);
      assert StableSort.WithKey(ws, PageKey(epp), id / epp) ==
             if w.id / epp == id / epp then before + [w] else before;
    }
  }

  /** Sorting by page keeps the last write to every entry: the sort is stable. */
  lemma SortKeepsLast(ws: seq<Write>, epp: nat, id: nat)
    requires epp > 0
    ensures var s := StableSort.Sort(ws, PageKey(epp));
            && (Names(s, id) <==> Names(ws, id))
            && (Names(ws, id) ==> LastData(s, id) == LastData(ws, id))
            && Touched(epp, s) == Touched(epp, ws)
  {
    var s := StableSort.Sort(ws, PageKey(epp));
    StableSort.SortStable(ws, PageKey(epp), id / epp);
    LastDataInPage(ws, epp, id);
    LastDataInPage(s, epp, id);
    StableSort.SortFacts(ws, PageKey(epp));
    assert forall w :: w in s <==> w in multiset(s);
    assert forall w :: w in ws <==> w in multiset(ws);
  }

  lemma SortInPageOrder(ws: seq<Write>, epp: nat)
    requires epp > 0
    ensures InPageOrder(epp, StableSort.Sort(ws, PageKey(epp)))
  {
    StableSort.SortFacts(ws, PageKey(epp));
  }

  /** The exact effect of a batch: every named entry reads back the last data given for it;
      every other entry is unchanged if its page is kept, and reads as zeros if not. */
  lemma PutSortedReads(c: Cache, x: Extent, ws: seq<Write>, id: nat)
    requires Ok(c) && Fits(c.g, ws)
    ensures Entry(PutSorted(c, x, ws), id) == After(c, x, ws, id)
  {
    SortInPageOrder(ws, c.g.epp);
    SortKeepsLast(ws, c.g.epp, id);
    SortFits(c.g, ws);
    PutAllReads(c, x, StableSort.Sort(ws, PageKey(c.g.epp)), id);
  }

  lemma PutSortedProgress(c: Cache, x: Extent, ws: seq<Write>)
    requires Ok(c) && Fits(c.g, ws)
    ensures var t, r := Touched(c.g.epp, ws), PutSorted(c, x, ws);
            Buffered(c.buf.Keys, t, c.maxPages, r.buf.Keys) && FileKept(c, t, r.file)
  {
    var s := StableSort.Sort(ws, PageKey(c.g.epp));
    SortInPageOrder(ws, c.g.epp);
    SortKeepsLast(ws, c.g.epp, 0);
    SortFits(c.g, ws);
    PutAllProgress(c, x, s);
  }

  // ----- writing page by page -----

  ghost predicate OnPage(epp: nat, ws: seq<Write>, p: nat)
    requires epp > 0
  {
    forall i :: 0 <= i < |ws| ==> ws[i].id / epp == p
  }

  /** The copy loop of `dimbin_put_batch`: all entries of a batch that share a page. */
  function FillPage(g: Geometry, page: Page, ws: seq<Write>): (r: Page)
    requires g.Ok() && |page| == g.pageSize && Fits(g, ws)
    ensures |r| == g.pageSize
  {
    if ws == [] then page
    else SetEntry(g, FillPage(g, page, ws[..|ws| - 1]), ws[|ws| - 1].id % g.epp, ws[|ws| - 1].data)
  }

  lemma {:induction false} PutAllConcat(c: Cache, x: Extent, a: seq<Write>, b: seq<Write>)
    requires Ok(c) && Fits(c.g, a) && Fits(c.g, b)
    ensures Fits(c.g, a + b) && PutAll(c, x, a + b) == PutAll(PutAll(c, x, a), x, b)
    decreases |b|
  {
    if b == [] {
      assert a + b == a;
    } else {
      var s, w := b[..|b| - 1], b[|b| - 1];
      assert b == s + [w] && a + b == (a + s) + [w];
      PutAllConcat(c, x, a, s);
      PutAllMore(c, x, a + s, w);
      PutAllMore(PutAll(c, x, a), x, s, w);
    }
  }

  lemma PutOneBuffered(c: Cache, x: Extent, p: nat, w: Write)
    requires Ok(c) && |w.data| == c.g.entrySize && w.id / c.g.epp == p && p in c.buf
    ensures PutOne(c, x, w) == c.(buf := c.buf[p := SetEntry(c.g, c.buf[p], w.id % c.g.epp, w.data)])
  {
    hide SetEntry;
  }

  lemma {:induction false} PutAllBuffered(c: Cache, x: Extent, p: nat, ws: seq<Write>)
    requires Ok(c) && Fits(c.g, ws) && OnPage(c.g.epp, ws, p) && p in c.buf
    ensures PutAll(c, x, ws) == c.(buf := c.buf[p := FillPage(c.g, c.buf[p], ws)])
    decreases |ws|
  {
    hide SetEntry, PutOne, FileOk;
    if ws == [] {
      assert c.buf[p := c.buf[p]] == c.buf;
    } else {
      var s, w := ws[..|ws| - 1], ws[|ws| - 1];
      PutAllBuffered(c, x, p, s);
      PutOneBuffered(PutAll(c, x, s), x, p, w);
    }
  }

  /** Loading the page once and copying every entry is the same as writing them one by one. */
  lemma GroupWrites(c: Cache, x: Extent, p: nat, ws: seq<Write>)
    requires Ok(c) && Fits(c.g, ws) && OnPage(c.g.epp, ws, p) && ws != []
    ensures var d := EnsurePage(c, x, p);
            PutAll(c, x, ws) == d.(buf := d.buf[p := FillPage(c.g, d.buf[p], ws)])
  {
    hide SetEntry, EnsurePage, FileOk;
    var d := EnsurePage(c, x, p);
    PutAllBuffered(d, x, p, ws);
    assert ws == [ws[0]] + ws[1..];
    PutAllConcat(c, x, [ws[0]], ws[1..]);
    PutAllConcat(d, x, [ws[0]], ws[1..]);
    FirstWrite(c, x, p, ws[0]);
  }

  lemma FirstWrite(c: Cache, x: Extent, p: nat, w: Write)
    requires Ok(c) && |w.data| == c.g.entrySize && w.id / c.g.epp == p
    ensures PutAll(c, x, [w]) == PutAll(EnsurePage(c, x, p), x, [w])
  {
    assert [w][..0] == [];
    assert EnsurePage(EnsurePage(c, x, p), x, p) == EnsurePage(c, x, p);
  }
}
