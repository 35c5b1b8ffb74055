/** The batched read: resolve against memory, sort what is left by bin and page, read each page
    once, and scatter the entries to the requests. */
module BatchGets {
  import opened Pages
  import opened PageCaches
  import opened Bins
  import opened Stores
  import opened Arithmetic
  import HashIndexes
  import StableSort

  /** A request: a feature, and whether the caller gave a buffer for its embedding. */
  datatype Ask = Ask(feature: nat, wanted: bool)

  /** A request that must go to disk. */
  datatype Miss = Miss(req: nat, bin: nat, entry: nat)

  /** What a single read of the feature would give. */
  function Answer(db: DB, a: Ask): (r: Option<Bytes>)
    requires Inv(db)
  {
    if a.wanted && a.feature in db.index then
      BinOf(db, a.feature);
      Some(Read(db.bins[db.index[a.feature].dimIdx], db.index[a.feature].entryIdx))
    else None
  }

  lemma BinOf(db: DB, f: nat)
    requires Inv(db) && f in db.index
    ensures db.index[f].dimIdx < |db.bins| == |db.dims| && BinOk(db.bins[db.index[f].dimIdx])
  {
  }

  /** Entry numbers are 32 bits wide. */
  ghost predicate Readable(db: DB) {
    Inv(db) && forall f :: f in db.index ==> db.index[f].entryIdx < U32
  }

  /** The request must go to the file: neither the overlay nor the write buffer has the entry. */
  ghost predicate OnDisk(db: DB, a: Ask)
    requires Inv(db)
  {
    && a.wanted && a.feature in db.index
    && (BinOf(db, a.feature);
        InFile(db.bins[db.index[a.feature].dimIdx], db.index[a.feature].entryIdx))
  }

  ghost predicate InFile(b: Bin, e: nat)
    requires BinOk(b)
  {
    !(b.inCkpt && e in b.overlay) && e / b.cache.g.epp !in b.cache.buf
  }

  /** No other request wants the same feature. */
  ghost predicate Alone(asks: seq<Ask>, i: nat)
    requires i < |asks|
  {
    forall j :: 0 <= j < |asks| && j != i ==> !(asks[j].wanted && asks[j].feature == asks[i].feature)
  }

  /** The request is read straight into its buffer: its page holds one entry, which it alone asks for. */
  ghost predicate Direct(db: DB, asks: seq<Ask>, i: nat)
    requires Inv(db) && i < |asks|
  {
    && OnDisk(db, asks[i]) && Alone(asks, i)
    && (BinOf(db, asks[i].feature); db.bins[db.index[asks[i].feature].dimIdx].cache.g.epp == 1)
  }

  /** What request `i` gets: what a single read gives, except that a direct read takes the bytes at the
      linear offset of the entry. */
  ghost function Delivered(db: DB, asks: seq<Ask>, i: nat): Option<Bytes>
    requires Inv(db) && i < |asks|
  {
    if Direct(db, asks, i) then
      BinOf(db, asks[i].feature);
      var b := db.bins[db.index[asks[i].feature].dimIdx];
      Some(LinearRead(b.cache.g, b.cache.file, db.index[asks[i].feature].entryIdx))
    else Answer(db, asks[i])
  }

  /** The feature's pages hold their entry and nothing else. */
  ghost predicate Snug(db: DB, f: nat)
    requires Inv(db) && f in db.index
  {
    BinOf(db, f);
    db.bins[db.index[f].dimIdx].cache.g.pageSize == db.bins[db.index[f].dimIdx].cache.g.entrySize
  }

  /** The two are the same for every request, unless a page holds a single entry and slack. */
  lemma DeliveredIsAnswer(db: DB, asks: seq<Ask>, i: nat)
    requires Inv(db) && i < |asks|
    requires Direct(db, asks, i) ==> Snug(db, asks[i].feature)
    ensures Delivered(db, asks, i) == Answer(db, asks[i])
  {
    hide Owned, BinOk, LinearRead, PagedRead, EntryAt;
    if Direct(db, asks, i) {
      BinOf(db, asks[i].feature);
      var b, e := db.bins[db.index[asks[i].feature].dimIdx], db.index[asks[i].feature].entryIdx;
      BinCache(b);
      LinearIsPaged(b.cache.g, b.cache.file, e);
      FileAnswers(b, e);
    }
  }

  lemma FileAnswers(b: Bin, e: nat)
    requires BinOk(b) && InFile(b, e)
    ensures Read(b, e) == PagedRead(b.cache.g, b.cache.file, e)
  {
  }

  /** The miss belongs to its request, which must go to the file. */
  ghost predicate MissOk(db: DB, asks: seq<Ask>, m: Miss)
    requires Inv(db)
  {
    && m.req < |asks| && m.bin < |db.bins| && m.entry < U32 && BinOk(db.bins[m.bin])
    && OnDisk(db, asks[m.req]) && db.index[asks[m.req].feature] == HashIndexes.Place(m.bin, m.entry)
  }

  ghost predicate MissesOk(db: DB, asks: seq<Ask>, ms: seq<Miss>)
    requires Inv(db)
  {
    forall i :: 0 <= i < |ms| ==> MissOk(db, asks, ms[i])
  }

  ghost predicate Pending(ms: seq<Miss>, i: nat) {
    exists k :: 0 <= k < |ms| && ms[k].req == i
  }

  /** Every request not pending has its answer. */
  ghost predicate Answered(db: DB, asks: seq<Ask>, out: seq<Option<Bytes>>, ms: seq<Miss>)
    requires Inv(db)
  {
    |out| == |asks| && forall i :: 0 <= i < |asks| && !Pending(ms, i) ==> out[i] == Delivered(db, asks, i)
  }

  /** Every request that must go to the file has its miss, once. */
  ghost predicate AllMissed(db: DB, asks: seq<Ask>, ms: seq<Miss>)
    requires Inv(db)
  {
    && (forall i :: 0 <= i < |asks| && OnDisk(db, asks[i]) ==> Pending(ms, i))
    && forall m :: multiset(ms)[m] <= 1
  }

  /** One request of the first phase: index, overlay, write buffer, or a miss. */
  method Resolve(db: DB, a: Ask, i: nat) returns (hit: Option<Bytes>, miss: Option<Miss>, dim: nat)
    requires Readable(db)
    ensures dim == if a.feature in db.index then
                     BinOf(db, a.feature);
                     db.dims[db.index[a.feature].dimIdx] else 0
    ensures miss.None? ==> hit == Answer(db, a) && !OnDisk(db, a)
    ensures miss.Some? ==> miss.value.req == i && (forall asks: seq<Ask> :: i < |asks| && asks[i] == a ==> MissOk(db, asks, miss.value))
  {
    hide Inv, BinOk;
    hit, miss, dim := None, None, 0;
    if a.feature in db.index {
      BinOf(db, a.feature);
      var place := db.index[a.feature];
      var b := db.bins[place.dimIdx];
      dim := db.dims[place.dimIdx];
      if a.wanted {
        hit, miss := Look(b, place, i);
      }
    }
  }

  /** The overlay during a checkpoint, then the write buffer, else the file. */
  method Look(b: Bin, place: Place, i: nat) returns (hit: Option<Bytes>, miss: Option<Miss>)
    requires BinOk(b)
    ensures miss.None? ==> hit == Some(Read(b, place.entryIdx)) && !InFile(b, place.entryIdx)
    ensures miss.Some? ==> miss.value == Miss(i, place.dimIdx, place.entryIdx) && InFile(b, place.entryIdx)
  {
    hit, miss := None, None;
    var g, e := b.cache.g, place.entryIdx;
    if b.inCkpt && e in b.overlay {
      hit := Some(b.overlay[e]);
    } else if e / g.epp in b.cache.buf {
      hit := Some(EntryAt(g, b.cache.buf[e / g.epp], e % g.epp));
    } else {
      miss := Some(Miss(i, place.dimIdx, e));
    }
  }

  /** Phase 1. */
  method ResolveAll(db: DB, asks: seq<Ask>) returns (out: seq<Option<Bytes>>, dims: seq<nat>, ms: seq<Miss>)
    requires Readable(db)
    ensures Answered(db, asks, out, ms) && MissesOk(db, asks, ms) && AllMissed(db, asks, ms) && |dims| == |asks|
    ensures forall i :: 0 <= i < |asks| ==>
              dims[i] == if asks[i].feature in db.index then
                           BinOf(db, asks[i].feature);
                           db.dims[db.index[asks[i].feature].dimIdx] else 0
  {
    hide Inv, Answer, MissOk, OnDisk;
    out, dims, ms := [], [], [];
    for i := 0 to |asks|
      invariant |out| == |dims| == i && MissesOk(db, asks, ms)
      invariant forall j :: 0 <= j < i && !Pending(ms, j) ==> out[j] == Delivered(db, asks, j)
      invariant forall j :: 0 <= j < i && OnDisk(db, asks[j]) ==> Pending(ms, j)
      invariant forall m :: multiset(ms)[m] <= 1
      invariant forall k :: 0 <= k < |ms| ==> ms[k].req < i
      invariant forall j :: 0 <= j < i ==>
                  dims[j] == if asks[j].feature in db.index then
                               BinOf(db, asks[j].feature);
                               db.dims[db.index[asks[j].feature].dimIdx] else 0
    {
      var hit, miss, dim := Resolve(db, asks[i], i);
      ghost var was := ms;
      if miss.Some? {
        NewMiss(ms, miss.value);
        ms := ms + [miss.value];
        assert ms[|was|].req == i;
      }
      forall j | 0 <= j < i && Pending(was, j)
        ensures Pending(ms, j)
      {
        var k :| 0 <= k < |was| && was[k].req == j;
        assert ms[k].req == j;
      }
      forall j | 0 <= j < i && !Pending(ms, j)
        ensures !Pending(was, j)
      {
        assert forall k :: 0 <= k < |was| ==> ms[k] == was[k];
      }
      out, dims := out + [hit], dims + [dim];
    }
  }

  lemma NewMiss(ms: seq<Miss>, x: Miss)
    requires (forall k :: 0 <= k < |ms| ==> ms[k].req < x.req) && forall m :: multiset(ms)[m] <= 1
    ensures forall m :: multiset(ms + [x])[m] <= 1
  {
    assert x !in ms;
    assert multiset(ms + [x]) == multiset(ms) + multiset{x};
  }

  /** Misses are ordered by bin, then by page. */
  function MissKey(db: DB): Miss -> int {
    (m: Miss) => if m.bin < |db.bins| && db.bins[m.bin].cache.g.epp > 0
                 then m.bin * U32 + m.entry / db.bins[m.bin].cache.g.epp else 0
  }

  /** Phase 2. */
  method SortMisses(db: DB, asks: seq<Ask>, ms: seq<Miss>) returns (r: seq<Miss>)
    requires Inv(db) && MissesOk(db, asks, ms) && AllMissed(db, asks, ms)
    ensures MissesOk(db, asks, r) && AllMissed(db, asks, r) && StableSort.Ascending(r, MissKey(db))
    ensures forall i :: Pending(r, i) <==> Pending(ms, i)
  {
    hide Inv, MissOk, OnDisk;
    var a := new Miss[|ms|](i requires 0 <= i < |ms| => ms[i]);
    assert a[..] == ms;
    StableSort.InsertionSort(a, MissKey(db));
    r := a[..];
    StableSort.SortFacts(ms, MissKey(db));
    SameMisses(ms, r);
    forall i | 0 <= i < |r|
      ensures MissOk(db, asks, r[i])
    {
      assert r[i] in r && r[i] in ms;
    }
  }

  lemma SameMisses(a: seq<Miss>, b: seq<Miss>)
    requires multiset(a) == multiset(b)
    ensures forall m :: m in a <==> m in b
    ensures forall i :: Pending(a, i) <==> Pending(b, i)
  {
    assert forall m :: m in a <==> m in multiset(a);
    assert forall m :: m in b <==> m in multiset(b);
    forall i: nat
      ensures Pending(a, i) <==> Pending(b, i)
    {
      if Pending(a, i) {
        var k :| 0 <= k < |a| && a[k].req == i;
        assert a[k] in b;
      }
      if Pending(b, i) {
        var k :| 0 <= k < |b| && b[k].req == i;
        assert b[k] in a;
      }
    }
  }

  /** A page to read, and the misses it serves: `count` of them from `first` on. */
  datatype PageRead = PageRead(bin: nat, page: nat, first: nat, count: nat)

  function Served(ps: seq<PageRead>): nat {
    if ps == [] then 0 else ps[|ps| - 1].first + ps[|ps| - 1].count
  }

  /** The page reads tile the misses, each holding exactly the misses of its own page. */
  ghost predicate Groups(db: DB, ps: seq<PageRead>, ms: seq<Miss>, n: nat) {
    && n <= |ms| && Served(ps) == n
    && forall p :: 0 <= p < |ps| ==> ps[p].first == Served(ps[..p]) && Serves(db, ps[p], ms)
  }

  ghost predicate Serves(db: DB, p: PageRead, ms: seq<Miss>) {
    && p.count > 0 && p.first + p.count <= |ms| && p.bin < |db.bins| && db.bins[p.bin].cache.g.epp > 0
    && forall i :: 0 <= i < |ms| && ms[i].bin < |db.bins| && db.bins[ms[i].bin].cache.g.epp > 0 ==>
         (p.first <= i < p.first + p.count <==>
          ms[i].bin == p.bin && ms[i].entry / db.bins[ms[i].bin].cache.g.epp == p.page)
  }

  /** Each page is read once: the reads are in strictly ascending order of bin and page. */
  ghost predicate ReadOnce(ps: seq<PageRead>) {
    forall p, q :: 0 <= p < q < |ps| ==> ps[p].bin * U32 + ps[p].page < ps[q].bin * U32 + ps[q].page
  }

  ghost predicate Located(db: DB, m: Miss) {
    m.bin < |db.bins| && db.bins[m.bin].cache.g.epp > 0 && m.entry < U32
  }

  ghost predicate AllLocated(db: DB, ms: seq<Miss>) {
    forall i :: 0 <= i < |ms| ==> Located(db, ms[i])
  }

  function PageNo(db: DB, m: Miss): nat
    requires Located(db, m)
  {
    m.entry / db.bins[m.bin].cache.g.epp
  }

  lemma KeyOrder(db: DB, a: Miss, b: Miss)
    requires Located(db, a) && Located(db, b) && MissKey(db)(a) <= MissKey(db)(b)
    ensures MissKey(db)(a) == a.bin * U32 + PageNo(db, a) && MissKey(db)(b) == b.bin * U32 + PageNo(db, b)
    ensures (a.bin == b.bin && PageNo(db, a) == PageNo(db, b)) || MissKey(db)(a) < MissKey(db)(b)
  {
    DivBound(a.entry, db.bins[a.bin].cache.g.epp);
    DivBound(b.entry, db.bins[b.bin].cache.g.epp);
  }

  lemma DivBound(n: nat, k: nat)
    requires k > 0
    ensures n / k <= n
  {
    var q, r := DivMod(n, k);
    MulMono(1, k, q);
  }

  /** Where the run of misses on the page of miss `i` ends. */
  method PageEnd(db: DB, ms: seq<Miss>, i: nat) returns (j: nat)
    requires i < |ms| && AllLocated(db, ms)
    ensures i < j <= |ms|
    ensures forall k :: i <= k < j ==> ms[k].bin == ms[i].bin && PageNo(db, ms[k]) == PageNo(db, ms[i])
    ensures j < |ms| ==> ms[j].bin != ms[i].bin || PageNo(db, ms[j]) != PageNo(db, ms[i])
  {
    var bin, epp := ms[i].bin, db.bins[ms[i].bin].cache.g.epp;
    var page := ms[i].entry / epp;
    j := i + 1;
    while j < |ms| && ms[j].bin == bin && ms[j].entry / epp == page
      invariant i < j <= |ms| && forall k :: i <= k < j ==> ms[k].bin == bin && ms[k].entry / epp == page
    {
      j := j + 1;
    }
  }

  /** Every page read so far comes before the page of miss `i`. */
  ghost predicate AllBefore(db: DB, ps: seq<PageRead>, ms: seq<Miss>, i: nat) {
    i < |ms| ==> forall p :: 0 <= p < |ps| ==> ps[p].bin * U32 + ps[p].page < MissKey(db)(ms[i])
  }

  /** In key order the misses of a page are together. */
  lemma ServesAll(db: DB, ms: seq<Miss>, i: nat, j: nat)
    requires AllLocated(db, ms) && StableSort.Ascending(ms, MissKey(db)) && i < j <= |ms|
    requires forall k :: i <= k < j ==> ms[k].bin == ms[i].bin && PageNo(db, ms[k]) == PageNo(db, ms[i])
    requires j < |ms| ==> ms[j].bin != ms[i].bin || PageNo(db, ms[j]) != PageNo(db, ms[i])
    requires i > 0 ==> ms[i - 1].bin != ms[i].bin || PageNo(db, ms[i - 1]) != PageNo(db, ms[i])
    ensures Serves(db, PageRead(ms[i].bin, PageNo(db, ms[i]), i, j - i), ms)
  {
    hide MissKey;
    forall k | 0 <= k < |ms| && !(i <= k < j)
      ensures !(ms[k].bin == ms[i].bin && PageNo(db, ms[k]) == PageNo(db, ms[i]))
    {
      if k < i {
        KeysApart(db, ms, k, i - 1, i);
      } else {
        KeysApart(db, ms, i, j, k);
      }
    }
    assert Located(db, ms[i]);
  }

  /** A page change between neighbours separates all that is before from all that is after. */
  lemma KeysApart(db: DB, ms: seq<Miss>, a: nat, b: nat, c: nat)
    requires AllLocated(db, ms) && StableSort.Ascending(ms, MissKey(db)) && a <= b <= c < |ms|
    requires (b + 1 == c && (ms[b].bin != ms[c].bin || PageNo(db, ms[b]) != PageNo(db, ms[c])))
             || (a < b && (ms[a].bin != ms[b].bin || PageNo(db, ms[a]) != PageNo(db, ms[b])))
    ensures ms[a].bin != ms[c].bin || PageNo(db, ms[a]) != PageNo(db, ms[c])
  {
    hide MissKey, PageNo;
    KeyOrder(db, ms[a], ms[b]);
    KeyOrder(db, ms[b], ms[c]);
    KeyOrder(db, ms[a], ms[c]);
  }

  lemma OnceMore(db: DB, ps: seq<PageRead>, ms: seq<Miss>, i: nat, j: nat)
    requires AllLocated(db, ms) && StableSort.Ascending(ms, MissKey(db)) && i < j <= |ms|
    requires ReadOnce(ps) && AllBefore(db, ps, ms, i)
    requires j < |ms| ==> ms[j].bin != ms[i].bin || PageNo(db, ms[j]) != PageNo(db, ms[i])
    ensures var next := ps + [PageRead(ms[i].bin, PageNo(db, ms[i]), i, j - i)];
            ReadOnce(next) && AllBefore(db, next, ms, j)
  {
    hide MissKey, PageNo;
    KeyOrder(db, ms[i], ms[i]);
    if j < |ms| {
      KeyOrder(db, ms[i], ms[j]);
    }
  }

  /** Phase 3: one page read per run of misses on the same page. */
  method GroupMisses(db: DB, ms: seq<Miss>) returns (ps: seq<PageRead>)
    requires AllLocated(db, ms) && StableSort.Ascending(ms, MissKey(db))
    ensures Groups(db, ps, ms, |ms|) && ReadOnce(ps)
  {
    hide Serves, ReadOnce, AllBefore, MissKey;
    ps := [];
    NoneRead(db, ms);
    var i := 0;
    while i < |ms|
      invariant 0 <= i <= |ms| && Groups(db, ps, ms, i) && ReadOnce(ps) && AllBefore(db, ps, ms, i)
      invariant 0 < i < |ms| ==> ms[i - 1].bin != ms[i].bin || PageNo(db, ms[i - 1]) != PageNo(db, ms[i])
    {
      var j := PageEnd(db, ms, i);
      var read := PageRead(ms[i].bin, ms[i].entry / db.bins[ms[i].bin].cache.g.epp, i, j - i);
      ServesAll(db, ms, i, j);
      GroupMore(db, ps, ms, i, read);
      OnceMore(db, ps, ms, i, j);
      ps := ps + [read];
      i := j;
    }
  }

  lemma NoneRead(db: DB, ms: seq<Miss>)
    ensures ReadOnce([]) && AllBefore(db, [], ms, 0)
  {
  }

  lemma GroupMore(db: DB, ps: seq<PageRead>, ms: seq<Miss>, i: nat, p: PageRead)
    requires Groups(db, ps, ms, i) && p.first == i && Serves(db, p, ms)
    ensures Groups(db, ps + [p], ms, i + p.count)
  {
    var next := ps + [p];
    forall q | 0 <= q < |next|
      ensures next[q].first == Served(next[..q]) && Serves(db, next[q], ms)
    {
      assert next[..q] == ps[..q];
      if q == |ps| {
        assert ps[..q] == ps;
      }
    }
  }

  lemma InGroup(db: DB, asks: seq<Ask>, ms: seq<Miss>, p: PageRead, k: nat)
    requires Inv(db) && MissesOk(db, asks, ms) && Serves(db, p, ms) && k < |ms|
    ensures MissOk(db, asks, ms[k]) && asks[ms[k].req].wanted && asks[ms[k].req].feature in db.index
    ensures db.bins[ms[k].bin].cache.g.epp > 0
    ensures p.first <= k < p.first + p.count <==>
            ms[k].bin == p.bin && ms[k].entry / db.bins[ms[k].bin].cache.g.epp == p.page
  {
    hide Inv, InFile;
    assert MissOk(db, asks, ms[k]);
  }

  /** A request is direct exactly when its page holds one entry and the page read serves one miss. */
  lemma DirectIff(db: DB, asks: seq<Ask>, ms: seq<Miss>, p: PageRead, k: nat)
    requires Readable(db) && MissesOk(db, asks, ms) && AllMissed(db, asks, ms) && Serves(db, p, ms)
    requires p.first <= k < p.first + p.count
    ensures ms[k].req < |asks|
    ensures Direct(db, asks, ms[k].req) <==> p.count == 1 && db.bins[p.bin].cache.g.epp == 1
  {
    hide Inv, BinOk, InFile, Serves, AllMissed, Alone;
    Openable(db);
    GroupBounds(db, p, ms);
    InGroup(db, asks, ms, p, k);
    if db.bins[p.bin].cache.g.epp == 1 {
      if p.count == 1 {
        AloneThere(db, asks, ms, p, k);
      } else {
        Company(db, asks, ms, p, k);
      }
    }
  }

  lemma AloneThere(db: DB, asks: seq<Ask>, ms: seq<Miss>, p: PageRead, k: nat)
    requires Readable(db) && MissesOk(db, asks, ms) && AllMissed(db, asks, ms) && Serves(db, p, ms)
    requires p.first == k && p.count == 1 && MissOk(db, asks, ms[k])
    ensures Alone(asks, ms[k].req)
  {
    hide Inv, MissOk, Serves, AllMissed;
    Openable(db);
    GroupBounds(db, p, ms);
    InGroup(db, asks, ms, p, k);
    MissInRange(db, asks, ms[k]);
    forall j | 0 <= j < |asks| && j != ms[k].req
      ensures !(asks[j].wanted && asks[j].feature == asks[ms[k].req].feature)
    {
      NoOther(db, asks, ms, p, k, j);
    }
  }

  lemma Company(db: DB, asks: seq<Ask>, ms: seq<Miss>, p: PageRead, k: nat)
    requires Readable(db) && MissesOk(db, asks, ms) && AllMissed(db, asks, ms) && Serves(db, p, ms)
    requires p.first <= k < p.first + p.count && p.count > 1 && db.bins[p.bin].cache.g.epp == 1 && MissOk(db, asks, ms[k])
    ensures !Alone(asks, ms[k].req)
  {
    hide Inv, BinOk, InFile, Serves;
    Openable(db);
    var l := if k == p.first then k + 1 else p.first;
    GroupBounds(db, p, ms);
    InGroup(db, asks, ms, p, k);
    InGroup(db, asks, ms, p, l);
    CountsTwice(ms, if k < l then k else l, if k < l then l else k);
    SameEntryFeature(db, asks[ms[k].req].feature, asks[ms[l].req].feature);
  }

  lemma GroupBounds(db: DB, p: PageRead, ms: seq<Miss>)
    requires Serves(db, p, ms)
    ensures p.count > 0 && p.first + p.count <= |ms| && p.bin < |db.bins|
  {
  }

  /** Another request for the same feature would be served by the same page read. */
  lemma NoOther(db: DB, asks: seq<Ask>, ms: seq<Miss>, p: PageRead, k: nat, j: nat)
    requires Readable(db) && MissesOk(db, asks, ms) && AllMissed(db, asks, ms) && Serves(db, p, ms)
    requires p.first == k && p.count == 1 && j < |asks| && j != ms[k].req && MissOk(db, asks, ms[k])
    ensures !(asks[j].wanted && asks[j].feature == asks[ms[k].req].feature)
  {
    hide Inv, BinOk, InFile, Serves;
    Openable(db);
    GroupBounds(db, p, ms);
    if asks[j].wanted && asks[j].feature == asks[ms[k].req].feature {
      assert OnDisk(db, asks[j]) && Pending(ms, j);
      var l :| 0 <= l < |ms| && ms[l].req == j;
      InGroup(db, asks, ms, p, k);
      InGroup(db, asks, ms, p, l);
      assert false;
    }
  }

  lemma SameEntryFeature(db: DB, f: nat, h: nat)
    requires Inv(db) && f in db.index && h in db.index && db.index[f] == db.index[h]
    ensures f == h
  {
  }

  /** Phases 3 and 4 for one page: read it once and copy each entry out.  A page with a single
      entry and a single reader is read straight into the reader's buffer. */
  method ReadPage(db: DB, asks: seq<Ask>, ms: seq<Miss>, p: PageRead, before: seq<Option<Bytes>>)
    returns (out: seq<Option<Bytes>>)
    requires Readable(db) && MissesOk(db, asks, ms) && AllMissed(db, asks, ms) && Serves(db, p, ms)
    requires Answered(db, asks, before, ms[p.first..])
    ensures Answered(db, asks, out, ms[p.first + p.count..])
  {
    hide Inv, Answer, BinOk, Direct, OnDisk, AllMissed, Answered;
    var b := db.bins[p.bin];
    var g := b.cache.g;
    out := before;
    Openable(db);
    InGroup(db, asks, ms, p, p.first);
    BinCache(b);
    if p.count == 1 && g.epp == 1 {
      var m := ms[p.first];
      DirectIff(db, asks, ms, p, p.first);
      Scattered(db, asks, ms, p.first, out);
      DeliveredDirect(db, asks, m);
      out := out[m.req := Some(LinearRead(g, b.cache.file, m.entry))];
    } else {
      var buf := PageOf(g, b.cache.file, p.page);
      for k := 0 to p.count
        invariant Answered(db, asks, out, ms[p.first + k..])
      {
        var m := ms[p.first + k];
        InGroup(db, asks, ms, p, p.first + k);
        DirectIff(db, asks, ms, p, p.first + k);
        Scattered(db, asks, ms, p.first + k, out);
        DeliveredPaged(db, asks, m);
        out := out[m.req := Some(EntryAt(g, buf, m.entry % g.epp))];
      }
    }
  }

  lemma DeliveredDirect(db: DB, asks: seq<Ask>, m: Miss)
    requires Inv(db) && MissOk(db, asks, m) && Direct(db, asks, m.req)
    ensures Delivered(db, asks, m.req) == Some(LinearRead(db.bins[m.bin].cache.g, db.bins[m.bin].cache.file, m.entry))
  {
  }

  lemma DeliveredPaged(db: DB, asks: seq<Ask>, m: Miss)
    requires Inv(db) && MissOk(db, asks, m) && !Direct(db, asks, m.req)
    ensures Delivered(db, asks, m.req) == Some(PagedRead(db.bins[m.bin].cache.g, db.bins[m.bin].cache.file, m.entry))
  {
    hide Owned, PagedRead, Direct;
    FileAnswers(db.bins[m.bin], m.entry);
  }

  lemma BinCache(b: Bin)
    requires BinOk(b)
    ensures b.cache.g.Ok() && FileOk(b.cache.g, b.cache.file)
  {
  }

  /** Answering the first pending miss. */
  lemma Scattered(db: DB, asks: seq<Ask>, ms: seq<Miss>, k: nat, out: seq<Option<Bytes>>)
    requires Inv(db) && k < |ms| && MissOk(db, asks, ms[k]) && Answered(db, asks, out, ms[k..])
    ensures ms[k].req < |out|
    ensures Answered(db, asks, out[ms[k].req := Delivered(db, asks, ms[k].req)], ms[k + 1..])
  {
    hide Inv, Answer, MissOk, Direct;
    assert ms[k].req < |asks| by {
      MissInRange(db, asks, ms[k]);
    }
    forall i | 0 <= i < |asks| && !Pending(ms[k + 1..], i) && i != ms[k].req
      ensures !Pending(ms[k..], i)
    {
      assert forall j :: 1 <= j < |ms[k..]| ==> ms[k..][j] == ms[k + 1..][j - 1];
    }
  }

  lemma MissInRange(db: DB, asks: seq<Ask>, m: Miss)
    requires Inv(db) && MissOk(db, asks, m)
    ensures m.req < |asks| && Located(db, m)
  {
  }

  /** `graveldb_batch_get`: what every request gets, repeats included. */
  method BatchGet(db: DB, asks: seq<Ask>) returns (out: seq<Option<Bytes>>, dims: seq<nat>)
    requires Readable(db)
    ensures |out| == |dims| == |asks|
    ensures forall i :: 0 <= i < |asks| ==> out[i] == Delivered(db, asks, i)
    ensures forall i :: 0 <= i < |asks| ==>
              dims[i] == if asks[i].feature in db.index then
                           BinOf(db, asks[i].feature);
                           db.dims[db.index[asks[i].feature].dimIdx] else 0
  {
    hide Inv, Answer, MissOk, Serves, Readable, AllMissed, Direct;
    Openable(db);
    var ms: seq<Miss>;
    out, dims, ms := ResolveAll(db, asks);
    ms := SortMisses(db, asks, ms);
    forall i | 0 <= i < |ms|
      ensures Located(db, ms[i])
    {
      MissInRange(db, asks, ms[i]);
    }
    var ps := GroupMisses(db, ms);
    assert ms[0..] == ms;
    for p := 0 to |ps|
      invariant Served(ps[..p]) <= |ms| && Answered(db, asks, out, ms[Served(ps[..p])..])
    {
      assert Serves(db, ps[p], ms);
      ServedMore(db, ps, ms, p);
      out := ReadPage(db, asks, ms, ps[p], out);
    }
    assert ps[..|ps|] == ps;
    assert forall i :: !Pending(ms[|ms|..], i);
  }

  lemma Openable(db: DB)
    requires Readable(db)
    ensures Inv(db)
  {
  }

  lemma ServedMore(db: DB, ps: seq<PageRead>, ms: seq<Miss>, p: nat)
    requires p < |ps| && Groups(db, ps, ms, |ms|)
    ensures Served(ps[..p + 1]) == ps[p].first + ps[p].count <= |ms| && ps[p].first == Served(ps[..p])
  {
    assert ps[..p + 1][p] == ps[p];
    assert Serves(db, ps[p], ms);
  }
}
