/** The dirty page tracker: a sorted array of segments, each a radix tree of 64-way nodes.
    A bitmap is the set of its set bit positions, so counting trailing zeros is taking the
    minimum and clearing the lowest bit is removing it. */
module DirtyTrackers {
  import opened Arithmetic

  const FANOUT := 64
  const MAX_SEGMENTS := 32768
  const MAX_PAGE := 0x800_0000  // pages the 16-bit segment array can hold

  /** A node at depth 0 maps 64 pages; above that, `bits` summarises which children exist. */
  datatype Node = Node(bits: set<nat>, children: map<nat, Node>)

  const NEW_NODE := Node({}, map[])

  /** At every inner node a summary bit is set exactly when that child exists. */
  ghost predicate WellFormed(nd: Node, depth: nat)
    decreases depth
  {
    && (forall b :: b in nd.bits ==> b < FANOUT)
    && (depth == 0 ==> nd.children == map[])
    && (depth > 0 ==> nd.children.Keys == nd.bits)
    && (depth > 0 ==> forall c :: c in nd.children ==> WellFormed(nd.children[c], depth - 1))
  }

  /** Whether the page at offset `x` of the subtree is marked. */
  ghost predicate Marked(nd: Node, depth: nat, x: nat)
    decreases depth
  {
    if depth == 0 then x in nd.bits
    else
      var c := x / Pow64(depth);
      c in nd.children && Marked(nd.children[c], depth - 1, x % Pow64(depth))
  }

  /** `node_mark`: descend by six bits of the offset a level, creating missing children. */
  function MarkNode(nd: Node, offset: nat, depth: nat): (r: Node)
    decreases depth
  {
    if depth == 0 then nd.(bits := nd.bits + {offset % FANOUT})
    else
      var c := offset / Pow64(depth) % FANOUT;
      var nd' := if c in nd.children then nd else Node(nd.bits + {c}, nd.children[c := NEW_NODE]);
      nd'.(children := nd'.children[c := MarkNode(nd'.children[c], offset, depth - 1)])
  }

  /** An offset within the subtree has a first digit below `n`. */
  lemma DigitInRange(x: nat, p: nat, n: nat)
    requires p > 0 && x < n * p
    ensures x / p < n
  {
    MulMono(n, x / p, p);
    assert x == x / p * p + x % p;
  }

  lemma TwoDigits(o: nat, p: nat, big: nat, q: nat, s: nat, t: nat)
    requires p > 0 && big == FANOUT * p && o == q * big + (s * p + t) && t < p && s < FANOUT
    ensures o / p % FANOUT == s && o % p == t
  {
    assert q * big == FANOUT * q * p;
    assert (FANOUT * q + s) * p == FANOUT * q * p + s * p;
    DivModUnique(o, p, FANOUT * q + s, t);
    DivModUnique(FANOUT * q + s, FANOUT, q, s);
  }

  /** Taking the low digits of an offset first does not change its digit at this level. */
  lemma DigitOfRemainder(o: nat, p: nat, big: nat)
    requires p > 0 && big == FANOUT * p
    ensures o % big / p == o / p % FANOUT
    ensures o % big % p == o % p
  {
    var q, r := DivMod(o, big);
    DigitOfPart(o, p, big, q, r);
  }

  lemma DigitOfPart(o: nat, p: nat, big: nat, q: nat, r: nat)
    requires p > 0 && big == FANOUT * p && o == q * big + r && r < big
    ensures r / p == o / p % FANOUT && r % p == o % p
  {
    var s, t := DivMod(r, p);
    DigitInRange(r, p, FANOUT);
    TwoDigits(o, p, big, q, s, t);
  }

  ghost function WithChild(nd: Node, c: nat, child: Node): (r: Node)
  {
    Node(nd.bits + {c}, nd.children[c := child])
  }

  lemma WellFormedWith(nd: Node, depth: nat, c: nat, child: Node)
    requires depth > 0 && c < FANOUT && WellFormed(nd, depth) && WellFormed(child, depth - 1)
    ensures WellFormed(WithChild(nd, c, child), depth)
    ensures c in nd.children ==> nd.bits + {c} == nd.bits
  {
    assert c in nd.children ==> c in nd.children.Keys;
  }

  /** Marking keeps the summary bits right. */
  lemma {:induction false} MarkNodeWellFormed(nd: Node, offset: nat, depth: nat)
    requires WellFormed(nd, depth)
    ensures WellFormed(MarkNode(nd, offset, depth), depth)
    decreases depth
  {
    if depth > 0 {
      var c := offset / Pow64(depth) % FANOUT;
      var child := if c in nd.children then nd.children[c] else NEW_NODE;
      EmptyUnmarked(depth - 1, 0);
      MarkNodeWellFormed(child, offset, depth - 1);
      WellFormedWith(nd, depth, c, MarkNode(child, offset, depth - 1));
      assert MarkNode(nd, offset, depth) == WithChild(nd, c, MarkNode(child, offset, depth - 1));
    }
  }

  /** Marking adds exactly the one page. */
  lemma {:induction false} MarkNodeAdds(nd: Node, offset: nat, depth: nat, x: nat)
    requires x < Pow64(depth + 1)
    ensures Marked(MarkNode(nd, offset, depth), depth, x) <==> Marked(nd, depth, x) || x == offset % Pow64(depth + 1)
    decreases depth
  {
    if depth > 0 {
      var p := Pow64(depth);
      var c := offset / p % FANOUT;
      EmptyUnmarked(depth - 1, x % p);
      SameDigits(x, offset, p);
      MarkNodeAdds(if c in nd.children then nd.children[c] else NEW_NODE, offset, depth - 1, x % p);
    }
  }

  /** Two offsets of the subtree are equal when their digit here and their remainders agree. */
  lemma SameDigits(x: nat, offset: nat, p: nat)
    requires p > 0 && x < FANOUT * p
    ensures x == offset % (FANOUT * p) <==> x / p == offset / p % FANOUT && x % p == offset % p
  {
    var big := FANOUT * p;
    DigitOfRemainder(offset, p, big);
    var a, b := DivMod(x, p);
    var c, d := DivMod(offset % big, p);
  }

  lemma EmptyUnmarked(depth: nat, x: nat)
    ensures !Marked(NEW_NODE, depth, x) && WellFormed(NEW_NODE, depth)
  {
  }

  // ----- scanning -----

  /** `out` is the first `most` elements of `s`, ascending. */
  ghost predicate FirstOf(out: seq<nat>, s: set<nat>, most: nat) {
    && (forall i, j :: 0 <= i < j < |out| ==> out[i] < out[j])
    && |out| <= most
    && (forall p :: p in out ==> p in s)
    && (forall x :: x in s && x !in out ==> |out| == most && forall p :: p in out ==> p < x)
  }

  /** Scanning on into a set that lies above everything scanned so far. */
  lemma FirstOfSkip(out: seq<nat>, s: set<nat>, more: set<nat>, most: nat)
    requires FirstOf(out, s, most) && (|out| == most || more == {})
    requires forall x, y :: x in s && y in more ==> x < y
    ensures FirstOf(out, s + more, most)
  {
  }

  lemma FirstOfAdd(out: seq<nat>, s: set<nat>, x: nat, most: nat)
    requires FirstOf(out, s, most) && |out| < most && forall y :: y in s ==> y < x
    ensures FirstOf(out + [x], s + {x}, most)
  {
    var o := out + [x];
    assert forall p :: p in o <==> p in out || p == x;
    forall i, j | 0 <= i < j < |o|
      ensures o[i] < o[j]
    {
      assert o[i] in out;
    }
  }

  /** The marked pages of a subtree placed at `base`, below `limit`. */
  ghost function PagesAt(nd: Node, depth: nat, base: nat, limit: nat): set<nat> {
    set x | 0 <= x < Pow64(depth + 1) && Marked(nd, depth, x) && base + x < limit :: base + x
  }

  lemma DigitLess(x: nat, p: nat, c: nat)
    requires p > 0 && x / p < c
    ensures x < c * p
  {
    var q, r := DivMod(x, p);
    MulMono(q + 1, c, p);
    assert (q + 1) * p == q * p + p;
  }

  /** `__builtin_ctzll`: the lowest set bit. */
  method LowestBit(bits: set<nat>) returns (b: nat)
    requires bits != {}
    ensures b in bits && forall c :: c in bits ==> b <= c
  {
    b :| b in bits;
    var rest := bits - {b};
    while rest != {}
      invariant b in bits && rest <= bits
      invariant forall c :: c in bits && c !in rest ==> b <= c
      decreases |rest|
    {
      var c :| c in rest;
      rest := rest - {c};
      if c < b {
        b := c;
      }
    }
  }

  /** The part of `PagesAt` whose first digit is in `digits`. */
  ghost function PagesIn(nd: Node, depth: nat, base: nat, limit: nat, digits: set<nat>): set<nat> {
    set x | 0 <= x < Pow64(depth + 1) && Marked(nd, depth, x) && base + x < limit && x / Pow64(depth) in digits :: base + x
  }

  lemma PagesInAll(nd: Node, depth: nat, base: nat, limit: nat)
    requires WellFormed(nd, depth)
    ensures PagesIn(nd, depth, base, limit, nd.bits) == PagesAt(nd, depth, base, limit)
    ensures PagesIn(nd, depth, base, limit, {}) == {}
  {
    if depth == 0 {
      assert forall x: nat :: x / Pow64(0) == x;
    }
  }

  /** Pages with smaller first digits come first. */
  lemma PagesInOrdered(nd: Node, depth: nat, base: nat, limit: nat, lo: set<nat>, hi: set<nat>)
    requires forall a, b :: a in lo && b in hi ==> a < b
    ensures forall x, y :: x in PagesIn(nd, depth, base, limit, lo) && y in PagesIn(nd, depth, base, limit, hi) ==> x < y
  {
    forall x, y | x in PagesIn(nd, depth, base, limit, lo) && y in PagesIn(nd, depth, base, limit, hi)
      ensures x < y
    {
      var p := Pow64(depth);
      assert (x - base) / p < (y - base) / p;
      DigitLess(x - base, p, (y - base) / p);
      var q, r := DivMod(y - base, p);
    }
  }

  /** An offset of a child and the offset of the same page in its parent. */
  lemma ChildOffset(nd: Node, depth: nat, c: nat, x: nat)
    requires depth > 0 && c in nd.children && c < FANOUT && x < Pow64(depth)
    ensures c * Pow64(depth) + x < Pow64(depth + 1) && (c * Pow64(depth) + x) / Pow64(depth) == c
    ensures Marked(nd, depth, c * Pow64(depth) + x) <==> Marked(nd.children[c], depth - 1, x)
  {
    var p := Pow64(depth);
    DivModUnique(c * p + x, p, c, x);
    MulMono(c + 1, FANOUT, p);
  }

  /** One child's pages, seen from the parent. */
  lemma ChildPages(nd: Node, depth: nat, base: nat, limit: nat, c: nat)
    requires depth > 0 && WellFormed(nd, depth) && c in nd.children
    ensures PagesAt(nd.children[c], depth - 1, base + c * Pow64(depth), limit) == PagesIn(nd, depth, base, limit, {c})
  {
    var p := Pow64(depth);
    var child, at := nd.children[c], base + c * Pow64(depth);
    var kid, own := PagesAt(child, depth - 1, at, limit), PagesIn(nd, depth, base, limit, {c});
    forall z | z in kid
      ensures z in own
    {
      ChildOffset(nd, depth, c, z - at);
      assert z == base + (c * p + (z - at));
    }
    forall z | z in own
      ensures z in kid
    {
      var q, r := DivMod(z - base, p);
      ChildOffset(nd, depth, c, r);
      assert z == at + r;
    }
  }

  lemma BitPage(nd: Node, base: nat, limit: nat, c: nat)
    requires WellFormed(nd, 0) && c in nd.bits
    ensures PagesIn(nd, 0, base, limit, {c}) == if base + c < limit then {base + c} else {}
  {
    assert forall x: nat :: x / Pow64(0) == x;
    assert Marked(nd, 0, c);
  }

  lemma PagesInAdd(nd: Node, depth: nat, base: nat, limit: nat, s: set<nat>, seen: set<nat>, c: nat)
    ensures s + PagesIn(nd, depth, base, limit, seen + {c}) ==
            s + PagesIn(nd, depth, base, limit, seen) + PagesIn(nd, depth, base, limit, {c})
  {
  }

  /** Everything scanned before child `c` lies below the first page of child `c`. */
  lemma SeenSmaller(nd: Node, depth: nat, base: nat, limit: nat, s: set<nat>, seen: set<nat>, bits: set<nat>, c: nat)
    requires (forall x :: x in s ==> x < base) && Above(seen, bits) && c in bits
    ensures forall x :: x in s + PagesIn(nd, depth, base, limit, seen) ==> x < base + c * Pow64(depth)
  {
    forall x | x in PagesIn(nd, depth, base, limit, seen)
      ensures x < base + c * Pow64(depth)
    {
      assert (x - base) / Pow64(depth) < c;
      DigitLess(x - base, Pow64(depth), c);
    }
  }

  /** Stopping early, with `most` pages out, misses only larger pages. */
  lemma RestSkipped(nd: Node, depth: nat, base: nat, limit: nat, s: set<nat>, seen: set<nat>, bits: set<nat>,
                    res: seq<nat>, most: nat)
    requires WellFormed(nd, depth) && bits <= nd.bits && seen == nd.bits - bits
    requires forall x :: x in s ==> x < base
    requires Above(seen, bits)
    requires FirstOf(res, s + PagesIn(nd, depth, base, limit, seen), most) && (bits == {} || |res| >= most)
    ensures FirstOf(res, s + PagesAt(nd, depth, base, limit), most)
  {
    hide FirstOf;
    var rest := PagesIn(nd, depth, base, limit, bits);
    PagesInAll(nd, depth, base, limit);
    PagesInOrdered(nd, depth, base, limit, seen, bits);
    assert s + PagesIn(nd, depth, base, limit, seen) + rest == s + PagesAt(nd, depth, base, limit);
    FirstOfMost(res, s + PagesIn(nd, depth, base, limit, seen), most);
    FirstOfSkip(res, s + PagesIn(nd, depth, base, limit, seen), rest, most);
  }

  lemma FirstOfMost(out: seq<nat>, s: set<nat>, most: nat)
    requires FirstOf(out, s, most)
    ensures |out| <= most
  {
  }

  ghost predicate Above(seen: set<nat>, bits: set<nat>) {
    forall a, b :: a in seen && b in bits ==> a < b
  }

  lemma NothingSeen(bits: set<nat>)
    ensures Above({}, bits)
  {
  }

  lemma SeenNext(seen: set<nat>, bits: set<nat>, c: nat)
    requires Above(seen, bits) && c in bits && forall b :: b in bits ==> c <= b
    ensures Above(seen + {c}, bits - {c})
  {
  }

  /** One set bit: its page, or the scan of its child. */
  method ScanBit(nd: Node, depth: nat, base: nat, limit: nat, c: nat, out: seq<nat>, most: nat, ghost s: set<nat>)
      returns (res: seq<nat>)
    requires WellFormed(nd, depth) && c in nd.bits && FirstOf(out, s, most) && |out| < most
    requires forall x :: x in s ==> x < base + c * Pow64(depth)
    ensures FirstOf(res, s + PagesIn(nd, depth, base, limit, {c}), most)
    decreases depth, 0
  {
    hide FirstOf, PagesIn, PagesAt;
    if depth > 0 {
      ChildPages(nd, depth, base, limit, c);
      res := ScanNode(nd.children[c], depth - 1, base + c * Pow64(depth), limit, out, most, s);
    } else {
      BitPage(nd, base, limit, c);
      if base + c < limit {
        FirstOfAdd(out, s, base + c, most);
        res := out + [base + c];
      } else {
        assert s + {} == s;
        res := out;
      }
    }
  }

  /** `node_scan`: appends the marked pages below `limit`, ascending, until `most` are out. */
  method ScanNode(nd: Node, depth: nat, base: nat, limit: nat, out: seq<nat>, most: nat, ghost s: set<nat>)
      returns (res: seq<nat>)
    requires WellFormed(nd, depth) && FirstOf(out, s, most) && forall x :: x in s ==> x < base
    ensures FirstOf(res, s + PagesAt(nd, depth, base, limit), most)
    decreases depth, 1
  {
    hide FirstOf, PagesIn, PagesAt, Above, WellFormed;
    res := out;
    var bits := nd.bits;
    ghost var seen: set<nat> := {};
    PagesInAll(nd, depth, base, limit);
    assert s + {} == s;
    NothingSeen(bits);
    while bits != {} && |res| < most
      invariant bits <= nd.bits && seen == nd.bits - bits && Above(seen, bits)
      invariant FirstOf(res, s + PagesIn(nd, depth, base, limit, seen), most)
      decreases |bits|
    {
      var c: nat := LowestBit(bits);
      ghost var before := s + PagesIn(nd, depth, base, limit, seen);
      SeenSmaller(nd, depth, base, limit, s, seen, bits, c);
      res := ScanBit(nd, depth, base, limit, c, res, most, before);
      PagesInAdd(nd, depth, base, limit, s, seen, c);
      SeenNext(seen, bits, c);
      bits, seen := bits - {c}, seen + {c};
    }
    RestSkipped(nd, depth, base, limit, s, seen, bits, res, most);
  }

  // ----- segments -----

  datatype Segment = Segment(id: nat, root: Node)

  /** Segments sorted by id; each covers `span` pages with a tree of the given depth. */
  datatype Tree = Tree(segments: seq<Segment>, span: nat, depth: nat)

  ghost predicate TreeOk(t: Tree) {
    && t.span == Pow64(t.depth + 1)
    && (forall i, j :: 0 <= i < j < |t.segments| ==> t.segments[i].id < t.segments[j].id)
    && (forall i :: 0 <= i < |t.segments| ==> WellFormed(t.segments[i].root, t.depth))
  }

  ghost predicate InSegment(t: Tree, i: nat, page: nat)
    requires i < |t.segments| && t.span > 0
  {
    t.segments[i].id == page / t.span && Marked(t.segments[i].root, t.depth, page % t.span)
  }

  ghost predicate TreeHas(t: Tree, page: nat)
    requires t.span > 0
  {
    exists i :: 0 <= i < |t.segments| && InSegment(t, i, page)
  }

  /** `segment_find`: the index, or the bitwise complement of the insertion point. */
  method SegmentFind(t: Tree, id: nat) returns (k: int)
    requires TreeOk(t)
    ensures k >= 0 ==> k < |t.segments| && t.segments[k].id == id
    ensures k < 0 ==> -1 - k <= |t.segments|
    ensures k < 0 ==> forall i :: 0 <= i < -1 - k ==> t.segments[i].id < id
    ensures k < 0 ==> forall i :: -1 - k <= i < |t.segments| ==> id < t.segments[i].id
  {
    var lo, hi := 0, |t.segments| - 1;
    while lo <= hi
      invariant 0 <= lo <= hi + 1 <= |t.segments|
      invariant forall i :: 0 <= i < lo ==> t.segments[i].id < id
      invariant forall i :: hi < i < |t.segments| ==> id < t.segments[i].id
      decreases hi - lo
    {
      var mid := (lo + hi) / 2;
      if t.segments[mid].id == id {
        return mid;
      }
      if t.segments[mid].id < id {
        lo := mid + 1;
      } else {
        hi := mid - 1;
      }
    }
    return -1 - lo;
  }

  /** `segment_get_or_create`: the segment's index, inserted in order if it was missing. */
  method SegmentGetOrCreate(t: Tree, id: nat) returns (u: Tree, k: nat)
    requires TreeOk(t)
    ensures TreeOk(u) && u.span == t.span && u.depth == t.depth
    ensures k < |u.segments| && u.segments[k].id == id
    ensures forall page :: TreeHas(u, page) <==> TreeHas(t, page)
    ensures forall g :: g in u.segments ==> g in t.segments || g == Segment(id, NEW_NODE)
    ensures |u.segments| <= |t.segments| + 1
  {
    var at := SegmentFind(t, id);
    if at >= 0 {
      return t, at;
    }
    k := -1 - at;
    u := t.(segments := t.segments[..k] + [Segment(id, NEW_NODE)] + t.segments[k..]);
    EmptyUnmarked(t.depth, 0);
    forall page: nat
      ensures TreeHas(u, page) <==> TreeHas(t, page)
    {
      NewSegmentEmpty(t, u, k, page);
    }
  }

  lemma NewSegmentEmpty(t: Tree, u: Tree, k: nat, page: nat)
    requires t.span > 0 && k <= |t.segments|
    requires exists id :: u == t.(segments := t.segments[..k] + [Segment(id, NEW_NODE)] + t.segments[k..])
    ensures TreeHas(u, page) <==> TreeHas(t, page)
  {
    EmptyUnmarked(t.depth, page % t.span);
    if TreeHas(t, page) {
      var i :| 0 <= i < |t.segments| && InSegment(t, i, page);
      assert InSegment(u, if i < k then i else i + 1, page);
    }
    if TreeHas(u, page) {
      var i :| 0 <= i < |u.segments| && InSegment(u, i, page);
      assert i != k;
      assert InSegment(t, if i < k then i else i - 1, page);
    }
  }

  /** `tree_mark`. */
  method TreeMark(t: Tree, page: nat) returns (u: Tree)
    requires TreeOk(t)
    ensures TreeOk(u) && u.span == t.span && u.depth == t.depth
    ensures forall x :: TreeHas(u, x) <==> TreeHas(t, x) || x == page
    ensures forall i :: 0 <= i < |u.segments| ==> u.segments[i].id == page / t.span || exists g :: g in t.segments && g.id == u.segments[i].id
  {
    var id, offset := page / t.span, page % t.span;
    var v, k := SegmentGetOrCreate(t, id);
    var root := MarkNode(v.segments[k].root, offset, v.depth);
    MarkNodeWellFormed(v.segments[k].root, offset, v.depth);
    u := v.(segments := v.segments[k := Segment(id, root)]);
    forall x: nat
      ensures TreeHas(u, x) <==> TreeHas(v, x) || x == page
    {
      MarkedInSegment(v, u, k, page, x);
    }
  }

  lemma MarkedInSegment(v: Tree, u: Tree, k: nat, page: nat, x: nat)
    requires TreeOk(v) && k < |v.segments| && v.segments[k].id == page / v.span
    requires u == v.(segments := v.segments[k := Segment(page / v.span, MarkNode(v.segments[k].root, page % v.span, v.depth))])
    ensures TreeHas(u, x) <==> TreeHas(v, x) || x == page
  {
    MarkNodeAdds(v.segments[k].root, page % v.span, v.depth, x % v.span);
    SamePage(x, page, v.span);
    if TreeHas(v, x) {
      var i :| 0 <= i < |v.segments| && InSegment(v, i, x);
      assert InSegment(u, i, x);
    }
    if x == page {
      assert InSegment(u, k, x);
    }
    if TreeHas(u, x) && x != page {
      var i :| 0 <= i < |u.segments| && InSegment(u, i, x);
      assert InSegment(v, i, x);
    }
  }

  lemma SamePage(x: nat, y: nat, span: nat)
    requires span > 0
    ensures x == y <==> x / span == y / span && x % span == y % span
    ensures y % span % span == y % span
  {
    var q, r := DivMod(x, span);
    var a, b := DivMod(y, span);
    DivModUnique(y % span, span, 0, y % span);
  }

  /** The marked pages of the first `n` segments, below `limit`. */
  ghost function TreePages(t: Tree, n: nat, limit: nat): set<nat>
    requires n <= |t.segments|
  {
    if n == 0 then {}
    else TreePages(t, n - 1, limit) + PagesAt(t.segments[n - 1].root, t.depth, t.segments[n - 1].id * t.span, limit)
  }

  lemma SegmentPage(t: Tree, i: nat, limit: nat, x: nat)
    requires TreeOk(t) && i < |t.segments|
    ensures x in PagesAt(t.segments[i].root, t.depth, t.segments[i].id * t.span, limit) <==> InSegment(t, i, x) && x < limit
  {
    var base := t.segments[i].id * t.span;
    if x in PagesAt(t.segments[i].root, t.depth, base, limit) {
      DivModUnique(x, t.span, t.segments[i].id, x - base);
    }
    if InSegment(t, i, x) && x < limit {
      var q, r := DivMod(x, t.span);
      assert x == base + r;
    }
  }

  lemma {:induction false} TreePagesAre(t: Tree, n: nat, limit: nat, x: nat)
    requires TreeOk(t) && n <= |t.segments|
    ensures x in TreePages(t, n, limit) <==> x < limit && exists i :: 0 <= i < n && InSegment(t, i, x)
    decreases n
  {
    if n > 0 {
      TreePagesAre(t, n - 1, limit, x);
      SegmentPage(t, n - 1, limit, x);
    }
  }

  /** `tree_scan`: segment by segment. */
  method TreeScan(t: Tree, limit: nat, most: nat) returns (out: seq<nat>)
    requires TreeOk(t)
    ensures FirstOf(out, TreePages(t, |t.segments|, limit), most)
  {
    hide FirstOf, TreePages, PagesAt;
    out := [];
    NoPages(t, limit, most);
    var i := 0;
    while i < |t.segments| && |out| < most
      invariant 0 <= i <= |t.segments|
      invariant FirstOf(out, TreePages(t, i, limit), most)
    {
      EarlierSegments(t, i, limit);
      out := ScanNode(t.segments[i].root, t.depth, t.segments[i].id * t.span, limit, out, most, TreePages(t, i, limit));
      i := i + 1;
    }
    SegmentsSkipped(t, i, limit, out, most);
  }

  lemma NoPages(t: Tree, limit: nat, most: nat)
    ensures FirstOf([], TreePages(t, 0, limit), most)
  {
  }

  lemma EarlierSegments(t: Tree, i: nat, limit: nat)
    requires TreeOk(t) && i < |t.segments|
    ensures forall x :: x in TreePages(t, i, limit) ==> x < t.segments[i].id * t.span
    ensures TreePages(t, i + 1, limit) ==
            TreePages(t, i, limit) + PagesAt(t.segments[i].root, t.depth, t.segments[i].id * t.span, limit)
  {
    forall x | x in TreePages(t, i, limit)
      ensures x < t.segments[i].id * t.span
    {
      TreePagesAre(t, i, limit, x);
      DigitLess(x, t.span, t.segments[i].id);
    }
  }

  lemma {:induction false} SegmentsSkipped(t: Tree, i: nat, limit: nat, out: seq<nat>, most: nat)
    requires TreeOk(t) && i <= |t.segments| && FirstOf(out, TreePages(t, i, limit), most)
    requires i == |t.segments| || |out| >= most
    ensures FirstOf(out, TreePages(t, |t.segments|, limit), most)
    decreases |t.segments| - i
  {
    if i < |t.segments| {
      EarlierSegments(t, i, limit);
      var base := t.segments[i].id * t.span;
      FirstOfMost(out, TreePages(t, i, limit), most);
      FirstOfSkip(out, TreePages(t, i, limit), PagesAt(t.segments[i].root, t.depth, base, limit), most);
      SegmentsSkipped(t, i + 1, limit, out, most);
    }
  }

  // ----- the double-buffered tracker -----

  /** The span for an estimated page count: a power of 64. */
  function SpanFromEstimate(pages: nat): (span: nat)
    ensures exists k :: 2 <= k <= 4 && span == Pow64(k)
    ensures pages <= 16777216 ==> pages <= span
  {
    assert Pow64(0) == 1 && Pow64(1) == 64 && Pow64(2) == 4096 && Pow64(3) == 262144 && Pow64(4) == 16777216;
    if pages == 0 then 262144 else if pages <= 4096 then 4096 else if pages <= 262144 then 262144 else 16777216
  }

  /** `compute_depth`: the depth whose tree covers exactly the span. */
  method ComputeDepth(span: nat, ghost k: nat) returns (d: nat)
    requires k >= 1 && span == Pow64(k)
    ensures Pow64(d + 1) == span
  {
    d := 0;
    var rest := span;
    while rest > FANOUT
      invariant d < k && rest == Pow64(k - d)
      decreases k - d
    {
      BeyondOneDigit(k - d);
      rest := rest / FANOUT;
      d := d + 1;
    }
    OneDigit(k - d);
  }

  lemma BeyondOneDigit(k: nat)
    requires Pow64(k) > FANOUT
    ensures k >= 2 && Pow64(k) / FANOUT == Pow64(k - 1)
  {
    assert Pow64(0) == 1 && Pow64(1) == FANOUT;
  }

  lemma OneDigit(k: nat)
    ensures k >= 2 ==> Pow64(k) > FANOUT
  {
    if k >= 2 {
      assert Pow64(k) == FANOUT * (FANOUT * Pow64(k - 2));
    }
  }

  /** Strictly ascending ids below `n`: at most `n` of them. */
  lemma {:induction false} AscendingIds(segments: seq<Segment>, i: nat)
    requires forall a, b :: 0 <= a < b < |segments| ==> segments[a].id < segments[b].id
    requires i < |segments|
    ensures segments[i].id >= i
    decreases i
  {
    if i > 0 {
      AscendingIds(segments, i - 1);
    }
  }

  ghost function BelowLimit(s: set<nat>, limit: nat): set<nat> {
    set x | x in s && x < limit
  }

  class DirtyTracker {
    var active: Tree
    var ckpt: Tree
    var capacity: nat
    var generation: nat
    ghost var marked: set<nat>  // pages marked since the last swap
    ghost var frozen: set<nat>  // pages marked between the two swaps before that

    ghost predicate Valid()
      reads this
    {
      && TreeOk(active) && TreeOk(ckpt) && active.span == ckpt.span
      && (forall i :: 0 <= i < |active.segments| ==> active.segments[i].id < MAX_SEGMENTS)
      && (forall x :: TreeHas(active, x) <==> x in marked)
      && (forall x :: TreeHas(ckpt, x) <==> x in frozen)
    }

    constructor (estimatedPages: nat)
      ensures Valid() && marked == {} && frozen == {} && generation == 0
      ensures capacity == if estimatedPages > 0 then estimatedPages else 262144
      ensures active.span >= 4096
    {
      var span := SpanFromEstimate(estimatedPages);
      ghost var k :| 2 <= k <= 4 && span == Pow64(k);
      var depth := ComputeDepth(span, k);
      active, ckpt := Tree([], span, depth), Tree([], span, depth);
      capacity := if estimatedPages > 0 then estimatedPages else 262144;
      generation, marked, frozen := 0, {}, {};
    }

    /** Marks a page.  The segment array's 16-bit capacity limits the page number. */
    method Mark(page: nat)
      requires Valid() && page / active.span < MAX_SEGMENTS
      modifies this
      ensures Valid() && marked == old(marked) + {page} && frozen == old(frozen)
      ensures capacity == old(capacity) && generation == old(generation) && active.span == old(active.span)
      ensures |active.segments| <= MAX_SEGMENTS
    {
      hide TreeHas;
      active := TreeMark(active, page);
      marked := marked + {page};
      if |active.segments| > 0 {
        AscendingIds(active.segments, |active.segments| - 1);
      }
    }

    /** The first `most` pages marked since the last swap, ascending, below the capacity. */
    method Scan(most: nat) returns (out: seq<nat>)
      requires Valid()
      ensures FirstOf(out, BelowLimit(marked, capacity), most)
    {
      hide FirstOf, TreeOk;
      out := TreeScan(active, capacity, most);
      TreePagesSet(active, capacity, marked);
    }

    /** The same of the frozen tree. */
    method ScanCkpt(most: nat) returns (out: seq<nat>)
      requires Valid()
      ensures FirstOf(out, BelowLimit(frozen, capacity), most)
    {
      hide FirstOf, TreeOk;
      out := TreeScan(ckpt, capacity, most);
      TreePagesSet(ckpt, capacity, frozen);
    }

    /** Freezes what was marked and starts afresh. */
    method Swap()
      requires Valid()
      modifies this
      ensures Valid() && marked == {} && frozen == old(marked)
      ensures generation == old(generation) + 1 && capacity == old(capacity) && active.span == old(active.span)
    {
      ckpt := active;
      active := Tree([], ckpt.span, ckpt.depth);
      generation, marked, frozen := generation + 1, {}, marked;
    }

    method Resize(newCapacity: nat)
      requires Valid()
      modifies this
      ensures Valid() && marked == old(marked) && frozen == old(frozen) && generation == old(generation)
      ensures capacity == if newCapacity <= old(capacity) then old(capacity) else newCapacity
      ensures active.span == old(active.span)
    {
      if newCapacity > capacity {
        capacity := newCapacity;
      }
    }
  }

  lemma TreePagesSet(t: Tree, limit: nat, s: set<nat>)
    requires TreeOk(t) && forall x :: TreeHas(t, x) <==> x in s
    ensures TreePages(t, |t.segments|, limit) == BelowLimit(s, limit)
  {
    forall x: nat
      ensures x in TreePages(t, |t.segments|, limit) <==> x in s && x < limit
    {
      TreePagesAre(t, |t.segments|, limit, x);
      assert x in s <==> TreeHas(t, x);
    }
  }
}
