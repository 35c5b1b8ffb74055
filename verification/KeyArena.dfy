/** The key B-tree as the program stores it: nodes in a bump arena, linked by index and
    edited in place.  Each method is tied to the value-level tree of KeyTrees. */
module KeyArenas {
  import opened KeyTrees

  /** KBTNode: fixed arrays with `n` live keys; slots at and beyond `n` are stale. */
  datatype Node = Node(n: nat, leaf: bool, keys: seq<nat>, vals: seq<nat>, children: seq<nat>)

  predicate Sized(nd: Node) {
    |nd.keys| == |nd.vals| == MAX_KEYS && |nd.children| == MAX_KEYS + 1
  }

  const BLANK := Node(0, true, seq(MAX_KEYS, _ => 0), seq(MAX_KEYS, _ => 0), seq(MAX_KEYS + 1, _ => 0))

  type Cell = nd: Node | Sized(nd) witness BLANK

  ghost predicate Fixed(nd: Node) {
    Sized(nd) && nd.n <= MAX_KEYS
  }

  /** The node stores the items and the child links of `t`'s root. */
  ghost predicate Stores(nd: Node, t: Tree) {
    && Fixed(nd)
    && nd.n == |t.items| && nd.leaf == (t.kids == []) && |t.kids| <= MAX_KEYS + 1
    && (forall i :: 0 <= i < nd.n ==> nd.keys[i] == t.items[i].key && nd.vals[i] == t.items[i].val)
    && (forall i :: 0 <= i < |t.kids| ==> nd.children[i] == t.kids[i].id)
  }

  ghost predicate Rep(a: seq<Cell>, t: Tree) {
    && t.id < |a| && Stores(a[t.id], t)
    && forall i :: 0 <= i < |t.kids| ==> Rep(a, t.kids[i])
  }

  /** The arena indices a tree occupies. */
  ghost function Ids(t: Tree): set<nat> {
    {t.id} + set i, x | 0 <= i < |t.kids| && x in Ids(t.kids[i]) :: x
  }

  /** No two nodes of the tree share an arena index. */
  ghost predicate Distinct(t: Tree) {
    && (forall i :: 0 <= i < |t.kids| ==> Distinct(t.kids[i]) && t.id !in Ids(t.kids[i]))
    && (forall i, j :: 0 <= i < j < |t.kids| ==> Ids(t.kids[i]) !! Ids(t.kids[j]))
  }

  /** A tree is unaffected by writes outside the arena indices it occupies. */
  lemma {:induction false} RepFrame(a: seq<Cell>, b: seq<Cell>, t: Tree)
    requires Rep(a, t) && forall x :: x in Ids(t) ==> x < |b| && x < |a| && b[x] == a[x]
    ensures Rep(b, t)
    decreases t
  {
    assert t.id in Ids(t);
    forall i | 0 <= i < |t.kids|
      ensures Rep(b, t.kids[i])
    {
      assert forall x :: x in Ids(t.kids[i]) ==> x in Ids(t);
      RepFrame(a, b, t.kids[i]);
    }
  }

  lemma KidIds(t: Tree, i: nat)
    requires i < |t.kids|
    ensures Ids(t.kids[i]) <= Ids(t)
  {
  }

  /** Indices of the two halves: those of the node that was split, and the new one. */
  lemma HalvesIds(y: Tree, z: nat)
    requires |y.items| == MAX_KEYS && (|y.kids| == 0 || |y.kids| == MAX_KEYS + 1)
    requires Distinct(y) && z !in Ids(y)
    ensures Ids(LowerHalf(y)) + Ids(UpperHalf(y, z)) == Ids(y) + {z}
    ensures Ids(LowerHalf(y)) !! Ids(UpperHalf(y, z))
    ensures Distinct(LowerHalf(y)) && Distinct(UpperHalf(y, z))
    ensures y.id in Ids(LowerHalf(y)) && z in Ids(UpperHalf(y, z))
  {
    var lo, hi := LowerHalf(y), UpperHalf(y, z);
    if y.kids != [] {
      assert forall i :: 0 <= i < ORDER ==> lo.kids[i] == y.kids[i];
      assert forall i :: 0 <= i < ORDER ==> hi.kids[i] == y.kids[i + ORDER];
      forall x | x in Ids(y)
        ensures x in Ids(lo) + Ids(hi)
      {
        if x != y.id {
          var i :| 0 <= i < |y.kids| && x in Ids(y.kids[i]);
          if i < ORDER {
            assert x in Ids(lo.kids[i]);
          } else {
            assert x in Ids(hi.kids[i - ORDER]);
          }
        }
      }
    }
  }

  ghost predicate CanSplit(t: Tree, i: nat) {
    && |t.kids| == |t.items| + 1 && i < |t.kids|
    && |t.kids[i].items| == MAX_KEYS && (|t.kids[i].kids| == 0 || |t.kids[i].kids| == MAX_KEYS + 1)
  }

  /** The kids of a node after splitting kid `i`. */
  lemma SplitKids(t: Tree, i: nat, z: nat)
    requires CanSplit(t, i)
    ensures var u := SplitChild(t, i, z);
            && |u.kids| == |t.kids| + 1
            && u.kids[i] == LowerHalf(t.kids[i]) && u.kids[i + 1] == UpperHalf(t.kids[i], z)
            && (forall j :: 0 <= j < i ==> u.kids[j] == t.kids[j])
            && (forall j :: i + 1 < j < |u.kids| ==> u.kids[j] == t.kids[j - 1])
  {
  }

  lemma SplitId(t: Tree, i: nat, z: nat)
    requires CanSplit(t, i)
    ensures SplitChild(t, i, z).id == t.id
  {
  }

  lemma SplitIdsKept(t: Tree, i: nat, z: nat, x: nat)
    requires CanSplit(t, i) && Distinct(t) && z !in Ids(t) && x in Ids(t) + {z}
    ensures x in Ids(SplitChild(t, i, z))
  {
    var u := SplitChild(t, i, z);
    KidIds(t, i);
    HalvesIds(t.kids[i], z);
    SplitKids(t, i, z);
    if x == z {
      assert z in Ids(u.kids[i + 1]);
    } else if x != t.id {
      var j :| 0 <= j < |t.kids| && x in Ids(t.kids[j]);
      assert j < i ==> x in Ids(u.kids[j]);
      assert j > i ==> x in Ids(u.kids[j + 1]);
      assert j == i ==> x in Ids(u.kids[i]) || x in Ids(u.kids[i + 1]);
    }
  }

  lemma SplitIdsOnly(t: Tree, i: nat, z: nat, x: nat)
    requires CanSplit(t, i) && Distinct(t) && z !in Ids(t) && x in Ids(SplitChild(t, i, z))
    ensures x in Ids(t) + {z}
  {
    var u := SplitChild(t, i, z);
    KidIds(t, i);
    HalvesIds(t.kids[i], z);
    SplitKids(t, i, z);
    if x != t.id {
      var j :| 0 <= j < |u.kids| && x in Ids(u.kids[j]);
      assert j < i ==> x in Ids(t.kids[j]);
      assert j > i + 1 ==> x in Ids(t.kids[j - 1]);
      assert j == i || j == i + 1 ==> x in Ids(t.kids[i]) + {z};
    }
  }

  lemma SplitIds(t: Tree, i: nat, z: nat)
    requires CanSplit(t, i) && Distinct(t) && z !in Ids(t)
    ensures Ids(SplitChild(t, i, z)) == Ids(t) + {z}
  {
    forall x | x in Ids(t) + {z}
      ensures x in Ids(SplitChild(t, i, z))
    {
      SplitIdsKept(t, i, z, x);
    }
    forall x | x in Ids(SplitChild(t, i, z))
      ensures x in Ids(t) + {z}
    {
      SplitIdsOnly(t, i, z, x);
    }
  }

  /** A kid after the split lies within one kid before it; only the upper half has the new index. */
  lemma SplitKidWithin(t: Tree, i: nat, z: nat, j: nat)
    requires CanSplit(t, i) && Distinct(t) && z !in Ids(t) && j <= |t.kids|
    ensures var u, j' := SplitChild(t, i, z), if j <= i then j else j - 1;
            && |u.kids| == |t.kids| + 1 && Distinct(u.kids[j])
            && Ids(u.kids[j]) <= (if j == i + 1 then Ids(t.kids[j']) + {z} else Ids(t.kids[j']))
  {
    hide SplitChild;
    KidIds(t, i);
    HalvesIds(t.kids[i], z);
    SplitKids(t, i, z);
  }

  lemma SplitDistinct(t: Tree, i: nat, z: nat)
    requires CanSplit(t, i) && Distinct(t) && z !in Ids(t)
    ensures Distinct(SplitChild(t, i, z))
  {
    var u := SplitChild(t, i, z);
    forall j | 0 <= j < |u.kids|
      ensures Distinct(u.kids[j]) && u.id !in Ids(u.kids[j])
    {
      SplitKidWithin(t, i, z, j);
      KidIds(t, if j <= i then j else j - 1);
    }
    forall j, k | 0 <= j < k < |u.kids|
      ensures Ids(u.kids[j]) !! Ids(u.kids[k])
    {
      SplitApart(t, i, z, j, k);
    }
  }

  lemma SplitApart(t: Tree, i: nat, z: nat, j: nat, k: nat)
    requires CanSplit(t, i) && Distinct(t) && z !in Ids(t) && j < k <= |t.kids|
    ensures |SplitChild(t, i, z).kids| == |t.kids| + 1
    ensures Ids(SplitChild(t, i, z).kids[j]) !! Ids(SplitChild(t, i, z).kids[k])
  {
    hide SplitChild, Ids, LowerHalf, UpperHalf;
    var j', k' := if j <= i then j else j - 1, if k <= i then k else k - 1;
    SplitKidWithin(t, i, z, j);
    SplitKidWithin(t, i, z, k);
    KidIds(t, j');
    KidIds(t, k');
    if j' == k' {
      HalvesIds(t.kids[i], z);
      SplitKids(t, i, z);
    }
  }

  // ----- the three nodes a split writes -----

  /** `s` with `v` inserted at `pos` among its first `n` elements; the rest is overwritten. */
  ghost predicate InsertedAt(s: seq<nat>, n: nat, pos: nat, v: nat, r: seq<nat>) {
    && pos <= n < |s| && |r| == |s| && r[pos] == v
    && (forall j :: 0 <= j < pos ==> r[j] == s[j])
    && (forall j :: pos < j <= n ==> r[j] == s[j - 1])
  }

  /** The shift loops of `kbt_split_child` and `kbt_insert_nonfull`. */
  method ShiftIn(s: seq<nat>, n: nat, pos: nat, v: nat) returns (r: seq<nat>)
    requires pos <= n < |s|
    ensures InsertedAt(s, n, pos, v, r)
  {
    r := s;
    var j := n;
    while j > pos
      invariant pos <= j <= n && |r| == |s|
      invariant forall k :: 0 <= k <= j ==> r[k] == s[k]
      invariant forall k :: j < k <= n ==> r[k] == s[k - 1]
    {
      r := r[j := r[j - 1]];
      j := j - 1;
    }
    r := r[pos := v];
  }

  lemma StoresLower(nd: Node, y: Tree)
    requires Stores(nd, y) && |y.items| == MAX_KEYS && (|y.kids| == 0 || |y.kids| == MAX_KEYS + 1)
    ensures Stores(nd.(n := MIN_KEYS), LowerHalf(y))
  {
  }

  lemma StoresUpper(nd: Node, y: Tree, z: nat, u: Node)
    requires Stores(nd, y) && |y.items| == MAX_KEYS && (|y.kids| == 0 || |y.kids| == MAX_KEYS + 1)
    requires Fixed(u) && u.n == MIN_KEYS && u.leaf == nd.leaf
    requires u.keys[..MIN_KEYS] == nd.keys[ORDER..] && u.vals[..MIN_KEYS] == nd.vals[ORDER..]
    requires !nd.leaf ==> u.children[..ORDER] == nd.children[ORDER..]
    ensures Stores(u, UpperHalf(y, z))
  {
    var hi := UpperHalf(y, z);
    forall i | 0 <= i < MIN_KEYS
      ensures u.keys[i] == hi.items[i].key && u.vals[i] == hi.items[i].val
    {
      assert u.keys[i] == u.keys[..MIN_KEYS][i] && u.vals[i] == u.vals[..MIN_KEYS][i];
    }
    forall i | 0 <= i < |hi.kids|
      ensures u.children[i] == hi.kids[i].id
    {
      assert u.children[i] == u.children[..ORDER][i];
    }
  }

  lemma StoresParent(nd: Node, t: Tree, i: nat, z: nat, u: Node)
    requires CanSplit(t, i) && Stores(nd, t) && nd.n < MAX_KEYS
    requires Fixed(u) && u.n == nd.n + 1 && u.leaf == nd.leaf
    requires InsertedAt(nd.keys, nd.n, i, t.kids[i].items[MIN_KEYS].key, u.keys)
    requires InsertedAt(nd.vals, nd.n, i, t.kids[i].items[MIN_KEYS].val, u.vals)
    requires InsertedAt(nd.children, nd.n + 1, i + 1, z, u.children)
    ensures Stores(u, SplitChild(t, i, z))
  {
    SplitKids(t, i, z);
    var s := SplitChild(t, i, z);
    forall j | 0 <= j < |s.kids|
      ensures u.children[j] == s.kids[j].id
    {
    }
  }

  /** `b` is `a` with new nodes for `t`, its kid `i` and the fresh index `z`. */
  ghost predicate SplitWrites(a: seq<Cell>, b: seq<Cell>, t: Tree, i: nat, z: nat) {
    && CanSplit(t, i) && Rep(a, t) && Distinct(t) && z !in Ids(t)
    && |b| == |a| && z < |b| && t.kids[i].id < |b|
    && (forall x :: 0 <= x < |a| && x != t.id && x != t.kids[i].id && x != z ==> b[x] == a[x])
    && Stores(b[t.id], SplitChild(t, i, z))
    && Stores(b[t.kids[i].id], LowerHalf(t.kids[i])) && Stores(b[z], UpperHalf(t.kids[i], z))
  }

  lemma SplitGrandkidRep(a: seq<Cell>, b: seq<Cell>, t: Tree, i: nat, z: nat, k: nat)
    requires SplitWrites(a, b, t, i, z) && k < |t.kids[i].kids|
    ensures Rep(b, t.kids[i].kids[k])
  {
    hide Stores;
    var y := t.kids[i];
    KidIds(t, i);
    KidIds(y, k);
    assert Rep(a, y);
    RepInBounds(a, y.kids[k]);
    assert Distinct(y) && t.id !in Ids(y) && y.id !in Ids(y.kids[k]);
    RepFrame(a, b, y.kids[k]);
  }

  lemma SplitHalvesRep(a: seq<Cell>, b: seq<Cell>, t: Tree, i: nat, z: nat)
    requires SplitWrites(a, b, t, i, z)
    ensures Rep(b, LowerHalf(t.kids[i])) && Rep(b, UpperHalf(t.kids[i], z))
  {
    hide Stores, Distinct, Ids;
    var y := t.kids[i];
    forall k | 0 <= k < |y.kids|
      ensures Rep(b, y.kids[k])
    {
      SplitGrandkidRep(a, b, t, i, z, k);
    }
  }

  lemma SplitSiblingRep(a: seq<Cell>, b: seq<Cell>, t: Tree, i: nat, z: nat, k: nat)
    requires SplitWrites(a, b, t, i, z) && k < |t.kids| && k != i
    ensures Rep(b, t.kids[k])
  {
    KidIds(t, k);
    RepInBounds(a, t.kids[k]);
    assert t.kids[i].id in Ids(t.kids[i]);
    assert Ids(t.kids[k]) !! Ids(t.kids[i]);
    RepFrame(a, b, t.kids[k]);
  }

  /** The three writes of a split turn the stored tree into the split tree. */
  lemma SplitRep(a: seq<Cell>, b: seq<Cell>, t: Tree, i: nat, z: nat)
    requires SplitWrites(a, b, t, i, z)
    ensures Rep(b, SplitChild(t, i, z))
  {
    var u := SplitChild(t, i, z);
    SplitKids(t, i, z);
    SplitHalvesRep(a, b, t, i, z);
    forall j | 0 <= j < |u.kids|
      ensures Rep(b, u.kids[j])
    {
      if j < i {
        SplitSiblingRep(a, b, t, i, z, j);
      } else if j > i + 1 {
        SplitSiblingRep(a, b, t, i, z, j - 1);
      }
    }
  }

  lemma {:induction false} RepInBounds(a: seq<Cell>, t: Tree)
    requires Rep(a, t)
    ensures forall x :: x in Ids(t) ==> x < |a|
    decreases t
  {
    forall x | x in Ids(t)
      ensures x < |a|
    {
      if x != t.id {
        var i :| 0 <= i < |t.kids| && x in Ids(t.kids[i]);
        RepInBounds(a, t.kids[i]);
      }
    }
  }

  // ----- rewriting one kid -----

  ghost predicate Below(ids: set<nat>, hi: nat) {
    forall x :: x in ids ==> x < hi
  }

  /** Every index is one of `ids`, or freshly allocated in `lo .. hi`. */
  ghost predicate KeptOrFresh(now: set<nat>, ids: set<nat>, lo: nat, hi: nat) {
    forall x :: x in now ==> x in ids || lo <= x < hi
  }

  /** What an insertion below arena size `lo` that grows it to `hi` may touch. */
  ghost predicate WritesOnly(a: seq<Cell>, b: seq<Cell>, t: Tree, lo: nat) {
    |b| == |a| && lo <= |a| && forall x :: 0 <= x < lo && x !in Ids(t) ==> b[x] == a[x]
  }

  lemma ReplaceKidIds(t: Tree, j: nat, c: Tree, lo: nat, hi: nat)
    requires j < |t.kids| && Distinct(t) && Distinct(c) && Below(Ids(t), lo)
    requires KeptOrFresh(Ids(c), Ids(t.kids[j]), lo, hi)
    ensures var u := t.(kids := t.kids[j := c]); Distinct(u) && KeptOrFresh(Ids(u), Ids(t), lo, hi)
  {
    var u := t.(kids := t.kids[j := c]);
    forall i | 0 <= i < |u.kids|
      ensures Distinct(u.kids[i]) && u.id !in Ids(u.kids[i])
    {
      KidIds(t, i);
      assert t.id in Ids(t);
    }
    forall i, k | 0 <= i < k < |u.kids|
      ensures Ids(u.kids[i]) !! Ids(u.kids[k])
    {
      KidIds(t, i);
      KidIds(t, k);
      assert Ids(t.kids[i]) !! Ids(t.kids[k]);
    }
    forall x | x in Ids(u)
      ensures x in Ids(t) || lo <= x < hi
    {
      if x != t.id {
        var i :| 0 <= i < |u.kids| && x in Ids(u.kids[i]);
        KidIds(t, i);
      }
    }
  }

  lemma ReplaceKidRep(a: seq<Cell>, b: seq<Cell>, t: Tree, j: nat, c: Tree, lo: nat)
    requires j < |t.kids| && Rep(a, t) && Distinct(t) && Below(Ids(t), lo)
    requires WritesOnly(a, b, t.kids[j], lo) && Rep(b, c) && c.id == t.kids[j].id
    ensures Rep(b, t.(kids := t.kids[j := c]))
  {
    var u := t.(kids := t.kids[j := c]);
    assert t.id in Ids(t) && t.id !in Ids(t.kids[j]);
    assert Stores(a[t.id], u);
    forall i | 0 <= i < |u.kids|
      ensures Rep(b, u.kids[i])
    {
      if i != j {
        KidIds(t, i);
        assert Ids(t.kids[i]) !! Ids(t.kids[j]);
        RepFrame(a, b, t.kids[i]);
      }
    }
  }

  /** Overwriting the items of the root node. */
  lemma UpdateRootRep(a: seq<Cell>, t: Tree, items: seq<Item>, nd: Cell)
    requires Rep(a, t) && Distinct(t) && Stores(nd, t.(items := items))
    ensures Rep(a[t.id := nd], t.(items := items))
    ensures Distinct(t.(items := items)) && Ids(t.(items := items)) == Ids(t)
  {
    var b := a[t.id := nd];
    forall i | 0 <= i < |t.kids|
      ensures Rep(b, t.kids[i])
    {
      RepInBounds(a, t.kids[i]);
      RepFrame(a, b, t.kids[i]);
    }
  }

  // ----- searching a node -----

  lemma {:induction false} ItemInAhead(t: Tree, i: nat, j: nat)
    requires |t.kids| == |t.items| + 1 && i < j < |t.kids|
    ensures t.items[i] in Ahead(t, j)
    decreases j
  {
    AheadEndsWithItem(t, j);
    if i < j - 1 {
      ItemInAhead(t, i, j - 1);
    }
  }

  /** The keys of every node are sorted, because the in-order list is. */
  lemma NodeSorted(t: Tree, h: nat)
    requires Shape(t, h, 0) && Sorted(Items(t))
    ensures Sorted(t.items)
  {
    if h > 0 {
      forall i, j | 0 <= i < j < |t.items|
        ensures t.items[i].key < t.items[j].key
      {
        SplitAtKid(t, j);
        SortedParts(Ahead(t, j), Items(t.kids[j]) + After(t, j), [], Items(t));
        ItemInAhead(t, i, j);
        assert t.items[j] in After(t, j);
      }
    }
  }

  lemma PosUnique(items: seq<Item>, key: nat, p: nat)
    requires p <= |items| && (forall j :: 0 <= j < p ==> items[j].key < key) && (p < |items| ==> key <= items[p].key)
    ensures p == Pos(items, key)
  {
  }

  /** The binary search of `kbt_insert_nonfull`. */
  method FindKey(nd: Cell, key: nat, ghost t: Tree) returns (lo: nat, found: bool)
    requires Stores(nd, t) && Sorted(t.items)
    ensures lo == Pos(t.items, key) && lo <= nd.n
    ensures found == (lo < |t.items| && t.items[lo].key == key)
  {
    lo := 0;
    var hi := nd.n - 1;
    while lo <= hi
      invariant 0 <= lo <= hi + 1 <= nd.n
      invariant forall j :: 0 <= j < lo ==> t.items[j].key < key
      invariant forall j :: hi < j < nd.n ==> key < t.items[j].key
      decreases hi - lo
    {
      var mid := (lo + hi) / 2;
      if nd.keys[mid] == key {
        PosUnique(t.items, key, mid);
        return mid, true;
      } else if nd.keys[mid] < key {
        lo := mid + 1;
      } else {
        hi := mid - 1;
      }
    }
    PosUnique(t.items, key, lo);
    return lo, false;
  }

  // ----- the arena -----

  const NODE_BYTES := 2560
  const MAX_BUDGET := 16 * 1024 * 1024
  const MIN_BUDGET := 256 * 1024

  /** The budget `dimbin_init` asks for. */
  function KeyBudget(writeMax: nat, entriesPerPage: nat): (b: nat)
    ensures MIN_BUDGET <= b <= MAX_BUDGET
  {
    var b := writeMax * entriesPerPage * 40;
    if b < MIN_BUDGET then MIN_BUDGET else if b > MAX_BUDGET then MAX_BUDGET else b
  }

  /** How many nodes the arena holds. */
  function ArenaCap(budget: nat): (cap: nat)
    ensures cap >= 4
    ensures budget <= MAX_BUDGET ==> cap <= 6553
  {
    var cap := (budget + 4095) / 4096 * 4096 / NODE_BYTES;
    if cap < 4 then 4 else cap
  }

  datatype Link = Null | At(idx: nat)

  /** A stored subtree, ready for an insertion at arena size `used`. */
  ghost predicate Ready(a: seq<Cell>, t: Tree, h: nat, used: nat) {
    && Rep(a, t) && Distinct(t) && Below(Ids(t), used) && used <= |a|
    && Shape(t, h, 0) && Sorted(Items(t))
  }

  /** The subtree `t` of arena `a` has become `u` in arena `b`. */
  ghost predicate Became(a: seq<Cell>, b: seq<Cell>, t: Tree, u: Tree, lo: nat, hi: nat) {
    && Rep(b, u) && Distinct(u) && u.id == t.id && KeptOrFresh(Ids(u), Ids(t), lo, hi)
    && WritesOnly(a, b, t, lo) && lo <= hi
  }

  /** The new right half: the upper keys, values and children of a full node. */
  method UpperNode(yn: Cell, zn: Cell) returns (u: Cell)
    requires zn.leaf == yn.leaf
    ensures u.n == MIN_KEYS && u.leaf == yn.leaf
    ensures u.keys[..MIN_KEYS] == yn.keys[ORDER..] && u.vals[..MIN_KEYS] == yn.vals[ORDER..]
    ensures !yn.leaf ==> u.children[..ORDER] == yn.children[ORDER..]
  {
    var children := if yn.leaf then zn.children else yn.children[ORDER..] + zn.children[ORDER..];
    u := Node(MIN_KEYS, yn.leaf, yn.keys[ORDER..] + zn.keys[MIN_KEYS..], yn.vals[ORDER..] + zn.vals[MIN_KEYS..], children);
  }

  /** The parent: child link, median key and median value shifted in. */
  method ParentNode(xn: Cell, i: nat, z: nat, key: nat, val: nat) returns (u: Cell)
    requires i <= xn.n < MAX_KEYS
    ensures u.n == xn.n + 1 && u.leaf == xn.leaf
    ensures InsertedAt(xn.keys, xn.n, i, key, u.keys) && InsertedAt(xn.vals, xn.n, i, val, u.vals)
    ensures InsertedAt(xn.children, xn.n + 1, i + 1, z, u.children)
  {
    var children := ShiftIn(xn.children, xn.n + 1, i + 1, z);
    var keys := ShiftIn(xn.keys, xn.n, i, key);
    var vals := ShiftIn(xn.vals, xn.n, i, val);
    u := Node(xn.n + 1, xn.leaf, keys, vals, children);
  }

  lemma SplitNodesStored(a: seq<Cell>, t: Tree, h: nat, i: nat, z: nat)
    requires h > 0 && Ready(a, t, h, z) && |t.items| < MAX_KEYS && i < |t.kids| && |t.kids[i].items| == MAX_KEYS
    ensures CanSplit(t, i) && z !in Ids(t)
    ensures t.id < z && a[t.id].children[i] == t.kids[i].id && t.kids[i].id < z && t.kids[i].id != t.id
    ensures Stores(a[t.kids[i].id], t.kids[i])
  {
    SplitShape(t, h, 0, i, z);
    KidIds(t, i);
    assert Rep(a, t.kids[i]);
    assert t.id in Ids(t) && t.kids[i].id in Ids(t.kids[i]);
  }

  lemma SplitStores(xn: Cell, yn: Cell, t: Tree, i: nat, z: nat, xnew: Cell, ynew: Cell, znew: Cell)
    requires CanSplit(t, i) && Stores(xn, t) && Stores(yn, t.kids[i]) && |t.items| < MAX_KEYS
    requires ynew == yn.(n := MIN_KEYS)
    requires znew.n == MIN_KEYS && znew.leaf == yn.leaf
    requires znew.keys[..MIN_KEYS] == yn.keys[ORDER..] && znew.vals[..MIN_KEYS] == yn.vals[ORDER..]
    requires !yn.leaf ==> znew.children[..ORDER] == yn.children[ORDER..]
    requires xnew.n == xn.n + 1 && xnew.leaf == xn.leaf
    requires InsertedAt(xn.keys, xn.n, i, yn.keys[MIN_KEYS], xnew.keys)
    requires InsertedAt(xn.vals, xn.n, i, yn.vals[MIN_KEYS], xnew.vals)
    requires InsertedAt(xn.children, xn.n + 1, i + 1, z, xnew.children)
    ensures Stores(xnew, SplitChild(t, i, z)) && Stores(ynew, LowerHalf(t.kids[i])) && Stores(znew, UpperHalf(t.kids[i], z))
  {
    StoresUpper(yn, t.kids[i], z, znew);
    StoresLower(yn, t.kids[i]);
    StoresParent(xn, t, i, z, xnew);
  }

  lemma SplitDone(a: seq<Cell>, t: Tree, i: nat, z: nat, xnew: Cell, ynew: Cell, znew: Cell)
    requires CanSplit(t, i) && Rep(a, t) && Distinct(t) && Below(Ids(t), z) && z < |a|
    requires t.id < z && t.kids[i].id < z && t.kids[i].id != t.id
    requires Stores(xnew, SplitChild(t, i, z)) && Stores(ynew, LowerHalf(t.kids[i])) && Stores(znew, UpperHalf(t.kids[i], z))
    ensures Became(a, a[z := znew][t.kids[i].id := ynew][t.id := xnew], t, SplitChild(t, i, z), z, z + 1)
  {
    hide Rep, Distinct, Ids, Stores, SplitWrites;
    var b := a[z := znew][t.kids[i].id := ynew][t.id := xnew];
    SplitWritten(a, b, t, i, z, xnew, ynew, znew);
    SplitRep(a, b, t, i, z);
    SplitDistinct(t, i, z);
    SplitIds(t, i, z);
  }

  lemma SplitWritten(a: seq<Cell>, b: seq<Cell>, t: Tree, i: nat, z: nat, xnew: Cell, ynew: Cell, znew: Cell)
    requires CanSplit(t, i) && Rep(a, t) && Distinct(t) && Below(Ids(t), z) && z < |a|
    requires t.id < z && t.kids[i].id < z && t.kids[i].id != t.id
    requires b == a[z := znew][t.kids[i].id := ynew][t.id := xnew]
    requires Stores(xnew, SplitChild(t, i, z)) && Stores(ynew, LowerHalf(t.kids[i])) && Stores(znew, UpperHalf(t.kids[i], z))
    ensures SplitWrites(a, b, t, i, z) && WritesOnly(a, b, t, z)
  {
    hide Rep, Distinct, Stores, SplitChild;
    assert t.id in Ids(t) && t.kids[i].id in Ids(t.kids[i]);
    assert Ids(t.kids[i]) <= Ids(t);
  }

  lemma KidReady(a: seq<Cell>, t: Tree, h: nat, j: nat, used: nat)
    requires h > 0 && Ready(a, t, h, used) && j < |t.kids|
    ensures Ready(a, t.kids[j], h - 1, used)
    ensures t.id < |a| && a[t.id].children[j] == t.kids[j].id < |a| && a[t.kids[j].id].n == |t.kids[j].items|
    ensures Shape(t, h, 0) && Sorted(Items(t)) && |t.kids[j].items| <= MAX_KEYS
  {
    KidIds(t, j);
    ShapeWeaken(t.kids[j], h - 1, MIN_KEYS, 0);
    SplitAtKid(t, j);
    SortedParts(Ahead(t, j), Items(t.kids[j]), After(t, j), Items(t));
  }

  lemma BecameThen(a: seq<Cell>, b: seq<Cell>, c: seq<Cell>, t: Tree, u: Tree, v: Tree, lo: nat, mid: nat, hi: nat)
    requires Became(a, b, t, u, lo, mid) && Became(b, c, u, v, mid, hi)
    ensures Became(a, c, t, v, lo, hi)
  {
    forall x | 0 <= x < lo && x !in Ids(t)
      ensures c[x] == a[x]
    {
      assert x !in Ids(u);
    }
  }

  /** An insertion into one kid, seen from the parent. */
  lemma KidBecame(a: seq<Cell>, b: seq<Cell>, t: Tree, h: nat, j: nat, c: Tree, lo: nat, hi: nat)
    requires j < |t.kids| && Ready(a, t, h, lo)
    requires Became(a, b, t.kids[j], c, lo, hi)
    ensures Became(a, b, t, t.(kids := t.kids[j := c]), lo, hi)
  {
    KidIds(t, j);
    ReplaceKidIds(t, j, c, lo, hi);
    ReplaceKidRep(a, b, t, j, c, lo);
  }

  lemma ReadyAfter(a: seq<Cell>, b: seq<Cell>, t: Tree, u: Tree, h: nat, lo: nat, hi: nat)
    requires Ready(a, t, h, lo) && Became(a, b, t, u, lo, hi) && Shape(u, h, 0) && Sorted(Items(u)) && hi <= |b|
    ensures Ready(b, u, h, hi)
  {
  }

  lemma NewRootIds(t: Tree, id: nat)
    requires Distinct(t) && id !in Ids(t)
    ensures Ids(NewRoot(t, id)) == Ids(t) + {id} && Distinct(NewRoot(t, id))
  {
    var s := NewRoot(t, id);
    assert s.kids[0] == t;
    assert forall x :: x in Ids(t) ==> x in Ids(s.kids[0]);
  }

  lemma NewRootRep(a: seq<Cell>, t: Tree, id: nat, nd: Cell)
    requires Rep(a, t) && Below(Ids(t), id) && id < |a| && nd.n == 0 && !nd.leaf && nd.children[0] == t.id
    ensures Rep(a[id := nd], NewRoot(t, id))
  {
    RepFrame(a, a[id := nd], t);
  }

  /** A new root above a full one, before the split. */
  lemma NewRootReady(a: seq<Cell>, t: Tree, h: nat, used: nat, nd: Cell)
    requires Ready(a, t, h, used) && Shape(t, h, 1) && |t.items| == MAX_KEYS && used < |a|
    requires nd.n == 0 && !nd.leaf && nd.children[0] == t.id
    ensures Ready(a[used := nd], NewRoot(t, used), h + 1, used + 1)
    ensures CanSplit(NewRoot(t, used), 0)
  {
    hide Rep, Distinct, Shape, Items, Ids;
    RootSplitShape(t, h, used);
    NewRootRep(a, t, used, nd);
    NewRootIds(t, used);
    NewRootHolds(t, h, used);
  }

  lemma NewRootHolds(t: Tree, h: nat, id: nat)
    requires Shape(t, h, 1) && |t.items| == MAX_KEYS
    ensures Shape(NewRoot(t, id), h + 1, 0) && Items(NewRoot(t, id)) == Items(t)
  {
    ShapeWeaken(t, h, 1, MIN_KEYS);
  }

  /** Splitting a full root is invisible: same items, one level more, two more nodes. */
  lemma SplitRootFacts(t: Tree, h: nat, next: nat) returns (u: Tree)
    requires WellFormed(t, h) && |t.items| == MAX_KEYS
    ensures CanSplit(NewRoot(t, next), 0) && u == SplitChild(NewRoot(t, next), 0, next + 1)
    ensures WellFormed(u, h + 1) && Shape(u, h + 1, 0) && u.id == next && |u.items| == 1
    ensures |u.kids[0].items| == |u.kids[1].items| == MIN_KEYS
    ensures Items(u) == Items(t) && NodeCount(u) == NodeCount(t) + 2
  {
    RootSplitShape(t, h, next);
    RootSplitItems(t, h, next);
    u := SplitChild(NewRoot(t, next), 0, next + 1);
    SplitNodeCount(NewRoot(t, next), 0, next + 1);
    OneNodeCounts(t);
  }

  /** What inserting into a root with room does to the value-level tree. */
  lemma InsertFacts(t: Tree, h: nat, key: nat, val: nat, next: nat, m: map<nat, nat>)
    requires WellFormed(t, h) && |t.items| < MAX_KEYS && NodeCount(t) == next
    requires |Items(t)| == |m| && Lists(Items(t), m)
    ensures Shape(t, h, 0)
    ensures var r := KeyTrees.Insert(t, h, key, val, next);
            && WellFormed(r.tree, h) && NodeCount(r.tree) == r.next && r.tree.id == t.id
            && Lists(Items(r.tree), m[key := val]) && (r.isNew <==> key !in m)
            && |Items(r.tree)| == |m[key := val]| == |m| + (if r.isNew then 1 else 0)
  {
    ShapeWeaken(t, h, 1, 0);
    InsertShape(t, h, 1, key, val, next);
    InsertItems(t, h, key, val, next);
    InsertNodeCount(t, h, key, val, next);
    var r := KeyTrees.Insert(t, h, key, val, next);
    PutIntoSorted(Items(t), Items(r.tree), key, val, r.isNew);
    PutIsMapUpdate(Items(t), Items(r.tree), key, val, r.isNew, m);
  }

  lemma RootStored(a: seq<Cell>, t: Tree, h: nat, used: nat)
    requires Ready(a, t, h, used)
    ensures t.id < |a| && a[t.id].n == |t.items|
    ensures Shape(t, h, 0) && Sorted(Items(t))
  {
  }

  /** The three spare nodes are enough, whether or not the root must be split first. */
  lemma RoomFacts(t: Tree, h: nat, key: nat, val: nat, used: nat)
    requires WellFormed(t, h) && NodeCount(t) == used <= 6553
    ensures |t.items| < MAX_KEYS ==> Shape(t, h, 0) && KeyTrees.Insert(t, h, key, val, used).next <= used + 3
    ensures |t.items| == MAX_KEYS ==>
              && CanSplit(NewRoot(t, used), 0)
              && var u := SplitChild(NewRoot(t, used), 0, used + 1);
              Shape(u, h + 1, 0) && |u.items| == 1 && KeyTrees.Insert(u, h + 1, key, val, used + 2).next <= used + 3
    ensures |t.items| <= MAX_KEYS
  {
    ThreeNodesSuffice(t, h, key, val, used);
    if |t.items| == MAX_KEYS {
      RootSplitShape(t, h, used);
    } else {
      ShapeWeaken(t, h, 1, 0);
    }
  }

  /** A leaf root with one item. */
  lemma FirstLeafReady(a: seq<Cell>, nd: Cell, key: nat, val: nat)
    requires |a| > 0 && nd.n == 1 && nd.leaf && nd.keys[0] == key && nd.vals[0] == val
    ensures var t := Tree(0, [Item(key, val)], []);
            && Ready(a[0 := nd], t, 0, 1) && WellFormed(t, 0) && NodeCount(t) == 1
            && Lists(Items(t), map[key := val])
  {
  }

  lemma SomeItem(t: Tree, h: nat)
    requires Shape(t, h, 1)
    ensures |Items(t)| > 0
  {
    if h > 0 {
      SplitAtKid(t, 0);
    }
  }

  /** What the in-order walk of a node has produced before its item `i`. */
  ghost function Walked(t: Tree, h: nat, i: nat): seq<Item>
    requires Shape(t, h, 0) && i <= |t.items|
  {
    if h == 0 then t.items[..i] else Ahead(t, i)
  }

  lemma WalkStep(t: Tree, h: nat, i: nat)
    requires Shape(t, h, 0) && i < |t.items|
    ensures Walked(t, h, i + 1) == Walked(t, h, i) + (if h == 0 then [] else Items(t.kids[i])) + [t.items[i]]
  {
    if h > 0 {
      AheadEndsWithItem(t, i + 1);
    }
  }

  lemma WalkEnds(t: Tree, h: nat)
    requires Shape(t, h, 0)
    ensures Walked(t, h, 0) == []
    ensures Items(t) == Walked(t, h, |t.items|) + (if h == 0 then [] else Items(t.kids[|t.items|]))
  {
    if h > 0 {
      SplitAtKid(t, |t.items|);
    }
  }

  lemma KidRep(a: seq<Cell>, t: Tree, h: nat, i: nat)
    requires Rep(a, t) && Shape(t, h, 0) && h > 0 && i < |t.kids|
    ensures Rep(a, t.kids[i]) && Shape(t.kids[i], h - 1, 0) && a[t.id].children[i] == t.kids[i].id
  {
    ShapeWeaken(t.kids[i], h - 1, MIN_KEYS, 0);
  }

  class KeyBTree {
    const arena: array<Cell>
    var root: Link
    var count: nat
    var used: nat
    ghost var tree: Tree
    ghost var height: nat
    ghost var contents: map<nat, nat>

    ghost predicate Valid()
      reads this, arena
    {
      && 4 <= arena.Length <= 6553 && used <= arena.Length
      && (root.Null? ==> count == 0 && used == 0 && contents == map[])
      && (root.At? ==>
            && root.idx == tree.id && Ready(arena[..], tree, height, used)
            && WellFormed(tree, height) && NodeCount(tree) == used
            && count == |Items(tree)| == |contents| && Lists(Items(tree), contents))
    }

    lemma EmptyIsUnused()
      requires Valid() && count == 0
      ensures contents == map[] && !Full()
    {
      if root.At? {
        SomeItem(tree, height);
      }
    }

    /** Nearly full: fewer than three nodes left. */
    predicate Full()
      reads this, arena
    {
      arena.Length - used < 3
    }

    constructor (budget: nat)
      requires budget <= MAX_BUDGET
      ensures Valid() && fresh(arena) && contents == map[] && !Full()
      ensures arena.Length == ArenaCap(budget)
    {
      arena := new Cell[ArenaCap(budget)](_ => BLANK);
      root, count, used, contents := Null, 0, 0, map[];
    }

    method Clear()
      requires Valid()
      modifies this
      ensures Valid() && contents == map[] && count == 0 && !Full()
    {
      root, count, used, contents := Null, 0, 0, map[];
    }

    /** Takes the next node; its keys and values are left as they were. */
    method AllocNode(leaf: bool) returns (link: Link)
      modifies arena, this`used
      ensures old(used) >= arena.Length ==> link == Null && used == old(used) && arena[..] == old(arena[..])
      ensures old(used) < arena.Length ==>
                && link == At(old(used)) && used == old(used) + 1
                && arena[..] == old(arena[..])[old(used) := arena[old(used)]]
                && arena[old(used)].n == 0 && arena[old(used)].leaf == leaf
    {
      if used >= arena.Length {
        return Null;
      }
      arena[used] := arena[used].(n := 0, leaf := leaf, children := seq(MAX_KEYS + 1, _ => 0));
      link := At(used);
      used := used + 1;
    }

    /** Splits child `i` of the node at `x`. */
    method Split(x: nat, i: nat, ghost t: Tree, ghost h: nat)
      requires h > 0 && Ready(arena[..], t, h, used) && used < arena.Length
      requires t.id == x && |t.items| < MAX_KEYS && i < |t.kids| && |t.kids[i].items| == MAX_KEYS
      modifies arena, this`used
      ensures used == old(used) + 1
      ensures CanSplit(t, i) && Became(old(arena[..]), arena[..], t, SplitChild(t, i, old(used)), old(used), used)
    {
      hide Became, SplitChild;
      ghost var a: seq<Cell> := arena[..];
      SplitNodesStored(a, t, h, i, used);
      var y := arena[x].children[i];
      var link := AllocNode(arena[y].leaf);
      var z := link.idx;
      var znew: Cell := UpperNode(arena[y], arena[z]);
      var xnew: Cell := ParentNode(arena[x], i, z, arena[y].keys[MIN_KEYS], arena[y].vals[MIN_KEYS]);
      var ynew: Cell := arena[y].(n := MIN_KEYS);
      SplitStores(a[x], a[y], t, i, z, xnew, ynew, znew);
      SplitDone(a, t, i, z, xnew, ynew, znew);
      arena[z] := znew;
      arena[y] := ynew;
      arena[x] := xnew;
      assert arena[..] == a[z := znew][y := ynew][x := xnew];
    }

    /** Inserts below the node at `x`, which has room for one more key. */
    method InsertNonfull(x: nat, key: nat, val: nat, ghost t: Tree, ghost h: nat) returns (isNew: bool, ghost r: Inserted)
      requires Ready(arena[..], t, h, used) && t.id == x && |t.items| < MAX_KEYS
      requires KeyTrees.Insert(t, h, key, val, used).next <= arena.Length
      modifies arena, this`used
      ensures r == KeyTrees.Insert(t, h, key, val, old(used))
      ensures isNew == r.isNew && used == r.next
      ensures Became(old(arena[..]), arena[..], t, r.tree, old(used), used)
      decreases h, 3
    {
      NodeSorted(t, h);
      var lo, found := FindKey(arena[x], key, t);
      if found {
        OverwriteValue(x, lo, val, t);
        isNew, r := false, Inserted(t.(items := t.items[lo := Item(key, val)]), used, false);
      } else if arena[x].leaf {
        AddToLeaf(x, lo, key, val, t);
        isNew, r := true, Inserted(t.(items := t.items[..lo] + [Item(key, val)] + t.items[lo..]), used, true);
      } else {
        isNew, r := InsertBelow(x, lo, key, val, t, h);
      }
    }

    method InsertBelow(x: nat, i: nat, key: nat, val: nat, ghost t: Tree, ghost h: nat) returns (isNew: bool, ghost r: Inserted)
      requires h > 0 && Ready(arena[..], t, h, used) && t.id == x && |t.items| < MAX_KEYS && i < |t.kids|
      requires KeyTrees.InsertBelow(t, h, i, key, val, used).next <= arena.Length
      modifies arena, this`used
      ensures r == KeyTrees.InsertBelow(t, h, i, key, val, old(used))
      ensures isNew == r.isNew && used == r.next
      ensures Became(old(arena[..]), arena[..], t, r.tree, old(used), used)
      decreases h, 2
    {
      hide Ready, Became, Items, Shape, SplitChild, KeyTrees.InsertAfterSplit, KeyTrees.Descend;
      KidReady(arena[..], t, h, i, used);
      if arena[arena[x].children[i]].n == MAX_KEYS {
        SplitShape(t, h, 0, i, used);
        SplitKeepsItems(t, i, used);
        isNew, r := SplitThenInsert(x, i, key, val, t, SplitChild(t, i, used), h);
      } else {
        isNew, r := InsertInChild(x, i, key, val, t, h);
      }
    }

    method OverwriteValue(x: nat, i: nat, val: nat, ghost t: Tree)
      requires Rep(arena[..], t) && Distinct(t) && Below(Ids(t), used) && used <= arena.Length && t.id == x
      requires i < |t.items|
      modifies arena
      ensures Became(old(arena[..]), arena[..], t, t.(items := t.items[i := Item(t.items[i].key, val)]), used, used)
    {
      var nd := arena[x];
      WriteNode(x, nd.(vals := nd.vals[i := val]), t, t.items[i := Item(t.items[i].key, val)]);
    }

    method AddToLeaf(x: nat, i: nat, key: nat, val: nat, ghost t: Tree)
      requires Rep(arena[..], t) && Distinct(t) && Below(Ids(t), used) && used <= arena.Length && t.id == x
      requires i <= |t.items| < MAX_KEYS
      modifies arena
      ensures Became(old(arena[..]), arena[..], t, t.(items := t.items[..i] + [Item(key, val)] + t.items[i..]), used, used)
    {
      var nd := arena[x];
      var keys := ShiftIn(nd.keys, nd.n, i, key);
      var vals := ShiftIn(nd.vals, nd.n, i, val);
      WriteNode(x, nd.(n := nd.n + 1, keys := keys, vals := vals), t, t.items[..i] + [Item(key, val)] + t.items[i..]);
    }

    /** Overwrites the node at `x`. */
    method WriteNode(x: nat, nd: Cell, ghost t: Tree, ghost items: seq<Item>)
      requires Rep(arena[..], t) && Distinct(t) && Below(Ids(t), used) && used <= arena.Length && t.id == x
      requires Stores(nd, t.(items := items))
      modifies arena
      ensures Became(old(arena[..]), arena[..], t, t.(items := items), used, used)
    {
      ghost var a: seq<Cell> := arena[..];
      UpdateRootRep(a, t, items, nd);
      assert t.id in Ids(t);
      arena[x] := nd;
      assert arena[..] == a[x := nd];
    }

    method InsertInChild(x: nat, j: nat, key: nat, val: nat, ghost t: Tree, ghost h: nat) returns (isNew: bool, ghost r: Inserted)
      requires h > 0 && Ready(arena[..], t, h, used) && t.id == x
      requires j < |t.kids| && |t.kids[j].items| < MAX_KEYS
      requires KeyTrees.Descend(t, h, j, key, val, used).next <= arena.Length
      modifies arena, this`used
      ensures r == KeyTrees.Descend(t, h, j, key, val, old(used))
      ensures isNew == r.isNew && used == r.next
      ensures Became(old(arena[..]), arena[..], t, r.tree, old(used), used)
      decreases h, 0, 0
    {
      hide Ready, Became, Items;
      KidReady(arena[..], t, h, j, used);
      isNew, r := InsertNonfull(arena[x].children[j], key, val, t.kids[j], h - 1);
      KidBecame(old(arena[..]), arena[..], t, h, j, r.tree, old(used), used);
      r := Inserted(t.(kids := t.kids[j := r.tree]), r.next, r.isNew);
    }

    method SplitThenInsert(x: nat, i: nat, key: nat, val: nat, ghost t: Tree, ghost u: Tree, ghost h: nat)
        returns (isNew: bool, ghost r: Inserted)
      requires h > 0 && Ready(arena[..], t, h, used) && t.id == x && |t.items| < MAX_KEYS
      requires CanSplit(t, i) && used < arena.Length
      requires u == SplitChild(t, i, used) && Shape(u, h, 0) && Sorted(Items(u)) && i < |u.items|
      requires |u.kids[i].items| == |u.kids[i + 1].items| == MIN_KEYS
      requires KeyTrees.InsertAfterSplit(u, h, i, key, val, used + 1).next <= arena.Length
      modifies arena, this`used
      ensures r == KeyTrees.InsertAfterSplit(u, h, i, key, val, old(used) + 1)
      ensures isNew == r.isNew && used == r.next
      ensures Became(old(arena[..]), arena[..], t, r.tree, old(used), used)
      decreases h, 1
    {
      hide Ready, Became, Items, Shape, SplitChild, KeyTrees.InsertAfterSplit;
      ghost var lo, a := used, arena[..];
      SplitId(t, i, used);
      Split(x, i, t, h);
      ghost var b := arena[..];
      ReadyAfter(a, b, t, u, h, lo, used);
      isNew, r := InsertAtMedian(x, i, key, val, u, h);
      BecameThen(a, b, arena[..], t, u, r.tree, lo, lo + 1, used);
    }

    /** After a split: the promoted median may be the key; otherwise go to one of the halves. */
    method InsertAtMedian(x: nat, i: nat, key: nat, val: nat, ghost u: Tree, ghost h: nat) returns (isNew: bool, ghost r: Inserted)
      requires h > 0 && Ready(arena[..], u, h, used) && u.id == x && i < |u.items|
      requires |u.kids[i].items| == |u.kids[i + 1].items| == MIN_KEYS
      requires KeyTrees.InsertAfterSplit(u, h, i, key, val, used).next <= arena.Length
      modifies arena, this`used
      ensures r == KeyTrees.InsertAfterSplit(u, h, i, key, val, old(used))
      ensures isNew == r.isNew && used == r.next
      ensures Became(old(arena[..]), arena[..], u, r.tree, old(used), used)
      decreases h, 0, 1
    {
      var nd := arena[x];
      if nd.keys[i] == key {
        OverwriteValue(x, i, val, u);
        return false, Inserted(u.(items := u.items[i := Item(key, val)]), used, false);
      }
      var j := if key > nd.keys[i] then i + 1 else i;
      isNew, r := InsertInChild(x, j, key, val, u, h);
    }

    /** `kbt_insert`: the caller has flushed if the arena was nearly full, so no allocation fails. */
    method Insert(key: nat, val: nat) returns (isNew: bool)
      requires Valid() && !Full()
      modifies this, arena
      ensures Valid() && contents == old(contents)[key := val]
      ensures isNew <==> key !in old(contents)
    {
      if root.Null? {
        InsertFirst(key, val);
        isNew := true;
      } else {
        isNew := InsertMore(key, val);
      }
    }

    method InsertMore(key: nat, val: nat) returns (isNew: bool)
      requires Valid() && !Full() && root.At?
      modifies this, arena
      ensures Valid() && contents == old(contents)[key := val]
      ensures isNew <==> key !in old(contents)
    {
      hide Ready, WellFormed, Lists, Items, Shape, NodeCount, SplitChild, KeyTrees.Insert;
      RoomFacts(tree, height, key, val, used);
      RootStored(arena[..], tree, height, used);
      if arena[root.idx].n == MAX_KEYS {
        GrowRoot();
      }
      isNew := InsertIntoRoot(key, val);
    }

    /** A full root: make a new root above it and split the old one. */
    method GrowRoot()
      requires Valid() && root.At? && |tree.items| == MAX_KEYS && used + 2 <= arena.Length
      modifies this, arena
      ensures Valid() && root.At? && contents == old(contents) && used == old(used) + 2
      ensures height == old(height) + 1 && CanSplit(NewRoot(old(tree), old(used)), 0)
      ensures tree == SplitChild(NewRoot(old(tree), old(used)), 0, old(used) + 1) && |tree.items| == 1
    {
      hide Ready, WellFormed, Lists, Items, Shape, NodeCount, SplitChild, KeyTrees.Insert;
      ghost var u := SplitRootFacts(tree, height, used);
      SplitRoot(tree, height, u);
      tree, height := u, height + 1;
    }

    method InsertIntoRoot(key: nat, val: nat) returns (isNew: bool)
      requires Valid() && root.At? && |tree.items| < MAX_KEYS && Shape(tree, height, 0)
      requires KeyTrees.Insert(tree, height, key, val, used).next <= arena.Length
      modifies this, arena
      ensures Valid() && contents == old(contents)[key := val]
      ensures isNew <==> key !in old(contents)
    {
      hide Ready, WellFormed, Lists, Items, Shape, NodeCount, SplitChild, KeyTrees.Insert;
      InsertFacts(tree, height, key, val, used, contents);
      ghost var r;
      isNew, r := InsertReady(root.idx, key, val, tree, height);
      tree, contents := r.tree, contents[key := val];
      if isNew {
        count := count + 1;
      }
    }

    method InsertFirst(key: nat, val: nat)
      requires Valid() && root.Null?
      modifies this, arena
      ensures Valid() && contents == map[key := val]
    {
      var link := AllocNode(true);
      var nd := arena[0];
      var leaf: Cell := nd.(n := 1, keys := nd.keys[0 := key], vals := nd.vals[0 := val]);
      FirstLeafReady(arena[..], leaf, key, val);
      ghost var a: seq<Cell> := arena[..];
      arena[0] := leaf;
      assert arena[..] == a[0 := leaf];
      root, count := link, 1;
      tree, height, contents := Tree(0, [Item(key, val)], []), 0, map[key := val];
    }

    method SplitRoot(ghost t: Tree, ghost h: nat, ghost u: Tree)
      requires root == At(t.id) && Ready(arena[..], t, h, used)
      requires WellFormed(t, h) && |t.items| == MAX_KEYS && CanSplit(NewRoot(t, used), 0)
      requires u == SplitChild(NewRoot(t, used), 0, used + 1) && u.id == used
      requires Shape(u, h + 1, 0) && Sorted(Items(u)) && used + 2 <= arena.Length
      modifies arena, this`used, this`root
      ensures used == old(used) + 2 && root == At(u.id) && Ready(arena[..], u, h + 1, used)
    {
      hide Ready, WellFormed, Items, Shape, SplitChild;
      ghost var s := NewRoot(t, used);
      MakeNewRoot(t, h);
      SplitNewRoot(s, u, h + 1);
    }

    method MakeNewRoot(ghost t: Tree, ghost h: nat)
      requires root == At(t.id) && Ready(arena[..], t, h, used)
      requires WellFormed(t, h) && |t.items| == MAX_KEYS && used < arena.Length
      modifies arena, this`used, this`root
      ensures used == old(used) + 1 && root == At(old(used))
      ensures Ready(arena[..], NewRoot(t, old(used)), h + 1, used)
    {
      ghost var a: seq<Cell> := arena[..];
      var s := AllocNode(false);
      arena[s.idx] := arena[s.idx].(children := arena[s.idx].children[0 := root.idx]);
      assert arena[..] == a[s.idx := arena[s.idx]];
      NewRootReady(a, t, h, s.idx, arena[s.idx]);
      root := s;
    }

    method SplitNewRoot(ghost s: Tree, ghost u: Tree, ghost h: nat)
      requires h > 0 && root == At(s.id) && Ready(arena[..], s, h, used) && used < arena.Length
      requires |s.items| < MAX_KEYS && CanSplit(s, 0) && u == SplitChild(s, 0, used)
      requires Shape(u, h, 0) && Sorted(Items(u))
      modifies arena, this`used
      ensures used == old(used) + 1 && Ready(arena[..], u, h, used)
    {
      hide Became, Items, Shape, SplitChild;
      ghost var a: seq<Cell> := arena[..];
      ghost var lo := used;
      Split(root.idx, 0, s, h);
      ReadyAfter(a, arena[..], s, u, h, lo, used);
    }

    method InsertReady(x: nat, key: nat, val: nat, ghost u: Tree, ghost h: nat) returns (isNew: bool, ghost r: Inserted)
      requires Ready(arena[..], u, h, used) && u.id == x && |u.items| < MAX_KEYS
      requires KeyTrees.Insert(u, h, key, val, used).next <= arena.Length
      modifies arena, this`used
      ensures r == KeyTrees.Insert(u, h, key, val, old(used)) && isNew == r.isNew && used == r.next && r.tree.id == u.id
      ensures Ready(arena[..], r.tree, h, used)
    {
      hide Ready, Became, Items, KeyTrees.Insert;
      ghost var a: seq<Cell> := arena[..];
      ghost var lo := used;
      RootStored(arena[..], u, h, used);
      InsertShape(u, h, 0, key, val, used);
      InsertItems(u, h, key, val, used);
      isNew, r := InsertNonfull(x, key, val, u, h);
      PutIntoSorted(Items(u), Items(r.tree), key, val, r.isNew);
      ReadyAfter(a, arena[..], u, r.tree, h, lo, used);
    }

    /** In-order walk of the subtree at `x`, appending to `out`. */
    method CollectNode(x: nat, out: seq<Item>, ghost t: Tree, ghost h: nat) returns (res: seq<Item>)
      requires Rep(arena[..], t) && Shape(t, h, 0) && t.id == x
      ensures res == out + Items(t)
      decreases h
    {
      hide Items, Walked;
      res := out;
      var nd := arena[x];
      var i := 0;
      WalkEnds(t, h);
      while i < nd.n
        invariant 0 <= i <= nd.n
        invariant res == out + Walked(t, h, i)
      {
        WalkStep(t, h, i);
        if !nd.leaf {
          KidRep(arena[..], t, h, i);
          res := CollectNode(nd.children[i], res, t.kids[i], h - 1);
        }
        res := res + [Item(nd.keys[i], nd.vals[i])];
        i := i + 1;
      }
      if !nd.leaf {
        KidRep(arena[..], t, h, i);
        res := CollectNode(nd.children[i], res, t.kids[i], h - 1);
      }
    }

    /** All entries, strictly ascending: exactly the contents, `count` of them. */
    method Collect() returns (res: seq<Item>)
      requires Valid()
      ensures Sorted(res) && Lists(res, contents) && |res| == count
    {
      res := [];
      if root.At? {
        RootStored(arena[..], tree, height, used);
        res := CollectNode(root.idx, [], tree, height);
        assert res == Items(tree);
      }
    }
  }
}
