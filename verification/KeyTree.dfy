/** The key B-tree as a value: a tree whose nodes carry the arena index they live at.
    Everything about order is stated of one list, the in-order items of the tree. */
module KeyTrees {
  import opened Arithmetic

  const ORDER := 64
  const MAX_KEYS := 2 * ORDER - 1
  const MIN_KEYS := ORDER - 1

  datatype Item = Item(key: nat, val: nat)

  /** A node at arena index `id`; a leaf has no kids. */
  datatype Tree = Tree(id: nat, items: seq<Item>, kids: seq<Tree>)

  ghost predicate Sorted(s: seq<Item>) {
    forall i, j :: 0 <= i < j < |s| ==> s[i].key < s[j].key
  }

  /** The list holds exactly the entries of `m`. */
  ghost predicate Lists(s: seq<Item>, m: map<nat, nat>) {
    && (forall x :: x in s ==> x.key in m && m[x.key] == x.val)
    && (forall k :: k in m ==> Item(k, m[k]) in s)
  }

  // ----- shape -----

  /** All leaves at depth `h`; every node has at most MAX_KEYS items, every node but the
      root at least MIN_KEYS, and the root at least `min`. */
  ghost predicate Shape(t: Tree, h: nat, min: nat)
    decreases h
  {
    && min <= |t.items| <= MAX_KEYS
    && (h == 0 ==> t.kids == [])
    && (h > 0 ==> |t.kids| == |t.items| + 1 && forall i :: 0 <= i < |t.kids| ==> Shape(t.kids[i], h - 1, MIN_KEYS))
  }

  // ----- in-order items -----

  /** The items of a tree in order: kid, item, kid, ..., item, kid. */
  ghost function Items(t: Tree): seq<Item>
    decreases t, 1
  {
    if |t.kids| != |t.items| + 1 then t.items
    else Pairs(t.items, t.kids[..|t.items|]) + Items(t.kids[|t.items|])
  }

  ghost function Pairs(items: seq<Item>, kids: seq<Tree>): seq<Item>
    requires |items| == |kids|
    decreases kids, 0
  {
    if kids == [] then [] else Items(kids[0]) + [items[0]] + Pairs(items[1..], kids[1..])
  }

  lemma {:induction false} PairsConcat(i1: seq<Item>, k1: seq<Tree>, i2: seq<Item>, k2: seq<Tree>)
    requires |i1| == |k1| && |i2| == |k2|
    ensures Pairs(i1 + i2, k1 + k2) == Pairs(i1, k1) + Pairs(i2, k2)
    decreases |k1|
  {
    hide Items;
    if k1 == [] {
      assert i1 + i2 == i2 && k1 + k2 == k2;
    } else {
      PairsConcat(i1[1..], k1[1..], i2, k2);
      assert (i1 + i2)[1..] == i1[1..] + i2 && (k1 + k2)[1..] == k1[1..] + k2;
    }
  }

  /** What follows kid `i` in the in-order list. */
  ghost function After(t: Tree, i: nat): seq<Item>
    requires |t.kids| == |t.items| + 1 && i < |t.kids|
  {
    var n := |t.items|;
    if i == n then [] else [t.items[i]] + Pairs(t.items[i + 1..], t.kids[i + 1..n]) + Items(t.kids[n])
  }

  ghost function Ahead(t: Tree, i: nat): seq<Item>
    requires |t.kids| == |t.items| + 1 && i < |t.kids|
  {
    Pairs(t.items[..i], t.kids[..i])
  }

  lemma ItemsOpen(t: Tree)
    requires |t.kids| == |t.items| + 1
    ensures Items(t) == Pairs(t.items, t.kids[..|t.items|]) + Items(t.kids[|t.items|])
  {
  }

  lemma PairsOpen(items: seq<Item>, kids: seq<Tree>)
    requires |items| == |kids| > 0
    ensures Pairs(items, kids) == Items(kids[0]) + [items[0]] + Pairs(items[1..], kids[1..])
  {
  }

  lemma SplitAtKid(t: Tree, i: nat)
    requires |t.kids| == |t.items| + 1 && i < |t.kids|
    ensures Items(t) == Ahead(t, i) + Items(t.kids[i]) + After(t, i)
  {
    hide Items, Pairs;
    var n := |t.items|;
    ItemsOpen(t);
    if i < n {
      PairsOpen(t.items[i..], t.kids[i..n]);
      PairsConcat(t.items[..i], t.kids[..i], t.items[i..], t.kids[i..n]);
      assert t.items == t.items[..i] + t.items[i..];
      assert t.kids[..n] == t.kids[..i] + t.kids[i..n];
      assert t.items[i..][1..] == t.items[i + 1..] && t.kids[i..n][1..] == t.kids[i + 1..n];
    } else {
      assert t.items[..i] == t.items && t.kids[..i] == t.kids[..n];
    }
  }

  /** Replacing one kid changes only that kid's stretch of the list. */
  lemma ReplaceKid(t: Tree, i: nat, c: Tree)
    requires |t.kids| == |t.items| + 1 && i < |t.kids|
    ensures var u := t.(kids := t.kids[i := c]);
            Items(u) == Ahead(t, i) + Items(c) + After(t, i)
  {
    var u := t.(kids := t.kids[i := c]);
    SplitAtKid(u, i);
    assert u.kids[..i] == t.kids[..i];
    if i < |t.items| {
      assert u.kids[i + 1..|t.items|] == t.kids[i + 1..|t.items|];
    }
  }

  // ----- splitting a full kid -----

  /** The lower half of a full node keeps its place; the upper half moves to arena index `z`. */
  function LowerHalf(y: Tree): (r: Tree)
    requires |y.items| == MAX_KEYS && (|y.kids| == 0 || |y.kids| == MAX_KEYS + 1)
  {
    Tree(y.id, y.items[..MIN_KEYS], if y.kids == [] then [] else y.kids[..ORDER])
  }

  function UpperHalf(y: Tree, z: nat): (r: Tree)
    requires |y.items| == MAX_KEYS && (|y.kids| == 0 || |y.kids| == MAX_KEYS + 1)
  {
    Tree(z, y.items[ORDER..], if y.kids == [] then [] else y.kids[ORDER..])
  }

  function SplitChild(t: Tree, i: nat, z: nat): (r: Tree)
    requires |t.kids| == |t.items| + 1 && i < |t.kids|
    requires |t.kids[i].items| == MAX_KEYS && (|t.kids[i].kids| == 0 || |t.kids[i].kids| == MAX_KEYS + 1)
  {
    var y := t.kids[i];
    Spliced(t, i, LowerHalf(y), y.items[MIN_KEYS], UpperHalf(y, z))
  }

  lemma HalvesKeepItems(y: Tree, z: nat)
    requires |y.items| == MAX_KEYS && (|y.kids| == 0 || |y.kids| == MAX_KEYS + 1)
    ensures Items(y) == Items(LowerHalf(y)) + [y.items[MIN_KEYS]] + Items(UpperHalf(y, z))
  {
    if y.kids == [] {
      assert y.items == y.items[..MIN_KEYS] + [y.items[MIN_KEYS]] + y.items[ORDER..];
    } else {
      InnerHalves(y, z);
    }
  }

  lemma InnerHalves(y: Tree, z: nat)
    requires |y.items| == MAX_KEYS && |y.kids| == MAX_KEYS + 1
    ensures Items(y) == Items(LowerHalf(y)) + [y.items[MIN_KEYS]] + Items(UpperHalf(y, z))
  {
    hide Items, Pairs;
    var lo, hi := LowerHalf(y), UpperHalf(y, z);
    SplitAtKid(y, MIN_KEYS);
    ItemsOpen(lo);
    ItemsOpen(hi);
    assert lo.kids[..MIN_KEYS] == y.kids[..MIN_KEYS];
    assert hi.kids[..MIN_KEYS] == y.kids[ORDER..MAX_KEYS];
  }

  /** Kid `i` replaced by two kids with an item between them. */
  function Spliced(t: Tree, i: nat, lo: Tree, med: Item, hi: Tree): (r: Tree)
    requires |t.kids| == |t.items| + 1 && i < |t.kids|
  {
    Tree(t.id, t.items[..i] + [med] + t.items[i..], t.kids[..i] + [lo, hi] + t.kids[i + 1..])
  }

  lemma AfterSpliced(t: Tree, i: nat, lo: Tree, med: Item, hi: Tree)
    requires |t.kids| == |t.items| + 1 && i < |t.kids|
    ensures After(Spliced(t, i, lo, med, hi), i) == [med] + Items(hi) + After(t, i)
  {
    hide Items;
    var u, n := Spliced(t, i, lo, med, hi), |t.items|;
    if i == n {
      assert u.items[i + 1..] == [] && u.kids[i + 1..n + 1] == [];
    } else {
      var items, kids := t.items[i + 1..], t.kids[i + 1..n];
      assert u.items[i + 1..] == [t.items[i]] + items;
      assert u.kids[i + 1..n + 1] == [hi] + kids by {
        SliceOfSplice(t.kids[..i], lo, hi, t.kids[i + 1..], n - i - 1);
        assert t.kids[i + 1..][..n - i - 1] == kids;
      }
      assert Pairs([t.items[i]] + items, [hi] + kids) == Items(hi) + [t.items[i]] + Pairs(items, kids) by {
        assert ([t.items[i]] + items)[1..] == items && ([hi] + kids)[1..] == kids;
      }
    }
  }

  lemma SliceOfSplice(p: seq<Tree>, x: Tree, y: Tree, q: seq<Tree>, m: nat)
    requires m <= |q|
    ensures (p + [x, y] + q)[|p| + 1..|p| + 2 + m] == [y] + q[..m]
  {
  }

  /** Splitting a kid re-associates the list and loses nothing. */
  lemma SplitKeepsItems(t: Tree, i: nat, z: nat)
    requires |t.kids| == |t.items| + 1 && i < |t.kids|
    requires |t.kids[i].items| == MAX_KEYS && (|t.kids[i].kids| == 0 || |t.kids[i].kids| == MAX_KEYS + 1)
    ensures Items(SplitChild(t, i, z)) == Items(t)
  {
    var u, y := SplitChild(t, i, z), t.kids[i];
    HalvesKeepItems(y, z);
    SplitAtKid(t, i);
    SplitAtKid(u, i);
    AfterSpliced(t, i, LowerHalf(y), y.items[MIN_KEYS], UpperHalf(y, z));
    assert Ahead(u, i) == Ahead(t, i) by {
      assert u.items[..i] == t.items[..i] && u.kids[..i] == t.kids[..i];
    }
    Regroup(Ahead(t, i), Items(LowerHalf(y)), [y.items[MIN_KEYS]], Items(UpperHalf(y, z)), After(t, i));
  }

  lemma Regroup(a: seq<Item>, b: seq<Item>, c: seq<Item>, d: seq<Item>, e: seq<Item>)
    ensures a + b + (c + d + e) == a + (b + c + d) + e
  {
  }

  // ----- insertion -----

  /** The binary search: how many items have a smaller key. */
  function Pos(items: seq<Item>, key: nat): (p: nat)
    ensures p <= |items|
    ensures forall j :: 0 <= j < p ==> items[j].key < key
    ensures p < |items| ==> key <= items[p].key
  {
    if items == [] || key <= items[0].key then 0 else 1 + Pos(items[1..], key)
  }

  datatype Inserted = Inserted(tree: Tree, next: nat, isNew: bool)

  /** `kbt_insert_nonfull` on a node at height `h`; `next` is the arena bump pointer. */
  function Insert(t: Tree, h: nat, key: nat, val: nat, next: nat): (r: Inserted)
    requires Shape(t, h, 0) && |t.items| < MAX_KEYS
    ensures r.next >= next
    decreases h, 3
  {
    var i := Pos(t.items, key);
    if i < |t.items| && t.items[i].key == key then
      Inserted(t.(items := t.items[i := Item(key, val)]), next, false)
    else if h == 0 then
      Inserted(t.(items := t.items[..i] + [Item(key, val)] + t.items[i..]), next, true)
    else
      InsertBelow(t, h, i, key, val, next)
  }

  /** Into kid `i`, splitting it first if it is full. */
  function InsertBelow(t: Tree, h: nat, i: nat, key: nat, val: nat, next: nat): (r: Inserted)
    requires h > 0 && Shape(t, h, 0) && |t.items| < MAX_KEYS && i < |t.kids|
    ensures r.next >= next
    decreases h, 2
  {
    assert Shape(t.kids[i], h - 1, MIN_KEYS);
    if |t.kids[i].items| == MAX_KEYS then
      SplitShape(t, h, 0, i, next);
      InsertAfterSplit(SplitChild(t, i, next), h, i, key, val, next + 1)
    else
      Descend(t, h, i, key, val, next)
  }

  /** The promoted median may be the key itself; otherwise choose one of the halves. */
  function InsertAfterSplit(u: Tree, h: nat, i: nat, key: nat, val: nat, next: nat): (r: Inserted)
    requires h > 0 && Shape(u, h, 0) && i < |u.items|
    requires |u.kids[i].items| == |u.kids[i + 1].items| == MIN_KEYS
    ensures r.next >= next
    decreases h, 1
  {
    if u.items[i].key == key then
      Inserted(u.(items := u.items[i := Item(key, val)]), next, false)
    else
      Descend(u, h, if key > u.items[i].key then i + 1 else i, key, val, next)
  }

  function Descend(t: Tree, h: nat, j: nat, key: nat, val: nat, next: nat): (r: Inserted)
    requires h > 0 && Shape(t, h, 0) && j < |t.kids| && |t.kids[j].items| < MAX_KEYS
    ensures r.next >= next
    decreases h, 0
  {
    ShapeWeaken(t.kids[j], h - 1, MIN_KEYS, 0);
    var c := Insert(t.kids[j], h - 1, key, val, next);
    Inserted(t.(kids := t.kids[j := c.tree]), c.next, c.isNew)
  }

  lemma ShapeWeaken(t: Tree, h: nat, min: nat, min': nat)
    requires Shape(t, h, min) && min' <= |t.items|
    ensures Shape(t, h, min')
  {
  }

  lemma SplitShape(t: Tree, h: nat, min: nat, i: nat, z: nat)
    requires h > 0 && Shape(t, h, min) && i < |t.kids| && |t.items| < MAX_KEYS && |t.kids[i].items| == MAX_KEYS
    ensures h > 1 ==> |t.kids[i].kids| == MAX_KEYS + 1
    ensures h == 1 ==> t.kids[i].kids == []
    ensures var u := SplitChild(t, i, z);
            && Shape(u, h, min) && |u.items| == |t.items| + 1
            && |u.kids[i].items| == |u.kids[i + 1].items| == MIN_KEYS
  {
    var u, y := SplitChild(t, i, z), t.kids[i];
    assert Shape(y, h - 1, MIN_KEYS);
    assert Shape(LowerHalf(y), h - 1, MIN_KEYS);
    assert Shape(UpperHalf(y, z), h - 1, MIN_KEYS);
    forall j | 0 <= j < |u.kids|
      ensures Shape(u.kids[j], h - 1, MIN_KEYS)
    {
      assert u.kids[j] == if j < i then t.kids[j] else if j == i then LowerHalf(y)
                          else if j == i + 1 then UpperHalf(y, z) else t.kids[j - 1];
    }
  }

  lemma ReplaceKidShape(t: Tree, h: nat, min: nat, j: nat, c: Tree)
    requires h > 0 && Shape(t, h, min) && j < |t.kids| && Shape(c, h - 1, MIN_KEYS)
    ensures Shape(t.(kids := t.kids[j := c]), h, min)
  {
  }

  lemma UpdateItemShape(t: Tree, h: nat, min: nat, i: nat, x: Item)
    requires Shape(t, h, min) && i < |t.items|
    ensures Shape(t.(items := t.items[i := x]), h, min)
  {
  }

  /** What insertion keeps: the shape, the node's place, and at most one new node a level. */
  ghost predicate Grown(t: Tree, r: Inserted, h: nat, min: nat, next: nat, most: nat) {
    Shape(r.tree, h, min) && |t.items| <= |r.tree.items| && r.tree.id == t.id && next <= r.next <= next + most
  }

  lemma {:induction false} InsertShape(t: Tree, h: nat, min: nat, key: nat, val: nat, next: nat)
    requires Shape(t, h, min) && |t.items| < MAX_KEYS
    ensures Shape(t, h, 0) && Grown(t, Insert(t, h, key, val, next), h, min, next, h)
    decreases h, 3
  {
    ShapeWeaken(t, h, min, 0);
    var i := Pos(t.items, key);
    if i < |t.items| && t.items[i].key == key {
      UpdateItemShape(t, h, min, i, Item(key, val));
    } else if h > 0 {
      BelowShape(t, h, min, i, key, val, next);
    }
  }

  lemma {:induction false} BelowShape(t: Tree, h: nat, min: nat, i: nat, key: nat, val: nat, next: nat)
    requires h > 0 && Shape(t, h, min) && |t.items| < MAX_KEYS && i < |t.kids|
    ensures Shape(t, h, 0) && Grown(t, InsertBelow(t, h, i, key, val, next), h, min, next, h)
    decreases h, 2
  {
    ShapeWeaken(t, h, min, 0);
    assert Shape(t.kids[i], h - 1, MIN_KEYS);
    if |t.kids[i].items| == MAX_KEYS {
      SplitShape(t, h, min, i, next);
      var u := SplitChild(t, i, next);
      ShapeWeaken(u, h, min, 0);
      if u.items[i].key == key {
        UpdateItemShape(u, h, min, i, Item(key, val));
      } else {
        DescendShape(u, h, min, if key > u.items[i].key then i + 1 else i, key, val, next + 1);
      }
    } else {
      DescendShape(t, h, min, i, key, val, next);
    }
  }

  lemma {:induction false} DescendShape(t: Tree, h: nat, min: nat, j: nat, key: nat, val: nat, next: nat)
    requires h > 0 && Shape(t, h, min) && j < |t.kids| && |t.kids[j].items| < MAX_KEYS
    ensures Shape(t, h, 0) && Grown(t, Descend(t, h, j, key, val, next), h, min, next, h - 1)
    decreases h, 0
  {
    ShapeWeaken(t, h, min, 0);
    InsertShape(t.kids[j], h - 1, MIN_KEYS, key, val, next);
    ReplaceKidShape(t, h, min, j, Insert(t.kids[j], h - 1, key, val, next).tree);
  }

  // ----- insertion is map update -----

  /** `after` is the sorted list `before` with the entry for `key` added, or replaced in place. */
  ghost predicate PutInto(before: seq<Item>, after: seq<Item>, key: nat, val: nat, isNew: bool) {
    exists a: seq<Item>, b: seq<Item>, was: seq<Item> :: PutBetween(before, after, key, val, isNew, a, was, b)
  }

  ghost predicate PutBetween(before: seq<Item>, after: seq<Item>, key: nat, val: nat, isNew: bool,
                             a: seq<Item>, was: seq<Item>, b: seq<Item>) {
    && before == a + was + b && after == a + [Item(key, val)] + b
    && (if isNew then was == [] else |was| == 1 && was[0].key == key)
    && (forall x :: x in a ==> x.key < key) && (forall x :: x in b ==> key < x.key)
  }

  lemma PutIntoContext(l: seq<Item>, before: seq<Item>, after: seq<Item>, r: seq<Item>, key: nat, val: nat, isNew: bool)
    requires PutInto(before, after, key, val, isNew)
    requires (forall x :: x in l ==> x.key < key) && (forall x :: x in r ==> key < x.key)
    ensures PutInto(l + before + r, l + after + r, key, val, isNew)
  {
    var a, b, was :| PutBetween(before, after, key, val, isNew, a, was, b);
    assert l + before + r == (l + a) + was + (b + r);
    assert l + after + r == (l + a) + [Item(key, val)] + (b + r);
    assert PutBetween(l + before + r, l + after + r, key, val, isNew, l + a, was, b + r);
  }

  lemma PutIntoSorted(before: seq<Item>, after: seq<Item>, key: nat, val: nat, isNew: bool)
    requires Sorted(before) && PutInto(before, after, key, val, isNew)
    ensures Sorted(after) && |after| == |before| + (if isNew then 1 else 0)
  {
    var a, b, was :| PutBetween(before, after, key, val, isNew, a, was, b);
    forall i, j | 0 <= i < j < |after|
      ensures after[i].key < after[j].key
    {
      var d := if isNew then 1 else 0;
      assert i < |a| ==> after[i] == before[i] && after[i] in a;
      assert j > |a| ==> after[j] == before[j - d] && after[j] in b;
      assert i > |a| ==> after[i] == before[i - d] && after[i] in b;
      assert j < |a| ==> after[j] == before[j] && after[j] in a;
    }
  }

  lemma AheadEndsWithItem(t: Tree, i: nat)
    requires |t.kids| == |t.items| + 1 && 0 < i < |t.kids|
    ensures Ahead(t, i) == Ahead(t, i - 1) + Items(t.kids[i - 1]) + [t.items[i - 1]]
  {
    PairsConcat(t.items[..i - 1], t.kids[..i - 1], [t.items[i - 1]], [t.kids[i - 1]]);
    assert t.items[..i] == t.items[..i - 1] + [t.items[i - 1]];
    assert t.kids[..i] == t.kids[..i - 1] + [t.kids[i - 1]];
    assert Pairs([t.items[i - 1]], [t.kids[i - 1]]) == Items(t.kids[i - 1]) + [t.items[i - 1]];
  }

  lemma SortedParts(l: seq<Item>, m: seq<Item>, r: seq<Item>, s: seq<Item>)
    requires s == l + m + r && Sorted(s)
    ensures Sorted(l) && Sorted(m) && Sorted(r)
    ensures forall x, y :: x in l && y in m ==> x.key < y.key
    ensures forall x, y :: x in m && y in r ==> x.key < y.key
  {
    forall i, j | 0 <= i < j < |m|
      ensures m[i].key < m[j].key
    {
      assert m[i] == s[|l| + i] && m[j] == s[|l| + j];
    }
    forall i, j | 0 <= i < j < |r|
      ensures r[i].key < r[j].key
    {
      assert r[i] == s[|l| + |m| + i] && r[j] == s[|l| + |m| + j];
    }
    forall i, j | 0 <= i < j < |l|
      ensures l[i].key < l[j].key
    {
      assert l[i] == s[i] && l[j] == s[j];
    }
    forall x, y | x in l && y in m
      ensures x.key < y.key
    {
      var i, j :| 0 <= i < |l| && 0 <= j < |m| && l[i] == x && m[j] == y;
      assert s[i] == x && s[|l| + j] == y;
    }
    forall x, y | x in m && y in r
      ensures x.key < y.key
    {
      var i, j :| 0 <= i < |m| && 0 <= j < |r| && m[i] == x && r[j] == y;
      assert s[|l| + i] == x && s[|l| + |m| + j] == y;
    }
  }

  /** The search descends into the only kid that can hold the key. */
  lemma KidBounds(t: Tree, j: nat, key: nat)
    requires |t.kids| == |t.items| + 1 && j < |t.kids| && Sorted(Items(t))
    requires (j > 0 ==> t.items[j - 1].key < key) && (j < |t.items| ==> key < t.items[j].key)
    ensures forall x :: x in Ahead(t, j) ==> x.key < key
    ensures forall x :: x in After(t, j) ==> key < x.key
    ensures Sorted(Items(t.kids[j]))
  {
    hide Items, Sorted;
    SplitAtKid(t, j);
    SortedParts(Ahead(t, j), Items(t.kids[j]), After(t, j), Items(t));
    if j > 0 {
      AheadEndsWithItem(t, j);
      var l := Ahead(t, j - 1) + Items(t.kids[j - 1]);
      SortedParts(l, [t.items[j - 1]], [], Ahead(t, j));
    }
    if j < |t.items| {
      var n := |t.items|;
      var r := Pairs(t.items[j + 1..], t.kids[j + 1..n]) + Items(t.kids[n]);
      assert After(t, j) == [] + [t.items[j]] + r;
      SortedParts([], [t.items[j]], r, After(t, j));
    }
  }

  /** Overwriting an item of an internal node. */
  lemma UpdateItem(t: Tree, i: nat, val: nat)
    requires |t.kids| == |t.items| + 1 && i < |t.items| && Sorted(Items(t))
    ensures PutInto(Items(t), Items(t.(items := t.items[i := Item(t.items[i].key, val)])), t.items[i].key, val, false)
  {
    var key, n := t.items[i].key, |t.items|;
    var u := t.(items := t.items[i := Item(key, val)]);
    var a := Ahead(t, i) + Items(t.kids[i]);
    var b := Pairs(t.items[i + 1..], t.kids[i + 1..n]) + Items(t.kids[n]);
    SplitAtKid(t, i);
    SplitAtKid(u, i);
    assert u.items[..i] == t.items[..i] && u.items[i + 1..] == t.items[i + 1..];
    assert Items(t) == a + [t.items[i]] + b;
    assert Items(u) == a + [Item(key, val)] + b;
    SortedParts(a, [t.items[i]], b, Items(t));
    assert t.items[i] in [t.items[i]];
    assert PutBetween(Items(t), Items(u), key, val, false, a, [t.items[i]], b);
  }

  lemma SuffixAbove(items: seq<Item>, i: nat, key: nat)
    requires Sorted(items) && i <= |items| && (i < |items| ==> key < items[i].key)
    ensures forall x :: x in items[i..] ==> key < x.key
  {
  }

  lemma UpdateInLeaf(items: seq<Item>, i: nat, val: nat)
    requires Sorted(items) && i < |items|
    ensures PutInto(items, items[i := Item(items[i].key, val)], items[i].key, val, false)
  {
    var a, b, x := items[..i], items[i + 1..], Item(items[i].key, val);
    assert items == a + [items[i]] + b && items[i := x] == a + [x] + b;
    SuffixAbove(items, i + 1, items[i].key);
    assert PutBetween(items, items[i := x], x.key, val, false, a, [items[i]], b);
  }

  lemma AddInLeaf(items: seq<Item>, i: nat, key: nat, val: nat)
    requires Sorted(items) && i <= |items|
    requires (forall j :: 0 <= j < i ==> items[j].key < key) && (i < |items| ==> key < items[i].key)
    ensures PutInto(items, items[..i] + [Item(key, val)] + items[i..], key, val, true)
  {
    assert items == items[..i] + [] + items[i..];
    SuffixAbove(items, i, key);
    assert PutBetween(items, items[..i] + [Item(key, val)] + items[i..], key, val, true, items[..i], [], items[i..]);
  }

  lemma PutInKid(t: Tree, j: nat, c: Tree, key: nat, val: nat, isNew: bool)
    requires |t.kids| == |t.items| + 1 && j < |t.kids| && Sorted(Items(t))
    requires (j > 0 ==> t.items[j - 1].key < key) && (j < |t.items| ==> key < t.items[j].key)
    requires PutInto(Items(t.kids[j]), Items(c), key, val, isNew)
    ensures PutInto(Items(t), Items(t.(kids := t.kids[j := c])), key, val, isNew)
  {
    KidBounds(t, j, key);
    SplitAtKid(t, j);
    ReplaceKid(t, j, c);
    PutIntoContext(Ahead(t, j), Items(t.kids[j]), Items(c), After(t, j), key, val, isNew);
  }

  /** Insertion, splits and promoted medians included, is one put into the in-order list. */
  lemma {:induction false} InsertItems(t: Tree, h: nat, key: nat, val: nat, next: nat)
    requires Shape(t, h, 0) && |t.items| < MAX_KEYS && Sorted(Items(t))
    ensures var r := Insert(t, h, key, val, next); PutInto(Items(t), Items(r.tree), key, val, r.isNew)
    decreases h, 3
  {
    var i := Pos(t.items, key);
    if i < |t.items| && t.items[i].key == key {
      if h == 0 {
        UpdateInLeaf(t.items, i, val);
      } else {
        UpdateItem(t, i, val);
      }
    } else if h == 0 {
      AddInLeaf(t.items, i, key, val);
    } else {
      BelowItems(t, h, i, key, val, next);
    }
  }

  lemma {:induction false} BelowItems(t: Tree, h: nat, i: nat, key: nat, val: nat, next: nat)
    requires h > 0 && Shape(t, h, 0) && |t.items| < MAX_KEYS && i < |t.kids| && Sorted(Items(t))
    requires (i > 0 ==> t.items[i - 1].key < key) && (i < |t.items| ==> key < t.items[i].key)
    ensures var r := InsertBelow(t, h, i, key, val, next); PutInto(Items(t), Items(r.tree), key, val, r.isNew)
    decreases h, 2
  {
    hide Items, Sorted;
    assert Shape(t.kids[i], h - 1, MIN_KEYS);
    if |t.kids[i].items| == MAX_KEYS {
      SplitShape(t, h, 0, i, next);
      SplitKeepsItems(t, i, next);
      AfterSplitItems(SplitChild(t, i, next), h, i, key, val, next + 1);
    } else {
      DescendItems(t, h, i, key, val, next);
    }
  }

  lemma {:induction false} AfterSplitItems(u: Tree, h: nat, i: nat, key: nat, val: nat, next: nat)
    requires h > 0 && Shape(u, h, 0) && i < |u.items| && Sorted(Items(u))
    requires |u.kids[i].items| == |u.kids[i + 1].items| == MIN_KEYS
    requires (i > 0 ==> u.items[i - 1].key < key) && (i + 1 < |u.items| ==> key < u.items[i + 1].key)
    ensures var r := InsertAfterSplit(u, h, i, key, val, next); PutInto(Items(u), Items(r.tree), key, val, r.isNew)
    decreases h, 1
  {
    if u.items[i].key == key {
      UpdateItem(u, i, val);
    } else {
      DescendItems(u, h, if key > u.items[i].key then i + 1 else i, key, val, next);
    }
  }

  lemma {:induction false} DescendItems(t: Tree, h: nat, j: nat, key: nat, val: nat, next: nat)
    requires h > 0 && Shape(t, h, 0) && j < |t.kids| && |t.kids[j].items| < MAX_KEYS && Sorted(Items(t))
    requires (j > 0 ==> t.items[j - 1].key < key) && (j < |t.items| ==> key < t.items[j].key)
    ensures var r := Descend(t, h, j, key, val, next); PutInto(Items(t), Items(r.tree), key, val, r.isNew)
    decreases h, 0
  {
    ShapeWeaken(t.kids[j], h - 1, MIN_KEYS, 0);
    KidBounds(t, j, key);
    InsertItems(t.kids[j], h - 1, key, val, next);
    var c := Insert(t.kids[j], h - 1, key, val, next);
    PutInKid(t, j, c.tree, key, val, c.isNew);
  }

  // ----- the whole tree -----

  /** A tree of height `h` that `kbt_insert` may be called on. */
  ghost predicate WellFormed(t: Tree, h: nat) {
    Shape(t, h, 1) && Sorted(Items(t))
  }

  function NewRoot(t: Tree, next: nat): (s: Tree) {
    Tree(next, [], [t])
  }

  /** `kbt_insert` on a non-empty tree: a full root is first split under a new root. */
  function InsertRoot(t: Tree, h: nat, key: nat, val: nat, next: nat): (r: Inserted)
    requires Shape(t, h, 1)
  {
    if |t.items| == MAX_KEYS then
      RootSplitShape(t, h, next);
      Insert(SplitChild(NewRoot(t, next), 0, next + 1), h + 1, key, val, next + 2)
    else
      ShapeWeaken(t, h, 1, 0);
      Insert(t, h, key, val, next)
  }

  /** The height after `kbt_insert`. */
  function HeightAfter(t: Tree, h: nat): (r: nat) {
    if |t.items| == MAX_KEYS then h + 1 else h
  }

  lemma RootSplitShape(t: Tree, h: nat, next: nat)
    requires Shape(t, h, 1) && |t.items| == MAX_KEYS
    ensures |t.kids| == 0 || |t.kids| == MAX_KEYS + 1
    ensures var u := SplitChild(NewRoot(t, next), 0, next + 1);
            && Shape(u, h + 1, 1) && Shape(u, h + 1, 0) && |u.items| == 1
            && |u.kids[0].items| == |u.kids[1].items| == MIN_KEYS
  {
    ShapeWeaken(t, h, 1, MIN_KEYS);
    var s := NewRoot(t, next);
    assert Shape(s, h + 1, 0);
    SplitShape(s, h + 1, 0, 0, next + 1);
    ShapeWeaken(SplitChild(s, 0, next + 1), h + 1, 0, 1);
  }

  lemma RootSplitItems(t: Tree, h: nat, next: nat)
    requires Shape(t, h, 1) && |t.items| == MAX_KEYS
    ensures |t.kids| == 0 || |t.kids| == MAX_KEYS + 1
    ensures Items(SplitChild(NewRoot(t, next), 0, next + 1)) == Items(t)
  {
    RootSplitShape(t, h, next);
    var s := NewRoot(t, next);
    SplitKeepsItems(s, 0, next + 1);
    SplitAtKid(s, 0);
  }

  /** A split root has half-full kids, so the first level needs no further split. */
  lemma RootSplitAllocs(u: Tree, h: nat, key: nat, val: nat, next: nat)
    requires Shape(u, h + 1, 1) && Shape(u, h + 1, 0) && |u.items| == 1
    requires |u.kids[0].items| == |u.kids[1].items| == MIN_KEYS
    ensures Grown(u, Insert(u, h + 1, key, val, next), h + 1, 1, next, h)
  {
    var i := Pos(u.items, key);
    if i < 1 && u.items[0].key == key {
      UpdateItemShape(u, h + 1, 1, 0, Item(key, val));
    } else {
      assert InsertBelow(u, h + 1, i, key, val, next) == Descend(u, h + 1, i, key, val, next);
      DescendShape(u, h + 1, 1, i, key, val, next);
    }
  }

  /** What `kbt_insert` establishes, allocating at most `most` nodes. */
  ghost predicate InsertedInto(t: Tree, r: Inserted, h: nat, key: nat, val: nat, next: nat, most: nat) {
    && WellFormed(r.tree, h)
    && PutInto(Items(t), Items(r.tree), key, val, r.isNew)
    && |Items(r.tree)| == |Items(t)| + (if r.isNew then 1 else 0)
    && next <= r.next <= next + most
  }

  lemma InsertInSplitRoot(u: Tree, h: nat, key: nat, val: nat, next: nat)
    requires Shape(u, h + 1, 1) && Shape(u, h + 1, 0) && |u.items| == 1 && Sorted(Items(u))
    requires |u.kids[0].items| == |u.kids[1].items| == MIN_KEYS
    ensures InsertedInto(u, Insert(u, h + 1, key, val, next), h + 1, key, val, next, h)
  {
    RootSplitAllocs(u, h, key, val, next);
    InsertItems(u, h + 1, key, val, next);
    var r := Insert(u, h + 1, key, val, next);
    PutIntoSorted(Items(u), Items(r.tree), key, val, r.isNew);
  }

  lemma InsertUnderNewRoot(t: Tree, h: nat, key: nat, val: nat, next: nat)
    requires WellFormed(t, h) && |t.items| == MAX_KEYS
    ensures InsertedInto(t, InsertRoot(t, h, key, val, next), h + 1, key, val, next, h + 2)
  {
    RootSplitShape(t, h, next);
    RootSplitItems(t, h, next);
    InsertInSplitRoot(SplitChild(NewRoot(t, next), 0, next + 1), h, key, val, next + 2);
  }

  lemma InsertUnderRoot(t: Tree, h: nat, key: nat, val: nat, next: nat)
    requires WellFormed(t, h) && |t.items| < MAX_KEYS
    ensures InsertedInto(t, InsertRoot(t, h, key, val, next), h, key, val, next, h)
  {
    InsertShape(t, h, 1, key, val, next);
    InsertItems(t, h, key, val, next);
    var r := Insert(t, h, key, val, next);
    PutIntoSorted(Items(t), Items(r.tree), key, val, r.isNew);
  }

  /** `kbt_insert` is a put, keeps every invariant, and needs at most `h` new nodes, or
      `h + 2` when the root is full. */
  lemma InsertRootCorrect(t: Tree, h: nat, key: nat, val: nat, next: nat)
    requires WellFormed(t, h)
    ensures InsertedInto(t, InsertRoot(t, h, key, val, next), HeightAfter(t, h), key, val, next,
                         if |t.items| == MAX_KEYS then h + 2 else h)
  {
    if |t.items| == MAX_KEYS {
      InsertUnderNewRoot(t, h, key, val, next);
    } else {
      InsertUnderRoot(t, h, key, val, next);
    }
  }

  // ----- the arena bound -----

  function NodeCount(t: Tree): (n: nat)
    ensures n >= 1
    decreases t, 1
  {
    1 + NodeCounts(t.kids)
  }

  function NodeCounts(kids: seq<Tree>): (n: nat)
    decreases kids, 0
  {
    if kids == [] then 0 else NodeCount(kids[0]) + NodeCounts(kids[1..])
  }

  lemma {:induction false} ManyKids(kids: seq<Tree>, h: nat)
    requires forall i :: 0 <= i < |kids| ==> Shape(kids[i], h, MIN_KEYS)
    ensures NodeCounts(kids) >= |kids| * Pow64(h)
    decreases h, |kids|
  {
    if kids != [] {
      FullTreeIsBig(kids[0], h);
      ManyKids(kids[1..], h);
      assert |kids| * Pow64(h) == Pow64(h) + (|kids| - 1) * Pow64(h);
    }
  }

  lemma {:induction false} FullTreeIsBig(t: Tree, h: nat)
    requires Shape(t, h, MIN_KEYS)
    ensures NodeCount(t) >= Pow64(h)
    decreases h, 0
  {
    if h > 0 {
      ManyKids(t.kids, h - 1);
      assert |t.kids| * Pow64(h - 1) >= 64 * Pow64(h - 1);
    }
  }

  /** Four levels, or three levels under a full root, take 8192 nodes. */
  lemma TallIsBig(t: Tree, h: nat)
    requires Shape(t, h, 1) && (h >= 3 || (h == 2 && |t.items| == MAX_KEYS))
    ensures NodeCount(t) >= 8192
  {
    ManyKids(t.kids, h - 1);
    Pow64Grows(h - 1);
    var p, k := Pow64(h - 1), |t.kids|;
    assert h >= 3 ==> k >= 2 && p >= 4096 && k * p >= 2 * p;
    assert h == 2 ==> k == 128 && k * p == 128 * p;
  }

  lemma {:induction false} Pow64Grows(h: nat)
    requires h >= 1
    ensures Pow64(h) >= 64 && (h >= 2 ==> Pow64(h) >= 4096)
  {
    if h >= 2 {
      Pow64Grows(h - 1);
    }
  }

  /** With fewer than 8192 nodes, an insertion needs at most three new ones. */
  lemma ThreeNodesSuffice(t: Tree, h: nat, key: nat, val: nat, next: nat)
    requires WellFormed(t, h) && NodeCount(t) < 8192
    ensures InsertRoot(t, h, key, val, next).next <= next + 3
  {
    if h < 3 && !(h == 2 && |t.items| == MAX_KEYS) {
      InsertRootCorrect(t, h, key, val, next);
    } else {
      TallIsBig(t, h);
    }
  }

  // ----- every allocated node is in the tree -----

  lemma {:induction false} NodeCountsConcat(a: seq<Tree>, b: seq<Tree>)
    ensures NodeCounts(a + b) == NodeCounts(a) + NodeCounts(b)
    decreases |a|
  {
    if a == [] {
      assert a + b == b;
    } else {
      NodeCountsConcat(a[1..], b);
      assert (a + b)[1..] == a[1..] + b;
    }
  }

  lemma ReplaceKidCount(kids: seq<Tree>, j: nat, c: Tree)
    requires j < |kids|
    ensures NodeCounts(kids[j := c]) == NodeCounts(kids) - NodeCount(kids[j]) + NodeCount(c)
  {
    var a, b := kids[..j], kids[j + 1..];
    assert kids == a + ([kids[j]] + b) && kids[j := c] == a + ([c] + b);
    NodeCountsConcat(a, [kids[j]] + b);
    NodeCountsConcat(a, [c] + b);
    NodeCountsConcat([kids[j]], b);
    NodeCountsConcat([c], b);
    OneNodeCounts(kids[j]);
    OneNodeCounts(c);
  }

  lemma OneNodeCounts(t: Tree)
    ensures NodeCounts([t]) == NodeCount(t)
  {
    assert [t][1..] == [];
  }

  /** A split adds exactly the one node it allocates. */
  lemma SplitNodeCount(t: Tree, i: nat, z: nat)
    requires |t.kids| == |t.items| + 1 && i < |t.kids|
    requires |t.kids[i].items| == MAX_KEYS && (|t.kids[i].kids| == 0 || |t.kids[i].kids| == MAX_KEYS + 1)
    ensures NodeCount(SplitChild(t, i, z)) == NodeCount(t) + 1
  {
    var y := t.kids[i];
    var lo, hi := LowerHalf(y), UpperHalf(y, z);
    var a, b := t.kids[..i], t.kids[i + 1..];
    if y.kids != [] {
      NodeCountsConcat(y.kids[..ORDER], y.kids[ORDER..]);
      assert y.kids == y.kids[..ORDER] + y.kids[ORDER..];
    }
    assert NodeCount(lo) + NodeCount(hi) == NodeCount(y) + 1;
    assert t.kids == a + ([y] + b) && SplitChild(t, i, z).kids == a + ([lo] + ([hi] + b));
    NodeCountsConcat(a, [y] + b);
    NodeCountsConcat([y], b);
    NodeCountsConcat(a, [lo] + ([hi] + b));
    NodeCountsConcat([lo], [hi] + b);
    NodeCountsConcat([hi], b);
    OneNodeCounts(y);
    OneNodeCounts(lo);
    OneNodeCounts(hi);
  }

  lemma {:induction false} InsertNodeCount(t: Tree, h: nat, key: nat, val: nat, next: nat)
    requires Shape(t, h, 0) && |t.items| < MAX_KEYS
    ensures var r := Insert(t, h, key, val, next); NodeCount(r.tree) + next == NodeCount(t) + r.next
    decreases h, 3
  {
    var i := Pos(t.items, key);
    if !(i < |t.items| && t.items[i].key == key) && h > 0 {
      BelowNodeCount(t, h, i, key, val, next);
    }
  }

  lemma {:induction false} BelowNodeCount(t: Tree, h: nat, i: nat, key: nat, val: nat, next: nat)
    requires h > 0 && Shape(t, h, 0) && |t.items| < MAX_KEYS && i < |t.kids|
    ensures var r := InsertBelow(t, h, i, key, val, next); NodeCount(r.tree) + next == NodeCount(t) + r.next
    decreases h, 2
  {
    assert Shape(t.kids[i], h - 1, MIN_KEYS);
    if |t.kids[i].items| == MAX_KEYS {
      SplitShape(t, h, 0, i, next);
      SplitNodeCount(t, i, next);
      AfterSplitNodeCount(SplitChild(t, i, next), h, i, key, val, next + 1);
    } else {
      DescendNodeCount(t, h, i, key, val, next);
    }
  }

  lemma {:induction false} AfterSplitNodeCount(u: Tree, h: nat, i: nat, key: nat, val: nat, next: nat)
    requires h > 0 && Shape(u, h, 0) && i < |u.items|
    requires |u.kids[i].items| == |u.kids[i + 1].items| == MIN_KEYS
    ensures var r := InsertAfterSplit(u, h, i, key, val, next); NodeCount(r.tree) + next == NodeCount(u) + r.next
    decreases h, 1
  {
    if u.items[i].key != key {
      DescendNodeCount(u, h, if key > u.items[i].key then i + 1 else i, key, val, next);
    }
  }

  lemma {:induction false} DescendNodeCount(t: Tree, h: nat, j: nat, key: nat, val: nat, next: nat)
    requires h > 0 && Shape(t, h, 0) && j < |t.kids| && |t.kids[j].items| < MAX_KEYS
    ensures var r := Descend(t, h, j, key, val, next); NodeCount(r.tree) + next == NodeCount(t) + r.next
    decreases h, 0
  {
    ShapeWeaken(t.kids[j], h - 1, MIN_KEYS, 0);
    InsertNodeCount(t.kids[j], h - 1, key, val, next);
    ReplaceKidCount(t.kids, j, Insert(t.kids[j], h - 1, key, val, next).tree);
  }

  // ----- the map a tree stands for -----

  /** A put into a sorted list is a map update. */
  lemma PutIsMapUpdate(before: seq<Item>, after: seq<Item>, key: nat, val: nat, isNew: bool, m: map<nat, nat>)
    requires PutInto(before, after, key, val, isNew) && Lists(before, m)
    ensures Lists(after, m[key := val])
    ensures isNew <==> key !in m
  {
    var a, b, was :| PutBetween(before, after, key, val, isNew, a, was, b);
    var m2 := m[key := val];
    forall x | x in after
      ensures x.key in m2 && m2[x.key] == x.val
    {
      assert x in a || x == Item(key, val) || x in b;
      assert x in a || x in b ==> x in before;
    }
    forall k | k in m2
      ensures Item(k, m2[k]) in after
    {
      if k == key {
        assert after[|a|] == Item(key, val);
      } else {
        var x := Item(k, m[k]);
        assert x in before && (x in a || x in was || x in b);
      }
    }
    if isNew {
      assert forall x :: x in before ==> x in a || x in b;
    } else {
      assert before[|a|] == was[0];
    }
  }
}
