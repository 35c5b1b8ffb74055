/** The feature index: an open-addressing table that grows by incremental rehash.
    `hash` is arbitrary, so everything here holds of the 64-bit mixer in particular. */
module HashIndexes {
  import opened Arithmetic
  import opened Probing

  const REHASH_BATCH := 16

  datatype Status = Ok | Invalid | NotFound

  /** Where a feature lives: its bin and its entry slot in that bin. */
  datatype Place = Place(dimIdx: nat, entryIdx: nat)

  /** The bag holds exactly one entry for each key of `m`, with the value `m` gives it. */
  ghost predicate Represents(bag: multiset<Slot<Place>>, m: map<nat, Place>) {
    && (forall x :: x in bag ==> x.Used? && x.key in m && m[x.key] == x.val && bag[x] == 1)
    && (forall k :: k in m ==> Used(k, m[k]) in bag)
  }

  /** The unguarded probe of `hash_index_put`: stop at the key or at an empty slot. */
  method ProbeForPut<V>(slots: array<Slot<V>>, hash: nat -> nat, key: nat) returns (h: nat)
    requires |Bag(slots[..])| < slots.Length
    ensures h < slots.Length
    ensures slots[h].Used? ==> FoundAt(slots[..], hash, key, h)
    ensures slots[h].Empty? ==> StopsAt(slots[..], hash, key, h) && !Visible(slots[..], hash, key)
  {
    var cap := slots.Length;
    ghost var e := EmptySlotExists(slots[..]);
    h := Home(hash, cap, key);
    ghost var home := h;
    while slots[h].Used?
      invariant h < cap
      invariant Dist(cap, home, h) <= Dist(cap, home, e)
      invariant forall q :: 0 <= q < cap && Dist(cap, home, q) < Dist(cap, home, h) ==> slots[q].Used? && slots[q].key != key
      decreases Dist(cap, home, e) - Dist(cap, home, h)
    {
      if slots[h].key == key {
        return;
      }
      h := Next(cap, h);
    }
    StopHides(slots[..], hash, key, h);
  }

  /** During a backward shift the hole is the only empty slot on the path of any
      entry, and only entries at least `m` slots past the hole can be affected. */
  ghost predicate PlacedButHole<V>(t: seq<Slot<V>>, hash: nat -> nat, hole: nat, m: nat) {
    && hole < |t| && 1 <= m <= |t|
    && t[hole].Empty?
    && forall p, q {:trigger Before(t, hash, t[p].key, q, p)} ::
         0 <= p < |t| && 0 <= q < |t| && t[p].Used? && Before(t, hash, t[p].key, q, p) && t[q].Empty? ==>
         q == hole && m <= Dist(|t|, hole, p)
  }

  /** Whether the entry at `j` may move back into the hole: its home is not in (hole, j]. */
  function Displaced(ideal: nat, hole: nat, j: nat): (d: bool)
  {
    if hole < j then ideal <= hole || ideal > j else ideal <= hole && ideal > j
  }

  lemma DisplacedMeansHoleBefore<V>(t: seq<Slot<V>>, hash: nat -> nat, key: nat, hole: nat, j: nat)
    requires hole < |t| && j < |t| && hole != j
    ensures Displaced(Home(hash, |t|, key), hole, j) <==> Before(t, hash, key, hole, j)
  {
  }

  lemma ShiftStart<V>(t: seq<Slot<V>>, hash: nat -> nat, h: nat)
    requires WellPlaced(t, hash) && h < |t| && t[h].Used?
    ensures PlacedButHole(t[h := Empty], hash, h, 1)
  {
    var u := t[h := Empty];
    forall p, q | 0 <= p < |u| && 0 <= q < |u| && u[p].Used? && Before(u, hash, u[p].key, q, p) && u[q].Empty?
      ensures q == h
    {
      assert Before(t, hash, t[p].key, q, p);
    }
  }

  /** The entry at `j` stays: its path does not cross the hole. */
  lemma ShiftStay<V>(t: seq<Slot<V>>, hash: nat -> nat, hole: nat, j: nat)
    requires hole < |t| && j < |t| && hole != j && t[j].Used?
    requires PlacedButHole(t, hash, hole, Dist(|t|, hole, j))
    requires !Before(t, hash, t[j].key, hole, j)
    ensures PlacedButHole(t, hash, hole, Dist(|t|, hole, j) + 1)
  {
  }

  /** The entry at `j` moves back into the hole, which is then at `j`. */
  lemma ShiftMove<V>(t: seq<Slot<V>>, hash: nat -> nat, hole: nat, j: nat)
    requires hole < |t| && j < |t| && hole != j && t[j].Used?
    requires PlacedButHole(t, hash, hole, Dist(|t|, hole, j))
    requires Before(t, hash, t[j].key, hole, j)
    ensures PlacedButHole(t[hole := t[j]][j := Empty], hash, j, 1)
  {
    var u := t[hole := t[j]][j := Empty];
    forall p, q | 0 <= p < |u| && 0 <= q < |u| && u[p].Used? && Before(u, hash, u[p].key, q, p) && u[q].Empty?
      ensures q == j
    {
      if p == hole {
        assert Before(t, hash, t[j].key, q, j);
      } else {
        assert Before(t, hash, t[p].key, q, p);
      }
    }
  }

  /** The shift may stop at an empty slot, or once it is back at the hole. */
  lemma ShiftEnd<V>(t: seq<Slot<V>>, hash: nat -> nat, hole: nat, m: nat)
    requires PlacedButHole(t, hash, hole, m)
    requires || m == |t|
             || (exists j :: 0 <= j < |t| && Dist(|t|, hole, j) == m && t[j].Empty?)
    ensures WellPlaced(t, hash)
  {
    forall p, q | 0 <= p < |t| && 0 <= q < |t| && t[p].Used? && Before(t, hash, t[p].key, q, p)
      ensures t[q].Used?
    {
      if j :| 0 <= j < |t| && Dist(|t|, hole, j) == m && t[j].Empty? {
        assert !Before(t, hash, t[p].key, j, p);
      }
    }
  }

  /** The shift loop from slot `j` on, with the stale entry still in the hole. */
  function BackShift<V>(t: seq<Slot<V>>, hash: nat -> nat, h: nat, hole: nat, j: nat): (r: seq<Slot<V>>)
    requires h < |t| && hole < |t| && j < |t|
    ensures |r| == |t|
    decreases |t| - Dist(|t|, h, j)
  {
    if t[j].Empty? then t[hole := Empty] else
    var move := Displaced(Home(hash, |t|, t[j].key), hole, j);
    var t' := if move then t[hole := t[j]] else t;
    var hole' := if move then j else hole;
    if Next(|t|, j) == h then t'[hole' := Empty] else BackShift(t', hash, h, hole', Next(|t|, j))
  }

  lemma NextDist(cap: nat, h: nat, hole: nat, j: nat)
    requires h < cap && hole < cap && j < cap && j != hole
    ensures Next(cap, j) == h ==> Dist(cap, h, j) == cap - 1
    ensures Next(cap, j) != h ==> Dist(cap, h, Next(cap, j)) == Dist(cap, h, j) + 1
    ensures Next(cap, j) != hole ==> Dist(cap, hole, Next(cap, j)) == Dist(cap, hole, j) + 1
    ensures Next(cap, j) != j ==> Dist(cap, j, Next(cap, j)) == 1
  {
  }

  /** The state of the shift loop on reaching slot `j`; `e` is an empty slot ahead. */
  ghost predicate Shifting<V>(t: seq<Slot<V>>, hash: nat -> nat, h: nat, hole: nat, j: nat, e: nat) {
    && h < |t| && hole < |t| && j < |t| && hole != j && j != h && e < |t| && t[hole].Used?
    && PlacedButHole(t[hole := Empty], hash, hole, Dist(|t|, hole, j))
    && Dist(|t|, h, hole) < Dist(|t|, h, j)
    && (|t| == 2 || (t[e].Empty? && Dist(|t|, h, j) <= Dist(|t|, h, e)))
  }

  lemma MoveKeepsBag<V>(t: seq<Slot<V>>, hole: nat, j: nat)
    requires hole < |t| && j < |t| && hole != j && t[j].Used?
    ensures Bag(t[hole := t[j]][j := Empty]) == Bag(t[hole := Empty])
  {
    var v := t[hole := Empty];
    BagUpdate(v, hole, t[j]);
    BagUpdate(v[hole := t[j]], j, Empty);
    assert v[hole := t[j]][j := Empty] == t[hole := t[j]][j := Empty];
  }

  lemma MoveInTwoSlots<V>(t: seq<Slot<V>>, hash: nat -> nat, hole: nat, j: nat)
    requires |t| == 2 && hole < 2 && j < 2 && hole != j && t[j].Used?
    requires Displaced(Home(hash, 2, t[j].key), hole, j)
    ensures WellPlaced(t[hole := t[j]][j := Empty], hash)
  {
  }

  lemma ShiftingMove<V>(t: seq<Slot<V>>, hash: nat -> nat, h: nat, hole: nat, j: nat, e: nat)
    requires Shifting(t, hash, h, hole, j, e) && t[j].Used?
    requires Displaced(Home(hash, |t|, t[j].key), hole, j)
    ensures if Next(|t|, j) == h then WellPlaced(t[hole := t[j]][j := Empty], hash)
            else Shifting(t[hole := t[j]], hash, h, j, Next(|t|, j), e)
  {
    NextDist(|t|, h, hole, j);
    if Next(|t|, j) == h {
      MoveInTwoSlots(t, hash, hole, j);
    } else {
      var v := t[hole := Empty];
      DisplacedMeansHoleBefore(v, hash, t[j].key, hole, j);
      ShiftMove(v, hash, hole, j);
      assert v[hole := t[j]][j := Empty] == t[hole := t[j]][j := Empty];
    }
  }

  lemma ShiftingStay<V>(t: seq<Slot<V>>, hash: nat -> nat, h: nat, hole: nat, j: nat, e: nat)
    requires Shifting(t, hash, h, hole, j, e) && t[j].Used?
    requires !Displaced(Home(hash, |t|, t[j].key), hole, j)
    ensures if Next(|t|, j) == h then WellPlaced(t[hole := Empty], hash) else Shifting(t, hash, h, hole, Next(|t|, j), e)
  {
    var v := t[hole := Empty];
    DisplacedMeansHoleBefore(v, hash, t[j].key, hole, j);
    ShiftStay(v, hash, hole, j);
    NextDist(|t|, h, hole, j);
    if Next(|t|, j) == h {
      ShiftEnd(v, hash, hole, |t|);
    }
  }

  /** Backward shift removes the one entry and keeps every other reachable. */
  lemma {:induction false} BackShiftCorrect<V>(t: seq<Slot<V>>, hash: nat -> nat, h: nat, hole: nat, j: nat, e: nat)
    requires Shifting(t, hash, h, hole, j, e)
    ensures WellPlaced(BackShift(t, hash, h, hole, j), hash)
    ensures Bag(BackShift(t, hash, h, hole, j)) == Bag(t[hole := Empty])
    decreases if h < |t| && j < |t| then |t| - Dist(|t|, h, j) else 0
  {
    if t[j].Empty? {
      ShiftEnd(t[hole := Empty], hash, hole, Dist(|t|, hole, j));
    } else {
      NextDist(|t|, h, hole, j);
      if Displaced(Home(hash, |t|, t[j].key), hole, j) {
        ShiftingMove(t, hash, h, hole, j, e);
        MoveKeepsBag(t, hole, j);
        if Next(|t|, j) != h {
          BackShiftCorrect(t[hole := t[j]], hash, h, j, Next(|t|, j), e);
        }
      } else {
        ShiftingStay(t, hash, h, hole, j, e);
        if Next(|t|, j) != h {
          BackShiftCorrect(t, hash, h, hole, Next(|t|, j), e);
        }
      }
    }
  }

  /** The table after deleting at `h`. */
  function Deleted<V>(t: seq<Slot<V>>, hash: nat -> nat, h: nat): (r: seq<Slot<V>>)
    requires h < |t|
    ensures |r| == |t|
  {
    BackShift(t, hash, h, h, Next(|t|, h))
  }

  lemma DeleteOnlySlot<V>(t: seq<Slot<V>>, hash: nat -> nat)
    requires |t| == 1
    ensures Deleted(t, hash, 0) == [Empty]
  {
  }

  /** Deleting at `h`.  Only tables of one or two slots are ever full. */
  lemma DeleteKeepsPlaced<V>(t: seq<Slot<V>>, hash: nat -> nat, h: nat)
    requires WellPlaced(t, hash) && h < |t| && t[h].Used?
    requires |Bag(t)| < |t| || |t| <= 2
    ensures WellPlaced(Deleted(t, hash, h), hash)
    ensures Bag(Deleted(t, hash, h)) == Bag(t) - multiset{t[h]}
  {
    BagUpdate(t, h, Empty);
    if |t| == 1 {
      DeleteOnlySlot(t, hash);
      assert t[h := Empty] == [Empty];
    } else {
      var e := h;
      if |t| > 2 {
        e := EmptySlotExists(t);
      }
      ShiftStart(t, hash, h);
      BackShiftCorrect(t, hash, h, h, Next(|t|, h), e);
    }
  }

  /** The backward-shift loop of `hash_index_remove`. */
  method RemoveAt<V>(slots: array<Slot<V>>, hash: nat -> nat, h: nat)
    requires h < slots.Length
    modifies slots
    ensures slots[..] == Deleted(old(slots[..]), hash, h)
  {
    var cap := slots.Length;
    var hole: nat, j: nat := h, Next(cap, h);
    while slots[j].Used?
      invariant j < cap && hole < cap
      invariant BackShift(slots[..], hash, h, hole, j) == BackShift(old(slots[..]), hash, h, h, Next(cap, h))
      decreases cap - Dist(cap, h, j)
    {
      ghost var t := slots[..];
      if Displaced(Home(hash, cap, slots[j].key), hole, j) {
        slots[hole] := slots[j];
        assert slots[..] == t[hole := t[j]];
        hole := j;
      }
      j := Next(cap, j);
      if j == h {
        break;
      }
    }
    ghost var t := slots[..];
    slots[hole] := Empty;
    assert slots[..] == t[hole := Empty];
  }

  /** The key has an entry in the old table that a probe no longer reaches. */
  ghost predicate Hidden(t: seq<Slot<Place>>, hash: nat -> nat, key: nat) {
    Has(t, key) && !Visible(t, hash, key)
  }

  /** Moves the entry at `c` of the old table to the new one. */
  method MigrateOne(slots: array<Slot<Place>>, oldSlots: array<Slot<Place>>, hash: nat -> nat, c: nat)
    requires slots != oldSlots && c < oldSlots.Length && oldSlots[c].Used?
    requires WellPlaced(slots[..], hash) && |Bag(slots[..])| < slots.Length
    modifies slots, oldSlots
    ensures WellPlaced(slots[..], hash)
    ensures Bag(slots[..]) + Bag(oldSlots[..]) == old(Bag(slots[..]) + Bag(oldSlots[..]))
    ensures |Bag(oldSlots[..])| + 1 == old(|Bag(oldSlots[..])|)
    ensures oldSlots[..] == old(oldSlots[..])[c := Empty]
  {
    ghost var o := oldSlots[..];
    BagUpdate(o, c, Empty);
    InsertIntoTable(slots, hash, oldSlots[c]);
    oldSlots[c] := Empty;
    assert oldSlots[..] == o[c := Empty];
  }

  /** Where the cursor is after `n` more migrations, or at the end of the table. */
  function CursorAfter(t: seq<Slot<Place>>, c: nat, n: nat): (d: nat)
    requires c <= |t|
    ensures c <= d <= |t|
    decreases |t| - c
  {
    if c == |t| || n == 0 then c else CursorAfter(t, c + 1, if t[c].Used? then n - 1 else n)
  }

  /** The migration loop: up to REHASH_BATCH entries from slot `c` on. */
  method MigrateBatch(slots: array<Slot<Place>>, oldSlots: array<Slot<Place>>, hash: nat -> nat, c0: nat, ghost count: nat)
      returns (c: nat)
    requires slots != oldSlots && c0 <= oldSlots.Length
    requires WellPlaced(slots[..], hash) && count == |Bag(slots[..])| + |Bag(oldSlots[..])| && count <= slots.Length
    requires forall i :: 0 <= i < c0 ==> oldSlots[i].Empty?
    modifies slots, oldSlots
    ensures c <= oldSlots.Length
    ensures WellPlaced(slots[..], hash)
    ensures Bag(slots[..]) + Bag(oldSlots[..]) == old(Bag(slots[..]) + Bag(oldSlots[..]))
    ensures c == CursorAfter(old(oldSlots[..]), c0, REHASH_BATCH)
    ensures forall i :: 0 <= i < oldSlots.Length ==> oldSlots[i] == if i < c then Empty else old(oldSlots[i])
    ensures c < oldSlots.Length ==>
              c >= REHASH_BATCH && |Bag(oldSlots[..])| + REHASH_BATCH == old(|Bag(oldSlots[..])|)
  {
    hide WellPlaced, Bag;
    c := c0;
    var migrated := 0;
    while c < oldSlots.Length && migrated < REHASH_BATCH
      invariant 0 <= migrated <= REHASH_BATCH && migrated <= c <= oldSlots.Length
      invariant CursorAfter(old(oldSlots[..]), c0, REHASH_BATCH) == CursorAfter(old(oldSlots[..]), c, REHASH_BATCH - migrated)
      invariant WellPlaced(slots[..], hash)
      invariant Bag(slots[..]) + Bag(oldSlots[..]) == old(Bag(slots[..]) + Bag(oldSlots[..]))
      invariant |Bag(oldSlots[..])| + migrated == old(|Bag(oldSlots[..])|)
      invariant forall i :: 0 <= i < oldSlots.Length ==> oldSlots[i] == if i < c then Empty else old(oldSlots[i])
    {
      if oldSlots[c].Used? {
        SomeEntry(oldSlots[..], c);
        SizeOfSum(Bag(slots[..]), Bag(oldSlots[..]));
        MigrateOne(slots, oldSlots, hash, c);
        migrated := migrated + 1;
      }
      c := c + 1;
    }
  }

  lemma SomeEntry<V>(t: seq<Slot<V>>, p: nat)
    requires p < |t| && t[p].Used?
    ensures |Bag(t)| > 0
  {
    assert t[p] in Bag(t);
  }

  lemma DropFromSum<T>(a: multiset<T>, b: multiset<T>, x: T)
    requires x in b
    ensures a + (b - multiset{x}) == a + b - multiset{x}
    ensures (b - multiset{x}) + a == b + a - multiset{x}
    ensures |b - multiset{x}| == |b| - 1
    ensures x in a + b && x in b + a
  {
  }

  lemma SizeOfSum<T>(a: multiset<T>, b: multiset<T>)
    ensures |a + b| == |a| + |b|
  {
  }

  lemma UpdateKeepsPlaced<V>(t: seq<Slot<V>>, hash: nat -> nat, p: nat, x: Slot<V>)
    requires WellPlaced(t, hash) && p < |t| && t[p].Used? && x.Used? && x.key == t[p].key
    ensures WellPlaced(t[p := x], hash)
  {
    var u := t[p := x];
    forall i, j | 0 <= i < |u| && 0 <= j < |u| && u[i].Used? && Before(u, hash, u[i].key, j, i)
      ensures u[j].Used?
    {
      assert Before(t, hash, t[i].key, j, i);
    }
  }

  /** The two tables and the counters, as a value.  `base` is the old table when the grow began, and
      `gone` the slots removed from it since. */
  datatype Tables = Tables(cur: seq<Slot<Place>>, prev: seq<Slot<Place>>, count: nat, cursor: nat, grownAt: nat,
                           base: seq<Slot<Place>>, gone: set<nat>)

  /** `t` is the table `base` without the slots below the cursor and those removed; values may differ. */
  ghost predicate Thinned(base: seq<Slot<Place>>, t: seq<Slot<Place>>, cursor: nat, gone: set<nat>) {
    && |t| == |base|
    && forall i :: 0 <= i < |t| ==>
         && (t[i].Used? <==> base[i].Used? && cursor <= i && i !in gone)
         && (t[i].Used? ==> t[i].key == base[i].key)
  }

  /** All entries, over both tables. */
  ghost function Entries(s: Tables): multiset<Slot<Place>> {
    Bag(s.cur) + Bag(s.prev)
  }

  /** What every operation keeps.  `prev` is empty unless a grow is in progress; then
      `grownAt` is the count when it began, and the last clause is what the sixteen
      migrations per operation pay for: the new table cannot fill before the old drains. */
  ghost predicate Sound(s: Tables, hash: nat -> nat) {
    && IsPow2(|s.cur|) && WellPlaced(s.cur, hash)
    && s.count == |Bag(s.cur)| + |Bag(s.prev)|
    && (|s.prev| == 0 ==> 10 * s.count <= 7 * |s.cur| + 10)
    && (|s.prev| > 0 ==>
          && |s.cur| == 2 * |s.prev| && s.cursor < |s.prev|
          && WellPlaced(s.base, hash) && Thinned(s.base, s.prev, s.cursor, s.gone)
          && 10 * s.grownAt <= 7 * |s.prev| + 10
          && 16 * s.count + |Bag(s.prev)| <= 17 * s.grownAt + 16)
  }

  lemma SoundCur(s: Tables, hash: nat -> nat)
    requires Sound(s, hash)
    ensures |s.cur| > 0 && WellPlaced(s.cur, hash)
  {
  }

  /** The current table always has an empty slot, unless it has only one or two slots. */
  lemma NeverFull(s: Tables, hash: nat -> nat)
    requires Sound(s, hash)
    ensures |s.cur| >= 4 ==> |Bag(s.cur)| < |s.cur|
    ensures |Bag(s.prev)| > 0 ==> |Bag(s.cur)| < |s.cur|
  {
  }

  lemma SoundUpdateCur(s: Tables, hash: nat -> nat, h: nat, x: Slot<Place>)
    requires Sound(s, hash) && h < |s.cur| && s.cur[h].Used? && x.Used? && x.key == s.cur[h].key
    ensures Sound(s.(cur := s.cur[h := x]), hash)
    ensures s.cur[h] in Entries(s)
    ensures Entries(s.(cur := s.cur[h := x])) == Entries(s) - multiset{s.cur[h]} + multiset{x}
  {
    BagUpdate(s.cur, h, x);
    UpdateKeepsPlaced(s.cur, hash, h, x);
  }

  lemma SoundUpdatePrev(s: Tables, hash: nat -> nat, h: nat, x: Slot<Place>)
    requires Sound(s, hash) && h < |s.prev| && s.prev[h].Used? && x.Used? && x.key == s.prev[h].key
    ensures Sound(s.(prev := s.prev[h := x]), hash)
    ensures s.prev[h] in Entries(s)
    ensures Entries(s.(prev := s.prev[h := x])) == Entries(s) - multiset{s.prev[h]} + multiset{x}
  {
    BagUpdate(s.prev, h, x);
  }

  /** There is room for one more entry without breaking Sound. */
  ghost predicate Roomy(s: Tables) {
    && |Bag(s.cur)| < |s.cur|
    && (|s.prev| == 0 ==> 10 * s.count <= 7 * |s.cur|)
    && (|s.prev| > 0 ==> 16 * (s.count + 1) + |Bag(s.prev)| <= 17 * s.grownAt + 16)
  }

  lemma RoomLeft(s: Tables, hash: nat -> nat)
    requires Sound(s, hash) && (|s.prev| == 0 ==> 10 * s.count <= 7 * |s.cur|)
    requires |s.prev| > 0 ==> 16 * (s.count + 1) + |Bag(s.prev)| <= 17 * s.grownAt + 16
    ensures Roomy(s)
  {
  }

  /** A step that leaves the old table standing has paid for one more entry. */
  lemma StepPays(s: Tables, t: Tables, hash: nat -> nat)
    requires Sound(s, hash) && |s.prev| > 0 && t.count == s.count && t.grownAt == s.grownAt
    requires |Bag(t.prev)| + REHASH_BATCH == |Bag(s.prev)|
    ensures 16 * (t.count + 1) + |Bag(t.prev)| <= 17 * t.grownAt + 16
  {
  }

  lemma NoneThere(hash: nat -> nat)
    ensures forall key :: !Hidden([], hash, key)
  {
  }

  lemma SoundAdd(s: Tables, hash: nat -> nat, h: nat, x: Slot<Place>)
    requires Sound(s, hash) && Roomy(s) && x.Used? && StopsAt(s.cur, hash, x.key, h)
    ensures Sound(s.(cur := s.cur[h := x], count := s.count + 1), hash)
    ensures Entries(s.(cur := s.cur[h := x], count := s.count + 1)) == Entries(s) + multiset{x}
  {
    BagUpdate(s.cur, h, x);
    InsertKeepsPlaced(s.cur, hash, h, x);
  }

  lemma SoundRemoveCur(s: Tables, hash: nat -> nat, h: nat)
    requires Sound(s, hash) && h < |s.cur| && s.cur[h].Used?
    ensures s.count > 0 && s.cur[h] in Entries(s)
    ensures var t := s.(cur := Deleted(s.cur, hash, h), count := s.count - 1);
            Sound(t, hash) && Entries(t) == Entries(s) - multiset{s.cur[h]}
  {
    NeverFull(s, hash);
    DeleteKeepsPlaced(s.cur, hash, h);
    BagMember(s.cur, s.cur[h]);
    DropFromSum(Bag(s.prev), Bag(s.cur), s.cur[h]);
  }

  lemma SoundRemovePrev(s: Tables, hash: nat -> nat, h: nat)
    requires Sound(s, hash) && h < |s.prev| && s.prev[h].Used?
    ensures s.count > 0 && s.prev[h] in Entries(s)
    ensures var t := s.(prev := s.prev[h := Empty], count := s.count - 1, gone := s.gone + {h});
            Sound(t, hash) && Entries(t) == Entries(s) - multiset{s.prev[h]}
  {
    BagUpdate(s.prev, h, Empty);
    DropFromSum(Bag(s.cur), Bag(s.prev), s.prev[h]);
  }

  /** A batch of migrations, and dropping the old table once it is drained. */
  lemma SoundMigrated(s: Tables, hash: nat -> nat, t: Tables)
    requires Sound(s, hash) && |s.prev| > 0
    requires |t.cur| == |s.cur| && WellPlaced(t.cur, hash) && |t.prev| == |s.prev| && t.cursor <= |t.prev|
    requires Entries(t) == Entries(s) && t.count == s.count && t.grownAt == s.grownAt
    requires t.base == s.base && t.gone == s.gone && s.cursor <= t.cursor
    requires forall i :: 0 <= i < |t.prev| ==> t.prev[i] == if i < t.cursor then Empty else s.prev[i]
    requires t.cursor < |t.prev| ==> |Bag(t.prev)| <= |Bag(s.prev)|
    ensures t.cursor < |t.prev| ==> Sound(t, hash)
    ensures t.cursor == |t.prev| ==>
              var u := t.(prev := [], cursor := 0); Sound(u, hash) && Entries(u) == Entries(s)
  {
    SizeOfSum(Bag(s.cur), Bag(s.prev));
    SizeOfSum(Bag(t.cur), Bag(t.prev));
    if t.cursor == |t.prev| {
      AllEmptyBag(t.prev);
    }
  }

  lemma RepresentsAdd(bag: multiset<Slot<Place>>, m: map<nat, Place>, key: nat, v: Place)
    requires Represents(bag, m)
    ensures Represents(bag + multiset{Used(key, v)}, m[key := v]) <==> key !in m
  {
    var b := bag + multiset{Used(key, v)};
    if key in m {
      assert Used(key, m[key]) in b;
      assert m[key] == v ==> b[Used(key, v)] == 2;
    } else {
      assert Used(key, v) !in bag;
    }
  }

  lemma RepresentsReplace(bag: multiset<Slot<Place>>, m: map<nat, Place>, x: Slot<Place>, v: Place)
    requires Represents(bag, m) && x in bag
    ensures Represents(bag - multiset{x} + multiset{Used(x.key, v)}, m[x.key := v])
  {
    assert bag[x] == 1 && m[x.key] == x.val;
  }

  lemma RepresentsRemove(bag: multiset<Slot<Place>>, m: map<nat, Place>, x: Slot<Place>)
    requires Represents(bag, m) && x in bag
    ensures Represents(bag - multiset{x}, m - {x.key})
  {
    assert bag[x] == 1 && m[x.key] == x.val;
  }

  /** Whether the entries hold the key at all, seen from the two tables. */
  lemma EntriesHas(s: Tables, m: map<nat, Place>, key: nat)
    requires Represents(Entries(s), m)
    ensures key in m <==> Has(s.cur, key) || Has(s.prev, key)
  {
    if key in m {
      var x := Used(key, m[key]);
      assert x in Bag(s.cur) || x in Bag(s.prev);
      BagMember(s.cur, x);
      BagMember(s.prev, x);
    }
    if Has(s.cur, key) {
      var p :| 0 <= p < |s.cur| && s.cur[p].Used? && s.cur[p].key == key;
      BagMember(s.cur, s.cur[p]);
      assert s.cur[p] in Entries(s);
    }
    if Has(s.prev, key) {
      var p :| 0 <= p < |s.prev| && s.prev[p].Used? && s.prev[p].key == key;
      BagMember(s.prev, s.prev[p]);
      assert s.prev[p] in Entries(s);
    }
  }

  /** One entry per key: it cannot be in both tables. */
  lemma InOneTable(s: Tables, m: map<nat, Place>, key: nat)
    requires Represents(Entries(s), m) && Has(s.cur, key)
    ensures !Has(s.prev, key)
  {
    var p :| 0 <= p < |s.cur| && s.cur[p].Used? && s.cur[p].key == key;
    BagMember(s.cur, s.cur[p]);
    forall q | 0 <= q < |s.prev| && s.prev[q].Used?
      ensures s.prev[q].key != key
    {
      BagMember(s.prev, s.prev[q]);
      assert s.prev[q] in Entries(s) && s.cur[p] in Entries(s);
      assert s.prev[q] == s.cur[p] ==> Entries(s)[s.cur[p]] >= 2;
    }
  }

  /** The three ways a put can end, and when each of them is map update. */
  lemma PutInCur(s: Tables, hash: nat -> nat, h: nat, v: Place, m: map<nat, Place>)
    requires Sound(s, hash) && h < |s.cur| && s.cur[h].Used?
    ensures var t := s.(cur := s.cur[h := Used(s.cur[h].key, v)]);
            && Sound(t, hash)
            && (Represents(Entries(s), m) ==>
                  Represents(Entries(t), m[s.cur[h].key := v]) && !Hidden(t.prev, hash, s.cur[h].key))
  {
    SoundUpdateCur(s, hash, h, Used(s.cur[h].key, v));
    if Represents(Entries(s), m) {
      RepresentsReplace(Entries(s), m, s.cur[h], v);
      InOneTable(s, m, s.cur[h].key);
    }
  }

  lemma PutInPrev(s: Tables, hash: nat -> nat, h: nat, v: Place, m: map<nat, Place>)
    requires Sound(s, hash) && h < |s.prev| && s.prev[h].Used? && FoundAt(s.prev, hash, s.prev[h].key, h)
    ensures var t := s.(prev := s.prev[h := Used(s.prev[h].key, v)]);
            && Sound(t, hash)
            && !Hidden(t.prev, hash, s.prev[h].key)
            && (Represents(Entries(s), m) ==> Represents(Entries(t), m[s.prev[h].key := v]))
  {
    var x := Used(s.prev[h].key, v);
    SoundUpdatePrev(s, hash, h, x);
    var u := s.prev[h := x];
    forall q | 0 <= q < |u| && Before(u, hash, x.key, q, h)
      ensures u[q].Used? && u[q].key != x.key
    {
      assert Before(s.prev, hash, x.key, q, h);
    }
    assert FoundAt(u, hash, x.key, h);
    if Represents(Entries(s), m) {
      RepresentsReplace(Entries(s), m, s.prev[h], v);
    }
  }

  lemma PutFresh(s: Tables, hash: nat -> nat, h: nat, key: nat, v: Place, m: map<nat, Place>)
    requires Sound(s, hash) && Roomy(s) && StopsAt(s.cur, hash, key, h)
    requires !Visible(s.cur, hash, key) && !Visible(s.prev, hash, key)
    ensures var t := s.(cur := s.cur[h := Used(key, v)], count := s.count + 1);
            && Sound(t, hash)
            && (Represents(Entries(s), m) ==>
                  (Represents(Entries(t), m[key := v]) <==> !Hidden(t.prev, hash, key)))
  {
    SoundAdd(s, hash, h, Used(key, v));
    if Represents(Entries(s), m) {
      RepresentsAdd(Entries(s), m, key, v);
      EntriesHas(s, m, key);
      PlacedIsVisible(s.cur, hash, key);
    }
  }

  lemma FoundInCur(s: Tables, hash: nat -> nat, p: nat, m: map<nat, Place>)
    requires Sound(s, hash) && p < |s.cur| && s.cur[p].Used?
    ensures s.cur[p] in Entries(s)
    ensures Represents(Entries(s), m) ==>
              s.cur[p].key in m && m[s.cur[p].key] == s.cur[p].val && !Hidden(s.prev, hash, s.cur[p].key)
  {
    BagMember(s.cur, s.cur[p]);
    if Represents(Entries(s), m) {
      InOneTable(s, m, s.cur[p].key);
    }
  }

  lemma FoundInPrev(s: Tables, hash: nat -> nat, p: nat, m: map<nat, Place>)
    requires p < |s.prev| && s.prev[p].Used? && FoundAt(s.prev, hash, s.prev[p].key, p)
    ensures s.prev[p] in Entries(s) && !Hidden(s.prev, hash, s.prev[p].key)
    ensures Represents(Entries(s), m) ==> s.prev[p].key in m && m[s.prev[p].key] == s.prev[p].val
  {
    BagMember(s.prev, s.prev[p]);
  }

  lemma NotFoundAnywhere(s: Tables, hash: nat -> nat, key: nat, m: map<nat, Place>)
    requires Sound(s, hash) && !Has(s.cur, key) && !Visible(s.prev, hash, key)
    ensures Represents(Entries(s), m) ==> (key in m <==> Hidden(s.prev, hash, key))
    ensures Represents(Entries(s), m) ==> (Represents(Entries(s), m - {key}) <==> key !in m)
  {
    if Represents(Entries(s), m) {
      EntriesHas(s, m, key);
      if key in m {
        assert Used(key, m[key]) in Entries(s);
      } else {
        assert m - {key} == m;
      }
    }
  }

  lemma RemovedFromCur(s: Tables, hash: nat -> nat, p: nat, m: map<nat, Place>)
    requires Sound(s, hash) && p < |s.cur| && s.cur[p].Used?
    ensures s.count > 0 && s.cur[p] in Entries(s)
    ensures var t := s.(cur := Deleted(s.cur, hash, p), count := s.count - 1);
            && Sound(t, hash) && Entries(t) == Entries(s) - multiset{s.cur[p]}
            && (Represents(Entries(s), m) ==>
                  Represents(Entries(t), m - {s.cur[p].key}) && !Hidden(t.prev, hash, s.cur[p].key))
  {
    SoundRemoveCur(s, hash, p);
    if Represents(Entries(s), m) {
      RepresentsRemove(Entries(s), m, s.cur[p]);
      InOneTable(s, m, s.cur[p].key);
    }
  }

  lemma RemovedFromPrev(s: Tables, hash: nat -> nat, p: nat, m: map<nat, Place>)
    requires Sound(s, hash) && p < |s.prev| && s.prev[p].Used?
    ensures s.count > 0 && s.prev[p] in Entries(s)
    ensures var t := s.(prev := s.prev[p := Empty], count := s.count - 1, gone := s.gone + {p});
            && Sound(t, hash) && Entries(t) == Entries(s) - multiset{s.prev[p]}
            && (Represents(Entries(s), m) ==>
                  Represents(Entries(t), m - {s.prev[p].key}) && !Hidden(t.prev, hash, s.prev[p].key))
  {
    SoundRemovePrev(s, hash, p);
    if Represents(Entries(s), m) {
      RepresentsRemove(Entries(s), m, s.prev[p]);
      EntriesHas(s.(prev := s.prev[p := Empty], count := s.count - 1, gone := s.gone + {p}), m - {s.prev[p].key},
                 s.prev[p].key);
    }
  }

  /** A key the tables do not hold cannot be hidden: putting fresh keys keeps the tables exact,
      even in the middle of a rehash. */
  lemma FreshIsNotHidden(s: Tables, hash: nat -> nat, m: map<nat, Place>, key: nat)
    requires Represents(Entries(s), m) && key !in m
    ensures !Hidden(s.prev, hash, key)
  {
    EntriesHas(s, m, key);
  }

  lemma FreshIsNowhere(s: Tables, m: map<nat, Place>, key: nat)
    requires Represents(Entries(s), m) && key !in m
    ensures forall i :: 0 <= i < |s.cur| && s.cur[i].Used? ==> s.cur[i].key != key
    ensures forall i :: 0 <= i < |s.prev| && s.prev[i].Used? ==> s.prev[i].key != key
  {
    EntriesHas(s, m, key);
  }

  /** The old table after the rehash step that starts every operation; none once it is drained. */
  ghost function AfterStep(t: seq<Slot<Place>>, c: nat): seq<Slot<Place>> {
    if c >= |t| || CursorAfter(t, c, REHASH_BATCH) == |t| then []
    else seq(|t|, i requires 0 <= i < |t| => if i < CursorAfter(t, c, REHASH_BATCH) then Empty else t[i])
  }

  lemma NothingHidden(t: seq<Slot<Place>>, hash: nat -> nat)
    requires WellPlaced(t, hash)
    ensures forall key :: !Hidden(t, hash, key)
  {
    forall key: nat
      ensures !Hidden(t, hash, key)
    {
      PlacedIsVisible(t, hash, key);
    }
  }

  lemma FoundIsSeen(t: seq<Slot<Place>>, hash: nat -> nat, key: nat, p: nat)
    requires FoundAt(t, hash, key, p)
    ensures !Hidden(t, hash, key)
  {
  }

  ghost predicate OneEach(t: seq<Slot<Place>>) {
    forall i, j :: 0 <= i < j < |t| && t[i].Used? && t[j].Used? ==> t[i].key != t[j].key
  }

  /** What an old table hides: a probe for the entry at `p` fails exactly when it must pass a slot that
      was migrated or removed. */
  lemma {:induction false} HolesHide(base: seq<Slot<Place>>, t: seq<Slot<Place>>, hash: nat -> nat, c: nat, gone: set<nat>, p: nat)
    requires WellPlaced(base, hash) && Thinned(base, t, c, gone) && OneEach(t) && p < |t| && t[p].Used?
    ensures Hidden(t, hash, t[p].key) <==>
            exists q :: 0 <= q < |t| && Before(t, hash, t[p].key, q, p) && (q < c || q in gone)
  {
    var key := t[p].key;
    if q :| 0 <= q < |t| && Before(t, hash, key, q, p) && (q < c || q in gone) {
      assert t[q].Empty?;
      forall r | 0 <= r < |t|
        ensures !FoundAt(t, hash, key, r)
      {
        assert r != p ==> !(t[r].Used? && t[r].key == key);
      }
    } else {
      forall q | 0 <= q < |t| && Before(t, hash, key, q, p)
        ensures t[q].Used? && t[q].key != key
      {
        assert Before(base, hash, base[p].key, q, p);
      }
      assert FoundAt(t, hash, key, p);
    }
  }

  /** Exact tables hold a key once. */
  lemma {:induction false} ExactOneEach(s: Tables, m: map<nat, Place>)
    requires Represents(Entries(s), m)
    ensures OneEach(s.prev)
  {
    forall i, j | 0 <= i < j < |s.prev| && s.prev[i].Used? && s.prev[j].Used?
      ensures s.prev[i].key != s.prev[j].key
    {
      BagMember(s.prev, s.prev[i]);
      BagMember(s.prev, s.prev[j]);
      assert s.prev[i] in Entries(s) && s.prev[j] in Entries(s);
      CountsTwice(s.prev, i, j);
      assert Entries(s)[s.prev[i]] >= Bag(s.prev)[s.prev[i]];
    }
  }

  /** What an operation misses, told before it is called: the entry at `p` of the old table, when the
      coming step leaves it there and its path crosses a slot that is then migrated or was removed. */
  lemma MissedIff(s: Tables, hash: nat -> nat, m: map<nat, Place>, p: nat)
    requires Sound(s, hash) && Represents(Entries(s), m) && p < |s.prev| && s.prev[p].Used?
    ensures var d := CursorAfter(s.prev, s.cursor, REHASH_BATCH);
            Hidden(AfterStep(s.prev, s.cursor), hash, s.prev[p].key) <==>
            d <= p && exists q :: 0 <= q < |s.prev| && Before(s.prev, hash, s.prev[p].key, q, p) && (q < d || q in s.gone)
  {
    hide WellPlaced, Bag, Represents, CursorAfter, OneEach;
    var d, t, key := CursorAfter(s.prev, s.cursor, REHASH_BATCH), AfterStep(s.prev, s.cursor), s.prev[p].key;
    ExactOneEach(s, m);
    if d < |s.prev| {
      assert Thinned(s.base, t, d, s.gone);
      OneEachLess(s.prev, t);
      if p < d {
        NotThere(s.prev, t, p);
      } else {
        assert t[p] == s.prev[p];
        HolesHide(s.base, t, hash, d, s.gone, p);
        assert forall q :: 0 <= q < |t| ==> (Before(t, hash, key, q, p) <==> Before(s.prev, hash, key, q, p));
      }
    }
  }

  lemma OneEachLess(t: seq<Slot<Place>>, u: seq<Slot<Place>>)
    requires OneEach(t) && |u| == |t| && forall i :: 0 <= i < |t| ==> u[i].Empty? || u[i] == t[i]
    ensures OneEach(u)
  {
  }

  lemma NotThere(t: seq<Slot<Place>>, u: seq<Slot<Place>>, p: nat)
    requires OneEach(t) && |u| == |t| && forall i :: 0 <= i < |t| ==> u[i].Empty? || u[i] == t[i]
    requires p < |t| && t[p].Used? && u[p].Empty?
    ensures !Has(u, t[p].key)
  {
    forall q | 0 <= q < |u| && u[q].Used?
      ensures u[q].key != t[p].key
    {
      assert q < p || p < q;
    }
  }

  /** Keys that all hash to slot 0 fill the table from there. */
  lemma OneCluster<V>(t: seq<Slot<V>>, hash: nat -> nat, n: nat)
    requires WellPlaced(t, hash) && (forall k :: hash(k) == 0) && n < |Bag(t)|
    ensures n < |t| && t[n].Used?
  {
    BagSize(t);
    if t[n].Empty? {
      forall p | n < p < |t|
        ensures t[p].Empty?
      {
        assert t[p].Used? ==> Before(t, hash, t[p].key, n, p);
      }
      BagOfFront(t, n);
    }
  }

  lemma BagOfFront<V>(t: seq<Slot<V>>, n: nat)
    requires n <= |t| && forall p :: n <= p < |t| ==> t[p].Empty?
    ensures |Bag(t)| <= n
  {
    var a, b := t[..n], t[n..];
    assert t == a + b;
    AllEmptyBag(b);
    assert Bag(t) == Bag(a) + Bag(b);
    BagSize(a);
  }

  lemma {:induction false} CursorOverUsed(t: seq<Slot<Place>>, c: nat, n: nat)
    requires c + n <= |t| && forall i :: c <= i < c + n ==> t[i].Used?
    ensures CursorAfter(t, c, n) == c + n
    decreases n
  {
    if n > 0 {
      CursorOverUsed(t, c + 1, n - 1);
    }
  }

  /** When a grow begins over a cluster of more than 16 keys, the next operation empties the 16 slots
      in front of the others, and misses the key behind them. */
  lemma ClusterHides(s: Tables, hash: nat -> nat, m: map<nat, Place>)
    requires Sound(s, hash) && Represents(Entries(s), m) && s.cursor == 0 && s.gone == {}
    requires (forall k :: hash(k) == 0) && WellPlaced(s.prev, hash) && |Bag(s.prev)| > REHASH_BATCH
    ensures |s.prev| > REHASH_BATCH && s.prev[REHASH_BATCH].Used? && s.prev[REHASH_BATCH].key in m
    ensures Hidden(AfterStep(s.prev, 0), hash, s.prev[REHASH_BATCH].key)
  {
    hide Sound, Bag, WellPlaced;
    forall n | 0 <= n <= REHASH_BATCH
      ensures n < |s.prev| && s.prev[n].Used?
    {
      OneCluster(s.prev, hash, n);
    }
    OneCluster(s.prev, hash, REHASH_BATCH);
    CursorOverUsed(s.prev, 0, REHASH_BATCH);
    MissedIff(s, hash, m, REHASH_BATCH);
    assert Before(s.prev, hash, s.prev[REHASH_BATCH].key, 0, REHASH_BATCH);
    BagMember(s.prev, s.prev[REHASH_BATCH]);
    assert s.prev[REHASH_BATCH] in Entries(s);
  }

  class HashIndex {
    const hash: nat -> nat
    var slots: array<Slot<Place>>
    var count: nat
    var oldSlots: array?<Slot<Place>>
    var cursor: nat
    ghost var model: Tables              // the fields above, as a value
    ghost var contents: map<nat, Place>  // what an ideal map would hold

    ghost function Repr(): set<object?>
      reads this
    {
      if oldSlots == null then {this, slots} else {this, slots, oldSlots}
    }

    ghost predicate Valid()
      reads Repr()
    {
      && model.cur == slots[..] && model.count == count && model.cursor == cursor
      && model.prev == (if oldSlots == null then [] else oldSlots[..])
      && (oldSlots != null ==> oldSlots != slots && oldSlots.Length > 0)
      && (Sound(model, hash) == true)  // an equality, so that it is carried around as one fact
    }

    /** The entries are exactly the ideal map: one per key, nothing else. */
    ghost predicate Exact()
      reads this
    {
      Represents(Entries(model), contents)
    }

    /** The next operation on this key would miss an entry of it in the old table. */
    ghost predicate WillMiss(key: nat)
      reads this
    {
      Hidden(AfterStep(model.prev, model.cursor), hash, key)
    }

    /** A probe would miss an entry of this key that is still in the old table. */
    ghost predicate HiddenKey(key: nat)
      reads this
    {
      Hidden(model.prev, hash, key)
    }

    constructor (hash: nat -> nat, capacity: nat)
      ensures Valid() && fresh(Repr())
      ensures this.hash == hash && contents == map[] && Exact()
      ensures capacity <= slots.Length && count == 0 && oldSlots == null
    {
      var cap := 1;
      while cap < capacity
        invariant IsPow2(cap)
        decreases capacity - cap
      {
        cap := cap * 2;
      }
      this.hash := hash;
      slots := new Slot<Place>[cap](_ => Empty);
      count, oldSlots, cursor, contents := 0, null, 0, map[];
      new;
      AllEmptyBag(slots[..]);
      model := Tables(slots[..], [], 0, 0, 0, [], {});
    }

    /** Migrates up to REHASH_BATCH entries; conserves the entries of the two tables. */
    method RehashStep()
      requires Valid()
      modifies Repr()
      ensures Valid() && slots == old(slots) && (oldSlots == null || oldSlots == old(oldSlots))
      ensures Entries(model) == old(Entries(model)) && contents == old(contents)
      ensures model.count == old(model.count) && model.grownAt == old(model.grownAt)
      ensures oldSlots != null ==>
                |model.prev| > REHASH_BATCH && |Bag(model.prev)| + REHASH_BATCH == old(|Bag(model.prev)|)
      ensures model.prev == AfterStep(old(model.prev), old(model.cursor))
      ensures old(oldSlots) == null ==> model == old(model) && oldSlots == null
    {
      hide WellPlaced, Bag, CursorAfter;
      if oldSlots == null {
        return;
      }
      cursor := MigrateBatch(slots, oldSlots, hash, cursor, count);
      ghost var t := Tables(slots[..], oldSlots[..], count, cursor, model.grownAt, model.base, model.gone);
      SoundMigrated(model, hash, t);
      if cursor >= oldSlots.Length {
        oldSlots, cursor := null, 0;
        t := t.(prev := [], cursor := 0);
      }
      model := t;
    }

    /** Starts a grow: the current table becomes the old one. */
    method BeginGrow()
      requires Valid() && oldSlots == null
      modifies this
      ensures Valid() && fresh(Repr() - old(Repr())) && contents == old(contents)
      ensures Entries(model) == old(Entries(model))
      ensures oldSlots != null && Bag(model.cur) == multiset{}
      ensures model.grownAt == model.count == |Bag(model.prev)|
      ensures oldSlots == old(slots) && model.prev == old(model.cur) && cursor == 0 && model.gone == {} && count == old(count)
      ensures forall key :: !HiddenKey(key)
    {
      NothingHidden(slots[..], hash);
      var newSlots := new Slot<Place>[slots.Length * 2](_ => Empty);
      AllEmptyBag(newSlots[..]);
      model := Tables(newSlots[..], slots[..], count, 0, count, slots[..], {});
      oldSlots, cursor := slots, 0;
      slots := newSlots;
    }

    /** The part of `hash_index_put` before the probe: one rehash step, then maybe a grow. */
    method MakeRoom()
      requires Valid()
      modifies Repr()
      ensures Valid() && fresh(Repr() - old(Repr()))
      ensures Entries(model) == old(Entries(model)) && contents == old(contents)
      ensures Roomy(model) && forall key :: HiddenKey(key) <==> old(WillMiss(key))
      ensures count == old(count)
      ensures old(oldSlots) == null ==>
                if old(count * 10 > slots.Length * 7)
                then oldSlots == old(slots) && model.prev == old(model.cur) && cursor == 0 && model.gone == {}
                else oldSlots == null && slots == old(slots)
    {
      hide Sound, Bag, Hidden, AfterStep, Roomy;
      ghost var s := model;
      RehashStep();
      NoneThere(hash);
      if oldSlots == null && count * 10 > slots.Length * 7 {
        BeginGrow();
      } else if oldSlots != null {
        StepPays(s, model, hash);
      }
      RoomLeft(model, hash);
    }

    method PutAtCur(h: nat, key: nat, place: Place)
      requires Valid() && h < slots.Length && slots[h].Used? && slots[h].key == key
      modifies slots, this`model, this`contents
      ensures Valid() && contents == old(contents)[key := place]
      ensures old(Exact()) ==> Exact() && !old(HiddenKey(key))
    {
      hide Represents, Hidden, Sound, Entries;
      PutInCur(model, hash, h, place, contents);
      slots[h] := Used(key, place);
      model := model.(cur := slots[..]);
      contents := contents[key := place];
    }

    method PutAtPrev(p: nat, key: nat, place: Place)
      requires Valid() && oldSlots != null && FoundAt(oldSlots[..], hash, key, p)
      modifies oldSlots, this`model, this`contents
      ensures Valid() && contents == old(contents)[key := place]
      ensures old(Exact()) ==> Exact() && !old(HiddenKey(key))
    {
      hide Represents, Hidden, Sound, Entries;
      FoundIsSeen(model.prev, hash, key, p);
      PutInPrev(model, hash, p, place, contents);
      oldSlots[p] := Used(key, place);
      model := model.(prev := oldSlots[..]);
      contents := contents[key := place];
    }

    method PutAtEmpty(h: nat, key: nat, place: Place)
      requires Valid() && Roomy(model) && StopsAt(slots[..], hash, key, h)
      requires !Visible(model.cur, hash, key) && !Visible(model.prev, hash, key)
      modifies slots, this`count, this`model, this`contents
      ensures Valid() && contents == old(contents)[key := place]
      ensures count == old(count) + 1 && model.prev == old(model.prev) && model.gone == old(model.gone)
      ensures old(Exact()) ==> (Exact() <==> !old(HiddenKey(key)))
    {
      hide Represents, Hidden, Sound, Entries;
      PutFresh(model, hash, h, key, place, contents);
      slots[h] := Used(key, place);
      count := count + 1;
      model := model.(cur := slots[..], count := count);
      contents := contents[key := place];
    }

    /** The probes of `hash_index_put` and the write they lead to. */
    method PutInRoom(key: nat, place: Place)
      requires Valid() && Roomy(model)
      modifies Repr()
      ensures Valid() && slots == old(slots) && oldSlots == old(oldSlots)
      ensures contents == old(contents)[key := place]
      ensures old(Exact()) ==> (Exact() <==> !old(HiddenKey(key)))
      ensures old(Exact()) && key !in old(contents) ==> Exact() && count == old(count) + 1
      ensures old(Exact()) && key !in old(contents) ==> model.prev == old(model.prev) && model.gone == old(model.gone)
      ensures cursor == old(cursor)
    {
      hide Represents, Hidden, Sound, Entries, WellPlaced;
      if Exact() && key !in contents {
        FreshIsNotHidden(model, hash, contents, key);
        FreshIsNowhere(model, contents, key);
      }
      var h := ProbeForPut(slots, hash, key);
      var found, p := false, 0;
      if slots[h].Empty? && oldSlots != null {
        found, p := FindSlot(oldSlots, hash, key);
      }
      if slots[h].Used? {
        PutAtCur(h, key, place);
      } else if found {
        PutAtPrev(p, key, place);
      } else {
        PutAtEmpty(h, key, place);
      }
    }

    /** Inserts or updates.  With exact tables this is map update, and they stay exact unless the
        operation misses an entry of the key. */
    method Put(key: nat, place: Place) returns (st: Status)
      requires Valid()
      modifies Repr()
      ensures Valid() && fresh(Repr() - old(Repr()))
      ensures st == if key == 0 then Invalid else Ok
      ensures contents == if key == 0 then old(contents) else old(contents)[key := place]
      ensures key == 0 ==> Entries(model) == old(Entries(model))
      ensures key != 0 && old(Exact()) ==> (Exact() <==> !old(WillMiss(key)))
      ensures old(Exact()) && key !in old(contents) ==> Exact()
      ensures key != 0 && old(Exact()) && key !in old(contents) && old(oldSlots) == null ==>
                && count == old(count) + 1
                && if old(count * 10 > slots.Length * 7)
                   then oldSlots == old(slots) && model.prev == old(model.cur) && cursor == 0 && model.gone == {}
                   else oldSlots == null && slots == old(slots)
    {
      if key == 0 {
        return Invalid;
      }
      MakeRoom();
      PutInRoom(key, place);
      return Ok;
    }

    /** Looks a key up.  With exact tables the answer is the ideal map's unless the lookup misses an
        entry of the key; it misses none while no grow is in progress. */
    method Get(key: nat) returns (st: Status, place: Place)
      requires Valid()
      modifies Repr()
      ensures Valid() && slots == old(slots) && (oldSlots == null || oldSlots == old(oldSlots))
      ensures Entries(model) == old(Entries(model)) && contents == old(contents)
      ensures st == Ok || st == NotFound
      ensures st == Ok ==> Used(key, place) in Entries(model)
      ensures key != 0 && old(Exact()) ==>
                (old(WillMiss(key)) <==> !(if key in contents then st == Ok && place == contents[key] else st == NotFound))
      ensures old(oldSlots) == null ==> !old(WillMiss(key))
    {
      place := Place(0, 0);
      if key == 0 {
        return NotFound, place;
      }
      RehashStep();
      var found, p := FindSlot(slots, hash, key);
      if found {
        FoundInCur(model, hash, p, contents);
        return Ok, slots[p].val;
      }
      if oldSlots != null {
        found, p := FindSlot(oldSlots, hash, key);
        if found {
          FoundInPrev(model, hash, p, contents);
          return Ok, oldSlots[p].val;
        }
      }
      NotFoundAnywhere(model, hash, key, contents);
      return NotFound, place;
    }

    /** Removes a key: backward shift in the current table, a bare hole in the old one. */
    method Remove(key: nat) returns (st: Status, ghost was: Slot<Place>)
      requires Valid()
      modifies Repr()
      ensures Valid() && slots == old(slots) && (oldSlots == null || oldSlots == old(oldSlots))
      ensures contents == if key == 0 then old(contents) else old(contents) - {key}
      ensures st == Ok ==> was.Used? && was.key == key && was in old(Entries(model))
      ensures st == Ok ==> Entries(model) == old(Entries(model)) - multiset{was}
      ensures st != Ok ==> st == NotFound && Entries(model) == old(Entries(model))
      ensures key != 0 && old(Exact()) ==> (Exact() <==> !old(WillMiss(key)))
    {
      hide Represents, Hidden, Sound, Entries, AfterStep, WellPlaced;
      st, was := NotFound, Empty;
      if key != 0 {
        RehashStep();
        SoundCur(model, hash);
        var found, p := FindSlot(slots, hash, key);
        if found {
          st, was := Ok, slots[p];
          RemoveAtCur(p, key);
        } else {
          st, was := RemoveOld(key);
        }
      }
    }

    /** The old-table half of a removal, for a key not in the current table. */
    method RemoveOld(key: nat) returns (st: Status, ghost was: Slot<Place>)
      requires Valid() && !Has(model.cur, key)
      modifies Repr()
      ensures Valid() && slots == old(slots) && oldSlots == old(oldSlots)
      ensures contents == old(contents) - {key}
      ensures st == Ok ==> was.Used? && was.key == key && was in old(Entries(model))
      ensures st == Ok ==> Entries(model) == old(Entries(model)) - multiset{was}
      ensures st != Ok ==> st == NotFound && Entries(model) == old(Entries(model))
      ensures old(Exact()) ==> (Exact() <==> !old(HiddenKey(key)))
    {
      var found, p := false, 0;
      if oldSlots != null {
        found, p := FindSlot(oldSlots, hash, key);
      }
      if found {
        st, was := Ok, oldSlots[p];
        RemoveAtPrev(p, key);
      } else {
        NotFoundAnywhere(model, hash, key, contents);
        st, was := NotFound, Empty;
        contents := contents - {key};
      }
    }

    method RemoveAtCur(p: nat, key: nat)
      requires Valid() && FoundAt(slots[..], hash, key, p)
      modifies slots, this`count, this`model, this`contents
      ensures Valid() && contents == old(contents) - {key}
      ensures old(slots[p]) in old(Entries(model))
      ensures Entries(model) == old(Entries(model)) - multiset{old(slots[p])}
      ensures old(Exact()) ==> Exact() && !old(HiddenKey(key))
    {
      hide Represents, Hidden, Sound, Entries, Deleted;
      RemovedFromCur(model, hash, p, contents);
      RemoveAt(slots, hash, p);
      count := count - 1;
      model := model.(cur := slots[..], count := count);
      contents := contents - {key};
    }

    method RemoveAtPrev(p: nat, key: nat)
      requires Valid() && oldSlots != null && FoundAt(oldSlots[..], hash, key, p)
      modifies oldSlots, this`count, this`model, this`contents
      ensures Valid() && contents == old(contents) - {key}
      ensures old(oldSlots[p]) in old(Entries(model))
      ensures Entries(model) == old(Entries(model)) - multiset{old(oldSlots[p])}
      ensures old(Exact()) ==> Exact() && !old(HiddenKey(key))
    {
      hide Represents, Hidden, Sound, Entries;
      FoundIsSeen(model.prev, hash, key, p);
      RemovedFromPrev(model, hash, p, contents);
      oldSlots[p] := Empty;
      count := count - 1;
      model := model.(prev := oldSlots[..], count := count, gone := model.gone + {p});
      contents := contents - {key};
    }

    /** Drains the old table; afterwards no key is missed. */
    method FinishRehash()
      requires Valid()
      modifies Repr()
      ensures Valid() && oldSlots == null && slots == old(slots)
      ensures Entries(model) == old(Entries(model)) && contents == old(contents)
      ensures forall key :: !HiddenKey(key) && !WillMiss(key)
    {
      while oldSlots != null
        invariant Valid() && slots == old(slots) && (oldSlots == null || oldSlots == old(oldSlots))
        invariant Entries(model) == old(Entries(model)) && contents == old(contents)
        decreases if oldSlots == null then 0 else 1 + |Bag(model.prev)|
      {
        RehashStep();
      }
    }
  }

  /** A lookup that fails for a key the index holds.  Keys 1, 2, ... that all hash to slot 0 are put into
      an index of 32 slots or more until a grow begins; then a key is looked up that was put, and never
      removed. */
  method LookupFailsDuringGrow(capacity: nat) returns (index: HashIndex, key: nat, st: Status)
    requires capacity >= 32
    ensures index.Valid() && index.Exact() && key in index.contents && st == NotFound
  {
    hide Represents, Hidden, Entries, AfterStep, WellPlaced, Bag;
    var hash: nat -> nat := _ => 0;
    index := new HashIndex(hash, capacity);
    var k := 1;
    while index.oldSlots == null
      invariant fresh(index.Repr()) && index.Valid() && index.Exact() && index.hash == hash
      invariant k >= 1 && forall x :: x in index.contents ==> 1 <= x < k
      invariant index.oldSlots == null ==> capacity <= index.slots.Length
      invariant index.oldSlots != null ==>
                  && index.cursor == 0 && index.model.gone == {} && WellPlaced(index.model.prev, hash)
                  && |Bag(index.model.prev)| > REHASH_BATCH
      decreases if index.oldSlots == null then 1 + 7 * index.slots.Length + 10 - 10 * index.count else 0
    {
      ghost var s := index.model;
      assert Sound(s, hash);
      var done := index.Put(k, Place(0, k));
      NothingLeft(s.prev);
      k := k + 1;
    }
    ClusterHides(index.model, hash, index.contents);
    key := index.oldSlots[REHASH_BATCH].key;
    var place;
    st, place := index.Get(key);
    OneValue(Entries(index.model), index.contents, key, place);
  }

  lemma OneValue(bag: multiset<Slot<Place>>, m: map<nat, Place>, key: nat, v: Place)
    requires Represents(bag, m)
    ensures Used(key, v) in bag ==> key in m && m[key] == v
  {
  }

  lemma NothingLeft(t: seq<Slot<Place>>)
    ensures t == [] ==> |Bag(t)| == 0
  {
  }
}
