/** Linear probing over a circular slot table: the search discipline shared by
    the hash index and the dim registry.  A table is WellPlaced when every entry
    can be reached from its home slot without crossing an empty slot. */
module Probing {

  datatype Slot<V> = Empty | Used(key: nat, val: V)

  /** Steps needed to walk from slot `a` to slot `b`, wrapping at `cap`. */
  function Dist(cap: nat, a: nat, b: nat): (d: nat)
    requires a < cap && b < cap
    ensures d < cap
    ensures d == 0 <==> a == b
  {
    if a <= b then b - a else b + cap - a
  }

  function Next(cap: nat, i: nat): (n: nat)
    requires i < cap
    ensures n < cap
  {
    if i + 1 == cap then 0 else i + 1
  }

  /** `hash & mask`: capacities are powers of two, so that the mask keeps the remainder. */
  function Home(hash: nat -> nat, cap: nat, key: nat): (h: nat)
    requires cap > 0
    ensures h < cap
  {
    hash(key) % cap
  }

  /** `q` is passed when probing for the key stored at `p`, before `p` itself. */
  ghost predicate Before<V>(t: seq<Slot<V>>, hash: nat -> nat, key: nat, q: nat, p: nat)
    requires p < |t| && q < |t|
  {
    var h := Home(hash, |t|, key);
    Dist(|t|, h, q) < Dist(|t|, h, p)
  }

  ghost predicate WellPlaced<V>(t: seq<Slot<V>>, hash: nat -> nat) {
    forall p, q {:trigger Before(t, hash, t[p].key, q, p)} ::
      0 <= p < |t| && 0 <= q < |t| && t[p].Used? && Before(t, hash, t[p].key, q, p) ==> t[q].Used?
  }

  ghost predicate Has<V>(t: seq<Slot<V>>, key: nat) {
    exists p :: 0 <= p < |t| && t[p].Used? && t[p].key == key
  }

  /** Slot `p` is the first one a probe for `key` reaches that holds `key`. */
  ghost predicate FoundAt<V>(t: seq<Slot<V>>, hash: nat -> nat, key: nat, p: nat) {
    && p < |t|
    && t[p].Used? && t[p].key == key
    && forall q :: 0 <= q < |t| && Before(t, hash, key, q, p) ==> t[q].Used? && t[q].key != key
  }

  /** A probe for `key` finds it before meeting an empty slot. */
  ghost predicate Visible<V>(t: seq<Slot<V>>, hash: nat -> nat, key: nat) {
    exists p :: FoundAt(t, hash, key, p)
  }

  /** Slot `p` is the empty slot that ends an unsuccessful probe for `key`. */
  ghost predicate StopsAt<V>(t: seq<Slot<V>>, hash: nat -> nat, key: nat, p: nat) {
    && p < |t|
    && t[p].Empty?
    && forall q :: 0 <= q < |t| && Before(t, hash, key, q, p) ==> t[q].Used?
  }

  /** The entries of a table, counted. */
  ghost function Bag<V>(t: seq<Slot<V>>): multiset<Slot<V>> {
    multiset(t)[Empty := 0]
  }

  lemma BagUpdate<V>(t: seq<Slot<V>>, p: nat, x: Slot<V>)
    requires p < |t|
    ensures multiset(t[p := x]) == multiset(t) - multiset{t[p]} + multiset{x}
    ensures t[p].Empty? && x.Used? ==> Bag(t[p := x]) == Bag(t) + multiset{x}
    ensures t[p].Used? && x.Empty? ==> Bag(t[p := x]) == Bag(t) - multiset{t[p]} && t[p] in Bag(t)
    ensures t[p].Used? && x.Used? ==> Bag(t[p := x]) == Bag(t) - multiset{t[p]} + multiset{x} && t[p] in Bag(t)
  {
    assert t[p] in multiset(t);
  }

  lemma BagMember<V>(t: seq<Slot<V>>, x: Slot<V>)
    requires x.Used?
    ensures x in Bag(t) <==> x in t
  {
  }

  /** A table with fewer entries than slots has an empty slot. */
  lemma EmptySlotExists<V>(t: seq<Slot<V>>) returns (e: nat)
    requires |Bag(t)| < |t|
    ensures e < |t| && t[e].Empty?
  {
    assert |multiset(t)| == |t|;
    assert multiset(t)[Empty] > 0;
    assert Empty in t;
    e :| 0 <= e < |t| && t[e] == Empty;
  }

  lemma BagSize<V>(t: seq<Slot<V>>)
    ensures |Bag(t)| <= |t|
  {
    assert |multiset(t)| == |t|;
  }

  lemma AllEmptyBag<V>(t: seq<Slot<V>>)
    requires forall i :: 0 <= i < |t| ==> t[i].Empty?
    ensures Bag(t) == multiset{}
  {
    assert forall x :: x in Bag(t) ==> x in t;
  }

  lemma BagAppend<V>(t: seq<Slot<V>>, x: Slot<V>)
    ensures Bag(t + [x]) == if x.Used? then Bag(t) + multiset{x} else Bag(t)
  {
  }

  /** Writing into the slot where the probe stopped keeps every entry reachable. */
  lemma InsertKeepsPlaced<V>(t: seq<Slot<V>>, hash: nat -> nat, p: nat, x: Slot<V>)
    requires WellPlaced(t, hash) && x.Used?
    requires StopsAt(t, hash, x.key, p)
    ensures WellPlaced(t[p := x], hash)
  {
    var u := t[p := x];
    forall i, j | 0 <= i < |u| && 0 <= j < |u| && u[i].Used? && Before(u, hash, u[i].key, j, i)
      ensures u[j].Used?
    {
      if i == p {
        assert Before(t, hash, x.key, j, p);
      } else {
        assert Before(t, hash, t[i].key, j, i);
      }
    }
  }

  /** A reachable entry is found by a probe: no entry of a WellPlaced table is hidden. */
  lemma PlacedIsVisible<V>(t: seq<Slot<V>>, hash: nat -> nat, key: nat)
    requires WellPlaced(t, hash)
    ensures Has(t, key) <==> Visible(t, hash, key)
  {
    if Has(t, key) {
      var p :| 0 <= p < |t| && t[p].Used? && t[p].key == key;
      NearestIsFound(t, hash, key, p);
    }
  }

  lemma {:induction false} NearestIsFound<V>(t: seq<Slot<V>>, hash: nat -> nat, key: nat, p: nat)
    requires WellPlaced(t, hash)
    requires p < |t| && t[p].Used? && t[p].key == key
    ensures Visible(t, hash, key)
    decreases if p < |t| then Dist(|t|, Home(hash, |t|, key), p) else 0
  {
    if !FoundAt(t, hash, key, p) {
      var q :| 0 <= q < |t| && Before(t, hash, key, q, p) && !(t[q].Used? && t[q].key != key);
      assert Before(t, hash, t[p].key, q, p);
      NearestIsFound(t, hash, key, q);
    }
  }

  // ----- the probe loops -----

  /** The unguarded probe for an empty slot: it ends because there is one. */
  method FirstEmpty<V>(slots: array<Slot<V>>, hash: nat -> nat, key: nat) returns (h: nat)
    requires |Bag(slots[..])| < slots.Length
    ensures StopsAt(slots[..], hash, key, h)
  {
    var cap := slots.Length;
    ghost var e := EmptySlotExists(slots[..]);
    h := Home(hash, cap, key);
    ghost var home := h;
    while slots[h].Used?
      invariant h < cap
      invariant Dist(cap, home, h) <= Dist(cap, home, e)
      invariant forall q :: 0 <= q < cap && Dist(cap, home, q) < Dist(cap, home, h) ==> slots[q].Used?
      decreases Dist(cap, home, e) - Dist(cap, home, h)
    {
      h := Next(cap, h);
    }
  }

  /** Writes into the first empty slot of the probe. */
  method InsertIntoTable<V>(slots: array<Slot<V>>, hash: nat -> nat, x: Slot<V>)
    requires x.Used? && WellPlaced(slots[..], hash)
    requires |Bag(slots[..])| < slots.Length
    modifies slots
    ensures WellPlaced(slots[..], hash)
    ensures Bag(slots[..]) == old(Bag(slots[..])) + multiset{x}
  {
    ghost var t := slots[..];
    var h := FirstEmpty(slots, hash, x.key);
    InsertKeepsPlaced(t, hash, h, x);
    BagUpdate(t, h, x);
    slots[h] := x;
    assert slots[..] == t[h := x];
  }

  /** The guarded probe: stop at the key, at an empty slot, or after a full turn. */
  method FindSlot<V>(slots: array<Slot<V>>, hash: nat -> nat, key: nat) returns (found: bool, p: nat)
    requires slots.Length > 0
    ensures p < slots.Length
    ensures found ==> FoundAt(slots[..], hash, key, p)
    ensures !found ==> !Visible(slots[..], hash, key)
    ensures !found && WellPlaced(slots[..], hash) ==> !Has(slots[..], key)
    ensures !found && |Bag(slots[..])| < slots.Length ==> StopsAt(slots[..], hash, key, p)
  {
    var cap := slots.Length;
    ghost var t := slots[..];
    var start := Home(hash, cap, key);
    p := start;
    while slots[p].Used?
      invariant p < cap
      invariant forall q :: 0 <= q < cap && Dist(cap, start, q) < Dist(cap, start, p) ==> t[q].Used? && t[q].key != key
      decreases cap - Dist(cap, start, p)
    {
      if slots[p].key == key {
        return true, p;
      }
      if Next(cap, p) == start {
        FullTurn(t, hash, key, p);
        return false, p;
      }
      p := Next(cap, p);
    }
    StopHides(t, hash, key, p);
    PlacedImpliesVisible(t, hash, key);
    return false, p;
  }

  lemma FullTurn<V>(t: seq<Slot<V>>, hash: nat -> nat, key: nat, p: nat)
    requires p < |t| && Next(|t|, p) == Home(hash, |t|, key)
    requires t[p].Used? && t[p].key != key
    requires forall q :: 0 <= q < |t| && Before(t, hash, key, q, p) ==> t[q].Used? && t[q].key != key
    ensures !Has(t, key) && !Visible(t, hash, key) && |Bag(t)| == |t|
  {
    forall q | 0 <= q < |t|
      ensures t[q].Used? && t[q].key != key
    {
      assert q == p || Before(t, hash, key, q, p);
    }
    assert Empty !in multiset(t);
    assert |multiset(t)| == |t|;
  }

  lemma StopHides<V>(t: seq<Slot<V>>, hash: nat -> nat, key: nat, p: nat)
    requires p < |t| && t[p].Empty?
    requires forall q :: 0 <= q < |t| && Before(t, hash, key, q, p) ==> t[q].Used? && t[q].key != key
    ensures !Visible(t, hash, key)
    ensures StopsAt(t, hash, key, p)
  {
    forall q | 0 <= q < |t|
      ensures !FoundAt(t, hash, key, q)
    {
      assert Before(t, hash, key, q, p) || Before(t, hash, key, p, q) || p == q;
    }
  }

  lemma PlacedImpliesVisible<V>(t: seq<Slot<V>>, hash: nat -> nat, key: nat)
    ensures WellPlaced(t, hash) && Has(t, key) ==> Visible(t, hash, key)
  {
    if WellPlaced(t, hash) {
      PlacedIsVisible(t, hash, key);
    }
  }
}
