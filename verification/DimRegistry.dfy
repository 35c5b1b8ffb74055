/** The dim registry: dim -> bin index, by linear scan up to 8 dims, by binary search up to
    64, and by open addressing beyond.  `hash` is arbitrary. */
module DimRegistries {
  import opened Arithmetic
  import opened Probing
  import StableSort

  const LINEAR_MAX := 8
  const SORTED_MAX := 64
  const MAX_DIMS := 24576  // three quarters of the largest 16-bit power of two

  datatype Mode = Linear | Sorted | Hash

  datatype Entry = Entry(dim: nat, bin: nat)

  /** The insertion-ordered map every mode implements: the position of `dim`, or -1. */
  function IndexOf(dims: seq<nat>, dim: nat): (k: int)
    ensures -1 <= k < |dims|
    ensures k >= 0 ==> dims[k] == dim
    ensures k < 0 ==> dim !in dims
  {
    if dims == [] then -1
    else if dims[|dims| - 1] == dim then |dims| - 1
    else IndexOf(dims[..|dims| - 1], dim)
  }

  ghost predicate Distinct(dims: seq<nat>) {
    forall i, j :: 0 <= i < j < |dims| ==> dims[i] != dims[j]
  }

  lemma IndexOfAt(dims: seq<nat>, k: nat)
    requires Distinct(dims) && k < |dims|
    ensures IndexOf(dims, dims[k]) == k
  {
    var j := IndexOf(dims, dims[k]);
    assert j >= 0 && dims[j] == dims[k];
  }

  /** Registering more dims never changes the index of a dim already registered. */
  lemma IndexIsStable(dims: seq<nat>, more: seq<nat>, dim: nat)
    requires Distinct(dims + more) && dim in dims
    ensures IndexOf(dims + more, dim) == IndexOf(dims, dim) >= 0
  {
    var k := IndexOf(dims, dim);
    assert (dims + more)[k] == dim;
    IndexOfAt(dims + more, k);
  }

  /** The entries hold each registered dim once, with its index. */
  ghost predicate Holds(es: seq<Entry>, dims: seq<nat>) {
    && |es| == |dims|
    && (forall e :: multiset(es)[e] <= 1)
    && (forall e :: e in es ==> e.bin < |dims| && dims[e.bin] == e.dim)
    && (forall b :: 0 <= b < |dims| ==> Entry(dims[b], b) in es)
  }

  ghost predicate SortedByDim(es: seq<Entry>) {
    forall i, j :: 0 <= i < j < |es| ==> es[i].dim < es[j].dim
  }

  /** The table holds each registered dim once, with its index. */
  ghost predicate TableHolds(t: seq<Slot<nat>>, dims: seq<nat>) {
    && (forall s :: s in t && s.Used? ==> s.val < |dims| && dims[s.val] == s.key)
    && (forall b :: 0 <= b < |dims| ==> Used(dims[b], b) in t)
    && |Bag(t)| == |dims|
  }

  /** The hash table: a power of two of slots, at most three quarters full, within 16 bits. */
  ghost predicate TableOk(t: seq<Slot<nat>>, hash: nat -> nat, dims: seq<nat>) {
    && IsPow2(|t|) && |t| < 0x1_0000 && 4 * |dims| <= 3 * |t|
    && WellPlaced(t, hash) && TableHolds(t, dims)
  }

  method LinearFind(es: seq<Entry>, dim: nat, ghost dims: seq<nat>) returns (k: int)
    requires Distinct(dims) && Holds(es, dims)
    ensures k == IndexOf(dims, dim)
  {
    for i := 0 to |es|
      invariant forall j :: 0 <= j < i ==> es[j].dim != dim
    {
      if es[i].dim == dim {
        assert es[i] in es;
        IndexOfAt(dims, es[i].bin);
        return es[i].bin;
      }
    }
    NoEntry(es, dims, dim);
    return -1;
  }

  lemma NoEntry(es: seq<Entry>, dims: seq<nat>, dim: nat)
    requires Holds(es, dims) && forall e :: e in es ==> e.dim != dim
    ensures IndexOf(dims, dim) == -1
  {
    forall b | 0 <= b < |dims|
      ensures dims[b] != dim
    {
      assert Entry(dims[b], b) in es;
    }
  }

  method SortedFind(es: seq<Entry>, dim: nat, ghost dims: seq<nat>) returns (k: int)
    requires Distinct(dims) && Holds(es, dims) && SortedByDim(es)
    ensures k == IndexOf(dims, dim)
  {
    var lo, hi := 0, |es| - 1;
    while lo <= hi
      invariant 0 <= lo <= hi + 1 <= |es|
      invariant forall i :: 0 <= i < lo ==> es[i].dim < dim
      invariant forall i :: hi < i < |es| ==> dim < es[i].dim
      decreases hi - lo
    {
      var mid := (lo + hi) / 2;
      if es[mid].dim == dim {
        assert es[mid] in es;
        IndexOfAt(dims, es[mid].bin);
        return es[mid].bin;
      }
      if es[mid].dim < dim {
        lo := mid + 1;
      } else {
        hi := mid - 1;
      }
    }
    NoEntry(es, dims, dim);
    return -1;
  }

  method HashFind(slots: array<Slot<nat>>, hash: nat -> nat, dim: nat, ghost dims: seq<nat>) returns (k: int)
    requires slots.Length > 0 && WellPlaced(slots[..], hash) && Distinct(dims) && TableHolds(slots[..], dims)
    ensures k == IndexOf(dims, dim)
  {
    var found, p := FindSlot(slots, hash, dim);
    if found {
      assert slots[p] in slots[..];
      IndexOfAt(dims, slots[p].val);
      return slots[p].val;
    }
    NoSlot(slots[..], dims, dim);
    return -1;
  }

  lemma NoSlot(t: seq<Slot<nat>>, dims: seq<nat>, dim: nat)
    requires TableHolds(t, dims) && !Has(t, dim)
    ensures IndexOf(dims, dim) == -1
  {
    forall b | 0 <= b < |dims|
      ensures dims[b] != dim
    {
      assert Used(dims[b], b) in t;
    }
  }

  /** `sorted_insert`: shift the larger entries up and write into the gap. */
  method SortedInsert(es: seq<Entry>, x: Entry) returns (r: seq<Entry>)
    requires SortedByDim(es) && forall e :: e in es ==> e.dim != x.dim
    ensures SortedByDim(r) && multiset(r) == multiset(es) + multiset{x}
  {
    var pos := 0;
    while pos < |es| && es[pos].dim < x.dim
      invariant 0 <= pos <= |es|
      invariant forall i :: 0 <= i < pos ==> es[i].dim < x.dim
    {
      pos := pos + 1;
    }
    assert pos < |es| ==> es[pos] in es;
    r := es[..pos] + [x] + es[pos..];
    InsertedSorted(es, x, pos, r);
  }

  lemma InsertedSorted(es: seq<Entry>, x: Entry, pos: nat, r: seq<Entry>)
    requires SortedByDim(es) && pos <= |es| && r == es[..pos] + [x] + es[pos..]
    requires (forall i :: 0 <= i < pos ==> es[i].dim < x.dim) && (pos < |es| ==> x.dim < es[pos].dim)
    ensures SortedByDim(r) && multiset(r) == multiset(es) + multiset{x}
  {
    InsertedBag(es[..pos], x, es[pos..]);
    assert es[..pos] + es[pos..] == es;
    forall i, j | 0 <= i < j < |r|
      ensures r[i].dim < r[j].dim
    {
      assert j > pos ==> r[j] == es[j - 1] && x.dim < es[j - 1].dim;
    }
  }

  lemma InsertedBag(a: seq<Entry>, x: Entry, b: seq<Entry>)
    ensures multiset(a + [x] + b) == multiset(a + b) + multiset{x}
  {
  }

  /** Adding a dim: any entry list with one more entry for it, in whatever order. */
  lemma HoldsMore(es: seq<Entry>, r: seq<Entry>, dims: seq<nat>, dim: nat)
    requires Holds(es, dims) && multiset(r) == multiset(es) + multiset{Entry(dim, |dims|)}
    ensures Holds(r, dims + [dim])
  {
    assert |r| == |multiset(r)| == |es| + 1;
    forall e | e in r
      ensures e.bin < |dims| + 1 && (dims + [dim])[e.bin] == e.dim
    {
      assert e in multiset(r);
      assert e == Entry(dim, |dims|) || e in multiset(es);
    }
    forall b | 0 <= b < |dims| + 1
      ensures Entry((dims + [dim])[b], b) in r
    {
      assert b < |dims| ==> Entry(dims[b], b) in multiset(es);
      assert Entry((dims + [dim])[b], b) in multiset(r);
    }
  }

  lemma FreshDim(es: seq<Entry>, dims: seq<nat>, dim: nat)
    requires Distinct(dims) && Holds(es, dims) && dim !in dims
    ensures |es| == |dims| && Distinct(dims + [dim])
    ensures forall e :: e in es ==> e.dim != dim
  {
  }

  lemma HoldsPermuted(es: seq<Entry>, r: seq<Entry>, dims: seq<nat>)
    requires Holds(es, dims) && multiset(r) == multiset(es)
    ensures Holds(r, dims)
  {
    assert |r| == |multiset(r)| == |es|;
    assert forall e :: e in r <==> e in multiset(r);
    assert forall e :: e in es <==> e in multiset(es);
  }

  lemma TableHoldsMore(t: seq<Slot<nat>>, u: seq<Slot<nat>>, dims: seq<nat>, dim: nat)
    requires TableHolds(t, dims) && Bag(u) == Bag(t) + multiset{Used(dim, |dims|)}
    ensures TableHolds(u, dims + [dim])
  {
    var ds, x: Slot<nat> := dims + [dim], Used(dim, |dims|);
    forall s | s in u && s.Used?
      ensures s.val < |ds| && ds[s.val] == s.key
    {
      BagMember(u, s);
      BagMember(t, s);
      assert s == x || s in Bag(t);
    }
    forall b | 0 <= b < |ds|
      ensures Used(ds[b], b) in u
    {
      BagMember(u, Used(ds[b], b));
      BagMember(t, Used(ds[b], b));
      assert Used(ds[b], b) in Bag(u);
    }
  }

  /** `next_pow2_u16`: the least power of two that is at least `v`, and at least 16. */
  function NextPow2(v: nat): (r: nat)
    ensures IsPow2(r) && r >= 16 && r >= v
    ensures r > 16 ==> r < 2 * v
  {
    if v <= 16 then
      assert IsPow2(2) && IsPow2(4) && IsPow2(8);
      16
    else 2 * NextPow2((v + 1) / 2)
  }

  /** The entry loop of `upgrade_to_hash`. */
  method FillTable(slots: array<Slot<nat>>, hash: nat -> nat, es: seq<Entry>)
    requires |es| <= slots.Length && WellPlaced(slots[..], hash) && Bag(slots[..]) == multiset{}
    modifies slots
    ensures WellPlaced(slots[..], hash) && Bag(slots[..]) == EntryBag(es)
  {
    hide WellPlaced, Bag;
    for i := 0 to |es|
      invariant WellPlaced(slots[..], hash) && Bag(slots[..]) == EntryBag(es[..i])
    {
      EntryBagSize(es[..i]);
      InsertIntoTable(slots, hash, Used(es[i].dim, es[i].bin));
      assert es[..i + 1][..i] == es[..i];
    }
    assert es[..|es|] == es;
  }

  /** The slot loop of `hash_grow`. */
  method Regrow(from: array<Slot<nat>>, to: array<Slot<nat>>, hash: nat -> nat)
    requires from != to && from.Length <= to.Length
    requires WellPlaced(to[..], hash) && Bag(to[..]) == multiset{}
    modifies to
    ensures WellPlaced(to[..], hash) && Bag(to[..]) == Bag(from[..])
  {
    hide WellPlaced;
    assert from[..0] == [];
    for i := 0 to from.Length
      invariant WellPlaced(to[..], hash) && Bag(to[..]) == Bag(from[..i])
    {
      BagSize(from[..i]);
      BagAppend(from[..i], from[i]);
      assert from[..i + 1] == from[..i] + [from[i]];
      if from[i].Used? {
        InsertIntoTable(to, hash, from[i]);
      }
    }
    assert from[..from.Length] == from[..];
  }

  /** The registry.  `dims` is the abstract value: the dims in the order they were added. */
  class DimRegistry<B> {
    const hash: nat -> nat
    var mode: Mode
    var entries: seq<Entry>
    var bins: seq<B>
    var slots: array<Slot<nat>>
    ghost var dims: seq<nat>

    ghost predicate Valid()
      reads this, slots
    {
      && Distinct(dims) && Holds(entries, dims) && |bins| == |dims| <= MAX_DIMS
      && (mode == Linear ==> |dims| <= LINEAR_MAX)
      && (mode == Sorted ==> SortedByDim(entries) && |dims| <= SORTED_MAX)
      && (mode == Hash ==> TableOk(slots[..], hash, dims))
    }

    constructor (hash: nat -> nat)
      ensures Valid() && dims == [] && fresh(slots) && this.hash == hash
    {
      this.hash := hash;
      mode, entries, bins, dims := Linear, [], [], [];
      slots := new Slot<nat>[0];
    }

    /** `dim_registry_find`. */
    method Find(dim: nat) returns (k: int)
      requires Valid()
      ensures k == IndexOf(dims, dim)
    {
      match mode {
        case Linear => k := LinearFind(entries, dim, dims);
        case Sorted => k := SortedFind(entries, dim, dims);
        case Hash => k := HashFind(slots, hash, dim, dims);
      }
    }

    /** `upgrade_to_sorted`: insertion sort by dim. */
    method UpgradeToSorted()
      requires Distinct(dims) && Holds(entries, dims)
      modifies this`entries, this`mode
      ensures mode == Sorted && Holds(entries, dims) && SortedByDim(entries)
    {
      var es := entries;
      var a := new Entry[|es|](i requires 0 <= i < |es| => es[i]);
      assert a[..] == entries;
      StableSort.InsertionSort(a, (e: Entry) => e.dim);
      StableSort.SortFacts(entries, (e: Entry) => e.dim);
      HoldsPermuted(entries, a[..], dims);
      NoTies(a[..], dims);
      entries, mode := a[..], Sorted;
    }

    /** `upgrade_to_hash`: enter every entry into a table four times as large. */
    method UpgradeToHash()
      requires Distinct(dims) && Holds(entries, dims) && 16 <= |dims| <= SORTED_MAX + 1
      modifies this`slots, this`mode
      ensures mode == Hash && fresh(slots) && TableOk(slots[..], hash, dims)
    {
      var cap := NextPow2(4 * |entries|);
      if cap < 128 {
        assert IsPow2(16) && IsPow2(32) && IsPow2(64) && IsPow2(128);
        cap := 128;
      }
      slots := new Slot<nat>[cap](_ => Empty);
      AllEmptyBag(slots[..]);
      FillTable(slots, hash, entries);
      EntriesFill(slots[..], entries, dims);
      mode := Hash;
    }

    /** `hash_grow`: enter every used slot into a table twice as large. */
    method HashGrow()
      requires TableOk(slots[..], hash, dims) && slots.Length < 0x8000 && Distinct(dims)
      modifies this`slots
      ensures fresh(slots) && slots.Length == 2 * old(slots.Length)
      ensures 4 * (|dims| + 1) <= 3 * slots.Length
      ensures TableOk(slots[..], hash, dims)
    {
      var cap := slots.Length;
      var bigger := new Slot<nat>[2 * cap](_ => Empty);
      AllEmptyBag(bigger[..]);
      Regrow(slots, bigger, hash);
      SameBagHolds(slots[..], bigger[..], dims);
      slots := bigger;
    }

    /** `dim_registry_put`: a known dim keeps its index; a new one gets the next. */
    method Put(dim: nat, bin: B) returns (k: nat)
      requires Valid() && dim > 0 && |dims| < MAX_DIMS
      modifies this, slots
      ensures Valid() && (slots == old(slots) || fresh(slots))
      ensures dims == if dim in old(dims) then old(dims) else old(dims) + [dim]
      ensures bins == if dim in old(dims) then old(bins) else old(bins) + [bin]
      ensures k == IndexOf(dims, dim) && dims[k] == dim
    {
      var found := Find(dim);
      if found >= 0 {
        k := found;
      } else {
        k := |bins|;
        bins := bins + [bin];
        Add(dim, k);
        IndexOfAt(dims, k);
      }
    }

    /** The mode switch of `dim_registry_put`, and the upgrade that may follow it. */
    method Add(dim: nat, k: nat)
      requires |bins| == |dims| + 1 && k == |dims| < MAX_DIMS && dim !in dims && dim > 0
      requires Distinct(dims) && Holds(entries, dims)
      requires mode == Linear ==> |dims| <= LINEAR_MAX
      requires mode == Sorted ==> SortedByDim(entries) && |dims| <= SORTED_MAX
      requires mode == Hash ==> TableOk(slots[..], hash, dims)
      modifies this`mode, this`entries, this`slots, this`dims, slots
      ensures Valid() && (slots == old(slots) || fresh(slots))
      ensures dims == old(dims) + [dim]
    {
      hide Distinct, Holds, SortedByDim, TableOk;
      ghost var before, es := dims, entries;
      FreshDim(entries, dims, dim);
      match mode {
        case Linear =>
          entries := entries + [Entry(dim, k)];
        case Sorted =>
          entries := SortedInsert(entries, Entry(dim, k));
        case Hash =>
          if 4 * (|entries| + 1) > 3 * slots.Length {
            HashGrow();
          }
          HashAdd(dim, k);
          entries := entries + [Entry(dim, k)];
      }
      dims := dims + [dim];
      HoldsMore(es, entries, before, dim);
      if mode == Linear && |entries| > LINEAR_MAX {
        UpgradeToSorted();
      } else if mode == Sorted && |entries| > SORTED_MAX {
        UpgradeToHash();
      }
    }

    method HashAdd(dim: nat, k: nat)
      requires TableOk(slots[..], hash, dims) && k == |dims|
      requires 4 * (|dims| + 1) <= 3 * slots.Length
      modifies slots
      ensures TableOk(slots[..], hash, dims + [dim])
    {
      ghost var t := slots[..];
      InsertIntoTable(slots, hash, Used(dim, k));
      TableHoldsMore(t, slots[..], dims, dim);
    }
  }

  // ----- lemmas about the upgrades -----

  /** Distinct dims leave no ties, so ascending is strictly ascending. */
  lemma NoTies(es: seq<Entry>, dims: seq<nat>)
    requires Distinct(dims) && Holds(es, dims) && StableSort.Ascending(es, (e: Entry) => e.dim)
    ensures SortedByDim(es)
  {
    forall i, j | 0 <= i < j < |es|
      ensures es[i].dim < es[j].dim
    {
      assert es[i] in es && es[j] in es;
      CountsTwice(es, i, j);
    }
  }

  ghost function EntryBag(es: seq<Entry>): multiset<Slot<nat>> {
    if es == [] then multiset{}
    else EntryBag(es[..|es| - 1]) + multiset{Used(es[|es| - 1].dim, es[|es| - 1].bin)}
  }

  lemma {:induction false} EntryBagSize(es: seq<Entry>)
    ensures |EntryBag(es)| == |es|
    ensures forall e :: e in es ==> Used(e.dim, e.bin) in EntryBag(es)
    ensures forall s :: s in EntryBag(es) ==> s.Used? && Entry(s.key, s.val) in es
  {
    if es != [] {
      EntryBagSize(es[..|es| - 1]);
      assert es == es[..|es| - 1] + [es[|es| - 1]];
    }
  }

  lemma EntriesFill(t: seq<Slot<nat>>, es: seq<Entry>, dims: seq<nat>)
    requires Holds(es, dims) && Bag(t) == EntryBag(es)
    ensures TableHolds(t, dims)
  {
    EntryBagSize(es);
    forall s | s in t && s.Used?
      ensures s.val < |dims| && dims[s.val] == s.key
    {
      BagMember(t, s);
      assert Entry(s.key, s.val) in es;
    }
    forall b | 0 <= b < |dims|
      ensures Used(dims[b], b) in t
    {
      var e := Entry(dims[b], b);
      assert e in es;
      BagMember(t, Used(e.dim, e.bin));
    }
  }

  lemma SameBagHolds(t: seq<Slot<nat>>, u: seq<Slot<nat>>, dims: seq<nat>)
    requires TableHolds(t, dims) && Bag(u) == Bag(t)
    ensures TableHolds(u, dims)
  {
    forall s: Slot<nat> | s.Used?
      ensures s in u <==> s in t
    {
      BagMember(t, s);
      BagMember(u, s);
    }
  }
}
