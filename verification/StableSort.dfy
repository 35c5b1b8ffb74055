/** The insertion sort the program uses in four places, and what its stability gives:
    elements with equal keys keep their order. */
module StableSort {

  /** `x` goes after every element whose key is not larger, scanning from the right. */
  function Insert<T>(s: seq<T>, x: T, key: T -> int): (r: seq<T>)
    ensures |r| == |s| + 1
  {
    if s == [] || key(s[|s| - 1]) <= key(x) then s + [x]
    else Insert(s[..|s| - 1], x, key) + [s[|s| - 1]]
  }

  function Sort<T>(s: seq<T>, key: T -> int): (r: seq<T>)
    ensures |r| == |s|
  {
    if s == [] then [] else Insert(Sort(s[..|s| - 1], key), s[|s| - 1], key)
  }

  ghost predicate Ascending<T>(s: seq<T>, key: T -> int) {
    forall i, j :: 0 <= i < j < |s| ==> key(s[i]) <= key(s[j])
  }

  /** The elements with key `k`, in order. */
  ghost function WithKey<T>(s: seq<T>, key: T -> int, k: int): seq<T> {
    if s == [] then []
    else WithKey(s[..|s| - 1], key, k) + (if key(s[|s| - 1]) == k then [s[|s| - 1]] else [])
  }

  /** Where the inner loop stops: after the elements whose key is not larger. */
  lemma {:induction false} InsertSplits<T>(s: seq<T>, x: T, key: T -> int, j: nat)
    requires j <= |s| && (j > 0 ==> key(s[j - 1]) <= key(x))
    requires forall i :: j <= i < |s| ==> key(s[i]) > key(x)
    ensures Insert(s, x, key) == s[..j] + [x] + s[j..]
    decreases |s|
  {
    if j < |s| {
      InsertSplits(s[..|s| - 1], x, key, j);
      assert s[..|s| - 1][..j] == s[..j] && s[..|s| - 1][j..] + [s[|s| - 1]] == s[j..];
    } else {
      assert s[..j] == s && s[j..] == [];
    }
  }

  lemma {:induction false} InsertFacts<T>(s: seq<T>, x: T, key: T -> int)
    requires Ascending(s, key)
    ensures Ascending(Insert(s, x, key), key)
    ensures multiset(Insert(s, x, key)) == multiset(s) + multiset{x}
    decreases |s|
  {
    if s != [] && key(s[|s| - 1]) > key(x) {
      var r, y := s[..|s| - 1], s[|s| - 1];
      InsertFacts(r, x, key);
      assert s == r + [y];
      AppendLargest(r, Insert(r, x, key), x, y, key);
    } else {
      AppendLargest(s, s, x, x, key);
    }
  }

  lemma AppendLargest<T>(r: seq<T>, t: seq<T>, x: T, y: T, key: T -> int)
    requires Ascending(t, key) && (multiset(t) == multiset(r) + multiset{x} || t == r)
    requires key(x) <= key(y) && forall i :: 0 <= i < |r| ==> key(r[i]) <= key(y)
    ensures Ascending(t + [y], key)
  {
    forall i | 0 <= i < |t|
      ensures key(t[i]) <= key(y)
    {
      assert t[i] in multiset(t);
      assert t[i] == x || t[i] in multiset(r);
    }
  }

  /** Sorting permutes and sorts. */
  lemma {:induction false} SortFacts<T>(s: seq<T>, key: T -> int)
    ensures Ascending(Sort(s, key), key)
    ensures multiset(Sort(s, key)) == multiset(s)
    decreases |s|
  {
    if s != [] {
      var r, x := s[..|s| - 1], s[|s| - 1];
      SortFacts(r, key);
      InsertFacts(Sort(r, key), x, key);
      assert s == r + [x];
    }
  }

  lemma {:induction false} InsertStable<T>(s: seq<T>, x: T, key: T -> int, k: int)
    requires Ascending(s, key)
    ensures WithKey(Insert(s, x, key), key, k) == WithKey(s + [x], key, k)
    decreases |s|
  {
    assert (s + [x])[..|s|] == s;
    if s != [] && key(s[|s| - 1]) > key(x) {
      var r, y := s[..|s| - 1], s[|s| - 1];
      InsertStable(r, x, key, k);
      var t := Insert(r, x, key);
      assert (t + [y])[..|t|] == t;
      assert (r + [x])[..|r|] == r;
    }
  }

  /** Stability: the elements with any one key come out in their original order. */
  lemma {:induction false} SortStable<T>(s: seq<T>, key: T -> int, k: int)
    ensures WithKey(Sort(s, key), key, k) == WithKey(s, key, k)
    decreases |s|
  {
    if s != [] {
      var r, x := s[..|s| - 1], s[|s| - 1];
      SortStable(r, key, k);
      SortFacts(r, key);
      InsertStable(Sort(r, key), x, key, k);
      assert (Sort(r, key) + [x])[..|r|] == Sort(r, key);
    }
  }

  lemma {:induction false} WithKeyConcat<T>(a: seq<T>, b: seq<T>, key: T -> int, k: int)
    ensures WithKey(a + b, key, k) == WithKey(a, key, k) + WithKey(b, key, k)
    decreases |b|
  {
    if b == [] {
      assert a + b == a;
    } else {
      assert (a + b)[..|a + b| - 1] == a + b[..|b| - 1];
      WithKeyConcat(a, b[..|b| - 1], key, k);
    }
  }

  ghost predicate AllKeyed<T>(s: seq<T>, key: T -> int, k: int) {
    forall i :: 0 <= i < |s| ==> key(s[i]) == k
  }

  ghost predicate NoneKeyed<T>(s: seq<T>, key: T -> int, k: int) {
    forall i :: 0 <= i < |s| ==> key(s[i]) != k
  }

  lemma {:induction false} WithKeyAll<T>(s: seq<T>, key: T -> int, k: int)
    requires AllKeyed(s, key, k)
    ensures WithKey(s, key, k) == s
    decreases |s|
  {
    if s != [] {
      WithKeyAll(s[..|s| - 1], key, k);
      assert s == s[..|s| - 1] + [s[|s| - 1]];
    }
  }

  lemma {:induction false} WithKeyNone<T>(s: seq<T>, key: T -> int, k: int)
    requires NoneKeyed(s, key, k)
    ensures WithKey(s, key, k) == []
    decreases |s|
  {
    if s != [] {
      WithKeyNone(s[..|s| - 1], key, k);
    }
  }

  lemma {:induction false} WithKeyMembers<T>(s: seq<T>, key: T -> int, k: int, i: nat)
    requires i < |WithKey(s, key, k)|
    ensures WithKey(s, key, k)[i] in s && key(WithKey(s, key, k)[i]) == k
    decreases |s|
  {
    if i < |WithKey(s[..|s| - 1], key, k)| {
      WithKeyMembers(s[..|s| - 1], key, k, i);
    }
  }

  /** The in-place insertion sort. */
  method InsertionSort<T>(a: array<T>, key: T -> int)
    modifies a
    ensures a[..] == Sort(old(a[..]), key)
  {
    ghost var s := a[..];
    var i := 1;
    assert a.Length > 0 ==> s[..1] == [s[0]] && s[..1][..0] == [];
    while i < a.Length
      invariant 1 <= i && (i <= a.Length || a.Length == 0)
      invariant i <= a.Length ==> a[..i] == Sort(s[..i], key) && a[i..] == s[i..]
    {
      InsertNext(a, key, i, s);
      i := i + 1;
    }
    assert a.Length > 0 ==> s[..i] == s && a[..i] == a[..];
  }

  /** One round of the outer loop. */
  method InsertNext<T>(a: array<T>, key: T -> int, i: nat, ghost s: seq<T>)
    requires i < a.Length && |s| == a.Length && a[..i] == Sort(s[..i], key) && a[i..] == s[i..]
    modifies a
    ensures a[..i + 1] == Sort(s[..i + 1], key) && a[i + 1..] == s[i + 1..]
  {
    hide Sort, Insert;
    ghost var t, rest := a[..i], a[i..];
    var j := Slide(a, key, i);
    assert s[i] == rest[0];
    Slid(a[..], t, rest, rest[0], i, j);
    InsertSplits(t, rest[0], key, j);
    SortNext(s, key, i);
  }

  /** The inner loop: slide element `i` down past the larger ones. */
  method Slide<T>(a: array<T>, key: T -> int, i: nat) returns (j: nat)
    requires i < a.Length
    modifies a
    ensures j <= i && a[j] == old(a[i]) && forall k :: 0 <= k < j ==> a[k] == old(a[k])
    ensures forall k :: j < k <= i ==> a[k] == old(a[k - 1])
    ensures forall k :: i < k < a.Length ==> a[k] == old(a[k])
    ensures j > 0 ==> key(old(a[j - 1])) <= key(old(a[i]))
    ensures forall k :: j <= k < i ==> key(old(a[k])) > key(old(a[i]))
  {
    var x := a[i];
    j := i;
    while j > 0 && key(a[j - 1]) > key(x)
      invariant 0 <= j <= i
      invariant forall k :: 0 <= k < j ==> a[k] == old(a[k])
      invariant forall k :: j < k <= i ==> a[k] == old(a[k - 1])
      invariant forall k :: i < k < a.Length ==> a[k] == old(a[k])
      invariant forall k :: j <= k < i ==> key(old(a[k])) > key(x)
    {
      a[j] := a[j - 1];
      j := j - 1;
    }
    a[j] := x;
  }

  /** What the slide leaves, as sequences. */
  lemma Slid<T>(now: seq<T>, t: seq<T>, rest: seq<T>, x: T, i: nat, j: nat)
    requires |t| == i && j <= i < |now| && |rest| == |now| - i
    requires now[j] == x && forall k :: 0 <= k < j ==> now[k] == t[k]
    requires forall k :: j < k <= i ==> now[k] == t[k - 1]
    requires forall k :: i < k < |now| ==> now[k] == rest[k - i]
    ensures now[..i + 1] == t[..j] + [x] + t[j..] && now[i + 1..] == rest[1..]
  {
    assert now[..i + 1] == t[..j] + [x] + t[j..];
    assert now[i + 1..] == rest[1..];
  }

  lemma SortNext<T>(s: seq<T>, key: T -> int, i: nat)
    requires i < |s|
    ensures Sort(s[..i + 1], key) == Insert(Sort(s[..i], key), s[i], key)
  {
    assert s[..i + 1][..i] == s[..i];
  }

  lemma SortMembers<T(!new)>(s: seq<T>, key: T -> int)
    ensures forall x :: x in Sort(s, key) <==> x in s
  {
    hide Sort;
    SortFacts(s, key);
    assert forall x :: x in Sort(s, key) <==> x in multiset(Sort(s, key));
    assert forall x :: x in s <==> x in multiset(s);
  }
}
