/** The write loops of a flush: buffered pages, sorted, cut into runs that tolerate small gaps,
    then into consecutive sub-runs, then into chunks a vectored write accepts. */
module FlushRuns {
  import opened Pages
  import opened DeltaChains
  import opened Arithmetic
  import StableSort

  const GAP := 4
  const IOV_MAX := 1024

  /** The buffered pages numbered `pages`, in that order. */
  function Taken(buf: File, pages: seq<nat>): (ps: seq<PageWrite>)
    requires forall i :: 0 <= i < |pages| ==> pages[i] in buf
    ensures |ps| == |pages|
  {
    seq(|pages|, i requires 0 <= i < |pages| => PageWrite(pages[i], buf[pages[i]]))
  }

  ghost predicate AllIn(buf: File, pages: seq<nat>) {
    forall i :: 0 <= i < |pages| ==> pages[i] in buf
  }

  lemma {:induction false} TakenPages(f: File, buf: File, pages: seq<nat>)
    requires AllIn(buf, pages)
    ensures WritePages(f, Taken(buf, pages)).Keys == f.Keys + set p | p in pages
    ensures forall p :: p in WritePages(f, Taken(buf, pages)) ==>
                          WritePages(f, Taken(buf, pages))[p] == if p in pages then buf[p] else f[p]
    decreases |pages|
  {
    if pages != [] {
      var s, x := pages[..|pages| - 1], pages[|pages| - 1];
      assert Taken(buf, pages)[..|s|] == Taken(buf, s);
      TakenPages(f, buf, s);
      assert pages == s + [x];
    }
  }

  /** Writing every buffered page once is the map union. */
  lemma TakenAll(f: File, buf: File, pages: seq<nat>)
    requires forall p :: p in pages <==> p in buf
    ensures WritePages(f, Taken(buf, pages)) == f + buf
  {
    TakenPages(f, buf, pages);
  }

  lemma TakenMore(f: File, buf: File, pages: seq<nat>, i: nat, j: nat)
    requires AllIn(buf, pages) && i <= j <= |pages|
    ensures WritePages(f, Taken(buf, pages[..j])) ==
            WritePages(WritePages(f, Taken(buf, pages[..i])), Taken(buf, pages[i..j]))
  {
    assert Taken(buf, pages[..j]) == Taken(buf, pages[..i]) + Taken(buf, pages[i..j]);
    WritePagesConcat(f, Taken(buf, pages[..i]), Taken(buf, pages[i..j]));
  }

  ghost predicate Consecutive(pages: seq<nat>, i: nat, j: nat)
    requires i <= j <= |pages|
  {
    forall k :: i < k < j ==> pages[k] == pages[k - 1] + 1
  }

  lemma {:induction false} ConsecutiveAt(pages: seq<nat>, i: nat, j: nat, k: nat)
    requires i <= k < j <= |pages| && Consecutive(pages, i, j)
    ensures pages[k] == pages[i] + (k - i)
    decreases k
  {
    if k > i {
      ConsecutiveAt(pages, i, j, k - 1);
    }
  }

  /** One vectored write: the buffers of `pages[i..j]` laid out from the first page's offset on. */
  method WriteChunk(f: File, buf: File, pages: seq<nat>, i: nat, j: nat, ghost f0: File) returns (r: File)
    requires AllIn(buf, pages) && i < j <= |pages| && Consecutive(pages, i, j)
    requires f == WritePages(f0, Taken(buf, pages[..i]))
    ensures r == WritePages(f0, Taken(buf, pages[..j]))
  {
    var iov := [];
    for k := i to j
      invariant |iov| == k - i && forall m :: 0 <= m < |iov| ==> iov[m] == buf[pages[i + m]]
    {
      iov := iov + [buf[pages[k]]];
    }
    r := WritePages(f, Spread(Run(pages[i], iov)));
    forall m | 0 <= m < j - i
      ensures Spread(Run(pages[i], iov))[m] == Taken(buf, pages[i..j])[m]
    {
      ConsecutiveAt(pages, i, j, i + m);
    }
    assert Spread(Run(pages[i], iov)) == Taken(buf, pages[i..j]);
    TakenMore(f0, buf, pages, i, j);
  }

  /** A consecutive sub-run, in chunks. */
  method WriteSubRun(f: File, buf: File, pages: seq<nat>, i: nat, j: nat, ghost f0: File) returns (r: File)
    requires AllIn(buf, pages) && i <= j <= |pages| && Consecutive(pages, i, j)
    requires f == WritePages(f0, Taken(buf, pages[..i]))
    ensures r == WritePages(f0, Taken(buf, pages[..j]))
  {
    r := f;
    var pos := i;
    while pos < j
      invariant i <= pos <= j && r == WritePages(f0, Taken(buf, pages[..pos]))
    {
      var end := if pos + IOV_MAX > j then j else pos + IOV_MAX;
      r := WriteChunk(r, buf, pages, pos, end, f0);
      pos := end;
    }
  }

  /** A run with gaps, sub-run by sub-run. */
  method WriteGapRun(f: File, buf: File, pages: seq<nat>, i: nat, j: nat, ghost f0: File) returns (r: File)
    requires AllIn(buf, pages) && i <= j <= |pages| && f == WritePages(f0, Taken(buf, pages[..i]))
    ensures r == WritePages(f0, Taken(buf, pages[..j]))
  {
    r := f;
    var ri := i;
    while ri < j
      invariant i <= ri <= j && r == WritePages(f0, Taken(buf, pages[..ri]))
    {
      var rj := ri + 1;
      while rj < j && pages[rj] == pages[rj - 1] + 1
        invariant ri < rj <= j && Consecutive(pages, ri, rj)
      {
        rj := rj + 1;
      }
      r := WriteSubRun(r, buf, pages, ri, rj, f0);
      ri := rj;
    }
  }

  /** The loop nest of `dimbin_flush` writes every buffered page to its own place. */
  method WriteBuffered(f: File, buf: File, pages: seq<nat>) returns (r: File)
    requires forall p :: p in pages <==> p in buf
    ensures r == f + buf
  {
    r := f;
    var i := 0;
    while i < |pages|
      invariant 0 <= i <= |pages| && r == WritePages(f, Taken(buf, pages[..i]))
    {
      var j := i + 1;
      while j < |pages| && pages[j] <= pages[j - 1] + GAP + 1
        invariant i < j <= |pages|
      {
        j := j + 1;
      }
      r := WriteGapRun(r, buf, pages, i, j, f);
      i := j;
    }
    assert pages[..i] == pages;
    TakenAll(f, buf, pages);
  }

  function PageNumber(): nat -> int {
    (p: nat) => p
  }

  /** Page numbers, collected in whatever order and sorted. */
  method SortedPages(s: set<nat>) returns (pages: seq<nat>)
    ensures forall p :: p in pages <==> p in s
    ensures forall i, j :: 0 <= i < j < |pages| ==> pages[i] < pages[j]
  {
    var rest, found: seq<nat> := s, [];
    while rest != {}
      invariant rest <= s
      invariant forall p :: p in found <==> p in s - rest
      invariant forall p :: multiset(found)[p] <= 1
    {
      var p :| p in rest;
      assert p !in found && p !in multiset(found);
      rest, found := rest - {p}, found + [p];
    }
    var a := new nat[|found|](i requires 0 <= i < |found| => found[i]);
    assert a[..] == found;
    StableSort.InsertionSort(a, PageNumber());
    StableSort.SortFacts(found, PageNumber());
    pages := a[..];
    assert forall p :: p in pages <==> p in multiset(pages);
    assert forall p :: p in found <==> p in multiset(found);
    NoTwice(pages);
  }

  /** Sorted without repetition is strictly ascending. */
  lemma NoTwice(pages: seq<nat>)
    requires StableSort.Ascending(pages, PageNumber()) && forall p :: multiset(pages)[p] <= 1
    ensures forall i, j :: 0 <= i < j < |pages| ==> pages[i] < pages[j]
  {
    forall i, j | 0 <= i < j < |pages|
      ensures pages[i] < pages[j]
    {
      CountsTwice(pages, i, j);
      assert PageNumber()(pages[i]) <= PageNumber()(pages[j]);
    }
  }
}
