/** Buffered key writes: the key file (one id per entry slot, 0 for a free slot), the B-tree
    of pending writes in front of it, and the coalescing writer between them. */
module KeyStores {
  import opened KeyTrees
  import opened KeyArenas

  const KEYS_PER_PAGE := 512
  const KEY_BYTES := 8
  const KEY_PAGE_BYTES := 4096
  const COALESCE_THRESH := 4

  /** Reading a slot; past the end of the file it reads as zero. */
  function ReadSlot(file: seq<nat>, i: nat): (v: nat) {
    if i < |file| then file[i] else 0
  }

  /** An 8-byte write at slot `i`; a write past the end extends the file with zeros. */
  function WriteSlot(file: seq<nat>, i: nat, v: nat): (r: seq<nat>)
    ensures forall j :: 0 <= j ==> ReadSlot(r, j) == if j == i then v else ReadSlot(file, j)
    ensures |file| <= |r|
  {
    if i < |file| then file[i := v] else file + seq(i - |file|, _ => 0) + [v]
  }

  /** The value of slot `i` after the writes `es`, the last write winning. */
  ghost function Written(file: seq<nat>, es: seq<Item>, i: nat): nat {
    if es == [] then ReadSlot(file, i)
    else if es[|es| - 1].key == i then es[|es| - 1].val
    else Written(file, es[..|es| - 1], i)
  }

  lemma {:induction false} WrittenConcat(f0: seq<nat>, f1: seq<nat>, a: seq<Item>, b: seq<Item>, i: nat)
    requires ReadSlot(f1, i) == Written(f0, a, i)
    ensures Written(f1, b, i) == Written(f0, a + b, i)
    decreases |b|
  {
    if b == [] {
      assert a + b == a;
    } else {
      WrittenConcat(f0, f1, a, b[..|b| - 1], i);
      assert (a + b)[..|a + b| - 1] == a + b[..|b| - 1];
    }
  }

  /** For sorted writes, "last write" is simply "the write", if there is one. */
  lemma {:induction false} WrittenSorted(file: seq<nat>, es: seq<Item>, m: map<nat, nat>, i: nat)
    requires Sorted(es) && Lists(es, m)
    ensures Written(file, es, i) == if i in m then m[i] else ReadSlot(file, i)
  {
    if i in m {
      var k :| 0 <= k < |es| && es[k] == Item(i, m[i]);
      WrittenAt(file, es, k);
    } else {
      NotWritten(file, es, i);
    }
  }

  lemma {:induction false} WrittenAt(file: seq<nat>, es: seq<Item>, k: nat)
    requires Sorted(es) && k < |es|
    ensures Written(file, es, es[k].key) == es[k].val
    decreases |es|
  {
    if k < |es| - 1 {
      WrittenAt(file, es[..|es| - 1], k);
    }
  }

  lemma {:induction false} NotWritten(file: seq<nat>, es: seq<Item>, i: nat)
    requires forall x :: x in es ==> x.key != i
    ensures Written(file, es, i) == ReadSlot(file, i)
    decreases |es|
  {
    if es != [] {
      assert es[|es| - 1] in es;
      NotWritten(file, es[..|es| - 1], i);
    }
  }

  /** Every slot of `after` reads as the writes `es` leave it. */
  ghost predicate Applied(before: seq<nat>, es: seq<Item>, after: seq<nat>) {
    |before| <= |after| && forall i :: 0 <= i ==> ReadSlot(after, i) == Written(before, es, i)
  }

  /** Individual 8-byte writes. */
  method WriteEach(file: seq<nat>, es: seq<Item>) returns (r: seq<nat>)
    ensures Applied(file, es, r)
  {
    r := file;
    for k := 0 to |es|
      invariant Applied(file, es[..k], r)
    {
      ghost var r0 := r;
      r := WriteSlot(r, es[k].key, es[k].val);
      forall i | 0 <= i
        ensures ReadSlot(r, i) == Written(file, es[..k + 1], i)
      {
        assert es[..k + 1][..k] == es[..k];
      }
    }
    assert es[..|es|] == es;
  }

  /** A page of the file, zero beyond its end. */
  method ReadPage(file: seq<nat>, page: nat) returns (buf: seq<nat>)
    ensures |buf| == KEYS_PER_PAGE
    ensures forall k :: 0 <= k < KEYS_PER_PAGE ==> buf[k] == ReadSlot(file, page * KEYS_PER_PAGE + k)
  {
    buf := seq<nat>(KEYS_PER_PAGE, k requires 0 <= k => ReadSlot(file, page * KEYS_PER_PAGE + k));
  }

  /** Writing a whole page back, extending the file if need be. */
  function WritePage(file: seq<nat>, page: nat, buf: seq<nat>): (r: seq<nat>)
    requires |buf| == KEYS_PER_PAGE
    ensures |file| <= |r|
    ensures forall i :: 0 <= i ==>
              (ReadSlot(r, i) == if page * KEYS_PER_PAGE <= i < (page + 1) * KEYS_PER_PAGE
                                 then buf[i - page * KEYS_PER_PAGE] else ReadSlot(file, i))
  {
    var lo := page * KEYS_PER_PAGE;
    var f := if |file| < lo then file + seq(lo - |file|, _ => 0) else file;
    f[..lo] + buf + (if lo + KEYS_PER_PAGE < |f| then f[lo + KEYS_PER_PAGE..] else [])
  }

  /** `flush_key_page`: read-modify-write for a dense page, single writes for a sparse one.
      Either way the file ends up as single writes in order would leave it. */
  method FlushKeyPage(file: seq<nat>, tracked: nat, page: nat, slots: seq<nat>, vals: seq<nat>, ghost es: seq<Item>)
      returns (r: seq<nat>)
    requires |slots| == |vals| == |es|
    requires forall k :: 0 <= k < |es| ==> slots[k] < KEYS_PER_PAGE && es[k] == Item(page * KEYS_PER_PAGE + slots[k], vals[k])
    requires forall i :: tracked <= i * KEY_BYTES ==> ReadSlot(file, i) == 0
    ensures Applied(file, es, r)
  {
    if |slots| >= COALESCE_THRESH {
      var buf;
      if page * KEY_PAGE_BYTES < tracked {
        buf := ReadPage(file, page);
      } else {
        buf := seq(KEYS_PER_PAGE, _ => 0);
      }
      ghost var lo := page * KEYS_PER_PAGE;
      for k := 0 to |slots|
        invariant |buf| == KEYS_PER_PAGE
        invariant forall j :: 0 <= j < KEYS_PER_PAGE ==> buf[j] == Written(file, es[..k], lo + j)
      {
        buf := buf[slots[k] := vals[k]];
        assert es[..k + 1][..k] == es[..k];
      }
      assert es[..|es|] == es;
      r := WritePage(file, page, buf);
      forall i | 0 <= i
        ensures ReadSlot(r, i) == Written(file, es, i)
      {
        if !(lo <= i < lo + KEYS_PER_PAGE) {
          NotWritten(file, es, i);
        }
      }
    } else {
      var items := seq(|slots|, k requires 0 <= k < |slots| => Item(page * KEYS_PER_PAGE + slots[k], vals[k]));
      assert items == es;
      r := WriteEach(file, items);
    }
  }

  /** `dimbin_put_keys_batch`: one pass over the ascending entries, a page at a time. */
  method PutKeysBatch(file: seq<nat>, tracked: nat, es: seq<Item>) returns (r: seq<nat>)
    requires Sorted(es)
    requires forall i :: tracked <= i * KEY_BYTES ==> ReadSlot(file, i) == 0
    requires forall x :: x in es ==> (x.key + 1) * KEY_BYTES <= tracked
    ensures Applied(file, es, r)
  {
    hide Applied, Written, Sorted;
    if |es| < COALESCE_THRESH {
      r := WriteEach(file, es);
      return;
    }
    r := file;
    NothingApplied(file);
    var curPage: nat := es[0].key / KEYS_PER_PAGE;
    var pageKeys, pageVals := new nat[KEYS_PER_PAGE], new nat[KEYS_PER_PAGE];
    var pageCount, done := 0, 0;
    for i := 0 to |es|
      invariant done + pageCount == i && pageCount <= KEYS_PER_PAGE
      invariant Pending(es[done..i], curPage, pageKeys[..pageCount], pageVals[..pageCount])
      invariant i > 0 ==> pageCount > 0
      invariant Applied(file, es[..done], r)
    {
      var pg, slot := es[i].key / KEYS_PER_PAGE, es[i].key % KEYS_PER_PAGE;
      if pg != curPage {
        r := FlushPending(r, tracked, curPage, pageKeys[..pageCount], pageVals[..pageCount], file, es, done, i);
        pageCount, curPage, done := 0, pg, i;
      }
      PendingPage(es, done, i, curPage, pageKeys[..pageCount], pageVals[..pageCount]);
      RunFits(es, done, i, curPage);
      pageKeys[pageCount] := slot;
      pageVals[pageCount] := es[i].val;
      pageCount := pageCount + 1;
    }
    if pageCount > 0 {
      r := FlushPending(r, tracked, curPage, pageKeys[..pageCount], pageVals[..pageCount], file, es, done, |es|);
    }
    assert es[..|es|] == es;
  }

  /** The page collected so far goes out. */
  method FlushPending(r: seq<nat>, tracked: nat, page: nat, slots: seq<nat>, vals: seq<nat>,
                      ghost file: seq<nat>, ghost es: seq<Item>, ghost done: nat, ghost i: nat)
    returns (next: seq<nat>)
    requires Sorted(es) && done <= i <= |es| && Pending(es[done..i], page, slots, vals) && Applied(file, es[..done], r)
    requires forall i :: tracked <= i * KEY_BYTES ==> ReadSlot(file, i) == 0
    requires forall x :: x in es ==> (x.key + 1) * KEY_BYTES <= tracked
    ensures Applied(file, es[..i], next)
  {
    hide Applied, Written;
    StillCovered(file, es[..done], r, tracked);
    next := FlushKeyPage(r, tracked, page, slots, vals, es[done..i]);
    AppliedThen(file, es[..done], r, es[done..i], next);
    assert es[..done] + es[done..i] == es[..i];
  }

  /** The entries collected for the current page, split into slots and values. */
  ghost predicate Pending(es: seq<Item>, page: nat, slots: seq<nat>, vals: seq<nat>) {
    && |es| == |slots| == |vals|
    && forall k :: 0 <= k < |es| ==> slots[k] < KEYS_PER_PAGE && es[k] == Item(page * KEYS_PER_PAGE + slots[k], vals[k])
  }

  /** Strictly ascending entries of one page: at most one per slot, so the arrays cannot overflow. */
  lemma {:induction false} RunFits(es: seq<Item>, lo: nat, hi: nat, page: nat)
    requires Sorted(es) && lo <= hi < |es| && es[hi].key / KEYS_PER_PAGE == page
    requires forall k :: lo <= k < hi ==> es[k].key / KEYS_PER_PAGE == page
    ensures hi - lo <= es[hi].key % KEYS_PER_PAGE < KEYS_PER_PAGE
    decreases hi - lo
  {
    if lo < hi {
      RunFits(es, lo, hi - 1, page);
    }
  }

  lemma NothingApplied(file: seq<nat>)
    ensures Applied(file, [], file)
  {
  }

  /** Pending entries all belong to the page. */
  lemma PendingPage(es: seq<Item>, lo: nat, hi: nat, page: nat, slots: seq<nat>, vals: seq<nat>)
    requires lo <= hi <= |es| && Pending(es[lo..hi], page, slots, vals)
    ensures forall k :: lo <= k < hi ==> es[k].key / KEYS_PER_PAGE == page
  {
    forall k | lo <= k < hi
      ensures es[k].key / KEYS_PER_PAGE == page
    {
      assert es[k] == es[lo..hi][k - lo];
    }
  }

  lemma AppliedThen(f0: seq<nat>, a: seq<Item>, f1: seq<nat>, b: seq<Item>, f2: seq<nat>)
    requires Applied(f0, a, f1) && Applied(f1, b, f2)
    ensures Applied(f0, a + b, f2)
  {
    forall i | 0 <= i
      ensures ReadSlot(f2, i) == Written(f0, a + b, i)
    {
      WrittenConcat(f0, f1, a, b, i);
    }
  }

  lemma StillCovered(f0: seq<nat>, es: seq<Item>, f1: seq<nat>, tracked: nat)
    requires Applied(f0, es, f1)
    requires forall i :: tracked <= i * KEY_BYTES ==> ReadSlot(f0, i) == 0
    requires forall x :: x in es ==> (x.key + 1) * KEY_BYTES <= tracked
    ensures forall i :: tracked <= i * KEY_BYTES ==> ReadSlot(f1, i) == 0
  {
    forall i | tracked <= i * KEY_BYTES
      ensures ReadSlot(f1, i) == 0
    {
      NotWritten(f0, es, i);
    }
  }

  /** The key side of a bin: the key file and the tree of buffered writes. */
  class KeyStore {
    const tree: KeyBTree
    var file: seq<nat>
    var fileSize: nat  // tracked size in bytes; the file may be longer

    ghost function Repr(): set<object>
    {
      {this, tree, tree.arena}
    }

    /** What a slot holds once everything buffered is written. */
    ghost function View(i: nat): nat
      reads this, tree
    {
      if i in tree.contents then tree.contents[i] else ReadSlot(file, i)
    }

    ghost predicate Valid()
      reads Repr()
    {
      && tree.Valid()
      && (forall i :: i in tree.contents ==> (i + 1) * KEY_BYTES <= fileSize)
      && (forall i :: fileSize <= i * KEY_BYTES ==> ReadSlot(file, i) == 0)
    }

    constructor (writeMax: nat, entriesPerPage: nat, file: seq<nat>)
      ensures Valid() && fresh(tree) && fresh(tree.arena)
      ensures forall i :: 0 <= i ==> View(i) == ReadSlot(file, i)
      ensures fileSize == |file| * KEY_BYTES && this.file == file && tree.contents == map[]
    {
      tree := new KeyBTree(KeyBudget(writeMax, entriesPerPage));
      this.file := file;
      fileSize := |file| * KEY_BYTES;
    }

    /** Growing the key file (ftruncate): new slots read as zero. */
    method Extend(newSize: nat)
      requires Valid() && fileSize <= newSize
      modifies this
      ensures Valid() && fileSize == newSize
      ensures forall i :: 0 <= i ==> View(i) == old(View(i))
      ensures newSize / KEY_BYTES <= |file|
    {
      if |file| < newSize / KEY_BYTES {
        file := file + seq(newSize / KEY_BYTES - |file|, _ => 0);
      }
      fileSize := newSize;
    }

    /** Writes everything buffered; no slot's value changes. */
    method FlushKeys()
      requires Valid()
      modifies this, tree
      ensures Valid() && tree.contents == map[] && !tree.Full()
      ensures fileSize == old(fileSize) && |old(file)| <= |file|
      ensures forall i :: 0 <= i ==> View(i) == old(View(i)) == ReadSlot(file, i)
    {
      if tree.count == 0 {
        tree.EmptyIsUnused();
        return;
      }
      var batch := tree.Collect();
      forall x | x in batch
        ensures (x.key + 1) * KEY_BYTES <= fileSize
      {
        assert x.key in tree.contents;
      }
      file := PutKeysBatch(file, fileSize, batch);
      StillCovered(old(file), batch, file, fileSize);
      forall i: nat
        ensures ReadSlot(file, i) == old(View(i))
      {
        WrittenSorted(old(file), batch, tree.contents, i);
      }
      tree.Clear();
    }

    /** Buffers one key write, flushing first if the arena is nearly full. */
    method BufKey(idx: nat, id: nat)
      requires Valid() && (idx + 1) * KEY_BYTES <= fileSize
      modifies Repr()
      ensures Valid() && fileSize == old(fileSize) && |old(file)| <= |file|
      ensures forall i :: 0 <= i ==> View(i) == if i == idx then id else old(View(i))
    {
      if tree.Full() {
        FlushKeys();
      }
      var isNew := tree.Insert(idx, id);
    }
  }
}
