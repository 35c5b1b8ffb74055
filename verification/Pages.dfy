/** Pages, the entries inside them, and the two ways the program turns an entry number
    into a byte offset. */
module Pages {
  import opened Arithmetic

  type Byte = b: int | 0 <= b < 256
  type Bytes = seq<Byte>
  type Page = seq<Byte>

  /** How a bin lays entries out: `epp` entries of `entrySize` bytes at the start of each
      `pageSize`-byte page. */
  datatype Geometry = Geometry(pageSize: nat, entrySize: nat, epp: nat) {
    ghost predicate Ok() {
      entrySize > 0 && epp > 0 && pageSize > 0 && epp * entrySize <= pageSize
    }
  }

  /** `align_up`: add, then mask.  Not smaller, and less than one alignment larger. */
  function AlignUp(n: nat, align: nat): (r: nat)
    ensures n <= r
    ensures r < n + (if align == 0 then 1 else align)
  {
    if align == 0 then n else AndNot(n + align - 1, align - 1)
  }

  /** For powers of two the mask rounds up to the next multiple. */
  lemma AlignUpRounds(n: nat, align: nat)
    requires IsPow2(align)
    ensures AlignUp(n, align) % align == 0
  {
    hide AndNot;
    MaskRounds(n + align - 1, align);
    MultipleOf((n + align - 1) / align, align);
  }

  /** The sizing rule of `dimbin_init`: an entry larger than a page becomes the page. */
  function InitGeometry(dim: nat, align: nat, pageSize: nat): (g: Geometry)
    requires dim > 0
    ensures g.Ok() && 4 * dim <= g.entrySize < 4 * dim + (if align == 0 then 1 else align)
    ensures IsPow2(align) ==> g.entrySize % align == 0
    ensures var asked := if pageSize == 0 then 4096 else pageSize;
            g.pageSize < (g.epp + 1) * g.entrySize && g.pageSize == if g.entrySize > asked then g.entrySize else asked
  {
    if IsPow2(align) then
      AlignUpRounds(4 * dim, align);
      PagesOf(AlignUp(4 * dim, align), if pageSize == 0 then 4096 else pageSize)
    else PagesOf(AlignUp(4 * dim, align), if pageSize == 0 then 4096 else pageSize)
  }

  function PagesOf(es: nat, ps: nat): (g: Geometry)
    requires es > 0 && ps > 0
    ensures g.Ok() && g.entrySize == es && g.pageSize < (g.epp + 1) * es && g.pageSize == if es > ps then es else ps
  {
    QuotientFits(ps, es);
    if ps / es == 0 then Geometry(es, es, 1) else Geometry(ps, es, ps / es)
  }

  function Zeros(n: nat): (r: Bytes)
    ensures |r| == n && forall i :: 0 <= i < n ==> r[i] == 0
  {
    seq<Byte>(n, _ => 0)
  }

  /** Slot `s` of a page. */
  function EntryAt(g: Geometry, page: Page, s: nat): (e: Bytes)
    requires g.Ok() && |page| == g.pageSize && s < g.epp
    ensures |e| == g.entrySize
  {
    SlotFits(g, s);
    page[s * g.entrySize..s * g.entrySize + g.entrySize]
  }

  /** The page with slot `s` overwritten. */
  function SetEntry(g: Geometry, page: Page, s: nat, data: Bytes): (r: Page)
    requires g.Ok() && |page| == g.pageSize && s < g.epp && |data| == g.entrySize
    ensures |r| == g.pageSize
  {
    SlotFits(g, s);
    page[..s * g.entrySize] + data + page[s * g.entrySize + g.entrySize..]
  }

  lemma SlotFits(g: Geometry, s: nat)
    requires g.Ok() && s < g.epp
    ensures 0 <= s * g.entrySize && s * g.entrySize + g.entrySize <= g.epp * g.entrySize <= g.pageSize
  {
    assert (s + 1) * g.entrySize <= g.epp * g.entrySize;
  }

  lemma Spliced(page: Page, data: Bytes, a: nat, b: nat)
    requires a + |data| <= |page| && b + |data| <= |page|
    requires b + |data| <= a || a + |data| <= b || a == b
    ensures (page[..a] + data + page[a + |data|..])[b..b + |data|] == if a == b then data else page[b..b + |data|]
  {
  }

  /** Slots are disjoint: a write is read back, and no other slot notices it. */
  lemma SetEntryReads(g: Geometry, page: Page, s: nat, data: Bytes, t: nat)
    requires g.Ok() && |page| == g.pageSize && s < g.epp && t < g.epp && |data| == g.entrySize
    ensures EntryAt(g, SetEntry(g, page, s, data), t) == if t == s then data else EntryAt(g, page, t)
  {
    SlotFits(g, s);
    SlotFits(g, t);
    SlotsApart(g.entrySize, s, t);
    Spliced(page, data, s * g.entrySize, t * g.entrySize);
  }

  lemma SlotsApart(size: nat, s: nat, t: nat)
    requires size > 0
    ensures s < t ==> s * size + size <= t * size
    ensures t < s ==> t * size + size <= s * size
  {
    MulMono(s + 1, t, size);
    MulMono(t + 1, s, size);
  }

  lemma ZeroEntry(g: Geometry, t: nat)
    requires g.Ok() && t < g.epp
    ensures EntryAt(g, Zeros(g.pageSize), t) == Zeros(g.entrySize)
  {
    SlotFits(g, t);
  }

  // ----- the data file -----

  /** The data file by page; a page never written reads as zeros. */
  type File = map<nat, Page>

  ghost predicate FileOk(g: Geometry, f: File) {
    forall p :: p in f ==> |f[p]| == g.pageSize
  }

  function PageOf(g: Geometry, f: File, p: nat): (r: Page)
    requires FileOk(g, f)
    ensures |r| == g.pageSize
  {
    if p in f then f[p] else Zeros(g.pageSize)
  }

  /** The byte at a file offset. */
  function ByteAt(g: Geometry, f: File, off: nat): (b: Byte)
    requires g.pageSize > 0 && FileOk(g, f)
  {
    PageOf(g, f, off / g.pageSize)[off % g.pageSize]
  }

  /** Entry `id` by page addressing: page id / epp, slot id % epp. */
  function PagedRead(g: Geometry, f: File, id: nat): (e: Bytes)
    requires g.Ok() && FileOk(g, f)
    ensures |e| == g.entrySize
  {
    EntryAt(g, PageOf(g, f, id / g.epp), id % g.epp)
  }

  /** Entry `id` by linear addressing: the bytes from id * entrySize on. */
  function LinearRead(g: Geometry, f: File, id: nat): (e: Bytes)
    requires g.Ok() && FileOk(g, f)
    ensures |e| == g.entrySize
  {
    seq<Byte>(g.entrySize, i requires 0 <= i < g.entrySize => ByteAt(g, f, id * g.entrySize + i))
  }

  /** The linear offset of entry `id`, split at the page. */
  lemma LinearOffset(g: Geometry, id: nat, p: nat, s: nat)
    requires g.pageSize == g.epp * g.entrySize && id == p * g.epp + s
    ensures id * g.entrySize == p * g.pageSize + s * g.entrySize
  {
    MulParts(p, g.epp, s, g.entrySize);
  }

  lemma ByteAtOffset(g: Geometry, f: File, off: nat, p: nat, at: nat)
    requires g.pageSize > 0 && FileOk(g, f) && off == p * g.pageSize + at && at < g.pageSize
    ensures ByteAt(g, f, off) == PageOf(g, f, p)[at]
  {
    DivModUnique(off, g.pageSize, p, at);
  }

  /** When pages hold no slack the two addressings are the same function. */
  lemma LinearIsPaged(g: Geometry, f: File, id: nat)
    requires g.Ok() && FileOk(g, f) && g.pageSize == g.epp * g.entrySize
    ensures LinearRead(g, f, id) == PagedRead(g, f, id)
  {
    hide ByteAt, PageOf, FileOk;
    var p, s := DivMod(id, g.epp);
    SlotFits(g, s);
    LinearOffset(g, id, p, s);
    var off, at := id * g.entrySize, s * g.entrySize;
    forall i | 0 <= i < g.entrySize
      ensures LinearRead(g, f, id)[i] == PagedRead(g, f, id)[i]
    {
      ByteAtOffset(g, f, off + i, p, at + i);
    }
  }

  /** The file that tells the two addressings apart: page 1 starts with a one. */
  function Probe(g: Geometry): (f: File)
    requires g.Ok()
    ensures FileOk(g, f)
  {
    map[1 := [1] + Zeros(g.pageSize - 1)]
  }

  /** With slack, the first entry of page 1 is addressed differently. */
  lemma SlackSeparates(g: Geometry)
    requires g.Ok() && g.pageSize != g.epp * g.entrySize
    ensures LinearRead(g, Probe(g), g.epp) != PagedRead(g, Probe(g), g.epp)
  {
    var f, off := Probe(g), g.epp * g.entrySize;
    DivModUnique(g.epp, g.epp, 1, 0);
    DivModUnique(off, g.pageSize, 0, off);
    assert PagedRead(g, f, g.epp)[0] == 1;
    assert LinearRead(g, f, g.epp)[0] == ByteAt(g, f, off) == 0;
  }

  /** Linear and page addressing agree on every entry of every file exactly when a page
      is filled by its entries. */
  lemma LayoutsAgree(g: Geometry)
    requires g.Ok()
    ensures (forall f: File, id: nat :: FileOk(g, f) ==> LinearRead(g, f, id) == PagedRead(g, f, id))
            <==> g.pageSize == g.epp * g.entrySize
  {
    if g.pageSize == g.epp * g.entrySize {
      forall f: File, id: nat | FileOk(g, f)
        ensures LinearRead(g, f, id) == PagedRead(g, f, id)
      {
        LinearIsPaged(g, f, id);
      }
    } else {
      SlackSeparates(g);
    }
  }
}
