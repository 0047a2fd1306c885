/** Address spaces: a page table, the list of mapped areas, and the deep copy that fork makes.

    The page-table walk is taken as visiting consecutive virtual pages in order, and the table as a map from
    virtual page numbers to entries.
  */
module AddressSpaces {
  import opened BlockViews
  import opened Options

  const PAGE_SIZE: nat := 4096

  type Vpn = nat
  type Ppn = nat

  datatype Flag = Valid | Readable | Writable | Executable | User | Global | Owned

  type VmFlags = set<Flag>

  datatype Pte = Pte(ppn: Ppn, flags: VmFlags) {
    predicate IsValid() { Flag.Valid in flags }
  }

  /** Virtual pages start, ..., end - 1. */
  datatype Range = Range(start: nat, end: nat) {
    predicate Has(n: nat) { start <= n < end }
  }

  type PageTable = map<Vpn, Pte>
  type Page = s: seq<u8> | |s| == PAGE_SIZE witness Zeros(PAGE_SIZE)

  // ---- physical pages ----

  /** `count` zero pages from `base` on. */
  function ZeroPages(base: Ppn, count: nat): (m: map<Ppn, Page>)
    ensures forall p: Ppn :: p in m <==> base <= p < base + count
  {
    if count == 0 then map[] else ZeroPages(base, count - 1)[base + count - 1 := Zeros(PAGE_SIZE)]
  }

  /** The pages there are; the allocator hands out consecutive ones that were not there before, all zero. */
  class PhysicalMemory {
    var pages: map<Ppn, Page>
    var next: Ppn

    constructor ()
      ensures Valid() && pages == map[]
    {
      pages, next := map[], 0;
    }

    ghost predicate Valid()
      reads this
    {
      forall p :: p in pages ==> p < next
    }

    method Allocate(count: nat) returns (base: Ppn)
      requires Valid()
      modifies this
      ensures Valid() && forall p :: p in old(pages) ==> p < base
      ensures pages == old(pages) + ZeroPages(base, count)
    {
      base := next;
      pages := pages + ZeroPages(base, count);
      next := next + count;
    }

    method Store(p: Ppn, page: Page)
      requires Valid() && p in pages
      modifies this`pages
      ensures Valid() && pages == old(pages)[p := page]
    {
      pages := pages[p := page];
    }

    /** Copies `count` consecutive pages; source and destination do not overlap. */
    method CopyPages(from: Ppn, to: Ppn, count: nat)
      requires Valid() && Present(pages, from, count) && Present(pages, to, count)
      requires from + count <= to || to + count <= from
      modifies this`pages
      ensures Valid() && PagesMoved(old(pages), pages, from, to, count)
    {
      for k := 0 to count
        invariant Valid() && PagesMoved(old(pages), pages, from, to, k)
      {
        ghost var mid := pages;
        assert from + k in pages && to + k in pages;
        Store(to + k, pages[from + k]);
        MovedMore(old(pages), mid, from, to, k);
      }
    }

    /** Fills `count` consecutive pages with `image`. */
    method FillPages(base: Ppn, count: nat, image: seq<u8>)
      requires Valid() && |image| == count * PAGE_SIZE && Present(pages, base, count)
      modifies this`pages
      ensures Valid() && pages.Keys == old(pages).Keys
      ensures forall p :: p in pages ==> pages[p] == if base <= p < base + count then PageOf(image, p - base)
                else old(pages)[p]
    {
      for k := 0 to count
        invariant Valid() && pages.Keys == old(pages).Keys
        invariant forall p :: p in pages ==> pages[p] == if base <= p < base + k then PageOf(image, p - base)
                    else old(pages)[p]
      {
        assert base + k in pages;
        Store(base + k, PageOf(image, k));
      }
    }
  }

  /** Pages `to`, ..., `to + count - 1` hold what `from`, ... held; all others are as before. */
  ghost predicate PagesMoved(before: map<Ppn, Page>, after: map<Ppn, Page>, from: Ppn, to: Ppn, count: nat) {
    after.Keys == before.Keys
    && forall p {:trigger after[p]} :: p in after ==>
         after[p] == PageAt(before, if to <= p < to + count then from + (p - to) else p)
  }

  lemma MovedMore(before: map<Ppn, Page>, mid: map<Ppn, Page>, from: Ppn, to: Ppn, k: nat)
    requires PagesMoved(before, mid, from, to, k) && from + k in mid && to + k in mid
    requires from + k < to || to + k <= from
    ensures PagesMoved(before, mid[to + k := mid[from + k]], from, to, k + 1)
  {
  }

  /** The pages `base`, ..., `base + count - 1` exist. */
  ghost predicate Present(pages: map<Ppn, Page>, base: Ppn, count: nat) {
    forall p :: base <= p < base + count ==> p in pages
  }

  function PageAt(pages: map<Ppn, Page>, p: Ppn): Page { if p in pages then pages[p] else Zeros(PAGE_SIZE) }

  /** Page k of an image. */
  function PageOf(image: seq<u8>, k: nat): Page {
    if k * PAGE_SIZE + PAGE_SIZE <= |image| then image[k * PAGE_SIZE..k * PAGE_SIZE + PAGE_SIZE] else Zeros(PAGE_SIZE)
  }

  // ---- areas ----

  ghost predicate Disjoint(areas: seq<Range>) {
    forall i, j, n: nat :: 0 <= i < j < |areas| && areas[i].Has(n) ==> !areas[j].Has(n)
  }

  ghost predicate Covered(areas: seq<Range>, n: nat) { exists i :: 0 <= i < |areas| && areas[i].Has(n) }

  /** Page n is mapped as far behind page m physically as virtually, with the same flags. */
  predicate InStep(pt: PageTable, m: Vpn, n: Vpn) {
    m in pt && n in pt && m <= n && pt[n] == Pte(pt[m].ppn + (n - m), pt[m].flags)
  }

  /** An area is mapped to consecutive physical pages with the same flags throughout. */
  ghost predicate Uniform(pt: PageTable, a: Range) {
    && a.start < a.end && a.start in pt && pt[a.start].IsValid()
    && forall n: nat {:trigger InStep(pt, a.start, n)} {:trigger a.Has(n)} :: a.Has(n) ==> InStep(pt, a.start, n)
  }

  /** A part of a uniform area is uniform. */
  lemma UniformPart(pt: PageTable, pt': PageTable, a: Range, b: Range)
    requires Uniform(pt, a) && a.start <= b.start < b.end <= a.end
    requires forall n: nat :: b.Has(n) ==> n in pt && n in pt' && pt'[n] == pt[n]
    ensures Uniform(pt', b)
  {
    assert a.Has(b.start) && b.Has(b.start);
    forall n: nat | b.Has(n)
      ensures InStep(pt', b.start, n)
    {
      assert a.Has(n) && InStep(pt, a.start, n) && InStep(pt, a.start, b.start);
    }
  }

  ghost predicate AllUniform(pt: PageTable, areas: seq<Range>) {
    forall i :: 0 <= i < |areas| ==> Uniform(pt, areas[i])
  }

  ghost predicate CoverTable(pt: PageTable, areas: seq<Range>) {
    forall n: nat {:trigger Covered(areas, n)} :: n in pt <==> Covered(areas, n)
  }

  datatype AreaLaw = AreasDisjoint | AreasUniform | AreasCoverTable

  ghost predicate AreaHolds(law: AreaLaw, pt: PageTable, areas: seq<Range>) {
    match law
    case AreasDisjoint => Disjoint(areas)
    case AreasUniform => AllUniform(pt, areas)
    case AreasCoverTable => CoverTable(pt, areas)
  }

  /** The areas are disjoint, are the mapped pages, and each is contiguous with uniform flags. */
  ghost predicate AreasOk(pt: PageTable, areas: seq<Range>) { forall law: AreaLaw :: AreaHolds(law, pt, areas) }

  lemma AreaLaws(pt: PageTable, areas: seq<Range>)
    ensures AreasOk(pt, areas) <==> Disjoint(areas) && AllUniform(pt, areas) && CoverTable(pt, areas)
  {
    assert AreaHolds(AreasDisjoint, pt, areas) <==> Disjoint(areas);
    assert AreaHolds(AreasUniform, pt, areas) <==> AllUniform(pt, areas);
    assert AreaHolds(AreasCoverTable, pt, areas) <==> CoverTable(pt, areas);
  }

  // ---- unmapping on the list of areas ----

  function Front(a: Range, r: Range): seq<Range> { if a.start < r.start then [Range(a.start, r.start)] else [] }

  function Back(a: Range, r: Range): seq<Range> { if a.end > r.end then [Range(r.end, a.end)] else [] }

  /** What is left of area a when r is taken out. */
  function Split(a: Range, r: Range): seq<Range> {
    if a.end <= r.start || a.start >= r.end then [a]
    else Front(a, r) + Back(a, r)
  }

  function Remove(areas: seq<Range>, r: Range): seq<Range> {
    if areas == [] then [] else Remove(areas[..|areas| - 1], r) + Split(areas[|areas| - 1], r)
  }

  lemma SplitHas(a: Range, r: Range, n: nat)
    requires a.start < a.end && r.start <= r.end
    ensures Covered(Split(a, r), n) <==> a.Has(n) && !r.Has(n)
    ensures Disjoint(Split(a, r))
    ensures forall i :: 0 <= i < |Split(a, r)| ==> var b := Split(a, r)[i]; a.start <= b.start < b.end <= a.end
  {
    var s := Split(a, r);
    if a.Has(n) && !r.Has(n) {
      assert s[if |s| == 2 && n >= r.end then 1 else 0].Has(n);
    }
  }

  /** Removal takes exactly r out, and keeps the pieces disjoint and inside the old areas. */
  lemma {:induction false} RemoveHas(areas: seq<Range>, r: Range)
    requires Disjoint(areas) && r.start <= r.end && forall i :: 0 <= i < |areas| ==> areas[i].start < areas[i].end
    ensures forall n: nat :: Covered(Remove(areas, r), n) <==> Covered(areas, n) && !r.Has(n)
    ensures Disjoint(Remove(areas, r))
    ensures forall i :: 0 <= i < |Remove(areas, r)| ==> Inside(Remove(areas, r)[i], areas)
  {
    if areas != [] {
      var init, a := areas[..|areas| - 1], areas[|areas| - 1];
      RemoveHas(init, r);
      var s, t := Remove(init, r), Split(a, r);
      assert areas == init + [a];
      forall n: nat
        ensures Covered(s + t, n) <==> Covered(areas, n) && !r.Has(n)
        ensures Covered(s, n) ==> !Covered(t, n)
        ensures Disjoint(t)
      {
        SplitHas(a, r, n);
        CoveredConcat(s, t, n);
        CoveredConcat(init, [a], n);
        assert Covered([a], n) <==> a.Has(n) by { assert [a][0] == a; }
      }
      DisjointConcat(s, t);
      forall i | 0 <= i < |s + t|
        ensures Inside((s + t)[i], areas)
      {
        SplitHas(a, r, 0);
        if i < |s| {
          assert Inside(s[i], init);
          var j :| 0 <= j < |init| && init[j].start <= s[i].start < s[i].end <= init[j].end;
          assert areas[j] == init[j];
        } else {
          assert areas[|init|] == a;
        }
      }
    }
  }

  ghost predicate Inside(b: Range, areas: seq<Range>) {
    exists j :: 0 <= j < |areas| && areas[j].start <= b.start < b.end <= areas[j].end
  }

  lemma CoveredConcat(s: seq<Range>, t: seq<Range>, n: nat)
    ensures Covered(s + t, n) <==> Covered(s, n) || Covered(t, n)
  {
    if Covered(s, n) {
      var i :| 0 <= i < |s| && s[i].Has(n);
      assert (s + t)[i].Has(n);
    }
    if Covered(t, n) {
      var i :| 0 <= i < |t| && t[i].Has(n);
      assert (s + t)[|s| + i].Has(n);
    }
  }

  lemma DisjointConcat(s: seq<Range>, t: seq<Range>)
    requires Disjoint(s) && Disjoint(t) && forall n: nat :: Covered(s, n) ==> !Covered(t, n)
    ensures Disjoint(s + t)
  {
    var u := s + t;
    forall i, j, n | 0 <= i < j < |u| && u[i].Has(n)
      ensures !u[j].Has(n)
    {
      if i < |s| <= j {
        assert Covered(s, n);
        assert u[j] == t[j - |s|];
      }
    }
  }

  /** The pages of r, taken out of the table. */
  function Without(pt: PageTable, r: Range): PageTable {
    map n | n in pt && !r.Has(n) :: pt[n]
  }

  /** Taking the pages of r out of the table leaves the remaining pieces uniform. */
  lemma RemoveOk(pt: PageTable, areas: seq<Range>, r: Range)
    requires AreasOk(pt, areas) && r.start <= r.end
    ensures AreasOk(Without(pt, r), Remove(areas, r))
  {
    AreaLaws(pt, areas);
    assert forall i :: 0 <= i < |areas| ==> Uniform(pt, areas[i]);
    RemoveHas(areas, r);
    RemoveUniform(pt, areas, Remove(areas, r), r);
    AreaLaws(Without(pt, r), Remove(areas, r));
  }

  lemma RemoveUniform(pt: PageTable, areas: seq<Range>, rest: seq<Range>, r: Range)
    requires AllUniform(pt, areas) && (forall i :: 0 <= i < |rest| ==> Inside(rest[i], areas))
    requires forall n: nat :: Covered(rest, n) ==> n in pt && !r.Has(n)
    ensures AllUniform(Without(pt, r), rest)
  {
    forall i | 0 <= i < |rest|
      ensures Uniform(Without(pt, r), rest[i])
    {
      assert Inside(rest[i], areas);
      var j :| 0 <= j < |areas| && areas[j].start <= rest[i].start < rest[i].end <= areas[j].end;
      assert Uniform(pt, areas[j]);
      forall n: nat | rest[i].Has(n)
        ensures n in pt && !r.Has(n)
      {
        assert Covered(rest, n);
      }
      UniformPart(pt, Without(pt, r), areas[j], rest[i]);
    }
  }

  /** The table with the pages of r mapped to consecutive physical pages from `base` on. */
  function Mapped(pt: PageTable, r: Range, base: Ppn, flags: VmFlags): (m: PageTable)
    ensures forall n: nat :: n in m <==> n in pt || r.Has(n)
    ensures forall n: nat :: n in m ==> m[n] == if r.Has(n) then Pte(base + (n - r.start), flags) else pt[n]
    decreases r.end - r.start
  {
    if r.start >= r.end then pt
    else Mapped(pt, Range(r.start, r.end - 1), base, flags)[r.end - 1 := Pte(base + (r.end - 1 - r.start), flags)]
  }

  /** Mapping a range of free pages adds one uniform area. */
  lemma MapOk(pt: PageTable, areas: seq<Range>, r: Range, base: Ppn, flags: VmFlags)
    requires AreasOk(pt, areas) && r.start < r.end && Flag.Valid in flags
    requires forall n: nat :: r.Has(n) ==> n !in pt
    ensures AreasOk(Mapped(pt, r, base, flags), areas + [r])
  {
    var pt', areas' := Mapped(pt, r, base, flags), areas + [r];
    AreaLaws(pt, areas);
    AreaLaws(pt', areas');
    forall n: nat
      ensures n in pt' <==> Covered(areas', n)
      ensures Covered(areas, n) ==> !Covered([r], n)
    {
      CoveredConcat(areas, [r], n);
      assert Covered([r], n) <==> r.Has(n) by { assert [r][0] == r; }
    }
    DisjointConcat(areas, [r]);
    forall i | 0 <= i < |areas'|
      ensures Uniform(pt', areas'[i])
    {
      if i < |areas| { MapOther(pt, areas, r, base, flags, i); } else { MapNew(pt, r, base, flags); }
    }
  }

  lemma MapOther(pt: PageTable, areas: seq<Range>, r: Range, base: Ppn, flags: VmFlags, i: nat)
    requires AllUniform(pt, areas) && i < |areas| && forall n: nat :: r.Has(n) ==> n !in pt
    ensures Uniform(Mapped(pt, r, base, flags), areas[i])
  {
    assert Uniform(pt, areas[i]);
    UniformPart(pt, Mapped(pt, r, base, flags), areas[i], areas[i]);
  }

  lemma MapNew(pt: PageTable, r: Range, base: Ppn, flags: VmFlags)
    requires r.start < r.end && Flag.Valid in flags
    ensures Uniform(Mapped(pt, r, base, flags), r)
  {
    assert r.Has(r.start);
  }

  /** Unmapping undoes mapping: the table and the list of areas are as they were. */
  lemma UnmapUndoesMap(pt: PageTable, areas: seq<Range>, r: Range, base: Ppn, flags: VmFlags)
    requires AreasOk(pt, areas) && r.start < r.end && forall n: nat :: r.Has(n) ==> n !in pt
    ensures Without(Mapped(pt, r, base, flags), r) == pt && Remove(areas + [r], r) == areas
  {
    forall i | 0 <= i < |areas|
      ensures areas[i].end <= r.start || areas[i].start >= r.end
    {
      AreaOutside(pt, areas, r, i);
    }
    RemoveOutside(areas, r);
    RemoveLast(areas, r);
  }

  lemma AreaOutside(pt: PageTable, areas: seq<Range>, r: Range, i: nat)
    requires AreasOk(pt, areas) && i < |areas| && r.start < r.end && forall n: nat :: r.Has(n) ==> n !in pt
    ensures areas[i].end <= r.start || areas[i].start >= r.end
  {
    assert AreaHolds(AreasUniform, pt, areas) && Uniform(pt, areas[i]);
    var a := areas[i];
    var n := if a.start < r.start then r.start else a.start;
    assert a.Has(n) ==> InStep(pt, a.start, n);
    assert r.Has(n) ==> n !in pt;
  }

  lemma RemoveLast(areas: seq<Range>, r: Range)
    requires r.start < r.end
    ensures Remove(areas + [r], r) == Remove(areas, r)
  {
    assert (areas + [r])[..|areas|] == areas && Split(r, r) == [];
  }

  lemma {:induction false} RemoveOutside(areas: seq<Range>, r: Range)
    requires forall i :: 0 <= i < |areas| ==> areas[i].end <= r.start || areas[i].start >= r.end
    ensures Remove(areas, r) == areas
  {
    if areas != [] { RemoveOutside(areas[..|areas| - 1], r); }
  }

  // ---- the address space ----

  /** Fills page-table entries with consecutive physical pages until the range is used up. */
  class Mapper {
    var start: Ppn
    const end: Ppn
    const flags: VmFlags
    var done: bool

    constructor (start: Ppn, end: Ppn, flags: VmFlags)
      ensures this.start == start && this.end == end && this.flags == flags && !done
    {
      this.start, this.end, this.flags, done := start, end, flags, false;
    }

    /** The entry of an unmapped page: writes it and goes on, or stops after the last one. */
    method Arrive(space: AddressSpace, vpn: Vpn)
      requires vpn !in space.pt && start < end
      modifies this, space`pt
      ensures space.pt == old(space.pt)[vpn := Pte(old(start), flags)]
      ensures start == old(start) + 1 && done == (start == end)
    {
      space.pt := space.pt[vpn := Pte(start, flags)];
      start := start + 1;
      done := start == end;
    }
  }

  /** What the source of a copy and its copy have in common, and what keeps them apart. */
  ghost predicate CopiedPage(from: PageTable, to: PageTable, before: map<Ppn, Page>, after: map<Ppn, Page>, n: Vpn) {
    && n in from && n in to && from[n].ppn in before && to[n].ppn in after
    && after[to[n].ppn] == before[from[n].ppn]
    && to[n].flags == from[n].flags + {Owned} && to[n].ppn !in before
  }

  class AddressSpace {
    var areas: seq<Range>
    var pt: PageTable
    const memory: PhysicalMemory

    constructor (memory: PhysicalMemory)
      requires memory.Valid()
      ensures Valid() && areas == [] && pt == map[] && this.memory == memory
    {
      areas, pt := [], map[];
      this.memory := memory;
      new;
      AreaLaws(pt, areas);
    }

    ghost predicate Valid()
      reads this, memory
    {
      memory.Valid() && AreasOk(pt, areas)
    }

    /** The walk over the pages of a range. */
    method Walk(range: Range, pbase: Ppn, flags: VmFlags)
      requires range.start < range.end && forall n: nat :: range.Has(n) ==> n !in pt
      modifies this`pt
      ensures pt == Mapped(old(pt), range, pbase, flags)
    {
      var mapper := new Mapper(pbase, pbase + (range.end - range.start), flags);
      var vpn := range.start;
      while !mapper.done
        invariant fresh(mapper) && mapper.end == pbase + (range.end - range.start) && mapper.flags == flags
        invariant range.start <= vpn <= range.end && mapper.start == pbase + (vpn - range.start)
        invariant mapper.done <==> vpn == range.end
        invariant pt == Mapped(old(pt), Range(range.start, vpn), pbase, flags)
        decreases range.end - vpn
      {
        assert range.Has(vpn);
        mapper.Arrive(this, vpn);
        vpn := vpn + 1;
      }
      assert Range(range.start, vpn) == range;
    }

    /** Maps a range of unmapped pages to given physical pages. */
    method MapExtern(range: Range, pbase: Ppn, flags: VmFlags)
      requires Valid() && range.start < range.end && Flag.Valid in flags
      requires forall n: nat :: range.Has(n) ==> n !in pt
      modifies this
      ensures Valid() && areas == old(areas) + [range] && pt == Mapped(old(pt), range, pbase, flags)
    {
      areas := areas + [range];
      Walk(range, pbase, flags);
      MapOk(old(pt), old(areas), range, pbase, flags);
    }

    /** Maps a range to new physical pages that hold `data` from `offset` on and zeros elsewhere. */
    method Map(range: Range, data: seq<u8>, offset: nat, flags: VmFlags) returns (ppn: Ppn)
      requires Valid() && range.start < range.end && Flag.Valid in flags
      requires offset + |data| <= (range.end - range.start) * PAGE_SIZE
      requires forall n: nat :: range.Has(n) ==> n !in pt
      modifies this, memory
      ensures Valid() && areas == old(areas) + [range] && pt == Mapped(old(pt), range, ppn, flags + {Owned})
      ensures var image := Zeros(offset) + data + Zeros((range.end - range.start) * PAGE_SIZE - offset - |data|);
              forall p: Ppn :: ppn <= p < ppn + (range.end - range.start) ==>
                p !in old(memory.pages) && p in memory.pages && memory.pages[p] == PageOf(image, p - ppn)
      ensures forall p :: p in old(memory.pages) ==> p in memory.pages && memory.pages[p] == old(memory.pages)[p]
    {
      var count := range.end - range.start;
      var size := count * PAGE_SIZE;
      ppn := memory.Allocate(count);
      memory.FillPages(ppn, count, Zeros(offset) + data + Zeros(size - offset - |data|));
      MapExtern(range, ppn, flags + {Owned});
    }

    /** Drains the list of areas, keeping what lies outside the range. */
    method CutAreas(range: Range)
      modifies this`areas
      ensures areas == Remove(old(areas), range)
    {
      var newAreas := [];
      for i := 0 to |areas|
        invariant areas == old(areas) && newAreas == Remove(areas[..i], range)
      {
        var area := areas[i];
        assert areas[..i + 1][..i] == areas[..i];
        if area.end <= range.start || area.start >= range.end {
          newAreas := newAreas + [area];
        } else {
          var kept := [];
          if area.start < range.start {
            kept := kept + [Range(area.start, range.start)];
          }
          if area.end > range.end {
            kept := kept + [Range(range.end, area.end)];
          }
          newAreas := newAreas + kept;
        }
      }
      assert areas[..|areas|] == areas;
      areas := newAreas;
    }

    /** Clears the entries of a range one by one. */
    method ClearEntries(range: Range)
      requires range.start <= range.end
      modifies this`pt
      ensures pt == Without(old(pt), range)
    {
      var vpn := range.start;
      while vpn < range.end
        invariant range.start <= vpn <= range.end
        invariant pt == Without(old(pt), Range(range.start, vpn))
      {
        pt := pt - {vpn};
        vpn := vpn + 1;
      }
      assert Range(range.start, vpn) == range;
    }

    /** Takes a range out: areas that overlap it are cut, entries are cleared. */
    method Unmap(range: Range)
      requires Valid() && range.start <= range.end
      modifies this
      ensures Valid() && areas == Remove(old(areas), range) && pt == Without(old(pt), range)
    {
      CutAreas(range);
      ClearEntries(range);
      RemoveOk(old(pt), old(areas), range);
    }

    /** The physical page and the offset of an address, if it is mapped with at least these flags. */
    method Translate(addr: nat, flags: VmFlags) returns (r: Option<(Ppn, nat)>)
      ensures var n := addr / PAGE_SIZE;
              r == if n in pt && pt[n].IsValid() && flags <= pt[n].flags then Some((pt[n].ppn, addr % PAGE_SIZE))
                else None
    {
      var vpn := addr / PAGE_SIZE;
      if vpn in pt && pt[vpn].IsValid() && flags <= pt[vpn].flags {
        r := Some((pt[vpn].ppn, addr % PAGE_SIZE));
      } else {
        r := None;
      }
    }

    /** One area: new pages, their contents copied from the first physical page on, the flags of the first page. */
    method CloneArea(newSpace: AddressSpace, range: Range) returns (base: Ppn)
      requires Uniform(pt, range) && newSpace != this && newSpace.Valid() && newSpace.memory == memory
      requires forall n: nat :: range.Has(n) ==> n !in newSpace.pt
      requires Present(memory.pages, pt[range.start].ppn, range.end - range.start)
      modifies newSpace, memory
      ensures newSpace.Valid() && newSpace.areas == old(newSpace.areas) + [range]
      ensures newSpace.pt == Mapped(old(newSpace.pt), range, base, pt[range.start].flags + {Owned})
      ensures Duplicated(old(memory.pages), memory.pages, pt[range.start].ppn, base, range.end - range.start)
    {
      var pte := pt[range.start];
      var count := range.end - range.start;
      base := Duplicate(memory, pte.ppn, count);
      newSpace.MapExtern(range, base, pte.flags + {Owned});
    }

    /** The i-th round of the copy. */
    method CloneNext(newSpace: AddressSpace, i: nat, ghost before: map<Ppn, Page>, ghost pt0: PageTable)
      requires i < |areas| && AreasOk(pt, areas) && AllIn(pt, before) && forall n :: n in pt ==> n !in pt0
      requires newSpace != this && newSpace.Valid() && newSpace.memory == memory && Kept(before, memory.pages)
      requires Cloned(areas[..i], pt, before, pt0, newSpace.pt, memory.pages)
      modifies newSpace, memory
      ensures newSpace.Valid() && newSpace.areas == old(newSpace.areas) + [areas[i]] && Kept(before, memory.pages)
      ensures Cloned(areas[..i] + [areas[i]], pt, before, pt0, newSpace.pt, memory.pages)
    {
      ghost var to, mid := newSpace.pt, memory.pages;
      NextArea(areas, pt, before, pt0, to, mid, i);
      var base := CloneArea(newSpace, areas[i]);
      ClonedStep(areas[..i], pt, before, pt0, to, mid, areas[i], base, memory.pages);
    }

    /** Copies all areas into another address space, page contents included, into new physical pages. */
    method CloneSelf(newSpace: AddressSpace)
      requires Valid() && AllIn(pt, memory.pages) && newSpace != this && newSpace.Valid() && newSpace.memory == memory
      requires forall n :: n in pt ==> n !in newSpace.pt
      modifies newSpace, memory
      ensures Valid() && newSpace.Valid() && newSpace.areas == old(newSpace.areas) + areas
      ensures Cloned(areas, pt, old(memory.pages), old(newSpace.pt), newSpace.pt, memory.pages)
      ensures Kept(old(memory.pages), memory.pages)
    {
      ClonedNone(areas[..0], pt, memory.pages, newSpace.pt);
      assert newSpace.areas == old(newSpace.areas) + areas[..0];
      for i := 0 to |areas|
        invariant newSpace.Valid() && Kept(old(memory.pages), memory.pages)
        invariant newSpace.areas == old(newSpace.areas) + areas[..i]
        invariant Cloned(areas[..i], pt, old(memory.pages), old(newSpace.pt), newSpace.pt, memory.pages)
      {
        CloneNext(newSpace, i, old(memory.pages), old(newSpace.pt));
        assert areas[..i + 1] == areas[..i] + [areas[i]];
      }
      assert areas[..|areas|] == areas;
    }
  }

  /** Allocates pages and copies existing ones into them. */
  method Duplicate(memory: PhysicalMemory, from: Ppn, count: nat) returns (base: Ppn)
    requires memory.Valid() && 0 < count && Present(memory.pages, from, count)
    modifies memory
    ensures memory.Valid() && Duplicated(old(memory.pages), memory.pages, from, base, count)
  {
    assert from + count - 1 in memory.pages;
    base := memory.Allocate(count);
    assert Present(memory.pages, from, count) && Present(memory.pages, base, count);
    memory.CopyPages(from, base, count);
  }

  /** `count` pages from `from` on were copied to new pages from `to` on, behind all others. */
  ghost predicate Duplicated(before: map<Ppn, Page>, after: map<Ppn, Page>, from: Ppn, to: Ppn, count: nat) {
    && Kept(before, after) && (forall p :: p in before ==> p < to)
    && Present(after, to, count)
    && forall p {:trigger after[p]} :: to <= p < to + count ==> after[p] == PageAt(before, from + (p - to))
  }

  /** Old pages are still there, unchanged. */
  ghost predicate Kept(before: map<Ppn, Page>, after: map<Ppn, Page>) {
    forall p :: p in before ==> p in after && after[p] == before[p]
  }

  ghost predicate AllIn(pt: PageTable, pages: map<Ppn, Page>) { forall n :: n in pt ==> pt[n].ppn in pages }

  datatype CloneLaw = SamePages | OthersKept | PagesCopied | PagesApart

  ghost predicate CloneHolds(law: CloneLaw, areas: seq<Range>, from: PageTable, before: map<Ppn, Page>,
                             to0: PageTable, to: PageTable, after: map<Ppn, Page>) {
    match law
    case SamePages => forall n: nat :: n in to <==> n in to0 || Covered(areas, n)
    case OthersKept => forall n: nat :: n in to0 && !Covered(areas, n) ==> n in to && to[n] == to0[n]
    case PagesCopied => forall n: nat :: Covered(areas, n) ==> CopiedPage(from, to, before, after, n)
    case PagesApart =>
      forall m: nat, n: nat ::
        m != n && Covered(areas, m) && Covered(areas, n) && m in to && n in to ==> to[m].ppn != to[n].ppn
  }

  /** The table `to` maps what `to0` did, and a copy of each page in the given areas, no two to the same place. */
  ghost predicate Cloned(areas: seq<Range>, from: PageTable, before: map<Ppn, Page>, to0: PageTable, to: PageTable,
      after: map<Ppn, Page>) {
    forall law: CloneLaw :: CloneHolds(law, areas, from, before, to0, to, after)
  }

  lemma ClonedNone(areas: seq<Range>, from: PageTable, before: map<Ppn, Page>, to: PageTable)
    requires areas == []
    ensures Cloned(areas, from, before, to, to, before)
  {
  }

  /** The next area to copy is uniform, present, and not yet mapped in the copy. */
  lemma NextArea(areas: seq<Range>, pt: PageTable, before: map<Ppn, Page>, to0: PageTable, to: PageTable, mid: map<Ppn,
      Page>, i: nat)
    requires AreasOk(pt, areas) && i < |areas| && AllIn(pt, before) && Kept(before, mid)
    requires (forall n :: n in pt ==> n !in to0) && Cloned(areas[..i], pt, before, to0, to, mid)
    ensures Uniform(pt, areas[i])
    ensures forall n: nat :: areas[i].Has(n) ==> n !in to && !Covered(areas[..i], n)
    ensures Present(mid, pt[areas[i].start].ppn, areas[i].end - areas[i].start)
  {
    assert AreaHolds(AreasDisjoint, pt, areas) && AreaHolds(AreasUniform, pt, areas);
    assert CloneHolds(SamePages, areas[..i], pt, before, to0, to, mid);
    assert Uniform(pt, areas[i]);
    forall n: nat | areas[i].Has(n)
      ensures n !in to && !Covered(areas[..i], n)
    {
      NotBefore(areas, i, n);
      assert InStep(pt, areas[i].start, n);
    }
    UniformPresent(pt, areas[i], before);
    assert forall p :: p in before ==> p in mid;
  }

  lemma NotBefore(areas: seq<Range>, i: nat, n: nat)
    requires Disjoint(areas) && i < |areas| && areas[i].Has(n)
    ensures !Covered(areas[..i], n)
  {
  }

  lemma UniformPresent(pt: PageTable, a: Range, pages: map<Ppn, Page>)
    requires Uniform(pt, a) && AllIn(pt, pages)
    ensures Present(pages, pt[a.start].ppn, a.end - a.start)
  {
    forall p | pt[a.start].ppn <= p < pt[a.start].ppn + (a.end - a.start)
      ensures p in pages
    {
      var n := a.start + (p - pt[a.start].ppn);
      assert a.Has(n) && InStep(pt, a.start, n) && pt[n].ppn == p;
    }
  }

  lemma CoveredMore(areas: seq<Range>, a: Range, n: nat)
    ensures Covered(areas + [a], n) <==> Covered(areas, n) || a.Has(n)
  {
    CoveredConcat(areas, [a], n);
    assert Covered([a], n) <==> a.Has(n) by { assert [a][0] == a; }
  }

  /** A page of the area just copied. */
  lemma NewCopy(from: PageTable, before: map<Ppn, Page>, to: PageTable, mid: map<Ppn, Page>, a: Range, base: Ppn,
      after: map<Ppn, Page>, n: Vpn)
    requires Uniform(from, a) && AllIn(from, before) && Kept(before, mid) && a.Has(n)
    requires Duplicated(mid, after, from[a.start].ppn, base, a.end - a.start)
    ensures CopiedPage(from, Mapped(to, a, base, from[a.start].flags + {Owned}), before, after, n)
  {
    assert InStep(from, a.start, n) && from[n].ppn in mid;
    var p := base + (n - a.start);
    assert p in after && after[p] == PageAt(mid, from[n].ppn);
  }

  lemma ClonedStep(areas: seq<Range>, from: PageTable, before: map<Ppn, Page>, to0: PageTable, to: PageTable,
      mid: map<Ppn, Page>,
                   a: Range, base: Ppn, after: map<Ppn, Page>)
    requires Cloned(areas, from, before, to0, to, mid) && Uniform(from, a) && AllIn(from, before) && Kept(before, mid)
    requires forall n: nat :: a.Has(n) ==> !Covered(areas, n)
    requires Duplicated(mid, after, from[a.start].ppn, base, a.end - a.start)
    ensures Cloned(areas + [a], from, before, to0, Mapped(to, a, base, from[a.start].flags + {Owned}), after)
    ensures Kept(before, after)
  {
    var to' := Mapped(to, a, base, from[a.start].flags + {Owned});
    forall n: nat
      ensures Covered(areas + [a], n) <==> Covered(areas, n) || a.Has(n)
    {
      CoveredMore(areas, a, n);
    }
    assert CloneHolds(SamePages, areas, from, before, to0, to, mid)
      && CloneHolds(OthersKept, areas, from, before, to0, to, mid);
    forall n: nat | Covered(areas, n) || a.Has(n)
      ensures CopiedPage(from, to', before, after, n)
    {
      StillCopied(areas, from, before, to0, to, mid, a, base, after, n);
    }
    forall m: nat, n: nat | m != n && (Covered(areas, m) || a.Has(m)) && (Covered(areas, n) || a.Has(n)) && m in to'
      && n in to'
      ensures to'[m].ppn != to'[n].ppn
    {
      StillApart(areas, from, before, to0, to, mid, a, base, after, m, n);
    }
  }

  lemma StillCopied(areas: seq<Range>, from: PageTable, before: map<Ppn, Page>, to0: PageTable, to: PageTable,
      mid: map<Ppn, Page>,
                    a: Range, base: Ppn, after: map<Ppn, Page>, n: Vpn)
    requires Cloned(areas, from, before, to0, to, mid) && Uniform(from, a) && AllIn(from, before) && Kept(before, mid)
    requires Duplicated(mid, after, from[a.start].ppn, base, a.end - a.start) && (Covered(areas, n) || a.Has(n))
    ensures CopiedPage(from, Mapped(to, a, base, from[a.start].flags + {Owned}), before, after, n)
  {
    if a.Has(n) {
      NewCopy(from, before, to, mid, a, base, after, n);
    } else {
      assert CloneHolds(PagesCopied, areas, from, before, to0, to, mid);
      assert CopiedPage(from, to, before, mid, n);
    }
  }

  lemma StillApart(areas: seq<Range>, from: PageTable, before: map<Ppn, Page>, to0: PageTable, to: PageTable,
      mid: map<Ppn, Page>,
                   a: Range, base: Ppn, after: map<Ppn, Page>, m: Vpn, n: Vpn)
    requires Cloned(areas, from, before, to0, to, mid) && Uniform(from, a)
    requires Duplicated(mid, after, from[a.start].ppn, base, a.end - a.start)
    requires m != n && (Covered(areas, m) || a.Has(m)) && (Covered(areas, n) || a.Has(n))
    ensures var to' := Mapped(to, a, base, from[a.start].flags + {Owned});
            m in to' && n in to' ==> to'[m].ppn != to'[n].ppn
  {
    assert CloneHolds(PagesCopied, areas, from, before, to0, to, mid)
      && CloneHolds(PagesApart, areas, from, before, to0, to, mid);
    if Covered(areas, m) { assert CopiedPage(from, to, before, mid, m); }
    if Covered(areas, n) { assert CopiedPage(from, to, before, mid, n); }
  }

  /** What a process reads at an address. */
  function ByteAt(pt: PageTable, pages: map<Ppn, Page>, addr: nat): Option<u8> {
    var n := addr / PAGE_SIZE;
    if n in pt && pt[n].ppn in pages then Some(pages[pt[n].ppn][addr % PAGE_SIZE]) else None
  }

  /** The copy reads the same at every address the original maps, and a later write through one of the two is not
      seen through the other. */
  lemma CloneMeaning(areas: seq<Range>, from: PageTable, before: map<Ppn, Page>, to: PageTable, after: map<Ppn, Page>,
      addr: nat, n: Vpn, page: Page)
    requires CoverTable(from, areas) && Cloned(areas, from, before, map[], to, after)
    requires AllIn(from, before) && Kept(before, after)
    ensures ByteAt(to, after, addr) == ByteAt(from, before, addr) == ByteAt(from, after, addr)
    ensures n in from && n in to ==> ByteAt(from, after[to[n].ppn := page], addr) == ByteAt(from, after, addr)
    ensures n in from && n in to ==> ByteAt(to, after[from[n].ppn := page], addr) == ByteAt(to, after, addr)
  {
    var m := addr / PAGE_SIZE;
    assert CloneHolds(SamePages, areas, from, before, map[], to, after)
      && CloneHolds(PagesCopied, areas, from, before, map[], to, after);
    if m in from { assert Covered(areas, m) && CopiedPage(from, to, before, after, m); }
    if n in from { assert Covered(areas, n) && CopiedPage(from, to, before, after, n); }
  }

  // ---- a process's memory over its life ----

  datatype SpaceOp =
    | MapOp(range: Range, data: seq<u8>, offset: nat, flags: VmFlags)
    | MapExternOp(range: Range, pbase: Ppn, flags: VmFlags)
    | UnmapOp(range: Range)

  function Vpns(r: Range): set<nat> { set n: nat | n < r.end && r.Has(n) }

  function MappedAfter(mapped: set<nat>, op: SpaceOp): set<nat> {
    if op.UnmapOp? then mapped - Vpns(op.range) else mapped + Vpns(op.range)
  }

  /** Only free pages are mapped, the data fits, and foreign physical pages exist. */
  ghost predicate AllowedOp(mapped: set<nat>, pages: map<Ppn, Page>, op: SpaceOp) {
    match op
    case MapOp(r, data, offset, flags) =>
      r.start < r.end && Vpns(r) !! mapped && Flag.Valid in flags && offset + |data| <= (r.end - r.start) * PAGE_SIZE
    case MapExternOp(r, pbase, flags) =>
      r.start < r.end && Vpns(r) !! mapped && Flag.Valid in flags && Present(pages, pbase, r.end - r.start)
    case UnmapOp(r) => r.start <= r.end
  }

  ghost predicate AllowedOps(mapped: set<nat>, pages: map<Ppn, Page>, ops: seq<SpaceOp>)
    decreases |ops|
  {
    ops == [] || (AllowedOp(mapped, pages, ops[0]) && AllowedOps(MappedAfter(mapped, ops[0]), pages, ops[1..]))
  }

  lemma {:induction false} AllowedLater(mapped: set<nat>, pages: map<Ppn, Page>, pages': map<Ppn, Page>,
      ops: seq<SpaceOp>)
    requires AllowedOps(mapped, pages, ops) && Kept(pages, pages')
    ensures AllowedOps(mapped, pages', ops)
    decreases |ops|
  {
    if ops != [] { AllowedLater(MappedAfter(mapped, ops[0]), pages, pages', ops[1..]); }
  }

  method Apply(space: AddressSpace, op: SpaceOp)
    requires space.Valid() && AllIn(space.pt, space.memory.pages)
    requires AllowedOp(space.pt.Keys, space.memory.pages, op)
    modifies space, space.memory
    ensures space.Valid() && AllIn(space.pt, space.memory.pages) && Kept(old(space.memory.pages), space.memory.pages)
    ensures space.pt.Keys == MappedAfter(old(space.pt.Keys), op)
  {
    assert forall n: nat :: op.range.Has(n) <==> n in Vpns(op.range);
    match op {
      case MapOp(range, data, offset, flags) =>
        var base := space.Map(range, data, offset, flags);
      case MapExternOp(range, pbase, flags) =>
        space.MapExtern(range, pbase, flags);
      case UnmapOp(range) =>
        space.Unmap(range);
    }
  }

  /** After any sequence of mappings and unmappings, a fork gives the child the same pages with the same bytes and the
      same flags, in physical pages that neither the parent nor another page of the child uses. */
  method ForkAfter(space: AddressSpace, ops: seq<SpaceOp>, child: AddressSpace)
    requires space.Valid() && AllIn(space.pt, space.memory.pages) && AllowedOps(space.pt.Keys, space.memory.pages, ops)
    requires child != space && child.memory == space.memory && child.areas == [] && child.pt == map[]
    modifies space, child, space.memory
    ensures space.Valid() && child.Valid() && child.areas == space.areas && child.pt.Keys == space.pt.Keys
    ensures forall addr :: ByteAt(child.pt, child.memory.pages, addr) == ByteAt(space.pt, space.memory.pages, addr)
    ensures forall n :: n in child.pt ==> child.pt[n].flags == space.pt[n].flags + {Owned}
    ensures forall m, n :: m in child.pt && n in space.pt ==>
              child.pt[m].ppn != space.pt[n].ppn && (m != n ==> child.pt[m].ppn != child.pt[n].ppn)
  {
    for i := 0 to |ops|
      invariant space.Valid() && AllIn(space.pt, space.memory.pages)
      invariant AllowedOps(space.pt.Keys, space.memory.pages, ops[i..])
      invariant child.areas == [] && child.pt == map[]
    {
      ghost var pages, mapped := space.memory.pages, space.pt.Keys;
      Apply(space, ops[i]);
      assert ops[i..][1..] == ops[i + 1..];
      AllowedLater(MappedAfter(mapped, ops[i]), pages, space.memory.pages, ops[i + 1..]);
    }
    AreaLaws(child.pt, child.areas);
    ghost var before := space.memory.pages;
    space.CloneSelf(child);
    CloneApart(space.areas, space.pt, before, child.pt, child.memory.pages);
    forall addr
      ensures ByteAt(child.pt, child.memory.pages, addr) == ByteAt(space.pt, space.memory.pages, addr)
    {
      AreaLaws(space.pt, space.areas);
      CloneMeaning(space.areas, space.pt, before, child.pt, child.memory.pages, addr, 0, Zeros(PAGE_SIZE));
    }
  }

  lemma CloneApart(areas: seq<Range>, from: PageTable, before: map<Ppn, Page>, to: PageTable, after: map<Ppn, Page>)
    requires AreasOk(from, areas) && AllIn(from, before) && Cloned(areas, from, before, map[], to, after)
    ensures to.Keys == from.Keys
    ensures forall n :: n in to ==> to[n].flags == from[n].flags + {Owned}
    ensures forall m, n :: m in to && n in from ==> to[m].ppn != from[n].ppn && (m != n ==> to[m].ppn != to[n].ppn)
  {
    assert AreaHolds(AreasCoverTable, from, areas);
    forall n
      ensures n in to <==> n in from
      ensures n in to ==> CopiedPage(from, to, before, after, n)
    {
      CloneSame(areas, from, before, to, after, n);
    }
    forall m, n | m in to && n in to && m != n
      ensures to[m].ppn != to[n].ppn
    {
      CloneDistinct(areas, from, before, to, after, m, n);
    }
  }

  lemma CloneDistinct(areas: seq<Range>, from: PageTable, before: map<Ppn, Page>, to: PageTable, after: map<Ppn, Page>,
      m: Vpn, n: Vpn)
    requires Cloned(areas, from, before, map[], to, after) && m in to && n in to && m != n
    ensures to[m].ppn != to[n].ppn
  {
    assert CloneHolds(SamePages, areas, from, before, map[], to, after)
      && CloneHolds(PagesApart, areas, from, before, map[], to, after);
  }

  lemma CloneSame(areas: seq<Range>, from: PageTable, before: map<Ppn, Page>, to: PageTable, after: map<Ppn, Page>,
      n: Vpn)
    requires CoverTable(from, areas) && Cloned(areas, from, before, map[], to, after)
    ensures n in to <==> n in from
    ensures n in to ==> CopiedPage(from, to, before, after, n)
  {
    assert CloneHolds(SamePages, areas, from, before, map[], to, after)
      && CloneHolds(PagesCopied, areas, from, before, map[], to, after);
    assert n in to <==> Covered(areas, n);
  }
}
