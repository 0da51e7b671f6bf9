/** The parts of a BAR advertised for mapping around the MSI-X table, and the mappings admitted. */
module MsixMmap {
  import opened Wrappers

  const PAGE_SIZE: nat := 4096

  /** `x & PAGE_MASK`. */
  function PageDown(x: nat): nat {
    x - x % PAGE_SIZE
  }

  /** `PAGE_ALIGN(x)`. */
  function PageAlign(x: nat): nat {
    PageDown(x + PAGE_SIZE - 1)
  }

  lemma PageRounding(x: nat)
    ensures PageDown(x) <= x < PageDown(x) + PAGE_SIZE && PageDown(x) % PAGE_SIZE == 0
    ensures x <= PageAlign(x) < x + PAGE_SIZE && PageAlign(x) % PAGE_SIZE == 0
  {
    Multiple(x);
    Multiple(x + PAGE_SIZE - 1);
  }

  lemma Multiple(x: nat)
    ensures PageDown(x) == PAGE_SIZE * (x / PAGE_SIZE)
    ensures PageDown(x) % PAGE_SIZE == 0
  {
  }

  /** Between page boundaries rounding does not matter. */
  lemma AlignedCompare(boundary: nat, x: nat)
    requires boundary % PAGE_SIZE == 0
    ensures boundary >= x <==> boundary >= PageAlign(x)
    ensures boundary <= x <==> boundary <= PageDown(x)
  {
    PageRounding(x);
    Distinct(boundary, PageAlign(x));
    Distinct(boundary, PageDown(x));
  }

  /** Two page boundaries are equal or a page apart. */
  lemma Distinct(a: nat, b: nat)
    requires a % PAGE_SIZE == 0 && b % PAGE_SIZE == 0
    ensures a == b || a + PAGE_SIZE <= b || b + PAGE_SIZE <= a
  {
    var i, j := a / PAGE_SIZE, b / PAGE_SIZE;
    assert a == PAGE_SIZE * i && b == PAGE_SIZE * j;
  }

  datatype Area = Area(offset: nat, size: nat)

  /** The MSI-X table of a device and the length of the BAR it lies in. */
  datatype Table = Table(offset: nat, size: nat, barLength: nat)

  predicate InsideBar(t: Table) {
    t.size > 0 && t.offset + t.size <= t.barLength
  }

  /** The sparse mapping capability: the areas of the BAR that may be mapped; None when allocation fails. */
  method SparseAreas(t: Table, haveMemory: bool) returns (r: Option<array<Area>>)
    ensures r.Some? <==> haveMemory
    ensures r.Some? ==> fresh(r.value) && r.value[..] == AdvertisedAreas(t)
  {
    var end := t.barLength;
    var nrAreas := 2;
    if PageDown(t.offset) == 0 || PageAlign(t.offset + t.size) >= end {
      nrAreas := 1;
    }
    if !haveMemory {
      return None;
    }
    var areas := new Area[nrAreas](_ => Area(0, 0));
    var i := 0;
    if PageDown(t.offset) != 0 {
      areas[i] := Area(0, PageDown(t.offset));
      i := i + 1;
    }
    if PageAlign(t.offset + t.size) < end {
      areas[i] := Area(PageAlign(t.offset + t.size), end - PageAlign(t.offset + t.size));
      i := i + 1;
    }
    return Some(areas);
  }

  /** Below the table, above it, and one empty area when the table touches every page. */
  function AdvertisedAreas(t: Table): seq<Area> {
    var below := if PageDown(t.offset) != 0 then [Area(0, PageDown(t.offset))] else [];
    var top := PageAlign(t.offset + t.size);
    var above := if top < t.barLength then [Area(top, t.barLength - top)] else [];
    if below + above == [] then [Area(0, 0)] else below + above
  }

  predicate InArea(byte: nat, a: Area) {
    a.offset <= byte < a.offset + a.size
  }

  /** Some byte of the table lies in the page of the given byte. */
  ghost predicate TouchesTable(byte: nat, t: Table) {
    exists b :: t.offset <= b < t.offset + t.size && PageDown(b) == PageDown(byte)
  }

  lemma TouchingPages(byte: nat, t: Table)
    requires t.size > 0
    ensures TouchesTable(byte, t) <==> PageDown(t.offset) <= byte < PageAlign(t.offset + t.size)
  {
    PageRounding(byte);
    PageRounding(t.offset);
    PageRounding(t.offset + t.size);
    Multiple(byte);
    Distinct(PageDown(byte), PageDown(t.offset));
    Distinct(PageDown(byte), PageAlign(t.offset + t.size));
    if PageDown(t.offset) <= byte < PageAlign(t.offset + t.size) {
      var b := if t.offset <= PageDown(byte) then PageDown(byte) else t.offset;
      assert PageDown(PageDown(byte)) == PageDown(byte);
      assert t.offset <= b < t.offset + t.size && PageDown(b) == PageDown(byte);
    }
    forall b | t.offset <= b < t.offset + t.size && PageDown(b) == PageDown(byte)
      ensures PageDown(t.offset) <= byte < PageAlign(t.offset + t.size)
    {
      PageRounding(b);
      Distinct(PageDown(b), PageDown(t.offset));
      Distinct(PageDown(b), PageAlign(t.offset + t.size));
    }
  }

  /** The areas are disjoint and cover exactly the BAR minus the pages the table touches. */
  lemma AreasCoverTheRest(t: Table, byte: nat)
    requires InsideBar(t)
    ensures (exists i | 0 <= i < |AdvertisedAreas(t)| :: InArea(byte, AdvertisedAreas(t)[i]))
            <==> byte < t.barLength && !TouchesTable(byte, t)
    ensures forall i, j | 0 <= i < j < |AdvertisedAreas(t)| ::
              !(InArea(byte, AdvertisedAreas(t)[i]) && InArea(byte, AdvertisedAreas(t)[j]))
    ensures |AdvertisedAreas(t)| <= 2
  {
    TouchingPages(byte, t);
    PageRounding(t.offset);
    PageRounding(t.offset + t.size);
    var areas := AdvertisedAreas(t);
    var below := if PageDown(t.offset) != 0 then [Area(0, PageDown(t.offset))] else [];
    if byte < PageDown(t.offset) {
      assert InArea(byte, areas[0]);
    } else if PageAlign(t.offset + t.size) <= byte < t.barLength {
      assert InArea(byte, areas[|below|]);
    }
  }

  /** A request to map `length` bytes from `start` of the BAR. */
  datatype Request = Request(start: nat, length: nat)

  /** The range and overlap tests of mmap on the BAR with the table. */
  predicate Admitted(req: Request, t: Table) {
    && req.start + req.length <= PageAlign(t.barLength)
    && (req.start >= t.offset + t.size || req.start + req.length <= t.offset)
  }

  /** The request lies in an area, an area that reaches the end of the BAR counting to the end of its page. */
  predicate LiesIn(req: Request, a: Area, barLength: nat) {
    var end := if a.offset + a.size == barLength then PageAlign(barLength) else a.offset + a.size;
    a.offset <= req.start && req.start + req.length <= end
  }

  /** What is admitted is what was advertised. */
  lemma AdmittedIsAdvertised(req: Request, t: Table)
    requires InsideBar(t)
    requires req.length > 0 && req.start % PAGE_SIZE == 0 && (req.start + req.length) % PAGE_SIZE == 0
    ensures Admitted(req, t) <==>
            exists i | 0 <= i < |AdvertisedAreas(t)| :: LiesIn(req, AdvertisedAreas(t)[i], t.barLength)
  {
    var areas := AdvertisedAreas(t);
    var below := if PageDown(t.offset) != 0 then [Area(0, PageDown(t.offset))] else [];
    AlignedCompare(req.start, t.offset + t.size);
    AlignedCompare(req.start + req.length, t.offset);
    AlignedCompare(PageAlign(t.barLength), t.offset + t.size);
    PageRounding(t.barLength);
    PageRounding(t.offset);
    PageRounding(t.offset + t.size);
    Distinct(PageAlign(t.barLength), PageAlign(t.offset + t.size));
    if Admitted(req, t) {
      if req.start + req.length <= t.offset {
        assert LiesIn(req, areas[0], t.barLength);
      } else {
        assert LiesIn(req, areas[|below|], t.barLength);
      }
    }
  }

  // ------------------------------------------------------- the mmap handler

  const EINVAL: int := 22
  const ENOMEM: int := 12

  /** A mapping request as it reaches the driver, decoded from the vma. */
  datatype Vma = Vma(start: nat, end: nat, shared: bool, index: nat, pgoff: nat)

  /** No byte lies in both areas. */
  ghost predicate Apart(a: Area, b: Area) {
    forall byte: nat :: !(InArea(byte, a) && InArea(byte, b))
  }

  /** Two nonempty areas are apart exactly when one ends before the other starts. */
  lemma ApartMeans(a: Area, b: Area)
    requires a.size > 0 && b.size > 0
    ensures Apart(a, b) <==> a.offset >= b.offset + b.size || a.offset + a.size <= b.offset
  {
    var byte := if a.offset <= b.offset then b.offset else a.offset;
    if !(a.offset >= b.offset + b.size || a.offset + a.size <= b.offset) {
      assert InArea(byte, a) && InArea(byte, b);
    }
  }

  /** Page frames handed to `remap_pfn_range`. */
  datatype Mapping = Mapping(firstFrame: nat, length: nat)

  const ROM_REGION_INDEX: nat := 6

  /** The BARs of a device: their mapping state and the regions reserved from the PCI core. */
  class Bars {
    const start: seq<nat>
    const length: seq<nat>
    const mmapSupported: seq<bool>
    const msixBar: nat
    const table: Table
    var mapped: seq<bool>
    ghost var reserved: seq<bool>

    ghost predicate Valid()
      reads this
    {
      && |start| == |length| == |mmapSupported| == |mapped| == |reserved| == ROM_REGION_INDEX
      && mapped == reserved
      && (msixBar < ROM_REGION_INDEX ==> table.barLength == length[msixBar])
    }

    constructor (start: seq<nat>, length: seq<nat>, mmapSupported: seq<bool>, msixBar: nat, table: Table)
      requires |start| == |length| == |mmapSupported| == ROM_REGION_INDEX
      requires msixBar < ROM_REGION_INDEX ==> table.barLength == length[msixBar]
      ensures Valid()
      ensures this.start == start && this.length == length && this.mmapSupported == mmapSupported
      ensures this.msixBar == msixBar && this.table == table
      ensures mapped == [false, false, false, false, false, false]
    {
      this.start, this.length, this.mmapSupported := start, length, mmapSupported;
      this.msixBar, this.table := msixBar, table;
      mapped := [false, false, false, false, false, false];
      reserved := [false, false, false, false, false, false];
    }

    /** The request in bytes of the BAR. */
    static function RequestOf(vma: Vma): Request
      requires vma.start <= vma.end
    {
      Request(vma.pgoff * PAGE_SIZE, vma.end - vma.start)
    }

    predicate Acceptable(vma: Vma)
      requires |length| == |mmapSupported| == ROM_REGION_INDEX
    {
      && vma.start <= vma.end && vma.shared && vma.index < ROM_REGION_INDEX && mmapSupported[vma.index]
      && RequestOf(vma).start + RequestOf(vma).length <= PageAlign(length[vma.index])
      && (vma.index == msixBar ==>
            RequestOf(vma).start >= table.offset + table.size
            || RequestOf(vma).start + RequestOf(vma).length <= table.offset)
    }

    /**
     * requestRet and iomapOk are the answers of `pci_request_selected_regions` and `pci_iomap`, remapRet that of
     * `remap_pfn_range`, which is asked for the returned mapping.
     */
    method Mmap(vma: Vma, requestRet: int, iomapOk: bool, remapRet: int) returns (ret: int, mapping: Option<Mapping>)
      requires Valid()
      modifies this
      ensures Valid()
      ensures mapping.Some? <==> Acceptable(vma) && (old(mapped)[vma.index] || (requestRet == 0 && iomapOk))
      ensures mapping.Some? ==>
                && mapped == old(mapped)[vma.index := true] && ret == remapRet
                && mapping.value == Mapping(start[vma.index] / PAGE_SIZE + vma.pgoff, RequestOf(vma).length)
      ensures mapping.Some? && vma.index == msixBar ==> Admitted(RequestOf(vma), table)
      ensures mapping.Some? ==>
                var first := (mapping.value.firstFrame - start[vma.index] / PAGE_SIZE) * PAGE_SIZE;
                && 0 <= first && mapping.value.length == vma.end - vma.start
                && first + mapping.value.length <= PageAlign(length[vma.index])
                && (vma.index == msixBar && mapping.value.length > 0 && table.size > 0 ==>
                      Apart(Area(first, mapping.value.length), Area(table.offset, table.size)))
      ensures && vma.start < vma.end && vma.shared && vma.index < ROM_REGION_INDEX && mmapSupported[vma.index]
              && vma.pgoff * PAGE_SIZE + (vma.end - vma.start) <= PageAlign(length[vma.index])
              && (vma.index == msixBar ==>
                    && table.size > 0
                    && Apart(Area(vma.pgoff * PAGE_SIZE, vma.end - vma.start), Area(table.offset, table.size)))
              && (old(mapped)[vma.index] || (requestRet == 0 && iomapOk))
              ==> mapping.Some?
      ensures mapping.None? ==>
                && mapped == old(mapped)
                && ret == if !Acceptable(vma) then -EINVAL else if requestRet != 0 then requestRet else -ENOMEM
    {
      if vma.start < vma.end && vma.index == msixBar && table.size > 0 {
        ApartMeans(Area(vma.pgoff * PAGE_SIZE, vma.end - vma.start), Area(table.offset, table.size));
      }
      if vma.end < vma.start || !vma.shared || vma.index >= ROM_REGION_INDEX || !mmapSupported[vma.index] {
        return -EINVAL, None;
      }
      var physLen := PageAlign(length[vma.index]);
      var reqLen := vma.end - vma.start;
      var reqStart := vma.pgoff * PAGE_SIZE;
      if reqStart + reqLen > physLen {
        return -EINVAL, None;
      }
      if vma.index == msixBar {
        if !(reqStart >= table.offset + table.size || reqStart + reqLen <= table.offset) {
          return -EINVAL, None;
        }
      }
      if !mapped[vma.index] {
        if requestRet != 0 {
          return requestRet, None;
        }
        reserved := reserved[vma.index := true];
        if !iomapOk {
          reserved := reserved[vma.index := false];
          return -ENOMEM, None;
        }
        mapped := mapped[vma.index := true];
      }
      return remapRet, Some(Mapping(start[vma.index] / PAGE_SIZE + vma.pgoff, reqLen));
    }
  }
}
