/** SV39 addresses and page numbers: the four value types, their conversions
    from and to machine words, page rounding, the three-level index split of a
    virtual page number, and the half-open page-number range with its iterator.

    A machine word (`usize`) is a natural number below 2^64.  A mask
    `x & ((1 << k) - 1)` is `x % 2^k`, a shift `x >> k` is `x / 2^k`, and a
    left shift drops the bits pushed out of the word. */
module Address {

  datatype Option<T> = None | Some(value: T)

  /** A 64-bit machine word. */
  type usize = x: int | 0 <= x < 0x1_0000_0000_0000_0000
  const USIZE_LIMIT: int := 0x1_0000_0000_0000_0000

  const PAGE_SIZE: nat := 4096
  const PAGE_SIZE_BITS: nat := 12
  const PA_WIDTH_SV39: nat := 56
  const VA_WIDTH_SV39: nat := 39
  const PPN_WIDTH_SV39: nat := PA_WIDTH_SV39 - PAGE_SIZE_BITS
  const VPN_WIDTH_SV39: nat := VA_WIDTH_SV39 - PAGE_SIZE_BITS

  /** 1 << PA_WIDTH_SV39 */
  const PA_LIMIT: nat := 0x100_0000_0000_0000
  /** 1 << VA_WIDTH_SV39 */
  const VA_LIMIT: nat := 0x80_0000_0000
  /** 1 << (VA_WIDTH_SV39 - 1): the sign bit of a virtual address */
  const VA_SIGN_BIT: nat := 0x40_0000_0000
  /** 1 << PPN_WIDTH_SV39 */
  const PPN_LIMIT: nat := 0x1000_0000_0000
  /** 1 << VPN_WIDTH_SV39 */
  const VPN_LIMIT: nat := 0x800_0000
  /** !((1 << VA_WIDTH_SV39) - 1): bits 39 to 63 set, the rest clear */
  const VA_HIGH_BITS: nat := 0xFFFF_FF80_0000_0000

  datatype PhysAddr = PhysAddr(value: usize)
  datatype VirtAddr = VirtAddr(value: usize)
  datatype PhysPageNum = PhysPageNum(value: usize)
  datatype VirtPageNum = VirtPageNum(value: usize)

  // ---------------------------------------------------------------------
  // Conversions from a machine word

  /** `PhysAddr::from(usize)`: the low 56 bits of the word. */
  function PhysAddrFrom(x: usize): (pa: PhysAddr)
    ensures pa.value < PA_LIMIT
    ensures x < PA_LIMIT ==> pa.value == x
    ensures x == x / PA_LIMIT * PA_LIMIT + pa.value
  {
    PhysAddr(x % PA_LIMIT)
  }

  /** `VirtAddr::from(usize)`: the low 39 bits of the word. */
  function VirtAddrFrom(x: usize): (va: VirtAddr)
    ensures va.value < VA_LIMIT
    ensures x < VA_LIMIT ==> va.value == x
    ensures x == x / VA_LIMIT * VA_LIMIT + va.value
  {
    VirtAddr(x % VA_LIMIT)
  }

  /** `PhysPageNum::from(usize)`: the low 56 bits, shifted right by 12. */
  function PhysPageNumFrom(x: usize): (ppn: PhysPageNum)
    ensures ppn.value < PPN_LIMIT
    ensures ppn == PhysFloor(PhysAddrFrom(x))
  {
    PhysPageNum((x % PA_LIMIT) / PAGE_SIZE)
  }

  /** `VirtPageNum::from(usize)`: the low 39 bits, shifted right by 12. */
  function VirtPageNumFrom(x: usize): (vpn: VirtPageNum)
    ensures vpn.value < VPN_LIMIT
    ensures vpn == VirtFloor(VirtAddrFrom(x))
  {
    VirtPageNum((x % VA_LIMIT) / PAGE_SIZE)
  }

  /** Masking a physical address twice is masking it once. */
  lemma PhysAddrFromIdempotent(x: usize)
    ensures PhysAddrFrom(PhysAddrFrom(x).value) == PhysAddrFrom(x)
  {
  }

  /** Masking a virtual address twice is masking it once. */
  lemma VirtAddrFromIdempotent(x: usize)
    ensures VirtAddrFrom(VirtAddrFrom(x).value) == VirtAddrFrom(x)
  {
  }

  // ---------------------------------------------------------------------
  // Conversion of a virtual address back to a machine word

  /** Bits 63..38 of `x` are all equal: the canonical form the MMU accepts
      (RISC-V Privileged Architecture, section 4.4.1, Sv39). */
  predicate Canonical(x: usize) {
    x < VA_SIGN_BIT || x >= USIZE_LIMIT - VA_SIGN_BIT
  }

  /** `usize::from(VirtAddr)`: an address whose value is at least 2^38 is
      or-ed with the mask of bits 39..63 (`v | !((1 << 39) - 1)`); any other
      address is returned as is.  For a 39-bit address the test is bit 38. */
  function VirtAddrToUsize(va: VirtAddr): (x: usize)
    ensures va.value >= VA_SIGN_BIT ==>
              x / VA_LIMIT == USIZE_LIMIT / VA_LIMIT - 1 && x % VA_LIMIT == va.value % VA_LIMIT
    ensures va.value < VA_SIGN_BIT ==> x == va.value
    ensures VirtAddrFrom(x) == VirtAddrFrom(va.value)
    ensures va.value < VA_LIMIT ==> Canonical(x)
  {
    if va.value >= VA_SIGN_BIT then va.value % VA_LIMIT + VA_HIGH_BITS else va.value
  }

  /** A 39-bit virtual address survives the trip to a word and back. */
  lemma VirtAddrRoundTrip(va: VirtAddr)
    requires va.value < VA_LIMIT
    ensures VirtAddrFrom(VirtAddrToUsize(va)) == va
  {
  }

  /** A canonical word survives the trip to a virtual address and back; any
      other word comes back canonicalised, and a second trip changes nothing. */
  lemma CanonicalRoundTrip(x: usize)
    ensures Canonical(x) <==> VirtAddrToUsize(VirtAddrFrom(x)) == x
    ensures VirtAddrToUsize(VirtAddrFrom(VirtAddrToUsize(VirtAddrFrom(x)))) == VirtAddrToUsize(VirtAddrFrom(x))
  {
  }

  // ---------------------------------------------------------------------
  // Page rounding on virtual addresses

  /** `VirtAddr::floor`: the page that contains the address. */
  function VirtFloor(va: VirtAddr): (vpn: VirtPageNum)
    ensures vpn.value * PAGE_SIZE <= va.value < (vpn.value + 1) * PAGE_SIZE
  {
    VirtPageNum(va.value / PAGE_SIZE)
  }

  /** `VirtAddr::ceil`, computed as `(v - 1 + PAGE_SIZE) / PAGE_SIZE` with
      checked word arithmetic: `None` is the overflow panic, which happens at
      address 0 and at every address after the first one of the word's last
      page. */
  function VirtCeil(va: VirtAddr): (vpn: Option<VirtPageNum>)
    ensures vpn.None? <==> va.value == 0 || va.value > USIZE_LIMIT - PAGE_SIZE
    ensures vpn.Some? ==> (vpn.value.value - 1) * PAGE_SIZE < va.value <= vpn.value.value * PAGE_SIZE
    ensures vpn.Some? && VirtAligned(va) ==> vpn.value == VirtFloor(va)
    ensures vpn.Some? && !VirtAligned(va) ==> vpn.value.value == VirtFloor(va).value + 1
  {
    if va.value == 0 || va.value - 1 + PAGE_SIZE >= USIZE_LIMIT then None
    else Some(VirtPageNum((va.value - 1 + PAGE_SIZE) / PAGE_SIZE))
  }

  /** `VirtAddr::page_offset`: the position of the address inside its page. */
  function VirtPageOffset(va: VirtAddr): (off: nat)
    ensures off < PAGE_SIZE
    ensures va.value == VirtFloor(va).value * PAGE_SIZE + off
  {
    va.value % PAGE_SIZE
  }

  /** `VirtAddr::aligned`: the address is the first byte of its page. */
  predicate VirtAligned(va: VirtAddr)
    ensures VirtAligned(va) <==> VirtFloor(va).value * PAGE_SIZE == va.value
  {
    VirtPageOffset(va) == 0
  }

  /** `VirtAddr::from(VirtPageNum)`: the first address of the page,
      `vpn << 12`, losing the bits shifted out of the word. */
  function VirtAddrOfPage(vpn: VirtPageNum): (va: VirtAddr)
    ensures vpn.value * PAGE_SIZE < USIZE_LIMIT ==> va.value == vpn.value * PAGE_SIZE
  {
    VirtAddr((vpn.value * PAGE_SIZE) % USIZE_LIMIT)
  }

  /** Page number to address to page number (`VirtPageNum::from(VirtAddr)` is
      `floor`) is the identity, and the address in between is aligned. */
  lemma VirtPageRoundTrip(vpn: VirtPageNum)
    requires vpn.value * PAGE_SIZE < USIZE_LIMIT
    ensures VirtAligned(VirtAddrOfPage(vpn))
    ensures VirtFloor(VirtAddrOfPage(vpn)) == vpn
  {
  }

  /** An aligned address survives the trip to its page number and back. */
  lemma VirtAlignedRoundTrip(va: VirtAddr)
    requires VirtAligned(va)
    ensures VirtAddrOfPage(VirtFloor(va)) == va
  {
  }

  // ---------------------------------------------------------------------
  // Page rounding on physical addresses

  /** `PhysAddr::floor`: the frame that contains the address. */
  function PhysFloor(pa: PhysAddr): (ppn: PhysPageNum)
    ensures ppn.value * PAGE_SIZE <= pa.value < (ppn.value + 1) * PAGE_SIZE
  {
    PhysPageNum(pa.value / PAGE_SIZE)
  }

  /** `PhysAddr::ceil`, with the same checked arithmetic as `VirtCeil`. */
  function PhysCeil(pa: PhysAddr): (ppn: Option<PhysPageNum>)
    ensures ppn.None? <==> pa.value == 0 || pa.value > USIZE_LIMIT - PAGE_SIZE
    ensures ppn.Some? ==> (ppn.value.value - 1) * PAGE_SIZE < pa.value <= ppn.value.value * PAGE_SIZE
    ensures ppn.Some? && PhysAligned(pa) ==> ppn.value == PhysFloor(pa)
    ensures ppn.Some? && !PhysAligned(pa) ==> ppn.value.value == PhysFloor(pa).value + 1
  {
    if pa.value == 0 || pa.value - 1 + PAGE_SIZE >= USIZE_LIMIT then None
    else Some(PhysPageNum((pa.value - 1 + PAGE_SIZE) / PAGE_SIZE))
  }

  /** `PhysAddr::page_offset`. */
  function PhysPageOffset(pa: PhysAddr): (off: nat)
    ensures off < PAGE_SIZE
    ensures pa.value == PhysFloor(pa).value * PAGE_SIZE + off
  {
    pa.value % PAGE_SIZE
  }

  /** `PhysAddr::aligned`. */
  predicate PhysAligned(pa: PhysAddr)
    ensures PhysAligned(pa) <==> PhysFloor(pa).value * PAGE_SIZE == pa.value
  {
    PhysPageOffset(pa) == 0
  }

  /** `PhysAddr::from(PhysPageNum)`: `ppn << 12`, losing the bits shifted out. */
  function PhysAddrOfPage(ppn: PhysPageNum): (pa: PhysAddr)
    ensures ppn.value * PAGE_SIZE < USIZE_LIMIT ==> pa.value == ppn.value * PAGE_SIZE
  {
    PhysAddr((ppn.value * PAGE_SIZE) % USIZE_LIMIT)
  }

  /** Frame number to address to frame number (`PhysPageNum::from(PhysAddr)` is
      `floor`) is the identity, and the address in between is aligned. */
  lemma PhysPageRoundTrip(ppn: PhysPageNum)
    requires ppn.value * PAGE_SIZE < USIZE_LIMIT
    ensures PhysAligned(PhysAddrOfPage(ppn))
    ensures PhysFloor(PhysAddrOfPage(ppn)) == ppn
  {
  }

  // ---------------------------------------------------------------------
  // Page-table indices

  /** `n` right shifts by 9 bits. */
  function Shr9(x: nat, n: nat): nat {
    if n == 0 then x else Shr9(x, n - 1) / 512
  }

  /** The three 9-bit page-table indices, level 2 (most significant) first. */
  function IndexesOf(vpn: VirtPageNum): seq<nat> {
    [Shr9(vpn.value, 2) % 512, Shr9(vpn.value, 1) % 512, vpn.value % 512]
  }

  /** `VirtPageNum::indexes`: fills the array from the last slot to the first,
      taking the low 9 bits and shifting them out each time. */
  method Indexes(vpn: VirtPageNum) returns (idx: seq<nat>)
    ensures idx == IndexesOf(vpn)
    ensures |idx| == 3 && idx[0] < 512 && idx[1] < 512 && idx[2] < 512
  {
    var cur: nat := vpn.value;
    var a := new nat[3](_ => 0);
    var i := 3;
    while i > 0
      invariant 0 <= i <= 3
      invariant cur == Shr9(vpn.value, 3 - i)
      invariant forall k :: i <= k < 3 ==> a[k] == Shr9(vpn.value, 2 - k) % 512
    {
      i := i - 1;
      a[i] := cur % 512;
      cur := cur / 512;
    }
    idx := a[..];
  }

  /** Two 9-bit right shifts are one 18-bit right shift. */
  lemma Div512Twice(x: nat)
    ensures x / 512 / 512 == x / 0x4_0000
  {
    var q := x / 512 / 512;
    var r := x / 512 % 512;
    assert x / 512 == q * 512 + r;
    assert x == q * 0x4_0000 + (r * 512 + x % 512);
  }

  /** The indices in the `(vpn >> 18) & 511, (vpn >> 9) & 511, vpn & 511` form. */
  lemma {:induction false} IndexesClosedForm(vpn: VirtPageNum)
    ensures IndexesOf(vpn) == [(vpn.value / 0x4_0000) % 512, (vpn.value / 512) % 512, vpn.value % 512]
  {
    assert Shr9(vpn.value, 1) == vpn.value / 512;
    assert Shr9(vpn.value, 2) == Shr9(vpn.value, 1) / 512;
    Div512Twice(vpn.value);
  }

  /** The three indices of a 27-bit page number put back together give the
      page number, so no two such page numbers share their indices. */
  lemma IndexesRecompose(vpn: VirtPageNum)
    requires vpn.value < VPN_LIMIT
    ensures var idx := IndexesOf(vpn); idx[0] * 0x4_0000 + idx[1] * 512 + idx[2] == vpn.value
  {
    IndexesClosedForm(vpn);
    var v := vpn.value;
    var hi := v / 0x4_0000;
    var mid := v / 512;
    assert hi < 512;
    Div512Twice(v);
    assert mid / 512 == hi;
    assert mid == hi * 512 + mid % 512;
    assert v == mid * 512 + v % 512;
  }

  /** The two worked examples: page 0 and page `0b111111111_000000000_000000001`. */
  lemma IndexesExamples()
    ensures IndexesOf(VirtPageNum(0)) == [0, 0, 0]
    ensures IndexesOf(VirtPageNum(0x7FC_0001)) == [511, 0, 1]
  {
    IndexesClosedForm(VirtPageNum(0x7FC_0001));
  }

  // ---------------------------------------------------------------------
  // Page-number ranges

  /** `StepByOne::step` for `VirtPageNum`: the next page number. */
  function Step(vpn: VirtPageNum): (next: VirtPageNum)
    requires vpn.value + 1 < USIZE_LIMIT
    ensures next.value > vpn.value
    ensures forall w: VirtPageNum :: vpn.value < w.value ==> next.value <= w.value
  {
    VirtPageNum(vpn.value + 1)
  }

  /** `SimpleRange<VirtPageNum>` (`VPNRange`): the half-open range `[l, r)`. */
  datatype SimpleRange = SimpleRange(l: VirtPageNum, r: VirtPageNum)

  /** `SimpleRange::new`: `None` is the failed `start <= end` assertion. */
  function NewRange(start: VirtPageNum, end: VirtPageNum): (range: Option<SimpleRange>)
    ensures range.None? <==> start.value > end.value
    ensures range.Some? ==> range.value.l == start && range.value.r == end
  {
    if start.value <= end.value then Some(SimpleRange(start, end)) else None
  }

  /** `SimpleRange::contain`: a page number is contained in a range exactly
      when the range's pages include it. */
  predicate Contain(range: SimpleRange, v: VirtPageNum): (c: bool)
    ensures c <==> v in Pages(range)
  {
    var c := range.l.value <= v.value < range.r.value;
    assert c ==> Pages(range)[v.value - range.l.value] == v;
    c
  }

  /** The page numbers a range stands for, in increasing order. */
  function Pages(range: SimpleRange): (pages: seq<VirtPageNum>)
    ensures range.l.value <= range.r.value ==> |pages| == range.r.value - range.l.value
    ensures range.l.value > range.r.value ==> pages == []
  {
    if range.l.value >= range.r.value then []
    else seq(range.r.value - range.l.value, k requires 0 <= k < range.r.value - range.l.value =>
               VirtPageNum(range.l.value + k))
  }

  /** `SimpleRangeIterator`: walks a range from `current` up to `end`. */
  class SimpleRangeIterator {
    var current: VirtPageNum
    const end: VirtPageNum

    /** The iterator never passes its end. */
    ghost predicate Valid()
      reads this
    {
      current.value <= end.value
    }

    /** `SimpleRangeIterator::new`, reached through `SimpleRange::into_iter`,
        which only sees ranges whose start is not past their end. */
    constructor (l: VirtPageNum, r: VirtPageNum)
      requires l.value <= r.value
      ensures Valid()
      ensures current == l && end == r
    {
      current := l;
      end := r;
    }

    /** `Iterator::next`: yields the current page number and steps past it,
        or yields nothing once the end is reached. */
    method Next() returns (item: Option<VirtPageNum>)
      requires Valid()
      modifies this
      ensures Valid()
      ensures old(current) == end ==> item == None && current == old(current)
      ensures old(current) != end ==> item == Some(old(current)) && current == Step(old(current))
    {
      if current == end {
        item := None;
      } else {
        var t := current;
        current := Step(current);
        item := Some(t);
      }
    }
  }

  /** A `for` loop over a range: collects what the iterator yields until it
      yields nothing. */
  method Walk(range: SimpleRange) returns (pages: seq<VirtPageNum>)
    requires range.l.value <= range.r.value
    ensures pages == Pages(range)
    ensures |pages| == range.r.value - range.l.value
    ensures forall k :: 0 <= k < |pages| ==> pages[k].value == range.l.value + k
  {
    var it := new SimpleRangeIterator(range.l, range.r);
    pages := [];
    while true
      invariant it.Valid() && it.end == range.r
      invariant it.current.value == range.l.value + |pages|
      invariant forall k :: 0 <= k < |pages| ==> pages[k].value == range.l.value + k
      decreases range.r.value - it.current.value
    {
      var item := it.Next();
      if item.None? {
        break;
      }
      pages := pages + [item.value];
    }
  }
}
