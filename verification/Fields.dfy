/** Bit-granular field access over an operation region, one host byte at a time. */
module Fields {
  import opened Wrappers
  import opened Bits

  datatype Space =
    | SystemMemory
    | SystemIo
    | PciConfig
    | EmbeddedControl
    | SmBus
    | Cmos
    | PciBarTarget
    | Ipmi
    | Gpio
    | GenericSerialBus
    | PlatformCommChannel
    | FunctionalFixedHardware
    | Oem(id: byte)

  datatype Region = Region(space: Space, base: Option<u64>, length: Option<u64>)

  datatype UpdateRule = Preserve | WriteAsOnes | WriteAsZeros

  /** One addressable host byte. */
  datatype Cell = Cell(space: Space, address: nat)

  type Memory = map<Cell, byte>

  /** Where byte `offset` of a region lives on the host. */
  function CellOf(region: Region, offset: nat): (r: Result<Cell>)
    ensures r != Err(OutOfFuel)
  {
    if region.base.None? then Err(Unsupported)
    else if region.space !in {SystemMemory, SystemIo, PciConfig, EmbeddedControl} then Err(Unsupported)
    else if region.base.value + offset > U64_MAX then Err(Fault)
    else if region.space == EmbeddedControl && region.base.value + offset > U8_MAX then Err(Overflow)
    else Ok(Cell(region.space, region.base.value + offset))
  }

  /** The region has a base, lies in a space the host serves, and the address of its byte computes: base plus
      offset is a 64-bit address, and an 8-bit one for the embedded controller. */
  predicate Reaches(region: Region, offset: nat) {
    && region.base.Some?
    && (region.space.SystemMemory? || region.space.SystemIo? || region.space.PciConfig? || region.space.EmbeddedControl?)
    && region.base.value + offset < 0x1_0000_0000_0000_0000
    && (region.space.EmbeddedControl? ==> region.base.value + offset < 0x100)
  }

  /** The host as a byte store: a cell outside the map makes the access fail. */
  class Host {
    var bytes: Memory

    constructor (bytes: Memory)
      ensures this.bytes == bytes
    {
      this.bytes := bytes;
    }

    method ReadRegionByte(region: Region, offset: nat) returns (r: Result<byte>)
      ensures r.Ok? <==> Mapped(bytes, region, offset)
      ensures r.Ok? ==> r.value == ByteAt(bytes, region, offset)
      ensures r.Ok? <==> Reaches(region, offset) && Cell(region.space, region.base.value + offset) in bytes
      ensures r.Ok? ==> r.value == bytes[Cell(region.space, region.base.value + offset)]
      ensures r.Err? ==> r == if CellOf(region, offset).Ok? then Err(HostFailure) else Err(CellOf(region, offset).error)
    {
      var cell :- CellOf(region, offset);
      if cell !in bytes { return Err(HostFailure); }
      return Ok(bytes[cell]);
    }

    method WriteRegionByte(region: Region, offset: nat, value: byte) returns (r: Result<Unit>)
      modifies this
      ensures r.Ok? <==> Mapped(old(bytes), region, offset)
      ensures r.Ok? <==> Reaches(region, offset) && Cell(region.space, region.base.value + offset) in old(bytes)
      ensures r.Ok? ==> bytes == old(bytes)[Cell(region.space, region.base.value + offset) := value]
      ensures bytes == if r.Ok? then old(bytes)[CellOf(region, offset).value := value] else old(bytes)
      ensures r.Err? ==> r == if CellOf(region, offset).Ok? then Err(HostFailure) else Err(CellOf(region, offset).error)
    {
      var cell :- CellOf(region, offset);
      if cell !in bytes { return Err(HostFailure); }
      bytes := bytes[cell := value];
      return Ok(Unit);
    }
  }

  predicate Mapped(m: Memory, region: Region, offset: nat) {
    CellOf(region, offset).Ok? && CellOf(region, offset).value in m
  }

  function ByteAt(m: Memory, region: Region, offset: nat): byte
    requires Mapped(m, region, offset)
  {
    m[CellOf(region, offset).value]
  }

  /** Bit `n` of the region, counted from bit 0 of its first byte. */
  predicate RegionBit(m: Memory, region: Region, n: nat)
    requires Mapped(m, region, n / 8)
  {
    Bit(ByteAt(m, region, n / 8), n % 8)
  }

  function FirstByte(start: u32): nat { start / 8 }

  function LastByte(start: u32, width: u32): nat
    requires width > 0
  {
    (start + width - 1) / 8
  }

  predicate InRange(region: Region, start: u32, width: u32)
    requires width > 0
  {
    region.length.Some? ==> LastByte(start, width) < region.length.value
  }

  /** Every byte the field touches exists on the host. */
  predicate Backed(m: Memory, region: Region, start: u32, width: u32)
    requires width > 0
  {
    forall b: nat :: start / 8 <= b <= LastByte(start, width) ==> Mapped(m, region, b)
  }

  /** Exactly the accesses that succeed. The last conjunct is the limit of the one-word aggregate. */
  predicate Accessible(m: Memory, region: Region, start: u32, width: u32) {
    && 0 < width <= 64
    && InRange(region, start, width)
    && Backed(m, region, start, width)
    && start % 8 + width <= 64
  }

  /** Whether the bytes from `b` up to `last` can all be reached, and if not, how the first fails. The
      ninth byte has no room in the word; a store that keeps old bits looks at the byte before it notices. */
  function Reach(m: Memory, region: Region, first: nat, b: nat, last: nat, looks: bool): (r: Result<Unit>)
    requires first <= b
    ensures r != Err(OutOfFuel)
    decreases last + 1 - b
  {
    if b > last then Ok(Unit)
    else if b - first >= 8 && !looks then Err(Fault)
    else
      var cell :- CellOf(region, b);
      if cell !in m then Err(HostFailure)
      else if b - first >= 8 then Err(Fault)
      else Reach(m, region, first, b + 1, last, looks)
  }

  /** Whether the field can be accessed, and if not, why. */
  function Access(m: Memory, region: Region, start: u32, width: u32, looks: bool): (r: Result<Unit>)
    ensures r != Err(OutOfFuel)
  {
    if width == 0 || width > 64 then Err(Unsupported)
    else if !InRange(region, start, width) then Err(InvalidState)
    else Reach(m, region, start / 8, start / 8, LastByte(start, width), looks)
  }

  lemma {:induction false} ReachIff(m: Memory, region: Region, first: nat, b: nat, last: nat, looks: bool)
    requires first <= b <= last + 1
    ensures Reach(m, region, first, b, last, looks).Ok? <==>
            (b <= last ==> last - first < 8) && forall k: nat :: b <= k <= last ==> Mapped(m, region, k)
    decreases last + 1 - b
  {
    if b <= last {
      assert b <= last && (Mapped(m, region, b) <==> CellOf(region, b).Ok? && CellOf(region, b).value in m);
      ReachIff(m, region, first, b + 1, last, looks);
    }
  }

  /** The accesses that succeed are those of `Accessible`. */
  lemma AccessIff(m: Memory, region: Region, start: u32, width: u32, looks: bool)
    ensures Access(m, region, start, width, looks).Ok? <==> Accessible(m, region, start, width)
  {
    hide CellOf;
    if 0 < width <= 64 {
      ReachIff(m, region, start / 8, start / 8, LastByte(start, width), looks);
      WordLimit(start, width);
    }
  }

  /** `v` is the number spelled by the region's bits `start .. start + width`, and nothing more. */
  ghost predicate SpelledBy(m: Memory, region: Region, start: u32, width: u32, v: nat)
    requires 0 < width && Backed(m, region, start, width)
  {
    && (forall n: nat :: n < width ==> InField(start, width, n) && Bit(v, n) == RegionBit(m, region, start + n))
    && (forall n: nat :: n >= width ==> !Bit(v, n))
  }

  /** Always true: it names the byte a field bit falls in, so that `Backed` applies to it. */
  predicate InField(start: u32, width: u32, n: nat)
    requires n < width
    ensures InField(start, width, n)
    ensures start / 8 <= (start + n) / 8 <= LastByte(start, width)
  {
    true
  }

  function WidthMask(width: u32): (r: u64) {
    if width >= 64 then U64_MAX else WordBound(width); Shl(1, width) - 1
  }

  lemma WordBound(width: nat)
    requires width < 64
    ensures 1 <= Shl(1, width) <= U64_MAX
  {
    ShlIsTimes(1, width);
    Pow2Grows(width, 63);
    WordSizes();
  }

  lemma WidthMaskBit(width: u32, i: nat)
    requires width <= 64
    ensures Bit(WidthMask(width), i) == (i < width)
  {
    hide Bit, Pow2, Shl;
    ShlIsTimes(1, width);
    WordSizes();
    OnesBit(width, i);
  }

  /** The mask has exactly the bits of this byte that belong to the field. */
  ghost predicate Covers(mask: byte, start: nat, end: nat, byteStart: nat) {
    forall i: nat :: Bit(mask, i) == (i < 8 && start <= byteStart + i < end)
  }

  /** The field's value in place: masked to its width and shifted to its first byte. */
  function Shifted(value: u64, start: u32, width: u32): nat {
    Truncate(Shl(BitAnd(value, WidthMask(width)), start % 8), 64)
  }

  /** The loop that builds the mask of the bits of one byte that belong to the field. */
  method ByteCoverMask(start: nat, end: nat, byteStart: nat) returns (mask: byte)
    ensures Covers(mask, start, end, byteStart)
  {
    var from := if start > byteStart then start else byteStart;
    var to := if end < byteStart + 8 then end else byteStart + 8;
    if from >= to {
      forall i: nat ensures !Bit(0, i) { ZeroBits(i); }
      return 0;
    }
    var acc := 0;
    var bit := from - byteStart;
    forall i: nat ensures !Bit(0, i) { ZeroBits(i); }
    while bit < to - byteStart
      invariant from - byteStart <= bit <= to - byteStart
      invariant forall i: nat :: Bit(acc, i) == (from - byteStart <= i < bit)
    {
      forall i: nat ensures Bit(BitOr(acc, Shl(1, bit)), i) == (from - byteStart <= i <= bit) {
        BitwiseBit(Or, acc, Shl(1, bit), i);
        ShlBit(1, bit, i);
        OneBit(i - bit);
      }
      acc := BitOr(acc, Shl(1, bit));
      bit := bit + 1;
    }
    ClearHighBitsBound(acc, 8);
    WordSizes();
    return acc;
  }

  lemma OneBit(i: int)
    ensures i >= 0 ==> Bit(1, i) == (i == 0)
  {
    if i > 0 { ZeroBits(i - 1); }
  }

  /** Reads a field: gathers the covering bytes into one word, shifts it down and masks it. */
  method ReadFieldBits(host: Host, region: Region, start: u32, width: u32) returns (r: Result<u64>)
    ensures r.Ok? <==> Accessible(host.bytes, region, start, width)
    ensures r.Ok? ==> SpelledBy(host.bytes, region, start, width, r.value)
    ensures r == Load(host.bytes, region, start, width)
  {
    hide Load, Bit, Bitwise, Shl, Shr, WidthMask, Accessible, SpelledBy, Gathered, Reach;
    AccessIff(host.bytes, region, start, width, true);
    LoadFails(host.bytes, region, start, width);
    if width == 0 || width > 64 { return Err(Unsupported); }
    var first, last := start / 8, (start + width - 1) / 8;
    if region.length.Some? && (last + 1 > region.length.value || first >= region.length.value) {
      return Err(InvalidState);
    }
    var aggregate := 0;
    var count := last - first + 1;
    var index := 0;
    GatheredNothing(host.bytes, region, first);
    while index < count
      invariant 0 <= index <= count && index <= 8
      invariant forall b: nat :: first <= b < first + index ==> Mapped(host.bytes, region, b)
      invariant Gathered(host.bytes, region, first, index, aggregate)
    {
      ReachSkips(host.bytes, region, first, first, first + index, last, true);
      ReachHere(host.bytes, region, first, first + index, last);
      var byte :- host.ReadRegionByte(region, first + index);
      if index * 8 >= 64 { return Err(Fault); }
      GatherStep(host.bytes, region, first, index, aggregate);
      aggregate := BitOr(aggregate, Shl(byte, index * 8));
      index := index + 1;
    }
    ReachSkips(host.bytes, region, first, first, first + index, last, true);
    ReachHere(host.bytes, region, first, first + index, last);
    GatheredSpells(host.bytes, region, start, width, aggregate);
    LoadIs(host.bytes, region, start, width, BitAnd(Shr(aggregate, start % 8), WidthMask(width)));
    return Ok(BitAnd(Shr(aggregate, start % 8), WidthMask(width)));
  }

  /** What the reach from byte `b` on has to say about byte `b` itself. */
  lemma ReachHere(m: Memory, region: Region, first: nat, b: nat, last: nat)
    requires first <= b
    ensures var reach := Reach(m, region, first, b, last, true);
            if b > last then reach.Ok?
            else if CellOf(region, b).Err? then reach == Err(CellOf(region, b).error)
            else if CellOf(region, b).value !in m then reach == Err(HostFailure)
            else b - first >= 8 ==> reach == Err(Fault)
  {
  }

  lemma GatheredNothing(m: Memory, region: Region, first: nat)
    ensures Gathered(m, region, first, 0, 0)
  {
    forall i: nat ensures !Bit(0, i) { ZeroBits(i); }
  }

  /** The gathered word, shifted down and masked, is the number the field's bits spell. */
  lemma GatheredSpells(m: Memory, region: Region, start: u32, width: u32, aggregate: nat)
    requires 0 < width <= 64
    requires forall b: nat :: start / 8 <= b <= LastByte(start, width) ==> Mapped(m, region, b)
    requires Gathered(m, region, start / 8, LastByte(start, width) - start / 8 + 1, aggregate)
    ensures BitAnd(Shr(aggregate, start % 8), WidthMask(width)) <= U64_MAX
    ensures SpelledBy(m, region, start, width, BitAnd(Shr(aggregate, start % 8), WidthMask(width)))
  {
    hide Bit, Bitwise, Shl, Shr, WidthMask, CellOf, Gathered;
    var value := BitAnd(Shr(aggregate, start % 8), WidthMask(width));
    forall n: nat
      ensures n < width ==> InField(start, width, n) && Bit(value, n) == RegionBit(m, region, start + n)
      ensures n >= width ==> !Bit(value, n)
    {
      CutBit(aggregate, start % 8, width, n);
      if n < width { GatheredBit(m, region, start, width, aggregate, n); }
    }
    ClearHighBitsBound(value, 64) by {
      forall i: nat | i >= 64 ensures !Bit(value, i) { }
    }
    WordSizes();
  }

  lemma CutBit(aggregate: nat, shift: nat, width: u32, n: nat)
    requires width <= 64
    ensures Bit(BitAnd(Shr(aggregate, shift), WidthMask(width)), n) == (n < width && Bit(aggregate, n + shift))
  {
    hide Bit, Bitwise, Shr, WidthMask;
    BitwiseBit(And, Shr(aggregate, shift), WidthMask(width), n);
    ShrBit(aggregate, shift, n);
    WidthMaskBit(width, n);
  }

  lemma GatheredBit(m: Memory, region: Region, start: u32, width: u32, aggregate: nat, n: nat)
    requires n < width
    requires forall b: nat :: start / 8 <= b <= LastByte(start, width) ==> Mapped(m, region, b)
    requires Gathered(m, region, start / 8, LastByte(start, width) - start / 8 + 1, aggregate)
    ensures InField(start, width, n) && Bit(aggregate, n + start % 8) == RegionBit(m, region, start + n)
  {
    hide Bit, CellOf;
    BitPlace(start, width, n);
  }

  lemma BitPlace(start: u32, width: u32, n: nat)
    requires n < width
    ensures (start + n) / 8 == start / 8 + (n + start % 8) / 8 && (start + n) % 8 == (n + start % 8) % 8
    ensures n + start % 8 < 8 * (LastByte(start, width) - start / 8 + 1)
  {
  }

  /** The first `count` bytes from `first`, little end first, are the bits of `aggregate`. */
  ghost predicate Gathered(m: Memory, region: Region, first: nat, count: nat, aggregate: nat)
    requires forall b: nat :: first <= b < first + count ==> Mapped(m, region, b)
  {
    forall n: nat :: Bit(aggregate, n) == (n < 8 * count && Bit(ByteAt(m, region, first + n / 8), n % 8))
  }

  lemma GatherStep(m: Memory, region: Region, first: nat, count: nat, aggregate: nat)
    requires forall b: nat :: first <= b < first + count + 1 ==> Mapped(m, region, b)
    requires Gathered(m, region, first, count, aggregate)
    ensures Gathered(m, region, first, count + 1, BitOr(aggregate, Shl(ByteAt(m, region, first + count), count * 8)))
  {
    hide Bit, Bitwise, Shl;
    var byte := ByteAt(m, region, first + count);
    var next := BitOr(aggregate, Shl(byte, count * 8));
    forall n: nat
      ensures Bit(next, n) == (n < 8 * (count + 1) && Bit(ByteAt(m, region, first + n / 8), n % 8))
    {
      BitwiseBit(Or, aggregate, Shl(byte, count * 8), n);
      ShlBit(byte, count * 8, n);
      if n >= 8 * (count + 1) {
        WordSizes();
        HighBitsClear(byte, 8, n - count * 8);
      } else if n >= 8 * count {
        assert n / 8 == count && n % 8 == n - count * 8;
      }
    }
  }

  /** What a store leaves in bit `i` of byte `b` of the region. */
  predicate StoredBit(was: bool, start: u32, width: u32, update: UpdateRule, value: nat, b: nat, i: nat)
  {
    if start <= 8 * b + i < start + width then Bit(value, 8 * b + i - start)
    else match update
      case Preserve => was
      case WriteAsOnes => true
      case WriteAsZeros => false
  }

  /** `after` is `before` with the bytes `first .. upTo` of the field rewritten. */
  ghost predicate StoredUpTo(before: Memory, after: Memory, region: Region, start: u32, width: u32,
                             update: UpdateRule, value: nat, upTo: nat)
  {
    && after.Keys == before.Keys
    && (forall b: nat :: start / 8 <= b < upTo ==> Mapped(before, region, b) && Mapped(after, region, b))
    && (forall b: nat, i: nat :: start / 8 <= b < upTo && i < 8 ==>
          Bit(ByteAt(after, region, b), i)
          == StoredBit(Bit(ByteAt(before, region, b), i), start, width, update, value, b, i))
    && (forall c :: c in before && (forall b: nat :: start / 8 <= b < upTo ==> CellOf(region, b) != Ok(c)) ==>
          after[c] == before[c])
  }

  /** The whole effect of a successful store, on every cell of the host. */
  ghost predicate Stored(before: Memory, after: Memory, region: Region, start: u32, width: u32,
                         update: UpdateRule, value: nat)
    requires width > 0
  {
    StoredUpTo(before, after, region, start, width, update, value, LastByte(start, width) + 1)
  }

  /** Writes a field byte by byte, merging each byte with what its update rule asks for. */
  method WriteFieldBits(host: Host, region: Region, start: u32, width: u32, update: UpdateRule, value: u64)
    returns (r: Result<Unit>)
    modifies host
    ensures r.Ok? <==> Accessible(old(host.bytes), region, start, width)
    ensures r.Ok? ==> Stored(old(host.bytes), host.bytes, region, start, width, update, value)
    ensures !r.Ok? ==> exists upTo :: StoredUpTo(old(host.bytes), host.bytes, region, start, width, update, value, upTo)
    ensures match Store(old(host.bytes), region, start, width, update, value)
            case Ok(after) => r.Ok? && host.bytes == after
            case Err(e) => r == Err(e)
    ensures !(0 < width <= 64 && InRange(region, start, width)) ==> r.Err? && host.bytes == old(host.bytes)
  {
    AccessIff(host.bytes, region, start, width, update.Preserve?);
    StoreFails(host.bytes, region, start, width, update, value);
    hide Store, StoredUpTo, Shifted, CellOf, Accessible, Reach;
    ghost var before := host.bytes;
    NothingStored(before, region, start, width, update, value);
    if width == 0 || width > 64 { return Err(Unsupported); }
    var end := start + width;
    var first, last := start / 8, (end - 1) / 8;
    if region.length.Some? && (last + 1 > region.length.value || first >= region.length.value) {
      return Err(InvalidState);
    }
    r := WriteFieldBytes(host, region, start, width, update, value);
    if r.Ok? { StoreIs(before, host.bytes, region, start, width, update, value); }
  }

  /** The loop over the bytes of a field that lies inside its region. */
  method WriteFieldBytes(host: Host, region: Region, start: u32, width: u32, update: UpdateRule, value: u64)
    returns (r: Result<Unit>)
    requires 0 < width <= 64 && InRange(region, start, width)
    modifies host
    ensures r.Ok? ==> Stored(old(host.bytes), host.bytes, region, start, width, update, value)
    ensures r.Err? ==> exists upTo :: StoredUpTo(old(host.bytes), host.bytes, region, start, width, update, value, upTo)
    ensures var access := Access(old(host.bytes), region, start, width, update.Preserve?);
            if r.Ok? then access.Ok? else access.Err? && access.error == r.error
  {
    hide FirstByte, StoredUpTo, Shifted, CellOf, Access, Reach, LastByte, Mapped, InRange;
    ghost var before := host.bytes;
    NothingStored(before, region, start, width, update, value);
    FirstBeforeLast(start, width);
    var first, last := FirstByte(start), LastByte(start, width);
    var shifted := Shifted(value, start, width);
    var count := last - first + 1;
    var index := 0;
    while index < count
      invariant 0 <= index <= count && index <= 8
      invariant StoredUpTo(before, host.bytes, region, start, width, update, value, first + index)
    {
      r := WriteFieldByte(host, region, start, width, update, value, shifted, index, before);
      if r.Err? {
        StoredReach(before, host.bytes, region, start, width, update, value, first + index);
        return;
      }
      index := index + 1;
    }
    StoredReach(before, host.bytes, region, start, width, update, value, first + index);
    return Ok(Unit);
  }

  /** A store that has come this far could reach every byte up to here. */
  lemma StoredReach(before: Memory, after: Memory, region: Region, start: u32, width: u32, update: UpdateRule, value: nat,
                    upTo: nat)
    requires 0 < width <= 64 && InRange(region, start, width)
    requires StoredUpTo(before, after, region, start, width, update, value, upTo)
    requires FirstByte(start) <= upTo <= LastByte(start, width) + 1 && upTo <= FirstByte(start) + 8
    ensures Access(before, region, start, width, update.Preserve?)
            == Reach(before, region, FirstByte(start), upTo, LastByte(start, width), update.Preserve?)
    ensures upTo == LastByte(start, width) + 1 ==> Access(before, region, start, width, update.Preserve?).Ok?
  {
    ReachSkips(before, region, start / 8, start / 8, upTo, LastByte(start, width), update.Preserve?);
  }

  lemma {:induction false} ReachSkips(m: Memory, region: Region, first: nat, b: nat, upTo: nat, last: nat, looks: bool)
    requires first <= b <= upTo <= last + 1 && upTo <= first + 8
    requires forall k: nat :: b <= k < upTo ==> Mapped(m, region, k)
    ensures Reach(m, region, first, b, last, looks) == Reach(m, region, first, upTo, last, looks)
    decreases upTo - b
  {
    if b < upTo {
      assert Mapped(m, region, b);
      ReachSkips(m, region, first, b + 1, upTo, last, looks);
    }
  }

  lemma FirstBeforeLast(start: u32, width: u32)
    requires width > 0
    ensures FirstByte(start) <= LastByte(start, width)
  {
  }

  lemma NothingStored(m: Memory, region: Region, start: u32, width: u32, update: UpdateRule, value: nat)
    ensures StoredUpTo(m, m, region, start, width, update, value, 0)
    ensures StoredUpTo(m, m, region, start, width, update, value, FirstByte(start))
  {
  }

  /** A field spans at most eight bytes exactly when it fits one shifted word. */
  lemma WordLimit(start: u32, width: u32)
    requires 0 < width
    ensures LastByte(start, width) - start / 8 < 8 <==> start % 8 + width <= 64
  {
  }

  /** One turn of the store loop. */
  method WriteFieldByte(host: Host, region: Region, start: u32, width: u32, update: UpdateRule, value: u64,
                        shifted: nat, index: nat, ghost before: Memory)
    returns (r: Result<Unit>)
    requires 0 < width <= 64 && FirstByte(start) + index <= LastByte(start, width)
    requires shifted == Shifted(value, start, width)
    requires StoredUpTo(before, host.bytes, region, start, width, update, value, FirstByte(start) + index)
    modifies host
    ensures r.Ok? <==> Mapped(before, region, FirstByte(start) + index) && index < 8
    ensures r.Ok? ==> StoredUpTo(before, host.bytes, region, start, width, update, value, FirstByte(start) + index + 1)
    ensures !r.Ok? ==> host.bytes == old(host.bytes)
    ensures r.Err? ==> var reach := Reach(before, region, FirstByte(start), FirstByte(start) + index,
                                          LastByte(start, width), update.Preserve?);
                       reach.Err? && reach.error == r.error
  {
    hide Bit, Bitwise, Shl, Shr, Shifted, StoredUpTo, StoredBit, Covers;
    var b := start / 8 + index;
    SameMapping(before, host.bytes, region, start, width, update, value, b, b);
    var mask := ByteCoverMask(start, start + width, b * 8);
    MaskNotEmpty(mask, start, width, b);
    if mask != 0 {
      var base: byte := 0;
      match update {
        case Preserve => base :- host.ReadRegionByte(region, b);
        case WriteAsOnes => base := U8_MAX;
        case WriteAsZeros => base := 0;
      }
      if index * 8 >= 64 { return Err(Fault); }
      var payload := LowByte(Shr(shifted, index * 8));
      var merged := Merge(base, mask, payload);
      ghost var here := host.bytes;
      var _ :- host.WriteRegionByte(region, b, merged);
      assert update.Preserve? ==> base == ByteAt(before, region, b) by {
        UntouchedByte(before, here, region, start, width, update, value, b);
      }
      MergedBits(ByteAt(before, region, b), start, width, update, value, index, base, mask);
      StoreStep(before, here, host.bytes, region, start, width, update, value, b, merged);
    }
    return Ok(Unit);
  }

  lemma SameMapping(before: Memory, here: Memory, region: Region, start: u32, width: u32, update: UpdateRule, value: nat,
                    upTo: nat, b: nat)
    requires StoredUpTo(before, here, region, start, width, update, value, upTo)
    ensures Mapped(here, region, b) == Mapped(before, region, b)
  {
  }

  lemma MaskNotEmpty(mask: byte, start: u32, width: u32, b: nat)
    requires 0 < width && start / 8 <= b <= LastByte(start, width) && Covers(mask, start, start + width, b * 8)
    ensures mask != 0
  {
    var i := if start > b * 8 then start - b * 8 else 0;
    assert Bit(mask, i);
    ZeroBits(i);
  }

  lemma MergedBits(was: byte, start: u32, width: u32, update: UpdateRule, value: u64, index: nat, base: byte, mask: byte)
    requires width <= 64 && index < 8
    requires Covers(mask, start, start + width, (start / 8 + index) * 8)
    requires base == match update case Preserve => was case WriteAsOnes => U8_MAX case WriteAsZeros => 0
    ensures var merged := Merge(base, mask, LowByte(Shr(Shifted(value, start, width), index * 8)));
            forall i: nat :: i < 8 ==>
              Bit(merged, i) == StoredBit(Bit(was, i), start, width, update, value, start / 8 + index, i)
  {
    hide Bit, Bitwise, Shl, Shr, Shifted, Merge;
    var payload := LowByte(Shr(Shifted(value, start, width), index * 8));
    forall i: nat | i < 8
      ensures Bit(Merge(base, mask, payload), i)
              == StoredBit(Bit(was, i), start, width, update, value, start / 8 + index, i)
    {
      MergeBit(base, mask, payload, i);
      if Bit(mask, i) { PayloadBit(value, start, width, index, i); } else { FillBits(i); }
    }
  }

  lemma UntouchedByte(before: Memory, here: Memory, region: Region, start: u32, width: u32,
                      update: UpdateRule, value: nat, b: nat)
    requires StoredUpTo(before, here, region, start, width, update, value, b)
    requires Mapped(before, region, b)
    ensures Mapped(here, region, b) && ByteAt(here, region, b) == ByteAt(before, region, b)
  {
    forall b': nat | start / 8 <= b' < b ensures CellOf(region, b') != CellOf(region, b) {
      assert Mapped(before, region, b');
    }
  }

  /** `(base & !mask) | (payload & mask)` on bytes. */
  function Merge(base: byte, mask: byte, payload: nat): (r: byte)
    requires payload <= 0xFF
  {
    WordSizes();
    var kept := BitAnd(base, Complement(mask, 8));
    var added := BitAnd(payload, mask);
    BitwiseBound(And, base, Complement(mask, 8), 8);
    BitwiseBound(And, payload, mask, 8);
    BitwiseBound(Or, kept, added, 8);
    BitOr(kept, added)
  }

  lemma MergeBit(base: byte, mask: byte, payload: byte, i: nat)
    requires i < 8
    ensures Bit(Merge(base, mask, payload), i) == if Bit(mask, i) then Bit(payload, i) else Bit(base, i)
  {
    WordSizes();
    var kept := BitAnd(base, Complement(mask, 8));
    var added := BitAnd(payload, mask);
    BitwiseBit(Or, kept, added, i);
    BitwiseBit(And, base, Complement(mask, 8), i);
    BitwiseBit(And, payload, mask, i);
    ComplementBit(mask, 8, i);
  }

  function LowByte(x: nat): (r: byte) {
    LowByteBound(x);
    BitAnd(x, 0xFF)
  }

  lemma LowByteBound(x: nat)
    ensures BitAnd(x, 0xFF) <= 0xFF
  {
    WordSizes();
    forall i: nat | i >= 8 ensures !Bit(BitAnd(x, 0xFF), i) {
      BitwiseBit(And, x, 0xFF, i);
      OnesBit(8, i);
    }
    ClearHighBitsBound(BitAnd(x, 0xFF), 8);
  }

  lemma FillBits(i: nat)
    requires i < 8
    ensures Bit(U8_MAX, i) && !Bit(0, i)
  {
    WordSizes();
    OnesBit(8, i);
    ZeroBits(i);
  }

  lemma PayloadBit(value: u64, start: u32, width: u32, index: nat, i: nat)
    requires width <= 64 && index < 8 && i < 8
    requires start <= (start / 8 + index) * 8 + i < start + width
    ensures Bit(LowByte(Shr(Shifted(value, start, width), index * 8)), i)
            == Bit(value, (start / 8 + index) * 8 + i - start)
  {
    hide Bit, Bitwise, Shr, Shifted;
    var shifted := Shifted(value, start, width);
    BitwiseBit(And, Shr(shifted, index * 8), 0xFF, i);
    FillBits(i);
    ShrBit(shifted, index * 8, i);
    ShiftedBit(value, start, width, index * 8 + i);
  }

  lemma ShiftedBit(value: u64, start: u32, width: u32, n: nat)
    requires width <= 64 && n < 64
    ensures Bit(Shifted(value, start, width), n) == (start % 8 <= n < start % 8 + width && Bit(value, n - start % 8))
  {
    hide Bit, Bitwise, Shl, Truncate, WidthMask;
    var masked := BitAnd(value, WidthMask(width));
    TruncateBit(Shl(masked, start % 8), 64, n);
    ShlBit(masked, start % 8, n);
    if start % 8 <= n {
      BitwiseBit(And, value, WidthMask(width), n - start % 8);
      WidthMaskBit(width, n - start % 8);
    }
  }

  lemma StoreStep(before: Memory, here: Memory, after: Memory, region: Region, start: u32, width: u32,
                  update: UpdateRule, value: nat, b: nat, merged: byte)
    requires start / 8 <= b
    requires StoredUpTo(before, here, region, start, width, update, value, b)
    requires Mapped(before, region, b) && after == here[CellOf(region, b).value := merged]
    requires forall i: nat :: i < 8 ==>
               Bit(merged, i) == StoredBit(Bit(ByteAt(before, region, b), i), start, width, update, value, b, i)
    ensures StoredUpTo(before, after, region, start, width, update, value, b + 1)
  {
    forall b': nat | start / 8 <= b' < b ensures CellOf(region, b') != CellOf(region, b) {
      assert Mapped(before, region, b');
    }
    assert after.Keys == before.Keys;
    forall b': nat | start / 8 <= b' < b + 1 ensures Mapped(before, region, b') && Mapped(after, region, b') {
      if b' < b { assert Mapped(before, region, b'); }
    }
  }

  // ---- Loads and stores as functions of the host's bytes ----

  /** The number spelled by `width` bits of the region from bit `start` on, the first bit lowest. */
  function Spelled(m: Memory, region: Region, start: nat, width: nat): nat
    requires forall n: nat :: start <= n < start + width ==> Mapped(m, region, n / 8)
    decreases width
  {
    if width == 0 then 0 else Digit(RegionBit(m, region, start)) + 2 * Spelled(m, region, start + 1, width - 1)
  }

  lemma ConsBit(low: bool, high: nat, n: nat)
    ensures Bit(Digit(low) + 2 * high, n) == if n == 0 then low else Bit(high, n - 1)
  {
    assert (Digit(low) + 2 * high) / 2 == high;
  }

  lemma {:induction false} SpelledBit(m: Memory, region: Region, start: nat, width: nat, n: nat)
    requires forall k: nat :: start <= k < start + width ==> Mapped(m, region, k / 8)
    ensures Bit(Spelled(m, region, start, width), n) == (n < width && RegionBit(m, region, start + n))
    decreases width
  {
    hide Bit;
    if width == 0 { ZeroBits(n); }
    else {
      ConsBit(RegionBit(m, region, start), Spelled(m, region, start + 1, width - 1), n);
      if n > 0 { SpelledBit(m, region, start + 1, width - 1, n - 1); }
    }
  }

  lemma BackedBits(m: Memory, region: Region, start: u32, width: u32)
    requires 0 < width && Backed(m, region, start, width)
    ensures forall n: nat :: start <= n < start + width ==> Mapped(m, region, n / 8)
  {
    forall n: nat | start <= n < start + width ensures Mapped(m, region, n / 8) {
      assert InField(start, width, n - start);
    }
  }

  /** What a load of the field gives. */
  function Load(m: Memory, region: Region, start: u32, width: u32): (r: Result<u64>)
    ensures r != Err(OutOfFuel)
    ensures r.Ok? <==> Accessible(m, region, start, width)
    ensures r.Ok? ==> SpelledBy(m, region, start, width, r.value)
  {
    AccessIff(m, region, start, width, true);
    var _ :- Access(m, region, start, width, true);
    BackedBits(m, region, start, width);
    SpelledIs(m, region, start, width);
    Ok(Spelled(m, region, start, width))
  }

  lemma SpelledIs(m: Memory, region: Region, start: u32, width: u32)
    requires 0 < width <= 64 && Backed(m, region, start, width)
    requires forall n: nat :: start <= n < start + width ==> Mapped(m, region, n / 8)
    ensures SpelledBy(m, region, start, width, Spelled(m, region, start, width))
    ensures Spelled(m, region, start, width) <= U64_MAX
  {
    hide Bit;
    var v := Spelled(m, region, start, width);
    forall n: nat
      ensures n < width ==> InField(start, width, n) && Bit(v, n) == RegionBit(m, region, start + n)
      ensures n >= width ==> !Bit(v, n)
    {
      SpelledBit(m, region, start, width, n);
    }
    ClearHighBitsBound(v, 64) by {
      forall i: nat | i >= 64 ensures !Bit(v, i) { }
    }
    WordSizes();
  }

  /** The byte with bits `i ..` as a store leaves them in byte `b` of the region. */
  function StoredBits(was: byte, start: u32, width: u32, update: UpdateRule, value: nat, b: nat, i: nat): nat
    requires i <= 8
    decreases 8 - i
  {
    if i == 8 then 0
    else Digit(StoredBit(Bit(was, i), start, width, update, value, b, i))
         + 2 * StoredBits(was, start, width, update, value, b, i + 1)
  }

  lemma StoredBitsStep(was: byte, start: u32, width: u32, update: UpdateRule, value: nat, b: nat, i: nat)
    requires i <= 8
    ensures StoredBits(was, start, width, update, value, b, i)
            == if i == 8 then 0
               else Digit(StoredBit(Bit(was, i), start, width, update, value, b, i))
                    + 2 * StoredBits(was, start, width, update, value, b, i + 1)
  {
  }

  lemma {:induction false} StoredBitsBit(was: byte, start: u32, width: u32, update: UpdateRule, value: nat, b: nat, i: nat,
                                         n: nat)
    requires i <= 8
    ensures Bit(StoredBits(was, start, width, update, value, b, i), n)
            == (i + n < 8 && StoredBit(Bit(was, i + n), start, width, update, value, b, i + n))
    decreases 8 - i
  {
    hide Bit, StoredBit, StoredBits, Digit;
    StoredBitsStep(was, start, width, update, value, b, i);
    if i == 8 { ZeroBits(n); }
    else {
      ConsBit(StoredBit(Bit(was, i), start, width, update, value, b, i),
              StoredBits(was, start, width, update, value, b, i + 1), n);
      if n > 0 { StoredBitsBit(was, start, width, update, value, b, i + 1, n - 1); }
    }
  }

  lemma StoredByteFits(was: byte, start: u32, width: u32, update: UpdateRule, value: nat, b: nat)
    ensures StoredBits(was, start, width, update, value, b, 0) <= U8_MAX
  {
    hide Bit, StoredBit;
    var merged := StoredBits(was, start, width, update, value, b, 0);
    forall i: nat | i >= 8 ensures !Bit(merged, i) { StoredBitsBit(was, start, width, update, value, b, 0, i); }
    ClearHighBitsBound(merged, 8);
    WordSizes();
  }

  /** The host's bytes with the field's bytes below `upTo` rewritten. */
  function StoreBytes(m: Memory, region: Region, start: u32, width: u32, update: UpdateRule, value: nat, upTo: nat)
    : (r: Memory)
    requires forall b: nat :: start / 8 <= b < upTo ==> Mapped(m, region, b)
    ensures StoredUpTo(m, r, region, start, width, update, value, upTo)
    decreases upTo
  {
    if upTo <= start / 8 then m
    else
      var b := upTo - 1;
      var was := ByteAt(m, region, b);
      StoredByteFits(was, start, width, update, value, b);
      var rest := StoreBytes(m, region, start, width, update, value, b);
      var merged := StoredBits(was, start, width, update, value, b, 0);
      ByteStored(m, rest, region, start, width, update, value, b);
      rest[CellOf(region, b).value := merged]
  }

  lemma ByteStored(m: Memory, rest: Memory, region: Region, start: u32, width: u32, update: UpdateRule, value: nat, b: nat)
    requires start / 8 <= b && Mapped(m, region, b)
    requires StoredUpTo(m, rest, region, start, width, update, value, b)
    ensures StoredBits(ByteAt(m, region, b), start, width, update, value, b, 0) <= U8_MAX
    ensures StoredUpTo(m,
                       rest[CellOf(region, b).value :=
                         StoredBits(ByteAt(m, region, b), start, width, update, value, b, 0)],
                       region, start, width, update, value, b + 1)
  {
    hide Bit, StoredBit, StoredUpTo;
    var merged := StoredBits(ByteAt(m, region, b), start, width, update, value, b, 0);
    StoredByteFits(ByteAt(m, region, b), start, width, update, value, b);
    forall i: nat | i < 8
      ensures Bit(merged, i) == StoredBit(Bit(ByteAt(m, region, b), i), start, width, update, value, b, i)
    {
      StoredBitsBit(ByteAt(m, region, b), start, width, update, value, b, 0, i);
    }
    StoreStep(m, rest, rest[CellOf(region, b).value := merged], region, start, width, update, value, b, merged);
  }

  /** What a store to the field leaves. */
  function Store(m: Memory, region: Region, start: u32, width: u32, update: UpdateRule, value: nat): (r: Result<Memory>)
    ensures r != Err(OutOfFuel)
    ensures r.Ok? <==> Accessible(m, region, start, width)
    ensures r.Ok? ==> Stored(m, r.value, region, start, width, update, value)
  {
    AccessIff(m, region, start, width, update.Preserve?);
    var _ :- Access(m, region, start, width, update.Preserve?);
    Ok(StoreBytes(m, region, start, width, update, value, LastByte(start, width) + 1))
  }

  /** A store's effect on every bit and every cell leaves no choice. */
  lemma StoredOnce(before: Memory, after: Memory, after': Memory, region: Region, start: u32, width: u32,
                   update: UpdateRule, value: nat, upTo: nat)
    requires StoredUpTo(before, after, region, start, width, update, value, upTo)
    requires StoredUpTo(before, after', region, start, width, update, value, upTo)
    ensures after == after'
  {
    hide Bit, StoredBit;
    forall c | c in before ensures after[c] == after'[c] {
      if b: nat :| start / 8 <= b < upTo && CellOf(region, b) == Ok(c) {
        forall i: nat ensures Bit(after[c], i) == Bit(after'[c], i) {
          if i < 8 {
            assert Bit(ByteAt(after, region, b), i) == Bit(ByteAt(after', region, b), i);
          } else {
            WordSizes();
            HighBitsClear(after[c], 8, i);
            HighBitsClear(after'[c], 8, i);
          }
        }
        SameBits(after[c], after'[c]);
      }
    }
  }

  lemma StoreIs(before: Memory, after: Memory, region: Region, start: u32, width: u32, update: UpdateRule, value: nat)
    requires Accessible(before, region, start, width) && Stored(before, after, region, start, width, update, value)
    ensures Store(before, region, start, width, update, value) == Ok(after)
  {
    hide Store, StoredUpTo;
    var s := Store(before, region, start, width, update, value);
    StoredOnce(before, after, s.value, region, start, width, update, value, LastByte(start, width) + 1);
  }

  lemma StoreFails(m: Memory, region: Region, start: u32, width: u32, update: UpdateRule, value: nat)
    ensures Access(m, region, start, width, update.Preserve?).Err? ==>
              Store(m, region, start, width, update, value) == Err(Access(m, region, start, width, update.Preserve?).error)
  {
  }

  lemma LoadIs(m: Memory, region: Region, start: u32, width: u32, v: u64)
    requires Accessible(m, region, start, width) && SpelledBy(m, region, start, width, v)
    ensures Load(m, region, start, width) == Ok(v)
  {
    hide Load, SpelledBy;
    SpelledOnce(m, region, start, width, v, Load(m, region, start, width).value);
  }

  lemma LoadFails(m: Memory, region: Region, start: u32, width: u32)
    ensures Access(m, region, start, width, true).Err? ==>
              Load(m, region, start, width) == Err(Access(m, region, start, width, true).error)
  {
  }

  /** A field's value is determined by the bits it covers. */
  lemma SpelledOnce(m: Memory, region: Region, start: u32, width: u32, v: nat, w: nat)
    requires 0 < width && Backed(m, region, start, width)
    requires SpelledBy(m, region, start, width, v) && SpelledBy(m, region, start, width, w)
    ensures v == w
  {
    forall i: nat ensures Bit(v, i) == Bit(w, i) {
      if i < width { assert InField(start, width, i); }
    }
    SameBits(v, w);
  }

  lemma StoredKeepsBacking(before: Memory, after: Memory, region: Region, start: u32, width: u32)
    requires 0 < width && after.Keys == before.Keys
    ensures Backed(before, region, start, width) <==> Backed(after, region, start, width)
  {
    forall b: nat ensures Mapped(before, region, b) == Mapped(after, region, b) { }
  }

  /** What one store does to any bit of the region, in a touched byte or not. */
  lemma StoredRegionBit(before: Memory, after: Memory, region: Region, start: u32, width: u32,
                        update: UpdateRule, value: nat, n: nat)
    requires 0 < width && Stored(before, after, region, start, width, update, value)
    requires Mapped(before, region, n / 8)
    ensures Mapped(after, region, n / 8)
    ensures RegionBit(after, region, n)
            == if start / 8 <= n / 8 <= LastByte(start, width)
               then StoredBit(RegionBit(before, region, n), start, width, update, value, n / 8, n % 8)
               else RegionBit(before, region, n)
  {
    if !(start / 8 <= n / 8 <= LastByte(start, width)) {
      forall b: nat | start / 8 <= b <= LastByte(start, width)
        ensures CellOf(region, n / 8) != CellOf(region, b)
      {
        assert Mapped(before, region, b);
      }
    } else {
      assert n == 8 * (n / 8) + n % 8;
    }
  }

  /** Store then load: whatever the update rule, a field reads back the value masked to its width. */
  lemma LoadAfterStore(before: Memory, after: Memory, region: Region, start: u32, width: u32,
                       update: UpdateRule, value: u64, loaded: u64)
    requires Accessible(before, region, start, width)
    requires Stored(before, after, region, start, width, update, value)
    ensures Accessible(after, region, start, width)
    ensures SpelledBy(after, region, start, width, loaded) <==> loaded == BitAnd(value, WidthMask(width))
  {
    StoredKeepsBacking(before, after, region, start, width);
    var masked := BitAnd(value, WidthMask(width));
    forall n: nat
      ensures n < width ==> InField(start, width, n) && Bit(masked, n) == RegionBit(after, region, start + n)
      ensures n >= width ==> !Bit(masked, n)
    {
      BitwiseBit(And, value, WidthMask(width), n);
      WidthMaskBit(width, n);
      if n < width {
        assert InField(start, width, n);
        assert Mapped(before, region, (start + n) / 8);
        StoredRegionBit(before, after, region, start, width, update, value, start + n);
        assert 8 * ((start + n) / 8) + (start + n) % 8 == start + n;
      }
    }
    assert SpelledBy(after, region, start, width, masked);
    if SpelledBy(after, region, start, width, loaded) {
      SpelledOnce(after, region, start, width, loaded, masked);
    }
  }

  predicate DisjointFields(start: nat, width: nat, start': nat, width': nat) {
    start + width <= start' || start' + width' <= start
  }

  /** A Preserve store leaves every sibling field alone, even one that shares a byte with it. */
  lemma SiblingSurvivesPreserve(before: Memory, after: Memory, region: Region, start: u32, width: u32, value: u64,
                                sibling: u32, siblingWidth: u32, v: nat)
    requires 0 < width && 0 < siblingWidth
    requires Stored(before, after, region, start, width, Preserve, value)
    requires Backed(before, region, sibling, siblingWidth)
    requires DisjointFields(start, width, sibling, siblingWidth)
    ensures Backed(after, region, sibling, siblingWidth)
    ensures SpelledBy(before, region, sibling, siblingWidth, v) <==> SpelledBy(after, region, sibling, siblingWidth, v)
  {
    StoredKeepsBacking(before, after, region, sibling, siblingWidth);
    forall n: nat | n < siblingWidth
      ensures InField(sibling, siblingWidth, n)
      ensures RegionBit(before, region, sibling + n) == RegionBit(after, region, sibling + n)
    {
      assert InField(sibling, siblingWidth, n);
      assert Mapped(before, region, (sibling + n) / 8);
      StoredRegionBit(before, after, region, start, width, Preserve, value, sibling + n);
      assert 8 * ((sibling + n) / 8) + (sibling + n) % 8 == sibling + n;
    }
  }

  /** The bits of a sibling field that lie in bytes the store touches. */
  predicate SharesByte(start: u32, width: u32, n: nat)
    requires width > 0
  {
    start / 8 <= n / 8 <= LastByte(start, width)
  }

  ghost predicate AlreadyFilled(start: u32, width: u32, update: UpdateRule, sibling: u32, siblingWidth: u32, v: nat)
    requires width > 0
  {
    forall n: nat :: n < siblingWidth && SharesByte(start, width, sibling + n) ==> Bit(v, n) == update.WriteAsOnes?
  }

  /** A store that fills with ones or zeros keeps a sibling's value exactly when every bit the
      sibling has in a touched byte already had the fill value. */
  lemma SiblingSurvivesFill(before: Memory, after: Memory, region: Region, start: u32, width: u32,
                            update: UpdateRule, value: u64, sibling: u32, siblingWidth: u32, v: nat)
    requires 0 < width && 0 < siblingWidth && !update.Preserve?
    requires Stored(before, after, region, start, width, update, value)
    requires Backed(before, region, sibling, siblingWidth)
    requires DisjointFields(start, width, sibling, siblingWidth)
    requires SpelledBy(before, region, sibling, siblingWidth, v)
    ensures Backed(after, region, sibling, siblingWidth)
    ensures SpelledBy(after, region, sibling, siblingWidth, v) <==>
            AlreadyFilled(start, width, update, sibling, siblingWidth, v)
  {
    StoredKeepsBacking(before, after, region, sibling, siblingWidth);
    forall n: nat | n < siblingWidth
      ensures InField(sibling, siblingWidth, n)
      ensures RegionBit(after, region, sibling + n)
              == if SharesByte(start, width, sibling + n) then update.WriteAsOnes? else Bit(v, n)
    {
      assert InField(sibling, siblingWidth, n);
      assert Mapped(before, region, (sibling + n) / 8);
      StoredRegionBit(before, after, region, start, width, update, value, sibling + n);
      assert 8 * ((sibling + n) / 8) + (sibling + n) % 8 == sibling + n;
    }
    if AlreadyFilled(start, width, update, sibling, siblingWidth, v) {
      forall n: nat | n < siblingWidth
        ensures InField(sibling, siblingWidth, n) && Bit(v, n) == RegionBit(after, region, sibling + n)
      {
        assert SharesByte(start, width, sibling + n) ==> Bit(v, n) == update.WriteAsOnes?;
      }
      assert SpelledBy(after, region, sibling, siblingWidth, v);
    }
    if SpelledBy(after, region, sibling, siblingWidth, v) {
      forall n: nat | n < siblingWidth && SharesByte(start, width, sibling + n)
        ensures Bit(v, n) == update.WriteAsOnes?
      {
        assert InField(sibling, siblingWidth, n);
      }
    }
  }

  // ---- Where loads and stores fall short ----

  /** A field inside its region, on bytes that are all there, no wider than a word, is still refused when
      its bits do not fit one word after the shift; and only then. */
  lemma RefusedIffTooWide(m: Memory, region: Region, start: u32, width: u32)
    requires 0 < width <= 64 && InRange(region, start, width) && Backed(m, region, start, width)
    ensures Load(m, region, start, width) == Err(Fault) <==> start % 8 + width > 64
    ensures Load(m, region, start, width).Ok? <==> start % 8 + width <= 64
  {
    if start % 8 + width > 64 {
      var first := start / 8;
      WordLimit(start, width);
      ReachSkips(m, region, first, first, first + 8, LastByte(start, width), true);
      ReachHere(m, region, first, first + 8, LastByte(start, width));
      assert Mapped(m, region, first + 8);
    }
  }

  const NINE: Region := Region(SystemMemory, Some(0), Some(9))

  /** A whole word one bit into a nine-byte region whose bytes are all there. */
  lemma UnalignedWordRefused(m: Memory)
    requires forall k: nat :: k < 9 ==> Cell(SystemMemory, k) in m
    ensures InRange(NINE, 1, 64) && Backed(m, NINE, 1, 64)
    ensures Load(m, NINE, 1, 64) == Err(Fault)
  {
    RefusedIffTooWide(m, NINE, 1, 64);
  }

  const ONE_BYTE: Region := Region(SystemMemory, Some(0), Some(1))
  const SIXTEEN: Memory := map[Cell(SystemMemory, 0) := 0x10]

  /** A WriteAsZeros store of 5 to the low half of a byte that holds 0x10 turns the field in its high half
      from 1 to 0. */
  lemma FillChangesSibling()
    ensures Load(SIXTEEN, ONE_BYTE, 4, 4) == Ok(1)
    ensures var after := Store(SIXTEEN, ONE_BYTE, 0, 4, WriteAsZeros, 5);
            after.Ok? && Load(after.value, ONE_BYTE, 4, 4) == Ok(0)
  {
    hide Load, Store, Bit, Accessible, Stored;
    OneByteAccessible(SIXTEEN);
    SixteenBefore();
    SixteenAfter(Store(SIXTEEN, ONE_BYTE, 0, 4, WriteAsZeros, 5).value);
  }

  lemma OneByteAccessible(m: Memory)
    requires Cell(SystemMemory, 0) in m
    ensures Accessible(m, ONE_BYTE, 4, 4) && Accessible(m, ONE_BYTE, 0, 4)
  {
    assert Mapped(m, ONE_BYTE, 0);
  }

  lemma SixteenBefore()
    ensures Load(SIXTEEN, ONE_BYTE, 4, 4) == Ok(1)
  {
    hide Load, Accessible, Bit;
    OneByteAccessible(SIXTEEN);
    forall n: nat
      ensures n < 4 ==> InField(4, 4, n) && Bit(1, n) == RegionBit(SIXTEEN, ONE_BYTE, 4 + n)
      ensures n >= 4 ==> !Bit(1, n)
    {
      OneBit(n);
      SixteenBit(4 + n);
    }
    LoadIs(SIXTEEN, ONE_BYTE, 4, 4, 1) by { BackedOneByte(SIXTEEN); }
  }

  lemma SixteenBit(i: nat)
    ensures Bit(0x10, i) == (i == 4)
  {
    ShlBit(1, 4, i);
    OneBit(i - 4);
    assert Shl(1, 4) == 0x10;
  }

  lemma BackedOneByte(m: Memory)
    requires Cell(SystemMemory, 0) in m
    ensures Backed(m, ONE_BYTE, 4, 4)
  {
    assert Mapped(m, ONE_BYTE, 0);
  }

  lemma SixteenAfter(after: Memory)
    requires Stored(SIXTEEN, after, ONE_BYTE, 0, 4, WriteAsZeros, 5)
    ensures Load(after, ONE_BYTE, 4, 4) == Ok(0)
  {
    hide Load, Accessible, Bit, Stored, StoredBit;
    forall n: nat
      ensures n < 4 ==> InField(4, 4, n) && Mapped(after, ONE_BYTE, (4 + n) / 8)
                        && Bit(0, n) == RegionBit(after, ONE_BYTE, 4 + n)
      ensures n >= 4 ==> !Bit(0, n)
    {
      ZeroBits(n);
      if n < 4 { HighBitAfter(after, n); }
    }
    assert Accessible(after, ONE_BYTE, 4, 4) by { HighBitAfter(after, 0); OneByteAccessible(after); }
    LoadIs(after, ONE_BYTE, 4, 4, 0) by { HighBitAfter(after, 0); BackedOneByte(after); }
  }

  lemma HighBitAfter(after: Memory, n: nat)
    requires Stored(SIXTEEN, after, ONE_BYTE, 0, 4, WriteAsZeros, 5) && n < 4
    ensures Cell(SystemMemory, 0) in after && Mapped(after, ONE_BYTE, (4 + n) / 8) && !RegionBit(after, ONE_BYTE, 4 + n)
  {
    hide Bit;
    assert Mapped(SIXTEEN, ONE_BYTE, 0);
    StoredRegionBit(SIXTEEN, after, ONE_BYTE, 0, 4, WriteAsZeros, 5, 4 + n);
  }
}
