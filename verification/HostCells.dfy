/** Fields in terms of the host's own cells: which cells a field of a region occupies, and how fields that are
    reached through different regions affect one another. */
module HostCells {
  import opened Wrappers
  import opened Bits
  import opened Fields

  /** Byte `k` of a region is the cell `k` past its base, in its own space. */
  lemma ByteIsCell(m: Memory, region: Region, k: nat)
    ensures Mapped(m, region, k) <==> Reaches(region, k) && Cell(region.space, region.base.value + k) in m
    ensures Mapped(m, region, k) ==> ByteAt(m, region, k) == m[Cell(region.space, region.base.value + k)]
  {
  }

  /** The cells a field occupies: from its first byte to its last, counted from the region's base. */
  predicate Occupies(region: Region, start: u32, width: u32, c: Cell)
    requires width > 0 && region.base.Some?
  {
    && c.space == region.space
    && region.base.value + start / 8 <= c.address <= region.base.value + (start + width - 1) / 8
  }

  /** A load spells the bits of those cells, the lowest first. */
  lemma LoadReadsCells(m: Memory, region: Region, start: u32, width: u32, n: nat)
    requires Load(m, region, start, width).Ok? && n < width
    ensures region.base.Some? && Cell(region.space, region.base.value + (start + n) / 8) in m
    ensures Bit(Load(m, region, start, width).value, n)
            == Bit(m[Cell(region.space, region.base.value + (start + n) / 8)], (start + n) % 8)
  {
    hide Load, CellOf, Bit;
    assert InField(start, width, n);
    assert Mapped(m, region, (start + n) / 8);
    ByteIsCell(m, region, (start + n) / 8);
  }

  /** What a store leaves in every cell of the host: in a cell the field occupies, the field's own bits, and
      around them what the update rule says; in any other cell, what was there. */
  lemma StoreWritesCells(m: Memory, region: Region, start: u32, width: u32, update: UpdateRule, value: nat, c: Cell, i: nat)
    requires Store(m, region, start, width, update, value).Ok? && c in m && i < 8
    ensures region.base.Some? && width > 0
    ensures var after := Store(m, region, start, width, update, value).value;
            && c in after
            && (!Occupies(region, start, width, c) ==> after[c] == m[c])
            && (Occupies(region, start, width, c) ==>
                  var n := 8 * (c.address - region.base.value) + i;
                  Bit(after[c], i) == if start <= n < start + width then Bit(value, n - start)
                                      else if update.Preserve? then Bit(m[c], i)
                                      else update.WriteAsOnes?)
  {
    hide Store, CellOf, Bit, StoredUpTo;
    assert Mapped(m, region, start / 8);
    ByteIsCell(m, region, start / 8);
    var after := Store(m, region, start, width, update, value).value;
    if Occupies(region, start, width, c) {
      OccupiedByte(m, after, region, start, width, update, value, c, i);
    } else {
      OtherCell(m, after, region, start, width, update, value, c);
    }
  }

  lemma OccupiedByte(m: Memory, after: Memory, region: Region, start: u32, width: u32, update: UpdateRule, value: nat,
                     c: Cell, i: nat)
    requires width > 0 && region.base.Some? && c in m && i < 8
    requires Stored(m, after, region, start, width, update, value) && Occupies(region, start, width, c)
    ensures c in after
    ensures var n := 8 * (c.address - region.base.value) + i;
            Bit(after[c], i) == if start <= n < start + width then Bit(value, n - start)
                                else if update.Preserve? then Bit(m[c], i)
                                else update.WriteAsOnes?
  {
    hide CellOf, Bit;
    var b := c.address - region.base.value;
    assert start / 8 <= b < LastByte(start, width) + 1;
    assert Mapped(m, region, b) && Mapped(after, region, b);
    ByteIsCell(m, region, b);
    ByteIsCell(after, region, b);
    assert c == Cell(region.space, region.base.value + b);
  }

  lemma OtherCell(m: Memory, after: Memory, region: Region, start: u32, width: u32, update: UpdateRule, value: nat, c: Cell)
    requires width > 0 && region.base.Some? && c in m
    requires Stored(m, after, region, start, width, update, value) && !Occupies(region, start, width, c)
    ensures c in after && after[c] == m[c]
  {
    forall b: nat | start / 8 <= b < LastByte(start, width) + 1 ensures CellOf(region, b) != Ok(c) { }
  }

  // ---- Two regions ----

  /** The two fields share no cell. */
  predicate CellsApart(r: Region, start: u32, width: u32, q: Region, start': u32, width': u32)
    requires width > 0 && width' > 0 && r.base.Some? && q.base.Some?
  {
    || r.space != q.space
    || r.base.value + (start + width - 1) / 8 < q.base.value + start' / 8
    || q.base.value + (start' + width' - 1) / 8 < r.base.value + start / 8
  }

  /** A store through one region leaves every field of any region alone that shares no cell with it, whether
      that field can be read or not. */
  lemma StoreLeavesOthers(m: Memory, r: Region, start: u32, width: u32, update: UpdateRule, value: nat, q: Region,
                          start': u32, width': u32)
    requires Store(m, r, start, width, update, value).Ok? && width > 0 && width' > 0 && r.base.Some? && q.base.Some?
    requires CellsApart(r, start, width, q, start', width')
    ensures Load(Store(m, r, start, width, update, value).value, q, start', width') == Load(m, q, start', width')
  {
    hide Store, Load;
    var after := Store(m, r, start, width, update, value).value;
    forall c | c in m && Occupies(q, start', width', c) ensures c in after && after[c] == m[c] {
      StoreWritesCells(m, r, start, width, update, value, c, 0);
    }
    SameKeys(m, after, r, start, width, update, value);
    SameCellsSameLoad(m, after, q, start', width');
  }

  lemma SameKeys(m: Memory, after: Memory, r: Region, start: u32, width: u32, update: UpdateRule, value: nat)
    requires width > 0 && Stored(m, after, r, start, width, update, value)
    ensures after.Keys == m.Keys
  {
  }

  /** A load depends on nothing but the cells of its field. */
  lemma SameCellsSameLoad(m: Memory, after: Memory, q: Region, start: u32, width: u32)
    requires width > 0 && q.base.Some? && after.Keys == m.Keys
    requires forall c :: c in m && Occupies(q, start, width, c) ==> after[c] == m[c]
    ensures Load(after, q, start, width) == Load(m, q, start, width)
  {
    hide Load, SpelledBy;
    SameAccess(m, after, q, start, width);
    AccessIff(m, q, start, width, true);
    AccessIff(after, q, start, width, true);
    LoadFails(m, q, start, width);
    LoadFails(after, q, start, width);
    if Load(m, q, start, width).Ok? {
      var v, v' := Load(m, q, start, width).value, Load(after, q, start, width).value;
      forall n: nat ensures Bit(v, n) == Bit(v', n) {
        if n < width {
          SameBit(m, after, q, start, width, n);
        } else {
          NoHighBits(m, q, start, width, n);
          NoHighBits(after, q, start, width, n);
        }
      }
      SameBits(v, v');
    }
  }

  lemma NoHighBits(m: Memory, q: Region, start: u32, width: u32, n: nat)
    requires Load(m, q, start, width).Ok? && n >= width
    ensures !Bit(Load(m, q, start, width).value, n)
  {
    hide Load;
  }

  lemma SameBit(m: Memory, after: Memory, q: Region, start: u32, width: u32, n: nat)
    requires n < width && q.base.Some?
    requires forall c :: c in m && Occupies(q, start, width, c) ==> c in after && after[c] == m[c]
    requires Load(m, q, start, width).Ok? && Load(after, q, start, width).Ok?
    ensures Bit(Load(m, q, start, width).value, n) == Bit(Load(after, q, start, width).value, n)
  {
    hide Load, Bit;
    LoadReadsCells(m, q, start, width, n);
    LoadReadsCells(after, q, start, width, n);
    assert Occupies(q, start, width, Cell(q.space, q.base.value + (start + n) / 8));
  }

  lemma SameAccess(m: Memory, after: Memory, q: Region, start: u32, width: u32)
    requires after.Keys == m.Keys
    ensures Access(after, q, start, width, true) == Access(m, q, start, width, true)
  {
    hide CellOf;
    if 0 < width <= 64 { SameReach(m, after, q, start / 8, start / 8, LastByte(start, width)); }
  }

  lemma {:induction false} SameReach(m: Memory, after: Memory, q: Region, first: nat, b: nat, last: nat)
    requires after.Keys == m.Keys && first <= b
    ensures Reach(after, q, first, b, last, true) == Reach(m, q, first, b, last, true)
    decreases last + 1 - b
  {
    hide CellOf;
    if b <= last {
      if CellOf(q, b).Ok? { assert CellOf(q, b).value in after <==> CellOf(q, b).value in m; }
      SameReach(m, after, q, first, b + 1, last);
    }
  }

  /** The same bits of the host read the same through either region. */
  lemma SameBitsEitherRegion(m: Memory, r: Region, start: u32, q: Region, start': u32, width: u32)
    requires r.base.Some? && q.base.Some? && r.space == q.space
    requires 8 * r.base.value + start == 8 * q.base.value + start'
    requires Load(m, r, start, width).Ok? && Load(m, q, start', width).Ok?
    ensures Load(m, r, start, width) == Load(m, q, start', width)
  {
    hide Load;
    var v, v' := Load(m, r, start, width).value, Load(m, q, start', width).value;
    forall n: nat ensures Bit(v, n) == Bit(v', n) {
      if n < width {
        LoadReadsCells(m, r, start, width, n);
        LoadReadsCells(m, q, start', width, n);
        SamePlace(r.base.value, start, q.base.value, start', n);
      } else {
        NoHighBits(m, r, start, width, n);
        NoHighBits(m, q, start', width, n);
      }
    }
    SameBits(v, v');
  }

  lemma SamePlace(p: nat, start: nat, p': nat, start': nat, n: nat)
    requires 8 * p + start == 8 * p' + start'
    ensures p + (start + n) / 8 == p' + (start' + n) / 8 && (start + n) % 8 == (start' + n) % 8
  {
    var d := p - p';
    assert start' + n == start + n + 8 * d;
  }

  /** What a store writes through one region a load reads back through any other that covers the same bits. */
  lemma StoreThenLoadEitherRegion(m: Memory, r: Region, start: u32, q: Region, start': u32, width: u32, update: UpdateRule,
                                  value: u64)
    requires r.base.Some? && q.base.Some? && r.space == q.space
    requires 8 * r.base.value + start == 8 * q.base.value + start'
    requires Store(m, r, start, width, update, value).Ok? && Load(m, q, start', width).Ok?
    ensures Load(Store(m, r, start, width, update, value).value, q, start', width)
            == Ok(BitAnd(value, WidthMask(width)))
  {
    hide Load, Store, WidthMask, Bitwise, StoredUpTo;
    var after := Store(m, r, start, width, update, value).value;
    var masked := BitAnd(value, WidthMask(width));
    MaskedFits(value, width);
    LoadAfterStore(m, after, r, start, width, update, value, masked);
    LoadIs(after, r, start, width, masked);
    SameKeys(m, after, r, start, width, update, value);
    SameAccess(m, after, q, start', width);
    AccessIff(m, q, start', width, true);
    AccessIff(after, q, start', width, true);
    SameBitsEitherRegion(after, r, start, q, start', width);
  }

  lemma MaskedFits(value: u64, width: u32)
    requires width <= 64
    ensures BitAnd(value, WidthMask(width)) <= U64_MAX
  {
    WordSizes();
    BitwiseBound(And, value, WidthMask(width), 64);
  }
}
