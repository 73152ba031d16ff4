/** A field from its declaration to the host: the region and the flags spelled in a definition block decide what a
    store through the loaded field does to every bit of the bytes it touches. */
module LoadedFields {
  import opened Wrappers
  import opened Bits
  import opened Names
  import opened Fields
  import opened Namespace
  import opened Values
  import opened Programs
  import opened Compilation
  import Loader
  import Scoping

  /** Declarations `j` and `k` are a region and, after it in the same scope, a field that names it. */
  predicate FieldOfRegion(decls: Decls, j: nat, k: nat)
    requires Shallow(decls, 0)
  {
    && j < k < |Flat(decls, [])| && Flat(decls, [])[j].decl.RegionDecl? && Flat(decls, [])[k].decl.FieldDecl?
    && Flat(decls, [])[j].scope == Flat(decls, [])[k].scope
    && Flat(decls, [])[j].decl.name == Flat(decls, [])[k].decl.region
  }

  /** The region as it is declared. */
  ghost predicate DeclaredRegion(region: Region, d: Decl)
    requires d.RegionDecl?
  {
    && region.space == Loader.AddressSpace(d.space)
    && region.base.Some? && region.base.value == LittleEndian(d.base)
    && region.length.Some? && region.length.value == LittleEndian(d.length)
  }

  /** The loaded field lies in the region it names, where the block declares that region. */
  lemma {:induction false} LoadedRegion(decls: Decls, j: nat, k: nat)
    requires WellFormed(decls) && FieldOfRegion(decls, j, k)
    ensures Lists([Code(decls)], Table(decls), Flat(decls, [])[k], k + 1)
    ensures var region := RegionOfField(Table(decls), Table(decls)[k + 1].payload.field);
            region.Ok? && DeclaredRegion(region.value, Flat(decls, [])[j].decl)
  {
    hide Code, Table, Flat, Find, FindId, CodeBytes, LittleEndian, Loader.AddressSpace;
    var rs := Table(decls);
    RecordIs(decls, j + 1);
    RecordIs(decls, k + 1);
    PathLeadsToIt(decls, j + 1);
    FoundEarlier(rs, j + 1, k + 1);
    TableIds(decls);
    FoundAtItsId(rs, j + 1);
  }

  lemma {:induction false} FoundEarlier(rs: Records, i: nat, upTo: nat)
    requires i < upTo <= |rs| && FirstAtItsPath(rs, i)
    ensures Find(rs[..upTo], rs[i].path) == Some(i)
  {
    assert rs[..upTo][i] == rs[i];
    forall m | 0 <= m < i ensures rs[..upTo][m].path != rs[i].path { assert rs[..upTo][m] == rs[m]; }
  }

  /** What a store puts in bit `n` of the region, by the field's own bits and bits 5 and 6 of its flags. */
  predicate BitAfter(was: bool, d: Decl, x: nat, n: nat)
    requires d.FieldDecl?
  {
    if d.offset <= n < d.offset + d.width then Bit(x, n - d.offset)
    else if Bit(d.flags, 5) && !Bit(d.flags, 6) then true
    else if Bit(d.flags, 6) && !Bit(d.flags, 5) then false
    else was
  }

  /** Bit `n` of the region, where it is mapped, after a store into the field: in the bytes the field touches as
      above, in every other byte as it was. */
  ghost predicate StoredByFlags(d: Decl, region: Region, before: Memory, after: Memory, x: nat, n: nat)
    requires d.FieldDecl? && d.width > 0
  {
    Mapped(before, region, n / 8) ==>
      && Mapped(after, region, n / 8)
      && RegionBit(after, region, n)
         == if d.offset / 8 <= n / 8 <= (d.offset + d.width - 1) / 8
            then BitAfter(RegionBit(before, region, n), d, x, n)
            else RegionBit(before, region, n)
  }

  /** A program's store into a declared field, by its name in the field's scope, sets the field's bits to those of the
      number. Every other bit of the bytes it touches is set, cleared or kept as the flags say, and no other byte of
      the region changes. */
  lemma {:induction false} StoreByFlags(decls: Decls, w: World, j: nat, k: nat, e: Entry, x: u64, s: Programs.Store,
                                        s': Programs.Store, n: nat)
    requires WellFormed(decls) && w.records == Table(decls) && FieldOfRegion(decls, j, k) && e == Flat(decls, [])[k]
    requires s.BindingFor(SoleSegment(e.decl.name)).None?
    requires PutNamed(w, e.scope, SoleSegment(e.decl.name), Integer(x), s) == Ok(s')
    ensures k + 1 < |w.records| && w.records[k + 1].payload.FieldPayload?
    ensures s.shared.memory.Some? && s'.shared.memory.Some? && e.decl.width > 0
    ensures var region := RegionOfField(w.records, w.records[k + 1].payload.field);
            && region.Ok? && DeclaredRegion(region.value, Flat(decls, [])[j].decl)
            && StoredByFlags(e.decl, region.value, s.shared.memory.value, s'.shared.memory.value, x, n)
  {
    hide Code, Table, Flat, Find, FindId, CodeBytes, LittleEndian, Loader.AddressSpace, RecordNamed, Fields.Store, Bit;
    hide RegionOfField, Store.Clean, RegionBit, Stored, Mapped, DeclaredRegion;
    LoadedRegion(decls, j, k);
    NameLeadsToField(decls, w, k);
    var before, after := s.shared.memory.value, s'.shared.memory.value;
    var field := w.records[k + 1].payload.field;
    var region := RegionOfField(w.records, field).value;
    assert Fields.Store(before, region, field.bitOffset, field.bitWidth, field.update, x) == Ok(after);
    if Mapped(before, region, n / 8) {
      StoredRegionBit(before, after, region, field.bitOffset, field.bitWidth, field.update, x, n);
      assert 8 * (n / 8) + n % 8 == n;
    }
  }

  lemma {:induction false} NameLeadsToField(decls: Decls, w: World, k: nat)
    requires WellFormed(decls) && w.records == Table(decls) && k < |Flat(decls, [])|
    ensures k + 1 < |w.records| && Lists([Code(decls)], w.records, Flat(decls, [])[k], k + 1)
    ensures RecordNamed(w, Flat(decls, [])[k].scope, SoleSegment(Flat(decls, [])[k].decl.name)) == Ok(w.records[k + 1])
  {
    hide Code, Table, Flat, Find, CodeBytes, LittleEndian;
    RecordIs(decls, k + 1);
    PathLeadsToIt(decls, k + 1);
    Scoping.NameSize(Flat(decls, [])[k].decl.name);
    assert w.records[k + 1] in w.records;
    assert w.records[k + 1].path in Paths(w.records);
  }
}
