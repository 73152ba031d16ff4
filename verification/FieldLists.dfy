/** The entry lists of Field objects as syntax: how they are spelled, and where their fields lie. */
module FieldLists {
  import opened Wrappers
  import opened Bits
  import opened Names
  import opened Namespace
  import opened Programs
  import opened Evaluator
  import opened Loader

  /** One entry of a list: a gap, an access or extended access entry, a connection, or a named field. */
  datatype Unit =
    | Offset(bits: nat)
    | AccessAs(kind: byte, attribute: byte)
    | ExtendedAccess(kind: byte, attribute: byte, length: byte)
    | Connection(to: NameRef)
    | Part(name: NameSeg, bits: nat)

  predicate UnitOk(u: Unit) {
    match u
    case Offset(bits) => bits < PkgBound(4)
    case Part(_, bits) => bits < PkgBound(4)
    case Connection(n) => NameOk(n)
    case _ => true
  }

  predicate UnitsOk(units: seq<Unit>) {
    forall i :: 0 <= i < |units| ==> UnitOk(units[i])
  }

  function SpellUnit(u: Unit): seq<byte>
    requires UnitOk(u)
  {
    match u
    case Offset(bits) => [0x00] + EncodePkg(bits, 4)
    case AccessAs(kind, attribute) => [0x01, kind, attribute]
    case ExtendedAccess(kind, attribute, length) => [0x03, kind, attribute, length]
    case Connection(n) => [0x02] + SpellName(n)
    case Part(name, bits) => name + EncodePkg(bits, 4)
  }

  function SpellUnits(units: seq<Unit>): seq<byte>
    requires UnitsOk(units)
  {
    if units == [] then [] else SpellUnit(units[0]) + SpellUnits(units[1..])
  }

  /** Where the fields lie when the first entry begins at bit `at`: each right behind what comes before it. */
  function Layout(units: seq<Unit>, at: nat): seq<Span>
    requires UnitsOk(units)
  {
    if units == [] then []
    else match units[0]
      case Part(name, bits) => [Span(name, at, bits)] + Layout(units[1..], at + bits)
      case Offset(bits) => Layout(units[1..], at + bits)
      case _ => Layout(units[1..], at)
  }

  /** Every spelled entry is read back as itself and takes exactly its own bytes, whatever follows it. */
  lemma {:induction false} UnitReadBack(list: seq<byte>, cursor: nat, u: Unit, rest: seq<byte>)
    requires UnitOk(u) && cursor <= |list| && list[cursor..] == SpellUnit(u) + rest
    ensures cursor < |list| && SpellUnit(u) != []
    ensures var next := cursor + |SpellUnit(u)|;
            && next <= |list| && list[next..] == rest
            && EntryAt(list, cursor) == (match u
                                         case Offset(bits) => Ok(Gap(bits, next))
                                         case Part(_, bits) => Ok(Item(bits, next))
                                         case _ => Ok(Gap(0, next)))
            && (u.Part? ==> list[cursor..cursor + 4] == u.name)
  {
    hide ParsePkg, EncodePkg, ParseName, SpellName;
    var spelled := SpellUnit(u);
    assert spelled != [] by { if u.Connection? { NameNotEmpty(u.to); } }
    assert list[cursor] == list[cursor..][0] == spelled[0];
    var next := cursor + |spelled|;
    assert list[next..] == list[cursor..][|spelled|..];
    match u {
      case Offset(bits) =>
        assert list[cursor + 1..] == EncodePkg(bits, 4) + rest;
        PkgRoundTrip(bits, 4, rest);
      case Connection(n) =>
        assert list[cursor + 1..] == SpellName(n) + rest;
        NameReadBack(n, list[cursor + 1..]);
      case Part(name, bits) =>
        assert NameChar(name[0]);
        assert list[cursor..cursor + 4] == name;
        assert list[cursor + 4..] == EncodePkg(bits, 4) + rest;
        PkgRoundTrip(bits, 4, rest);
      case _ =>
    }
  }

  /** A spelled list lays out exactly its named fields, each at the sum of the gaps and widths before it. */
  lemma {:induction false} ListLaysOut(list: seq<byte>, cursor: nat, units: seq<Unit>, at: nat)
    requires UnitsOk(units) && cursor <= |list| && list[cursor..] == SpellUnits(units)
    ensures Spans(list, cursor, at) == Ok(Layout(units, at))
    decreases |units|
  {
    hide EntryAt, SpellUnit;
    if units != [] {
      var u, more := units[0], units[1..];
      UnitReadBack(list, cursor, u, SpellUnits(more));
      var next := cursor + |SpellUnit(u)|;
      ListLaysOut(list, next, more, match u case Part(_, bits) => at + bits case Offset(bits) => at + bits case _ => at);
    }
  }

  /** So a Field object that spells a list loads one record for each of its named fields, in order, each with its
      width and, saturated at 32 bits, its exact offset. */
  lemma {:induction false} ListLoads(plan: Plan, rs: Records, list: seq<byte>, cursor: nat, h: FieldHome, units: seq<Unit>)
    requires Sound(plan, rs) && ScopeRef(rs, h.scopeId, h.scope) && UnitsOk(units)
    requires cursor <= |list| && list[cursor..] == SpellUnits(units)
    requires FieldEntries(plan, rs, list, cursor, h, 0).Ok?
    ensures LaidOut(rs, FieldEntries(plan, rs, list, cursor, h, 0).value, Layout(units, 0), h)
  {
    hide Sound, Spans, Layout, LaidOut, FieldEntries;
    ListLaysOut(list, cursor, units, 0);
    FieldsLaidOut(plan, rs, list, cursor, h, 0);
  }
}
