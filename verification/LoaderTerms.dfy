/** The loader's grammar of constant and composite term arguments: how many bytes each takes and,
    for a constant, its value. */
module LoaderTerms {
  import opened Wrappers
  import opened Bits
  import opened Names
  import opened Namespace

  /** A term argument: its value when it is a constant, and how many bytes it takes. */
  datatype Arg = Arg(value: Option<u64>, consumed: nat)

  lemma LittleEndianWord(bytes: seq<byte>)
    requires |bytes| <= 8
    ensures LittleEndian(bytes) <= U64_MAX
  {
    LittleEndianBound(bytes);
    WordSizes();
    Pow2Grows(8 * |bytes|, 64);
  }

  /** An integer constant: the prefix byte and its little-endian operand. */
  function Constant(bytes: seq<byte>): (r: Result<Arg>)
    ensures r.Ok? ==> r.value.value.Some? && 1 <= r.value.consumed <= |bytes|
    ensures r != Err(OutOfFuel)
  {
    if bytes == [] then Err(Truncated)
    else match bytes[0]
      case 0x00 => Ok(Arg(Some(0), 1))
      case 0x01 => Ok(Arg(Some(1), 1))
      case 0xFF => Ok(Arg(Some(U64_MAX), 1))
      case 0x0A => Operand(bytes, 1)
      case 0x0B => Operand(bytes, 2)
      case 0x0C => Operand(bytes, 4)
      case 0x0E => Operand(bytes, 8)
      case _ => Err(Unsupported)
  }

  function Operand(bytes: seq<byte>, width: nat): (r: Result<Arg>)
    requires 1 <= |bytes| && 1 <= width <= 8
    ensures r.Ok? ==> r.value.value.Some? && r.value.consumed == 1 + width <= |bytes|
    ensures r != Err(OutOfFuel)
  {
    if |bytes| < 1 + width then Err(Truncated)
    else
      LittleEndianWord(bytes[1..1 + width]);
      Ok(Arg(Some(LittleEndian(bytes[1..1 + width])), 1 + width))
  }

  function TargetLength(bytes: seq<byte>): (r: Result<nat>)
    ensures r.Ok? ==> 1 <= r.value <= |bytes|
  {
    if bytes == [] then Err(Truncated)
    else if bytes[0] == 0x00 || 0x60 <= bytes[0] <= 0x6E then Ok(1)
    else if bytes[0] == 0x5B then
      if |bytes| < 2 then Err(Truncated) else if bytes[1] == 0x31 then Ok(2) else Err(Unsupported)
    else if NameLead(bytes[0]) then
      var name :- ParseName(bytes);
      Ok(name.consumed)
    else Err(Unsupported)
  }

  /** Where the zero that ends a string is. */
  function ZeroPosition(bytes: seq<byte>): (r: Option<nat>)
    ensures r.Some? ==> r.value < |bytes| && bytes[r.value] == 0 && forall k :: 0 <= k < r.value ==> bytes[k] != 0
    ensures r.None? ==> forall k :: 0 <= k < |bytes| ==> bytes[k] != 0
  {
    if bytes == [] then None
    else if bytes[0] == 0 then Some(0)
    else match ZeroPosition(bytes[1..])
      case Some(i) => Some(i + 1)
      case None => None
  }

  /** A string, buffer or package. A package length is taken at its word: it may pass the end. */
  function DataObject(bytes: seq<byte>): (r: Result<Arg>)
    requires bytes != []
    ensures r.Ok? ==> r.value.value.None? && r.value.consumed >= 1
  {
    if bytes[0] == 0x0D then
      match ZeroPosition(bytes[1..])
      case Some(length) => Ok(Arg(None, 2 + length))
      case None => Err(Truncated)
    else
      var pkg :- ParsePkg(bytes[1..]);
      Ok(Arg(None, 1 + pkg.value))
  }

  function DropChecked(bytes: seq<byte>, n: nat): Result<seq<byte>> {
    if n <= |bytes| then Ok(bytes[n..]) else Err(Truncated)
  }

  function TermArg(bytes: seq<byte>): (r: Result<Arg>)
    ensures r.Ok? ==> r.value.consumed >= 1
    decreases |bytes|
  {
    if bytes == [] then Err(Truncated)
    else if NameLead(bytes[0]) then
      var name :- ParseName(bytes);
      Ok(Arg(None, name.consumed))
    else match bytes[0]
      case 0x0D => DataObject(bytes)
      case 0x11 => DataObject(bytes)
      case 0x12 => DataObject(bytes)
      case 0x13 => DataObject(bytes)
      case 0x70 => Store(bytes)
      case 0x72 => Binary(bytes, true)
      case 0x74 => Binary(bytes, true)
      case 0x79 => Binary(bytes, true)
      case 0x7A => Binary(bytes, true)
      case 0x7B => Binary(bytes, true)
      case 0x7D => Binary(bytes, true)
      case 0x7F => Binary(bytes, true)
      case 0x93 => Binary(bytes, false)
      case 0x94 => Binary(bytes, false)
      case 0x95 => Binary(bytes, false)
      case 0x75 => Update(bytes)
      case 0x76 => Update(bytes)
      case 0x80 => Unary(bytes)
      case 0x92 => Unary(bytes)
      case _ => Constant(bytes)
  }

  function Unary(bytes: seq<byte>): (r: Result<Arg>)
    requires bytes != []
    ensures r.Ok? ==> r.value.consumed >= 1
    decreases |bytes|, 0
  {
    var arg :- TermArg(bytes[1..]);
    Ok(Arg(None, 1 + arg.consumed))
  }

  function Update(bytes: seq<byte>): (r: Result<Arg>)
    requires bytes != []
    ensures r.Ok? ==> r.value.consumed >= 1
  {
    var target :- TargetLength(bytes[1..]);
    Ok(Arg(None, 1 + target))
  }

  function Store(bytes: seq<byte>): (r: Result<Arg>)
    requires bytes != []
    ensures r.Ok? ==> r.value.consumed >= 1
    decreases |bytes|, 0
  {
    var value :- TermArg(bytes[1..]);
    var rest :- DropChecked(bytes, 1 + value.consumed);
    var target :- TargetLength(rest);
    Ok(Arg(None, 1 + value.consumed + target))
  }

  function Binary(bytes: seq<byte>, targeted: bool): (r: Result<Arg>)
    requires bytes != []
    ensures r.Ok? ==> r.value.consumed >= 1
    decreases |bytes|, 0
  {
    var lhs :- TermArg(bytes[1..]);
    var rest :- DropChecked(bytes, 1 + lhs.consumed);
    var rhs :- TermArg(rest);
    if targeted then
      var tail :- DropChecked(bytes, 1 + lhs.consumed + rhs.consumed);
      var target :- TargetLength(tail);
      Ok(Arg(None, 1 + lhs.consumed + rhs.consumed + target))
    else Ok(Arg(None, 1 + lhs.consumed + rhs.consumed))
  }

  // ---- Predicates evaluated while loading ----

  datatype Valued = Valued(value: u64, consumed: nat)

  function Compare(op: byte, lhs: u64, rhs: u64): u64 {
    if (if op == 0x93 then lhs == rhs else if op == 0x94 then lhs > rhs else lhs < rhs) then 1 else 0
  }

  /** The value of an If predicate over the names loaded so far. */
  function LoadTimeValue(rs: Records, bytes: seq<byte>, scope: Path): (r: Result<Valued>)
    ensures r.Ok? ==> 1 <= r.value.consumed <= |bytes|
    decreases |bytes|
  {
    if bytes == [] then Err(Truncated)
    else if NameLead(bytes[0]) then
      var name :- ParseName(bytes);
      var path :- Lookup(Paths(rs), scope, name);
      match Find(rs, path)
      case Some(i) =>
        if rs[i].payload.IntegerPayload? then Ok(Valued(rs[i].payload.value, name.consumed)) else Err(Unsupported)
      case None => Err(Unsupported)
    else if bytes[0] == 0x92 then
      var v :- LoadTimeValue(rs, bytes[1..], scope);
      Ok(Valued(if v.value == 0 then 1 else 0, 1 + v.consumed))
    else if 0x93 <= bytes[0] <= 0x95 then
      var lhs :- LoadTimeValue(rs, bytes[1..], scope);
      var rhs :- LoadTimeValue(rs, bytes[1 + lhs.consumed..], scope);
      Ok(Valued(Compare(bytes[0], lhs.value, rhs.value), 1 + lhs.consumed + rhs.consumed))
    else
      var c :- Constant(bytes);
      Ok(Valued(c.value.value, c.consumed))
  }
}
