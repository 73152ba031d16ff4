/** AML runtime values and the arithmetic the evaluator performs on them. */
module Values {
  import opened Wrappers
  import opened Bits
  import opened Namespace

  datatype Value =
    | Integer(value: u64)
    | Text(bytes: seq<byte>)
    | StaticText(location: Location)
    | Buffer(bytes: seq<byte>)
    | BufferHandle(handle: nat)
    | Package(elements: seq<Value>)
    | StaticPackage(location: Location)
    | PackageHandle(handle: nat)
    | DebugObject
    | NoValue

  /** Definition blocks before revision 2 compute with 32-bit integers. */
  datatype Width = Bits32 | Bits64
  {
    function Modulus(): (m: nat)
      ensures m > 0
    {
      if Bits32? then 0x1_0000_0000 else 0x1_0000_0000_0000_0000
    }
  }

  function WidthOfRevision(revision: byte): Width {
    if revision < 2 then Bits32 else Bits64
  }

  /** An integer of the given width: the low half of the word, or all of it. */
  function MakeInteger(value: u64, width: Width): (v: Value)
    ensures v.Integer? && v.value < width.Modulus()
  {
    if width.Bits32? then Integer(value % 0x1_0000_0000) else Integer(value)
  }

  /** A number cut to the width, negative ones included. */
  function Reduced(x: int, width: Width): (v: Value)
    ensures v.Integer?
  {
    Integer(x % width.Modulus())
  }

  function AsInteger(v: Value): (r: Result<u64>)
    ensures r != Err(OutOfFuel)
    ensures r.Ok? <==> v.Integer?
    ensures r.Ok? ==> v == Integer(r.value)
  {
    if v.Integer? then Ok(v.value) else Err(Unsupported)
  }

  predicate AsLogic(v: Value) {
    match v
    case Integer(n) => n != 0
    case NoValue => false
    case Text(bytes) => bytes != []
    case Buffer(bytes) => bytes != []
    case Package(elements) => elements != []
    case _ => true
  }

  /** An integer fits the width; other values carry no integer of their own. */
  predicate Fits(v: Value, width: Width) {
    v.Integer? ==> v.value < width.Modulus()
  }

  function ObjectType(v: Value): (n: nat)
    ensures n <= 0x10
  {
    match v
    case Integer(_) => 1
    case Text(_) => 2
    case StaticText(_) => 2
    case Buffer(_) => 3
    case BufferHandle(_) => 3
    case Package(_) => 4
    case StaticPackage(_) => 4
    case PackageHandle(_) => 4
    case DebugObject => 0x10
    case NoValue => 0
  }

  /** Each kind of object has a type number of its own, wherever its contents are kept. */
  lemma TypeNumbers(v: Value)
    ensures ObjectType(v) == 0 <==> v.NoValue?
    ensures ObjectType(v) == 1 <==> v.Integer?
    ensures ObjectType(v) == 2 <==> v.Text? || v.StaticText?
    ensures ObjectType(v) == 3 <==> v.Buffer? || v.BufferHandle?
    ensures ObjectType(v) == 4 <==> v.Package? || v.StaticPackage? || v.PackageHandle?
    ensures ObjectType(v) == 16 <==> v.DebugObject?
  {
  }

  /** A value counts as false exactly when it is zero, nothing, or a text, buffer or package that is given in place
      and empty. */
  lemma FalseValues(v: Value)
    ensures !AsLogic(v) <==> v in {Integer(0), NoValue, Text([]), Buffer([]), Package([])}
  {
  }

  /** Integers have 32 bits in tables before revision 2, and 64 bits from then on. */
  lemma WidthByRevision(revision: byte)
    ensures WidthOfRevision(revision).Modulus() == if revision <= 1 then Pow2(32) else Pow2(64)
  {
    WordSizes();
  }

  // ---- Binary operators ----

  datatype Operator = Add | Subtract | Multiply | ShiftLeft | ShiftRight | BitsAnd | BitsOr | BitsXor

  const WORD: nat := 0x1_0000_0000_0000_0000

  /** The 64-bit wrapping operation the evaluator applies before it narrows the result. A shift count
      is cut to 32 bits and then wraps at 64. */
  function Apply(op: Operator, a: u64, b: u64): (r: u64) {
    match op
    case Add => (a + b) % WORD
    case Subtract => (a + WORD - b) % WORD
    case Multiply => a * b % WORD
    case ShiftLeft => WordBits(); Truncate(Shl(a, b % 0x1_0000_0000 % 64), 64)
    case ShiftRight => ShrBound(a, b % 0x1_0000_0000 % 64); Shr(a, b % 0x1_0000_0000 % 64)
    case BitsAnd => GateBound(And, a, b); Bitwise(And, a, b)
    case BitsOr => GateBound(Or, a, b); Bitwise(Or, a, b)
    case BitsXor => GateBound(Xor, a, b); Bitwise(Xor, a, b)
  }

  lemma WordBits()
    ensures Pow2(64) == WORD
  {
    WordSizes();
  }

  lemma GateBound(g: Gate, a: u64, b: u64)
    ensures Bitwise(g, a, b) <= U64_MAX
  {
    WordBits();
    BitwiseBound(g, a, b, 64);
  }

  lemma {:induction false} ShrBound(a: nat, k: nat)
    ensures Shr(a, k) <= a
    decreases k
  {
    if k > 0 { ShrBound(a / 2, k - 1); }
  }

  /** What the operator means: exact arithmetic, reduced once to the width. */
  function Meaning(op: Operator, a: u64, b: u64, width: Width): (r: nat)
    ensures r < width.Modulus()
  {
    var exact: int := match op
      case Add => a + b
      case Subtract => a - b
      case Multiply => a * b
      case ShiftLeft => a * Pow2(b % 64)
      case ShiftRight => a / Pow2(b % 64)
      case BitsAnd => Bitwise(And, a, b)
      case BitsOr => Bitwise(Or, a, b)
      case BitsXor => Bitwise(Xor, a, b);
    exact % width.Modulus()
  }

  /** Wrapping at 64 bits and then narrowing is exact arithmetic modulo the width. */
  lemma ApplyIsExact(op: Operator, a: u64, b: u64, width: Width)
    ensures MakeInteger(Apply(op, a, b), width) == Integer(Meaning(op, a, b, width))
  {
    hide Pow2, Shl, Shr, Truncate, Bitwise;
    match op {
      case Add => TwoReductions(a + b, 0, width);
      case Subtract => TwoReductions(a - b, 1, width);
      case Multiply => ProductIsExact(a, b, width);
      case ShiftLeft => LeftShiftIsExact(a, b, width);
      case ShiftRight => RightShiftIsExact(a, b, width);
      case BitsAnd => GateBound(And, a, b);
      case BitsOr => GateBound(Or, a, b);
      case BitsXor => GateBound(Xor, a, b);
    }
  }

  lemma ProductIsExact(a: u64, b: u64, width: Width)
    ensures MakeInteger(Apply(Multiply, a, b), width) == Integer(Meaning(Multiply, a, b, width))
  {
    TwoReductions(a * b, 0, width);
  }

  lemma LeftShiftIsExact(a: u64, b: u64, width: Width)
    ensures MakeInteger(Apply(ShiftLeft, a, b), width) == Integer(Meaning(ShiftLeft, a, b, width))
  {
    hide Pow2, Shl, Truncate;
    WordBits();
    ShiftCount(b);
    ShlIsTimes(a, b % 64);
    TruncateIsMod(Shl(a, b % 64), 64);
    TwoReductions(a * Pow2(b % 64), 0, width);
  }

  lemma RightShiftIsExact(a: u64, b: u64, width: Width)
    ensures MakeInteger(Apply(ShiftRight, a, b), width) == Integer(Meaning(ShiftRight, a, b, width))
  {
    hide Pow2, Shr;
    ShiftCount(b);
    ShrIsDivide(a, b % 64);
    ShrBound(a, b % 64);
  }

  lemma ShiftCount(b: u64)
    ensures b % 0x1_0000_0000 % 64 == b % 64
  {
  }

  lemma TwoReductions(x: int, k: nat, width: Width)
    requires x + k * WORD >= 0
    ensures (x + k * WORD) % WORD < WORD
    ensures MakeInteger((x + k * WORD) % WORD, width) == Integer(x % width.Modulus())
  {
    var y := x + k * WORD;
    var q := y / WORD;
    assert y == q * WORD + y % WORD;
    if width.Bits32? {
      ModShift(y % WORD, 0x1_0000_0000, q * 0x1_0000_0000);
      ModShift(x, 0x1_0000_0000, k * 0x1_0000_0000);
    } else {
      ModShift(x, WORD, k);
    }
  }

  lemma ModShift(x: int, m: nat, k: nat)
    requires m > 0
    ensures (x + k * m) % m == x % m
  {
    var q, r := x / m, x % m;
    assert x + k * m == (q + k) * m + r;
    ModUnique(x + k * m, m, q + k, r);
  }

  lemma ModUnique(x: int, m: nat, q: int, r: int)
    requires m > 0 && 0 <= r < m && x == q * m + r
    ensures x % m == r
  {
    var d := x / m - q;
    assert x == (x / m) * m + x % m;
    assert d * m == r - x % m by { assert d * m == (x / m) * m - q * m; }
  }

  lemma {:induction false} ShrIsDivide(x: nat, k: nat)
    ensures Shr(x, k) == x / Pow2(k)
    decreases k
  {
    if k > 0 {
      ShrIsDivide(x / 2, k - 1);
      HalfDivide(x, Pow2(k - 1));
    }
  }

  lemma HalfDivide(x: nat, p: nat)
    requires p > 0
    ensures x / (2 * p) == (x / 2) / p
  {
    var q, r := (x / 2) / p, (x / 2) % p;
    Doubled(q, p);
    DivModUnique(x, 2 * p, q, 2 * r + x % 2);
  }

  // ---- Comparisons ----

  datatype Relation = Equal | Greater | Less
  {
    predicate Test(a: u64, b: u64) {
      match this
      case Equal => a == b
      case Greater => a > b
      case Less => a < b
    }
  }

  function Truth(b: bool): (n: nat)
    ensures n <= 1
  {
    if b then 1 else 0
  }

  /** `!value` on a 64-bit word. */
  function Inverted(value: u64): u64 { U64_MAX - value }

  lemma Pow2Next(i: nat)
    ensures Pow2(i) < Pow2(i + 1)
  {
  }

  /** Narrowed, it flips exactly the bits of the width. */
  lemma InvertedBits(value: u64, width: Width, i: nat)
    requires Fits(Integer(value), width)
    ensures Bit(MakeInteger(Inverted(value), width).value, i) == (Pow2(i) < width.Modulus() && !Bit(value, i))
  {
    hide Bit, Pow2;
    WordSizes();
    var k := if width.Bits32? then 32 else 64;
    if i < k { Pow2Next(i); Pow2Grows(i + 1, k); } else { Pow2Grows(k, i); }
    ComplementBit(value, k, i);
    assert MakeInteger(Inverted(value), width).value == Complement(value, k);
  }
}
