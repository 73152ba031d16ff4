/** The AML method evaluator over one loaded namespace: offset-driven recursive descent that changes
    an activation frame, the runtime tables and the host's bytes as it goes. */
module Evaluator {
  import opened Wrappers
  import opened Bits
  import opened Names
  import opened Fields
  import opened Namespace
  import opened SlotTable
  import opened Values
  import opened Elements
  import opened Programs
  import opened Frames
  import LoaderTerms
  import RuntimeState

  /** A value and the number of bytes it took. */
  datatype Term = Term(value: Value, consumed: nat)

  /** How many bytes a statement took and how it left the flow of control. */
  datatype Progress = Progress(consumed: nat, control: Control)

  datatype Verdict = Verdict(returned: Option<Value>, blocked: bool)

  datatype SuperName = SuperName(node: Option<nat>, consumed: nat)

  datatype Arguments = Arguments(values: seq<Value>, consumed: nat)

  predicate AllFit(values: seq<Value>, width: Width) {
    forall i :: 0 <= i < |values| ==> Values.Fits(values[i], width)
  }

  // ---- Opcodes ----

  /** The opcode dispatch of a term. */
  datatype TermKind =
    | ConstantTerm | TextTerm | RegisterTerm | StoreTerm | BinaryTerm(op: Operator) | DivideTerm | UpdateTerm(up: bool)
    | InvertTerm | DerefTerm | SizeTerm | IndexTerm | TypeTerm | NotTerm | CompareTerm(relation: Relation) | NameTerm
    | OtherTerm

  predicate RegisterByte(b: byte) { 0x60 <= b <= 0x6E }

  function RegisterOf(b: byte): (r: Register)
    requires RegisterByte(b)
    ensures r.Valid() && SpellRegister(r) == [b]
  {
    if b <= 0x67 then LocalVariable(b - 0x60) else Argument(b - 0x68)
  }

  function KindOf(b: byte): TermKind {
    if b == 0x00 || b == 0x01 || b == 0xFF || 0x0A <= b <= 0x0C || b == 0x0E then ConstantTerm
    else if RegisterByte(b) then RegisterTerm
    else if NameLead(b) then NameTerm
    else match b
      case 0x0D => TextTerm
      case 0x70 => StoreTerm
      case 0x72 => BinaryTerm(Add)
      case 0x74 => BinaryTerm(Subtract)
      case 0x75 => UpdateTerm(true)
      case 0x76 => UpdateTerm(false)
      case 0x77 => BinaryTerm(Multiply)
      case 0x78 => DivideTerm
      case 0x79 => BinaryTerm(ShiftLeft)
      case 0x7A => BinaryTerm(ShiftRight)
      case 0x7B => BinaryTerm(BitsAnd)
      case 0x7D => BinaryTerm(BitsOr)
      case 0x7F => BinaryTerm(BitsXor)
      case 0x80 => InvertTerm
      case 0x83 => DerefTerm
      case 0x87 => SizeTerm
      case 0x88 => IndexTerm
      case 0x8E => TypeTerm
      case 0x92 => NotTerm
      case 0x93 => CompareTerm(Equal)
      case 0x94 => CompareTerm(Greater)
      case 0x95 => CompareTerm(Less)
      case _ => OtherTerm
  }

  /** An integer constant at the front of the bytes, cut to the width. */
  function ConstantAt(bytes: seq<byte>, width: Width): (r: Result<Term>)
    ensures r.Ok? ==> 1 <= r.value.consumed <= |bytes| && Values.Fits(r.value.value, width)
    ensures r != Err(OutOfFuel)
  {
    var c :- LoaderTerms.Constant(bytes);
    Ok(Term(MakeInteger(c.value.value, width), c.consumed))
  }

  function LocalSegment(name: EncodedName): Option<NameSeg> {
    if name.isNull || name.anchor != Local || name.carets != 0 || |name.segments| != 1 then None
    else Some(name.segments[0])
  }

  /** A package length after `op` opcode bytes, its payload inside the given bytes. */
  function PackageAt(bytes: seq<byte>, op: nat): (r: Result<Extent>)
    requires op <= |bytes|
    ensures r.Ok? ==> op < r.value.start <= r.value.end <= |bytes|
    ensures r != Err(OutOfFuel)
  {
    var pkg :- ParsePkg(bytes[op..]);
    if op + pkg.value > |bytes| then Err(Truncated)
    else if pkg.encoded > pkg.value then Err(Fault)
    else Ok(Extent(op + pkg.encoded, op + pkg.value))
  }

  // ---- Spelling and dispatch agree ----

  lemma NameLeads(n: NameRef)
    requires NameOk(n)
    ensures SpellName(n) != [] && NameLead(SpellName(n)[0])
  {
    BodyLead(n.segments);
    if n.anchor == Local {
      var flat := Flatten(n.segments);
      assert flat[0] == n.segments[0][0];
      assert NameChar(n.segments[0][0]);
    }
  }

  function LeadOf(e: Expr): byte
    requires !e.Call? && !e.Named? && (e.Read? ==> e.register.Valid())
  {
    match e
    case Zero => 0x00
    case One => 0x01
    case Ones => 0xFF
    case Literal(bytes) => LiteralByte(|bytes|)
    case Chars(_) => 0x0D
    case Read(r) => SpellRegister(r)[0]
    case Assign(_, _) => 0x70
    case Binary(op, _, _, _) => OperatorByte(op)
    case Divide(_, _, _, _) => 0x78
    case Update(up, _) => if up then 0x75 else 0x76
    case Invert(_) => 0x80
    case Not(_) => 0x92
    case SizeOf(_) => 0x87
    case TypeOf(_) => 0x8E
    case Deref(_) => 0x83
    case Index(_, _, _) => 0x88
    case Compare(relation, _, _) => RelationByte(relation)
  }

  lemma SpellLead(w: World, scope: Path, e: Expr)
    requires ExprOk(w, scope, e) && !e.Call? && !e.Named?
    ensures Spell(w, scope, e)[0] == LeadOf(e)
  {
  }

  function KindOfExpr(e: Expr): TermKind {
    match e
    case Read(_) => RegisterTerm
    case Assign(_, _) => StoreTerm
    case Binary(op, _, _, _) => BinaryTerm(op)
    case Divide(_, _, _, _) => DivideTerm
    case Update(up, _) => UpdateTerm(up)
    case Invert(_) => InvertTerm
    case Not(_) => NotTerm
    case SizeOf(_) => SizeTerm
    case TypeOf(_) => TypeTerm
    case Deref(_) => DerefTerm
    case Index(_, _, _) => IndexTerm
    case Chars(_) => TextTerm
    case Compare(relation, _, _) => CompareTerm(relation)
    case Named(_) => NameTerm
    case Call(_, _) => NameTerm
    case _ => ConstantTerm
  }

  /** The first byte of a spelled expression tells its kind. */
  lemma SpellKind(w: World, scope: Path, e: Expr)
    requires ExprOk(w, scope, e)
    ensures KindOf(Spell(w, scope, e)[0]) == KindOfExpr(e)
  {
    hide Spell, ExprOk, KindOf;
    if e.Call? || e.Named? { NameKind(w, scope, e); } else { LeadKind(w, scope, e); }
  }

  lemma NameKind(w: World, scope: Path, e: Expr)
    requires ExprOk(w, scope, e) && (e.Call? || e.Named?)
    ensures KindOf(Spell(w, scope, e)[0]) == NameTerm
  {
    hide RecordNamed;
    NameLeads(e.name);
    assert Spell(w, scope, e)[0] == SpellName(e.name)[0];
  }

  lemma LeadKind(w: World, scope: Path, e: Expr)
    requires ExprOk(w, scope, e) && !e.Call? && !e.Named?
    ensures KindOf(Spell(w, scope, e)[0]) == KindOfExpr(e)
  {
    hide Spell, KindOf, KindOfExpr;
    SpellLead(w, scope, e);
    LeadTellsKind(e);
  }

  lemma LeadTellsKind(e: Expr)
    requires !e.Call? && !e.Named? && (e.Read? ==> e.register.Valid()) && (e.Literal? ==> LiteralSize(|e.bytes|))
    ensures KindOf(LeadOf(e)) == KindOfExpr(e)
  {
  }

  /** The opcode dispatch of a statement. */
  datatype StmtKind = NameStmt | WhileStmt | NoopStmt | StoreStmt | ExtStmt | IfStmt | BreakStmt | ReturnStmt | TermStmt

  function StmtKindOf(b: byte): StmtKind {
    match b
    case 0x08 => NameStmt
    case 0xA2 => WhileStmt
    case 0xA3 => NoopStmt
    case 0x70 => StoreStmt
    case 0x5B => ExtStmt
    case 0xA0 => IfStmt
    case 0xA5 => BreakStmt
    case 0xA4 => ReturnStmt
    case _ => TermStmt
  }

  function KindOfStmt(s: Stmt): StmtKind {
    match s
    case Do(e) => if e.Assign? then StoreStmt else TermStmt
    case Noop => NoopStmt
    case Break => BreakStmt
    case Return(_) => ReturnStmt
    case Acquire(_, _) => ExtStmt
    case Release(_) => ExtStmt
    case Wait(_, _) => ExtStmt
    case Signal(_, _) => ExtStmt
    case Declare(_, _) => NameStmt
    case DeclareRegion(_, _, _, _) => ExtStmt
    case DeclareFields(_, _, _, _) => ExtStmt
    case If(_, _, _) => IfStmt
    case IfElse(_, _, _, _, _) => IfStmt
    case While(_, _, _) => WhileStmt
  }

  lemma SpellStmtKind(w: World, scope: Path, s: Stmt)
    requires StmtOk(w, scope, s)
    ensures StmtKindOf(SpellStmt(w, scope, s)[0]) == KindOfStmt(s) && SpellStmt(w, scope, s)[0] != 0xA1
  {
    hide Spell, SpellGuarded, SpellPackage, SpellName, NameOk, RecordNamed, GuardedOk, ExprOk;
    if s.Do? { SpellKind(w, scope, s.expr); }
  }

  lemma BlockLead(w: World, scope: Path, b: Block)
    requires BlockOk(w, scope, b)
    ensures b.Then? ==> SpellBlock(w, scope, b) != [] && SpellBlock(w, scope, b)[0] != 0xA1
  {
    hide Spell, SpellStmt, StmtOk;
    if b.Then? { SpellStmtKind(w, scope, b.first); }
  }

  /** A spelled package is found where it was put. */
  lemma PackageFound(bytes: seq<byte>, op: nat, size: nat, payload: seq<byte>)
    requires op <= |bytes| && PackageFits(size, payload) && SpellPackage(size, payload) <= bytes[op..]
    ensures PackageAt(bytes, op) == Ok(Extent(op + size, op + size + |payload|))
    ensures bytes[op + size..op + size + |payload|] == payload
  {
    hide ParsePkg, EncodePkg;
    var code := EncodePkg(size + |payload|, size);
    var rest := bytes[op..][size..];
    assert bytes[op..] == code + rest;
    PkgRoundTrip(size + |payload|, size, rest);
    assert bytes[op + size..op + size + |payload|] == SpellPackage(size, payload)[size..];
  }

  /** Constants read back as the number they spell. */
  lemma ConstantMeans(w: World, scope: Path, e: Expr, bytes: seq<byte>)
    requires ExprOk(w, scope, e) && KindOfExpr(e) == ConstantTerm && Spell(w, scope, e) <= bytes
    ensures ConstantAt(bytes, w.width) ==
            Ok(Term(match e
                    case Zero => Reduced(0, w.width)
                    case One => Reduced(1, w.width)
                    case Ones => Reduced(-1, w.width)
                    case Literal(raw) => Reduced(LittleEndian(raw), w.width)
                    case _ => NoValue,
                    |Spell(w, scope, e)|))
  {
    SpellKind(w, scope, e);
    if e.Literal? {
      assert bytes[1..1 + |e.bytes|] == Spell(w, scope, e)[1..];
      LoaderTerms.LittleEndianWord(e.bytes);
    }
  }

  /** Where the parts of a spelled expression lie. */
  lemma Chop(a: seq<byte>, b: seq<byte>, bytes: seq<byte>)
    requires a + b <= bytes
    ensures a <= bytes && b <= bytes[|a|..]
  {
    assert bytes[|a|..][..|b|] == (a + b)[|a|..];
  }

  lemma AssignParts(w: World, scope: Path, e: Expr, bytes: seq<byte>)
    requires e.Assign? && ExprOk(w, scope, e) && Spell(w, scope, e) <= bytes
    ensures ExprOk(w, scope, e.value) && TargetOk(w, scope, e.target)
    ensures var v, t := Spell(w, scope, e.value), SpellTarget(w, scope, e.target);
            && v <= bytes[1..] && t <= bytes[1 + |v|..]
            && |Spell(w, scope, e)| == 1 + |v| + |t|
  {
    hide NameOk, RecordNamed, SpellName, SpellTarget;
    var v, t := Spell(w, scope, e.value), SpellTarget(w, scope, e.target);
    Chop([0x70], v + t, bytes);
    Chop(v, t, bytes[1..]);
    assert bytes[1..][|v|..] == bytes[1 + |v|..];
  }

  lemma PairParts(l: seq<byte>, r: seq<byte>, t: seq<byte>, lead: byte, bytes: seq<byte>)
    requires [lead] + (l + (r + t)) <= bytes
    ensures l <= bytes[1..] && r <= bytes[1 + |l|..] && t <= bytes[1 + |l| + |r|..]
  {
    Chop([lead], l + (r + t), bytes);
    Chop(l, r + t, bytes[1..]);
    assert bytes[1..][|l|..] == bytes[1 + |l|..];
    Chop(r, t, bytes[1 + |l|..]);
    assert bytes[1 + |l|..][|r|..] == bytes[1 + |l| + |r|..];
  }

  lemma IndexParts(w: World, scope: Path, e: Expr, bytes: seq<byte>)
    requires e.Index? && ExprOk(w, scope, e) && Spell(w, scope, e) <= bytes
    ensures w.indexes && ExprOk(w, scope, e.base) && ExprOk(w, scope, e.index) && TargetOk(w, scope, e.target)
    ensures var l, r, t := Spell(w, scope, e.base), Spell(w, scope, e.index), SpellTarget(w, scope, e.target);
            && l <= bytes[1..] && r <= bytes[1 + |l|..] && t <= bytes[1 + |l| + |r|..]
            && |Spell(w, scope, e)| == 1 + |l| + |r| + |t|
  {
    hide NameOk, RecordNamed, SpellName, SpellTarget;
    PairParts(Spell(w, scope, e.base), Spell(w, scope, e.index), SpellTarget(w, scope, e.target), 0x88, bytes);
  }

  lemma IndexTargetParts(w: World, scope: Path, t: Target, bytes: seq<byte>)
    requires t.IntoIndex? && TargetOk(w, scope, t) && SpellTarget(w, scope, t) <= bytes
    ensures ExprOk(w, scope, t.base) && ExprOk(w, scope, t.index) && TargetOk(w, scope, t.rest)
    ensures var l, r, u := Spell(w, scope, t.base), Spell(w, scope, t.index), SpellTarget(w, scope, t.rest);
            && bytes != [] && l <= bytes[1..] && r <= bytes[1 + |l|..] && u <= bytes[1 + |l| + |r|..]
            && |SpellTarget(w, scope, t)| == 1 + |l| + |r| + |u|
  {
    hide NameOk, RecordNamed, SpellName, Spell;
    PairParts(Spell(w, scope, t.base), Spell(w, scope, t.index), SpellTarget(w, scope, t.rest), 0x88, bytes);
  }

  lemma BinaryParts(w: World, scope: Path, e: Expr, bytes: seq<byte>)
    requires e.Binary? && ExprOk(w, scope, e) && Spell(w, scope, e) <= bytes
    ensures ExprOk(w, scope, e.left) && ExprOk(w, scope, e.right) && TargetOk(w, scope, e.target)
    ensures var l, r, t := Spell(w, scope, e.left), Spell(w, scope, e.right), SpellTarget(w, scope, e.target);
            && l <= bytes[1..] && r <= bytes[1 + |l|..] && t <= bytes[1 + |l| + |r|..]
            && |Spell(w, scope, e)| == 1 + |l| + |r| + |t|
  {
    hide NameOk, RecordNamed, SpellName, SpellTarget;
    PairParts(Spell(w, scope, e.left), Spell(w, scope, e.right), SpellTarget(w, scope, e.target), OperatorByte(e.op), bytes);
  }

  lemma DivideParts(w: World, scope: Path, e: Expr, bytes: seq<byte>)
    requires e.Divide? && ExprOk(w, scope, e) && Spell(w, scope, e) <= bytes
    ensures ExprOk(w, scope, e.left) && ExprOk(w, scope, e.right)
    ensures TargetOk(w, scope, e.remainder) && TargetOk(w, scope, e.quotient)
    ensures var l, r := Spell(w, scope, e.left), Spell(w, scope, e.right);
            var t, u := SpellTarget(w, scope, e.remainder), SpellTarget(w, scope, e.quotient);
            && l <= bytes[1..] && r <= bytes[1 + |l|..]
            && t <= bytes[1 + |l| + |r|..] && u <= bytes[1 + |l| + |r| + |t|..]
            && |Spell(w, scope, e)| == 1 + |l| + |r| + |t| + |u|
  {
    var l, r := Spell(w, scope, e.left), Spell(w, scope, e.right);
    hide NameOk, RecordNamed, SpellName, SpellTarget;
    var t, u := SpellTarget(w, scope, e.remainder), SpellTarget(w, scope, e.quotient);
    PairParts(l, r, t + u, 0x78, bytes);
    Chop(t, u, bytes[1 + |l| + |r|..]);
    assert bytes[1 + |l| + |r|..][|t|..] == bytes[1 + |l| + |r| + |t|..];
  }

  lemma CompareParts(w: World, scope: Path, e: Expr, bytes: seq<byte>)
    requires e.Compare? && ExprOk(w, scope, e) && Spell(w, scope, e) <= bytes
    ensures ExprOk(w, scope, e.left) && ExprOk(w, scope, e.right)
    ensures var l, r := Spell(w, scope, e.left), Spell(w, scope, e.right);
            && l <= bytes[1..] && r <= bytes[1 + |l|..]
            && |Spell(w, scope, e)| == 1 + |l| + |r|
  {
    var l, r := Spell(w, scope, e.left), Spell(w, scope, e.right);
    assert l + (r + []) == l + r;
    PairParts(l, r, [], RelationByte(e.relation), bytes);
  }

  lemma UnaryParts(w: World, scope: Path, e: Expr, bytes: seq<byte>)
    requires (e.Invert? || e.Not? || e.SizeOf? || e.TypeOf? || e.Deref?) && ExprOk(w, scope, e) && Spell(w, scope, e) <= bytes
    ensures ExprOk(w, scope, e.value)
    ensures Spell(w, scope, e.value) <= bytes[1..] && |Spell(w, scope, e)| == 1 + |Spell(w, scope, e.value)|
  {
    Chop([LeadOf(e)], Spell(w, scope, e.value), bytes);
  }

  lemma UpdateParts(w: World, scope: Path, e: Expr, bytes: seq<byte>)
    requires e.Update? && ExprOk(w, scope, e) && Spell(w, scope, e) <= bytes
    ensures !e.target.Discard? && TargetOk(w, scope, e.target)
    ensures e.target.IntoName? ==> NameReads(w, scope, e.target.name)
    ensures SpellTarget(w, scope, e.target) <= bytes[1..]
    ensures |Spell(w, scope, e)| == 1 + |SpellTarget(w, scope, e.target)|
  {
    Chop([if e.up then 0x75 else 0x76], SpellTarget(w, scope, e.target), bytes);
  }

  /** A spelled name is read back as itself, whatever follows it. */
  lemma NameReadBack(n: NameRef, bytes: seq<byte>)
    requires NameOk(n) && SpellName(n) <= bytes
    ensures bytes != [] && NameLead(bytes[0]) && ParseName(bytes) == Ok(Parsed(n))
  {
    hide ParseName, EncodeName;
    NameLeads(n);
    NameRoundTrip(n.anchor, n.carets, n.segments, bytes[|SpellName(n)|..]);
    assert bytes == SpellName(n) + bytes[|SpellName(n)|..];
  }

  lemma CallParts(w: World, scope: Path, e: Expr, bytes: seq<byte>)
    requires e.Call? && ExprOk(w, scope, e) && Spell(w, scope, e) <= bytes
    ensures Links(w, scope, e.name, e.args) && ArgsOk(w, scope, e.args)
    ensures var n := |SpellName(e.name)|;
            && SpellName(e.name) <= bytes && SpellArgs(w, scope, e.args) <= bytes[n..]
            && |Spell(w, scope, e)| == n + |SpellArgs(w, scope, e.args)|
  {
    hide SpellName, RecordNamed;
    Chop(SpellName(e.name), SpellArgs(w, scope, e.args), bytes);
  }

  lemma NamedParts(w: World, scope: Path, e: Expr, bytes: seq<byte>)
    requires e.Named? && ExprOk(w, scope, e) && Spell(w, scope, e) <= bytes
    ensures NameReads(w, scope, e.name) && SpellName(e.name) <= bytes && |Spell(w, scope, e)| == |SpellName(e.name)|
  {
  }

  lemma MutexParts(w: World, scope: Path, s: Stmt, bytes: seq<byte>)
    requires (s.Acquire? || s.Release?) && StmtOk(w, scope, s) && SpellStmt(w, scope, s) <= bytes
    ensures NamesRecord(w, scope, s.mutex) && |bytes| >= 2 && bytes[1] == (if s.Acquire? then 0x23 else 0x27)
    ensures var n := |SpellName(s.mutex)|;
            && SpellName(s.mutex) <= bytes[2..]
            && |SpellStmt(w, scope, s)| == 2 + n + (if s.Acquire? then 2 else 0)
  {
    hide SpellName, RecordNamed;
    if s.Acquire? {
      Chop([0x5B, 0x23], SpellName(s.mutex) + s.timeout, bytes);
      Chop(SpellName(s.mutex), s.timeout, bytes[2..]);
    } else {
      Chop([0x5B, 0x27], SpellName(s.mutex), bytes);
    }
  }

  lemma WaitParts(w: World, scope: Path, s: Stmt, bytes: seq<byte>)
    requires s.Wait? && StmtOk(w, scope, s) && SpellStmt(w, scope, s) <= bytes
    ensures ExprOk(w, scope, s.time) && |bytes| >= 2 && bytes[1] == (if s.stall then 0x21 else 0x22)
    ensures Spell(w, scope, s.time) <= bytes[2..] && |SpellStmt(w, scope, s)| == 2 + |Spell(w, scope, s.time)|
  {
    hide Spell, RecordNamed;
    Chop([0x5B, if s.stall then 0x21 else 0x22], Spell(w, scope, s.time), bytes);
  }

  lemma SignalParts(w: World, scope: Path, s: Stmt, bytes: seq<byte>)
    requires s.Signal? && StmtOk(w, scope, s) && SpellStmt(w, scope, s) <= bytes
    ensures NamesRecord(w, scope, s.device) && ExprOk(w, scope, s.value) && |bytes| >= 2 && bytes[1] == 0x86
    ensures var n := |SpellName(s.device)|;
            && SpellName(s.device) <= bytes[2..] && 2 + n <= |bytes| && Spell(w, scope, s.value) <= bytes[2 + n..]
            && |SpellStmt(w, scope, s)| == 2 + n + |Spell(w, scope, s.value)|
  {
    hide Spell, SpellName, RecordNamed;
    var n, v := SpellName(s.device), Spell(w, scope, s.value);
    Chop([0x5B, 0x86], n + v, bytes);
    Chop(n, v, bytes[2..]);
    assert bytes[2..][|n|..] == bytes[2 + |n|..];
  }

  lemma DeclareParts(w: World, scope: Path, s: Stmt, bytes: seq<byte>)
    requires s.Declare? && StmtOk(w, scope, s) && SpellStmt(w, scope, s) <= bytes
    ensures MayBind(w, scope, s.local) && InitOk(w, scope, s.init) && |bytes| >= 5
    ensures s.local <= bytes[1..] && SpellInit(w, scope, s.init) <= bytes[5..]
    ensures |SpellStmt(w, scope, s)| == 5 + |SpellInit(w, scope, s.init)|
  {
    hide SpellInit, InitOk, RecordNamed;
    Chop([0x08], s.local + SpellInit(w, scope, s.init), bytes);
    Chop(s.local, SpellInit(w, scope, s.init), bytes[1..]);
    assert bytes[1..][4..] == bytes[5..];
  }

  lemma RegionParts(w: World, scope: Path, s: Stmt, bytes: seq<byte>)
    requires s.DeclareRegion? && StmtOk(w, scope, s) && SpellStmt(w, scope, s) <= bytes
    ensures MayBind(w, scope, s.local) && ExprOk(w, scope, s.base) && ExprOk(w, scope, s.length) && |bytes| >= 7
    ensures var l, r := Spell(w, scope, s.base), Spell(w, scope, s.length);
            && bytes[1] == 0x80 && s.local <= bytes[2..] && bytes[6] == s.space
            && l <= bytes[7..] && r <= bytes[7 + |l|..] && |SpellStmt(w, scope, s)| == 7 + |l| + |r|
  {
    hide Spell, RecordNamed;
    var l, r := Spell(w, scope, s.base), Spell(w, scope, s.length);
    Chop([0x5B, 0x80], s.local + ([s.space] + (l + r)), bytes);
    Chop(s.local, [s.space] + (l + r), bytes[2..]);
    Chop([s.space], l + r, bytes[2..][4..]);
    assert bytes[2..][4..][1..] == bytes[7..];
    Chop(l, r, bytes[7..]);
    assert bytes[7..][|l|..] == bytes[7 + |l|..];
    assert bytes[2..][4..][0] == s.space;
  }

  /** A sole segment is read back as a local name, whatever follows. */
  lemma SegmentFound(s: NameSeg, bytes: seq<byte>)
    requires s <= bytes
    ensures ParseName(bytes) == Ok(EncodedName(Local, 0, [s], false, 4))
  {
    hide ParseName;
    assert Flatten([s]) == s by { assert [s][1..] == []; }
    assert EncodeName(Local, 0, [s]) == s;
    NameRoundTrip(Local, 0, [s], bytes[4..]);
    assert bytes == s + bytes[4..];
  }

  lemma FieldsParts(w: World, scope: Path, s: Stmt, bytes: seq<byte>)
    requires s.DeclareFields? && StmtOk(w, scope, s) && SpellStmt(w, scope, s) <= bytes
    ensures NameOk(s.region) && ListMayBind(w, scope, s.list, 0) && |bytes| >= 2 && bytes[1] == 0x81
    ensures PackageAt(bytes, 2).Ok?
    ensures var x, n := PackageAt(bytes, 2).value, |SpellName(s.region)|;
            && x.end == |SpellStmt(w, scope, s)| && SpellName(s.region) <= bytes[x.start..x.end]
            && x.start + n < x.end && bytes[x.start + n] == s.flags
            && bytes[..x.end][x.start + n + 1..] == s.list
  {
    hide PackageAt, SpellPackage, ListMayBind, SpellName;
    var name := SpellName(s.region);
    var payload := name + ([s.flags] + s.list);
    Chop([0x5B, 0x81], SpellPackage(s.size, payload), bytes);
    PackageFound(bytes, 2, s.size, payload);
    PackageSize(s.size, payload);
    var x := PackageAt(bytes, 2).value;
    assert bytes[x.start..x.end][|name|] == s.flags;
    assert bytes[..x.end][x.start + |name| + 1..] == payload[|name| + 1..];
  }

  lemma BufferParts(w: World, scope: Path, init: Init, bytes: seq<byte>)
    requires init.BufferInit? && InitOk(w, scope, init) && SpellInit(w, scope, init) <= bytes
    ensures ExprOk(w, scope, init.length) && bytes != [] && bytes[0] == 0x11 && PackageAt(bytes, 1).Ok?
    ensures var x, n := PackageAt(bytes, 1).value, |Spell(w, scope, init.length)|;
            && x.end == |SpellInit(w, scope, init)| && Spell(w, scope, init.length) <= bytes[x.start..x.end]
            && x.start + n <= x.end && bytes[x.start + n..x.end] == init.raw
  {
    hide PackageAt, SpellPackage, Spell;
    var length := Spell(w, scope, init.length);
    var payload := length + init.raw;
    Chop([0x11], SpellPackage(init.size, payload), bytes);
    PackageFound(bytes, 1, init.size, payload);
    PackageSize(init.size, payload);
    var x := PackageAt(bytes, 1).value;
    assert bytes[x.start + |length|..x.end] == payload[|length|..];
  }

  lemma TermsParts(w: World, scope: Path, init: Init, bytes: seq<byte>)
    requires init.PackageInit? && InitOk(w, scope, init) && SpellInit(w, scope, init) <= bytes
    ensures ArgsOk(w, scope, init.terms) && bytes != [] && bytes[0] == 0x12 && CountedAt(bytes).Ok?
    ensures var x := CountedAt(bytes).value;
            && x.end == |SpellInit(w, scope, init)| && bytes[x.start] == init.count
            && bytes[x.start + 1..x.end] == SpellArgs(w, scope, init.terms)
  {
    hide ParsePkg, SpellArgs, SpellPackage;
    var payload := [init.count] + SpellArgs(w, scope, init.terms);
    Chop([0x12], SpellPackage(init.size, payload), bytes);
    PackageFound(bytes, 1, init.size, payload);
    PackageSize(init.size, payload);
    var x := PackageAt(bytes, 1).value;
    assert bytes[x.start..x.end][0] == init.count;
    assert bytes[x.start + 1..x.end] == payload[1..];
  }

  /** Where the parts of a spelled If or While lie. */
  lemma {:induction false} GuardedParts(w: World, scope: Path, size: nat, c: Expr, body: Block, bytes: seq<byte>)
    requires GuardedOk(w, scope, size, c, body) && bytes != [] && SpellGuarded(w, scope, size, c, body) <= bytes[1..]
    ensures ExprOk(w, scope, c) && BlockOk(w, scope, body) && PackageAt(bytes, 1).Ok?
    ensures var x, n := PackageAt(bytes, 1).value, |Spell(w, scope, c)|;
            && x.end == 1 + |SpellGuarded(w, scope, size, c, body)|
            && Spell(w, scope, c) <= bytes[x.start..x.end]
            && x.start + n <= x.end && bytes[x.start + n..x.end] == SpellBlock(w, scope, body)
  {
    hide PackageAt, Spell, SpellBlock, EncodePkg;
    var payload := Spell(w, scope, c) + SpellBlock(w, scope, body);
    PackageFound(bytes, 1, size, payload);
    var n := |Spell(w, scope, c)|;
    var x := PackageAt(bytes, 1).value;
    assert bytes[x.start..x.end] == payload;
    assert bytes[x.start + n..x.end] == payload[n..];
  }

  lemma IfParts(w: World, scope: Path, s: Stmt, bytes: seq<byte>)
    requires (s.If? || s.IfElse? || s.While?) && StmtOk(w, scope, s) && SpellStmt(w, scope, s) <= bytes
    ensures var body := if s.While? then s.body else s.yes;
            && GuardedOk(w, scope, s.size, s.condition, body)
            && SpellGuarded(w, scope, s.size, s.condition, body) <= bytes[1..]
            && (!s.IfElse? ==> |SpellStmt(w, scope, s)| == 1 + |SpellGuarded(w, scope, s.size, s.condition, body)|)
  {
    hide SpellGuarded, SpellPackage;
    var body := if s.While? then s.body else s.yes;
    var lead: byte := if s.While? then 0xA2 else 0xA0;
    var inner := SpellGuarded(w, scope, s.size, s.condition, body);
    assert [lead] + inner <= SpellStmt(w, scope, s);
    Chop([lead], inner, bytes);
  }

  /** The Else after an If is found where it was put. */
  lemma ElseParts(w: World, scope: Path, s: Stmt, bytes: seq<byte>)
    requires s.IfElse? && StmtOk(w, scope, s) && SpellStmt(w, scope, s) <= bytes
    ensures BlockOk(w, scope, s.no) && GuardedOk(w, scope, s.size, s.condition, s.yes)
    ensures var end := 1 + |SpellGuarded(w, scope, s.size, s.condition, s.yes)|;
            && end < |bytes| && bytes[end] == 0xA1
            && PackageAt(bytes[end..], 1).Ok?
            && var x := PackageAt(bytes[end..], 1).value;
               x.end == |SpellStmt(w, scope, s)| - end && bytes[end..][x.start..x.end] == SpellBlock(w, scope, s.no)
  {
    hide SpellGuarded, SpellPackage, SpellBlock, PackageAt;
    var inner := SpellGuarded(w, scope, s.size, s.condition, s.yes);
    var no := SpellPackage(s.elseSize, SpellBlock(w, scope, s.no));
    Chop([0xA0] + inner, [0xA1] + no, bytes);
    var end := 1 + |inner|;
    Chop([0xA1], no, bytes[end..]);
    PackageFound(bytes[end..], 1, s.elseSize, SpellBlock(w, scope, s.no));
    PackageSize(s.elseSize, SpellBlock(w, scope, s.no));
  }

  /** Where the If package of a spelled If statement ends. */
  function IfEnd(w: World, scope: Path, s: Stmt): nat
    requires (s.If? || s.IfElse?) && StmtOk(w, scope, s)
  {
    1 + |SpellGuarded(w, scope, s.size, s.condition, s.yes)|
  }

  /** After a branch that was taken, an Else is stepped over without looking inside it. */
  function SkipElse(bytes: seq<byte>, end: nat): (r: Result<nat>)
    requires end <= |bytes|
    ensures r != Err(OutOfFuel)
  {
    if end < |bytes| && bytes[end] == 0xA1 then
      var pkg :- ParsePkg(bytes[end + 1..]);
      Ok(end + 1 + pkg.value)
    else Ok(end)
  }

  lemma ElseSkipped(w: World, scope: Path, s: Stmt, bytes: seq<byte>)
    requires (s.If? || s.IfElse?) && StmtOk(w, scope, s) && SpellStmt(w, scope, s) <= bytes
    requires |bytes| > |SpellStmt(w, scope, s)| ==> bytes[|SpellStmt(w, scope, s)|] != 0xA1
    ensures IfEnd(w, scope, s) <= |bytes| && SkipElse(bytes, IfEnd(w, scope, s)) == Ok(|SpellStmt(w, scope, s)|)
  {
    hide SpellStmt, StmtOk, SpellGuarded, SpellPackage, SpellBlock, ParsePkg;
    IfParts(w, scope, s, bytes);
    if s.IfElse? {
      ElseParts(w, scope, s, bytes);
      var end := IfEnd(w, scope, s);
      assert bytes[end..][1..] == bytes[end + 1..];
    }
  }

  lemma PackageSize(size: nat, payload: seq<byte>)
    requires PackageFits(size, payload)
    ensures |SpellPackage(size, payload)| == size + |payload|
  {
  }

  lemma MakeReduced(x: u64, width: Width)
    ensures MakeInteger(x, width) == Reduced(x, width)
  {
  }

  lemma SizeReduced(n: nat, width: Width)
    ensures MakeInteger(n % WORD, width) == Reduced(n, width)
  {
    TwoReductions(n, 0, width);
  }

  lemma InvertReduced(x: u64, width: Width)
    ensures MakeInteger(Inverted(x), width) == Reduced(-1 - x, width)
  {
    TwoReductions(-1 - x, 1, width);
  }

  lemma UpdateReduced(up: bool, x: u64, width: Width)
    ensures MakeInteger(Apply(if up then Add else Subtract, x, 1), width)
            == Reduced(if up then x + 1 else x - 1, width)
  {
    ApplyIsExact(if up then Add else Subtract, x, 1, width);
  }

  /** Argument values already known, in front of those still to come. */
  function Prepend(values: seq<Value>, r: Result<ArgStep>): Result<ArgStep> {
    match r
    case Ok(a) => Ok(ArgStep(values + a.values, a.store))
    case Err(e) => Err(e)
  }

  lemma PrependNothing(r: Result<ArgStep>)
    ensures Prepend([], r) == r
  {
    if r.Ok? { assert [] + r.value.values == r.value.values; }
  }

  lemma WhileMeaning(w: World, at: Site, st: Stmt, s: Store, fuel: nat)
    requires st.While?
    ensures ExecuteStmt(w, at, st, s, fuel) == Turns(w, at, st, s, fuel, fuel)
  {
  }

  /** One turn of a loop: the condition, then the body, then what the body leaves to be done. */
  lemma {:induction false} OneTurn(w: World, at: Site, st: Stmt, s: Store, fuel: nat, turns: nat)
    requires st.While?
    ensures turns == 0 ==> Turns(w, at, st, s, fuel, turns) == Err(OutOfFuel)
    ensures turns > 0 ==>
              var all, x := Turns(w, at, st, s, fuel, turns), Eval(w, at, st.condition, s, fuel);
              && (x.Err? ==> all == Err(x.error))
              && (x.Ok? && !AsLogic(x.value.value) ==> all == Ok(Flow(Continue, x.value.store)))
              && (x.Ok? && AsLogic(x.value.value) ==>
                    var f := Execute(w, at, st.body, x.value.store, fuel);
                    && (f.Err? ==> all == Err(f.error))
                    && (f.Ok? && f.value.control.Continue? ==> all == Turns(w, at, st, f.value.store, fuel, turns - 1))
                    && (f.Ok? && f.value.control.Leave? ==> all == Ok(Flow(Continue, f.value.store)))
                    && (f.Ok? && (f.value.control.Blocked? || f.value.control.Returned?) ==> all == f))
  {
    hide Eval, Execute, Store.Clean, Step.Clean, Flow.Clean;
  }

  /** What is made of the value of a single operand. */
  function MadeOf(w: World, at: Site, e: Expr, x: Step, fuel: nat): Result<Step> {
    match e
    case Assign(_, t) => var s :- PutAt(w, at, t, x.value, x.store, fuel); Ok(Step(x.value, s))
    case Invert(_) => var a :- AsInteger(x.value); Ok(Step(Reduced(-1 - a, w.width), x.store))
    case Not(_) => Ok(Step(Reduced(if AsLogic(x.value) then 0 else 1, w.width), x.store))
    case SizeOf(_) =>
      var n :- SizeOfValue(w.blocks, x.store.shared.tables, x.value);
      Ok(Step(Reduced(n, w.width), x.store))
    case TypeOf(_) => Ok(Step(Reduced(ObjectType(x.value), w.width), x.store))
    case _ => Ok(x)
  }

  lemma OneMeaning(w: World, at: Site, e: Expr, s: Store, fuel: nat)
    requires e.Assign? || e.Invert? || e.Not? || e.SizeOf? || e.TypeOf? || e.Deref?
    ensures Eval(w, at, e, s, fuel) ==
            match Eval(w, at, e.value, s, fuel)
            case Err(x) => Err(x)
            case Ok(x) => MadeOf(w, at, e, x, fuel)
  {
    hide PutAt, SizeOfValue, Store.Clean, Step.Clean;
  }

  /** What is made of the values of two operands. */
  function MadeOfTwo(w: World, at: Site, e: Expr, x: Value, y: Step, fuel: nat): Result<Step> {
    match e
    case Binary(op, _, _, t) => Combined(w, at, op, t, x, y, fuel)
    case Divide(_, _, _, _) => Divided(w, at, e, x, y, fuel)
    case Index(_, _, t) => Indexed(w, at, t, x, y, fuel)
    case Compare(relation, _, _) => Compared(w, relation, x, y)
    case _ => Err(Unsupported)
  }

  function FirstOperand(e: Expr): Expr
    requires e.Binary? || e.Divide? || e.Compare? || e.Index?
  {
    if e.Index? then e.base else e.left
  }

  function SecondOperand(e: Expr): Expr
    requires e.Binary? || e.Divide? || e.Compare? || e.Index?
  {
    if e.Index? then e.index else e.right
  }

  /** Two operands are evaluated from left to right. */
  lemma PairMeaning(w: World, at: Site, e: Expr, s: Store, fuel: nat)
    requires e.Binary? || e.Divide? || e.Compare? || e.Index?
    ensures Eval(w, at, e, s, fuel) ==
            match Eval(w, at, FirstOperand(e), s, fuel)
            case Err(x) => Err(x)
            case Ok(x) =>
              match Eval(w, at, SecondOperand(e), x.store, fuel)
              case Err(y) => Err(y)
              case Ok(y) => MadeOfTwo(w, at, e, x.value, y, fuel)
  {
    hide Combined, Divided, Indexed;
  }

  lemma NamedMeaning(w: World, at: Site, n: NameRef, s: Store, fuel: nat)
    requires NameOk(n)
    ensures Eval(w, at, Named(n), s, fuel)
            == match NamedAt(w, at.scope, n, s) case Ok(v) => Ok(Step(v, s)) case Err(x) => Err(x)
  {
    hide NamedAt, NameOk;
  }

  /** What an indexed target's own target takes, and then the store into the element. */
  function PutThen(w: World, at: Site, rest: Target, base: Value, index: Value, v: Value, s: Store, fuel: nat)
    : Result<Store>
  {
    match PutAt(w, at, rest, NoValue, s, fuel)
    case Err(x) => Err(x)
    case Ok(s') => PutIndexed(w, at.scope, base, index, v, s')
  }

  /** An indexed target evaluates its operands from left to right, and then its own target takes nothing. */
  lemma {:induction false} IndexTargetMeaning(w: World, at: Site, t: Target, v: Value, s: Store, fuel: nat)
    requires t.IntoIndex? && s.shared.tables.Some?
    ensures PutAt(w, at, t, v, s, fuel) ==
            match Eval(w, at, t.base, s, fuel)
            case Err(x) => Err(x)
            case Ok(x) =>
              match Eval(w, at, t.index, x.store, fuel)
              case Err(y) => Err(y)
              case Ok(y) => PutThen(w, at, t.rest, x.value, y.value, v, y.store, fuel)
  {
  }

  /** Storing one more term. */
  lemma {:induction false} NextTerm(w: World, at: Site, h: nat, k: byte, count: nat, terms: Args, s: Store, fuel: nat)
    requires terms.MoreArgs? && k < count
    ensures Fill(w, at, h, k, count, terms, s, fuel) ==
            match Eval(w, at, terms.head, s, fuel)
            case Err(x) => Err(x)
            case Ok(x) =>
              match PutIndexed(w, at.scope, PackageHandle(h), Integer(k), x.value, x.store)
              case Err(y) => Err(y)
              case Ok(s') => Fill(w, at, h, k + 1, count, terms.tail, s', fuel)
  {
  }

  /** Taking one more argument. */
  lemma NextArgument(w: World, at: Site, values: seq<Value>, args: Args, s: Store, fuel: nat)
    requires args.MoreArgs?
    ensures Eval(w, at, args.head, s, fuel).Err? ==>
              Prepend(values, EvalArgs(w, at, args, s, fuel)) == Err(Eval(w, at, args.head, s, fuel).error)
    ensures Eval(w, at, args.head, s, fuel).Ok? ==>
              var x := Eval(w, at, args.head, s, fuel).value;
              Prepend(values, EvalArgs(w, at, args, s, fuel))
              == Prepend(values + [x.value], EvalArgs(w, at, args.tail, x.store, fuel))
  {
    hide Eval;
    if Eval(w, at, args.head, s, fuel).Ok? {
      var x := Eval(w, at, args.head, s, fuel).value;
      var more := EvalArgs(w, at, args.tail, x.store, fuel);
      if more.Ok? { assert values + ([x.value] + more.value.values) == values + [x.value] + more.value.values; }
    }
  }

  // ---- Static values ----

  /** The code begins with a Buffer, whose size must be evaluated. */
  predicate StaticBuffer(blocks: seq<seq<byte>>, location: Location) {
    match CodeBytes(blocks, location)
    case Some(bytes) => bytes != [] && bytes[0] == 0x11
    case None => false
  }

  /** Any other static value: a constant, or the place of a text or a package. */
  function StaticTerm(blocks: seq<seq<byte>>, width: Width, location: Location): (r: Result<Term>)
    ensures r.Ok? ==> Values.Fits(r.value.value, width)
    ensures r != Err(OutOfFuel)
  {
    match CodeBytes(blocks, location)
    case None => Err(InvalidState)
    case Some(bytes) =>
      if bytes == [] then Err(Truncated)
      else if KindOf(bytes[0]) == ConstantTerm then ConstantAt(bytes, width)
      else match bytes[0]
        case 0x0D =>
          (match LoaderTerms.ZeroPosition(bytes[1..])
           case None => Err(Truncated)
           case Some(n) => Ok(Term(StaticText(Location(location.block, location.offset + 1, n)), 2 + n)))
        case 0x12 =>
          var pkg :- ParsePkg(bytes[1..]);
          Ok(Term(StaticPackage(Location(location.block, location.offset, 1 + pkg.value)), 1 + pkg.value))
        case _ => Err(Unsupported)
  }

  /** A part of some code is found at its own place. */
  lemma {:induction false} PartOfCode(blocks: seq<seq<byte>>, location: Location, code: seq<byte>, from: nat, to: nat)
    requires CodeBytes(blocks, location) == Some(code) && from <= to <= |code|
    ensures CodeBytes(blocks, Location(location.block, location.offset + from, to - from)) == Some(code[from..to])
  {
    var block := blocks[location.block];
    forall k | from <= k < to ensures block[location.offset + k] == code[k] {
      assert block[location.offset..location.End()][k] == code[k];
    }
    assert block[location.offset + from..location.offset + to] == code[from..to];
  }

  /** A static text is kept as the place of its characters, without the prefix and the zero. */
  lemma {:induction false} StaticTextPlace(blocks: seq<seq<byte>>, width: Width, location: Location, chars: seq<byte>,
                                           rest: seq<byte>)
    requires 0 !in chars && CodeBytes(blocks, location) == Some([0x0D] + (chars + ([0x00] + rest)))
    ensures var t := StaticTerm(blocks, width, location);
            && t.Ok? && t.value.consumed == 2 + |chars| && t.value.value.StaticText?
            && CodeBytes(blocks, t.value.value.location) == Some(chars)
  {
    hide LoaderTerms.ZeroPosition;
    var bytes := [0x0D] + (chars + ([0x00] + rest));
    var tail := bytes[1..];
    assert tail[|chars|] == 0 && forall k :: 0 <= k < |chars| ==> tail[k] == chars[k];
    assert bytes[1..1 + |chars|] == chars;
    PartOfCode(blocks, location, bytes, 1, 1 + |chars|);
  }

  /** A static package is kept as the place of the whole package, up to its own end and no further. */
  lemma {:induction false} StaticPackagePlace(blocks: seq<seq<byte>>, width: Width, location: Location, size: nat,
                                              payload: seq<byte>, rest: seq<byte>)
    requires PackageFits(size, payload) && CodeBytes(blocks, location) == Some([0x12] + (SpellPackage(size, payload) + rest))
    ensures var t := StaticTerm(blocks, width, location);
            && t.Ok? && t.value.consumed == 1 + size + |payload| && t.value.value.StaticPackage?
            && CodeBytes(blocks, t.value.value.location) == Some([0x12] + SpellPackage(size, payload))
  {
    hide ParsePkg, EncodePkg;
    PackageSize(size, payload);
    var bytes, own := [0x12] + (SpellPackage(size, payload) + rest), [0x12] + SpellPackage(size, payload);
    assert bytes[1..] == EncodePkg(size + |payload|, size) + (payload + rest);
    PkgRoundTrip(size + |payload|, size, payload + rest);
    assert bytes[0..|own|] == own;
    PartOfCode(blocks, location, bytes, 0, |own|);
  }

  /** The place of what is left of a package from `cursor` up to its end. */
  function Inside(location: Location, cursor: nat, end: nat): Location
    requires cursor <= end
  {
    Location(location.block, location.offset + cursor, end - cursor)
  }

  /** The element `n` places after the one at `cursor`. */
  function StaticElement(blocks: seq<seq<byte>>, width: Width, location: Location, end: nat, cursor: nat, n: nat)
    : Result<Value>
    decreases n
  {
    if cursor > end then Err(Fault)
    else
      var t :- StaticTerm(blocks, width, Inside(location, cursor, end));
      if n == 0 then Ok(t.value) else StaticElement(blocks, width, location, end, cursor + t.consumed, n - 1)
  }

  /** None of the elements up to that one is a Buffer. */
  predicate NoBuffers(blocks: seq<seq<byte>>, width: Width, location: Location, end: nat, cursor: nat, n: nat)
    decreases n
  {
    cursor <= end ==>
      && !StaticBuffer(blocks, Inside(location, cursor, end))
      && var t := StaticTerm(blocks, width, Inside(location, cursor, end));
         t.Ok? && n > 0 ==> NoBuffers(blocks, width, location, end, cursor + t.value.consumed, n - 1)
  }

  /** The constants one after the other. */
  function Literals(values: seq<seq<byte>>): seq<byte>
    requires forall i :: 0 <= i < |values| ==> LiteralSize(|values[i]|)
  {
    if values == [] then [] else [LiteralByte(|values[0]|)] + values[0] + Literals(values[1..])
  }

  /** Element `n` of constants that lie one after the other is constant `n`. */
  lemma {:induction false} ElementOfConstants(blocks: seq<seq<byte>>, width: Width, location: Location, end: nat, cursor: nat,
                                              values: seq<seq<byte>>, n: nat)
    requires (forall i :: 0 <= i < |values| ==> LiteralSize(|values[i]|)) && n < |values|
    requires cursor <= end && CodeBytes(blocks, Inside(location, cursor, end)) == Some(Literals(values))
    ensures StaticElement(blocks, width, location, end, cursor, n) == Ok(Reduced(LittleEndian(values[n]), width))
    ensures NoBuffers(blocks, width, location, end, cursor, n)
    decreases n
  {
    hide LittleEndian, CodeBytes, StaticTerm, StaticBuffer, Literals;
    FirstConstant(blocks, width, Inside(location, cursor, end), values);
    if n > 0 {
      NextConstants(blocks, location, end, cursor, values);
      ElementOfConstants(blocks, width, location, end, cursor + 1 + |values[0]|, values[1..], n - 1);
    }
  }

  lemma FirstConstant(blocks: seq<seq<byte>>, width: Width, location: Location, values: seq<seq<byte>>)
    requires (forall i :: 0 <= i < |values| ==> LiteralSize(|values[i]|)) && values != []
    requires CodeBytes(blocks, location) == Some(Literals(values))
    ensures StaticTerm(blocks, width, location) == Ok(Term(Reduced(LittleEndian(values[0]), width), 1 + |values[0]|))
    ensures !StaticBuffer(blocks, location)
  {
    hide LittleEndian, CodeBytes;
    var bytes := Literals(values);
    LoaderTerms.LittleEndianWord(values[0]);
    assert bytes[0] == LiteralByte(|values[0]|);
    assert bytes[1..1 + |values[0]|] == values[0];
  }

  lemma NextConstants(blocks: seq<seq<byte>>, location: Location, end: nat, cursor: nat, values: seq<seq<byte>>)
    requires (forall i :: 0 <= i < |values| ==> LiteralSize(|values[i]|)) && values != []
    requires cursor <= end && CodeBytes(blocks, Inside(location, cursor, end)) == Some(Literals(values))
    ensures var next := cursor + 1 + |values[0]|;
            next <= end && CodeBytes(blocks, Inside(location, next, end)) == Some(Literals(values[1..]))
  {
    var bytes, k := Literals(values), 1 + |values[0]|;
    assert bytes[k..] == Literals(values[1..]);
    assert blocks[location.block][location.offset + cursor + k..location.offset + end] == bytes[k..];
  }

  /** The element of a static package, its place being known. */
  function ElementOf(blocks: seq<seq<byte>>, width: Width, location: Location, index: byte): Result<Value> {
    match CodeBytes(blocks, location)
    case None => Err(InvalidState)
    case Some(code) =>
      var x :- CountedAt(code);
      if index >= code[x.start] then Err(InvalidState)
      else StaticElement(blocks, width, location, x.end, x.start + 1, index)
  }

  /** None of the package's elements up to this one is a Buffer. */
  predicate PlainUpTo(blocks: seq<seq<byte>>, width: Width, location: Location, index: byte) {
    match CodeBytes(blocks, location)
    case None => true
    case Some(code) =>
      match CountedAt(code)
      case Err(_) => true
      case Ok(x) => NoBuffers(blocks, width, location, x.end, x.start + 1, index)
  }

  /** Indexing a package of constants gives the constant at that place, cut to the width. */
  lemma {:induction false} ConstantPackageElement(blocks: seq<seq<byte>>, width: Width, location: Location, size: nat,
                                                  values: seq<seq<byte>>, index: byte)
    requires (forall i :: 0 <= i < |values| ==> LiteralSize(|values[i]|)) && index < |values| <= U8_MAX
    requires PackageFits(size, [|values|] + Literals(values))
    requires CodeBytes(blocks, location) == Some([0x12] + SpellPackage(size, [|values|] + Literals(values)))
    ensures ElementOf(blocks, width, location, index) == Ok(Reduced(LittleEndian(values[index]), width))
    ensures PlainUpTo(blocks, width, location, index)
  {
    hide LittleEndian, ParsePkg, EncodePkg, CodeBytes, Literals;
    var payload: seq<byte> := [|values|] + Literals(values);
    var code := [0x12] + SpellPackage(size, payload);
    var end := 1 + size + |payload|;
    PackageSize(size, payload);
    assert code[1..] == EncodePkg(size + |payload|, size) + payload;
    PkgRoundTrip(size + |payload|, size, payload);
    assert code[1 + size..] == payload;
    assert code[1 + size] == payload[0];
    assert code[2 + size..] == Literals(values);
    TailOfCode(blocks, location, code, 2 + size);
    ElementOfConstants(blocks, width, location, end, 2 + size, values, index);
  }

  lemma TailOfCode(blocks: seq<seq<byte>>, location: Location, code: seq<byte>, from: nat)
    requires CodeBytes(blocks, location) == Some(code) && from <= |code|
    ensures CodeBytes(blocks, Inside(location, from, |code|)) == Some(code[from..])
  {
    PartOfCode(blocks, location, code, from, |code|);
  }
}
