/** The condition of an If in a definition block is evaluated while the namespace is still being built, by a
    second, smaller evaluator. It computes in 64 bits whatever the integer width, so it need not choose the
    branch that the evaluator proper would. */
module LoadTime {
  import opened Wrappers
  import opened Bits
  import opened Names
  import opened Namespace
  import opened Values
  import opened Programs
  import opened Evaluator
  import LoaderTerms
  import Loader

  /** The expressions a load-time condition may use. */
  predicate Conditional(w: World, scope: Path, e: Expr) {
    match e
    case Zero => true
    case One => true
    case Ones => true
    case Literal(bytes) => LiteralSize(|bytes|)
    case Named(n) => NamesInteger(w, scope, n)
    case Not(v) => Conditional(w, scope, v)
    case Compare(_, l, r) => Conditional(w, scope, l) && Conditional(w, scope, r)
    case _ => false
  }

  /** What the condition means in 64-bit words over the declared values. */
  function Value64(w: World, scope: Path, e: Expr): u64
    requires Conditional(w, scope, e) && ExprOk(w, scope, e)
  {
    match e
    case Zero => 0
    case One => 1
    case Ones => U64_MAX
    case Literal(bytes) => LoaderTerms.LittleEndianWord(bytes); LittleEndian(bytes)
    case Named(n) => RecordNamed(w, scope, n).value.payload.value
    case Not(v) => if Value64(w, scope, v) == 0 then 1 else 0
    case Compare(relation, l, r) => if relation.Test(Value64(w, scope, l), Value64(w, scope, r)) then 1 else 0
  }

  /** The loader reads the expression at the front of the bytes for its value. */
  ghost predicate Computes(w: World, scope: Path, e: Expr, bytes: seq<byte>)
    requires Conditional(w, scope, e) && ExprOk(w, scope, e)
  {
    LoaderTerms.LoadTimeValue(w.records, bytes, scope)
    == Ok(LoaderTerms.Valued(Value64(w, scope, e), |Spell(w, scope, e)|))
  }

  /** The loader computes that value from the bytes that spell the condition. */
  lemma {:induction false} LoaderComputes(w: World, scope: Path, e: Expr, bytes: seq<byte>)
    requires Conditional(w, scope, e) && ExprOk(w, scope, e) && Spell(w, scope, e) <= bytes
    ensures Computes(w, scope, e, bytes)
  {
    hide Spell, LoaderTerms.LoadTimeValue, Value64;
    match e {
      case Named(n) => NameComputes(w, scope, e, bytes);
      case Not(v) =>
        UnaryParts(w, scope, e, bytes);
        LoaderComputes(w, scope, v, bytes[1..]);
        NotComputes(w, scope, e, bytes);
      case Compare(_, l, r) =>
        CompareParts(w, scope, e, bytes);
        LoaderComputes(w, scope, l, bytes[1..]);
        LoaderComputes(w, scope, r, bytes[1 + |Spell(w, scope, l)|..]);
        CompareComputes(w, scope, e, bytes);
      case _ => ConstantComputes(w, scope, e, bytes);
    }
  }

  lemma NotComputes(w: World, scope: Path, e: Expr, bytes: seq<byte>)
    requires e.Not? && Conditional(w, scope, e) && ExprOk(w, scope, e) && Spell(w, scope, e) <= bytes
    requires Computes(w, scope, e.value, bytes[1..])
    ensures Computes(w, scope, e, bytes)
  {
    hide Spell, ExprOk, ParseName, Lookup, Paths, Find, LoaderTerms.Constant;
    UnaryParts(w, scope, e, bytes);
    FirstByte(w, scope, e, bytes);
  }

  lemma CompareComputes(w: World, scope: Path, e: Expr, bytes: seq<byte>)
    requires e.Compare? && Conditional(w, scope, e) && ExprOk(w, scope, e) && Spell(w, scope, e) <= bytes
    requires Computes(w, scope, e.left, bytes[1..])
    requires 1 + |Spell(w, scope, e.left)| <= |bytes|
    requires Computes(w, scope, e.right, bytes[1 + |Spell(w, scope, e.left)|..])
    ensures Computes(w, scope, e, bytes)
  {
    hide Spell, ExprOk, ParseName, Lookup, Paths, Find, LoaderTerms.Constant;
    CompareParts(w, scope, e, bytes);
    FirstByte(w, scope, e, bytes);
  }

  lemma FirstByte(w: World, scope: Path, e: Expr, bytes: seq<byte>)
    requires (e.Not? || e.Compare?) && ExprOk(w, scope, e) && Spell(w, scope, e) <= bytes
    ensures bytes != [] && bytes[0] == LeadOf(e)
  {
    hide Spell;
    SpellLead(w, scope, e);
  }

  lemma NameComputes(w: World, scope: Path, e: Expr, bytes: seq<byte>)
    requires e.Named? && Conditional(w, scope, e) && ExprOk(w, scope, e) && Spell(w, scope, e) <= bytes
    ensures Computes(w, scope, e, bytes)
  {
    hide ParseName, Lookup, Paths, Find, SpellName;
    NamedParts(w, scope, e, bytes);
    NameReadBack(e.name, bytes);
  }

  lemma ConstantComputes(w: World, scope: Path, e: Expr, bytes: seq<byte>)
    requires KindOfExpr(e) == ConstantTerm && Conditional(w, scope, e) && ExprOk(w, scope, e) && Spell(w, scope, e) <= bytes
    ensures Computes(w, scope, e, bytes)
  {
    if e.Literal? { assert bytes[1..1 + |e.bytes|] == Spell(w, scope, e)[1..]; }
  }

  // ---- Term arguments that are stepped over ----

  /** The expressions that can stand where the loader only steps over a term argument. */
  predicate Steppable(e: Expr) {
    match e
    case Zero => true
    case One => true
    case Ones => true
    case Literal(_) => true
    case Chars(_) => true
    case Named(_) => true
    case Assign(v, t) => Steppable(v) && !t.IntoIndex?
    case Binary(op, l, r, t) => op != Multiply && Steppable(l) && Steppable(r) && !t.IntoIndex?
    case Compare(_, l, r) => Steppable(l) && Steppable(r)
    case Update(_, t) => !t.IntoIndex?
    case Invert(v) => Steppable(v)
    case Not(v) => Steppable(v)
    case _ => false
  }

  /** The loader takes exactly the bytes of the expression, and knows its value exactly when it is a constant. */
  ghost predicate SteppedOver(w: World, scope: Path, e: Expr, bytes: seq<byte>)
    requires ExprOk(w, scope, e)
  {
    var arg := LoaderTerms.TermArg(bytes);
    && arg.Ok? && arg.value.consumed == |Spell(w, scope, e)|
    && match e
       case Zero => arg.value.value == Some(0)
       case One => arg.value.value == Some(1)
       case Ones => arg.value.value == Some(U64_MAX)
       case Literal(raw) => arg.value.value.Some? && arg.value.value.value == LittleEndian(raw)
       case _ => arg.value.value.None?
  }

  lemma {:induction false} LoaderStepsOver(w: World, scope: Path, e: Expr, bytes: seq<byte>)
    requires Steppable(e) && ExprOk(w, scope, e) && Spell(w, scope, e) <= bytes
    ensures SteppedOver(w, scope, e, bytes)
    decreases e
  {
    hide Spell, ExprOk, SpellTarget, TargetOk, SteppedOver;
    match e {
      case Assign(v, t) =>
        AssignParts(w, scope, e, bytes);
        LoaderStepsOver(w, scope, v, bytes[1..]);
        AssignStepped(w, scope, e, bytes);
      case Binary(_, l, r, _) =>
        BinaryParts(w, scope, e, bytes);
        LoaderStepsOver(w, scope, l, bytes[1..]);
        LoaderStepsOver(w, scope, r, bytes[1 + |Spell(w, scope, l)|..]);
        BinaryStepped(w, scope, e, bytes);
      case Compare(_, l, r) =>
        CompareParts(w, scope, e, bytes);
        LoaderStepsOver(w, scope, l, bytes[1..]);
        LoaderStepsOver(w, scope, r, bytes[1 + |Spell(w, scope, l)|..]);
        CompareStepped(w, scope, e, bytes);
      case Update(_, t) =>
        UpdateStepped(w, scope, e, bytes);
      case Invert(v) =>
        UnaryParts(w, scope, e, bytes);
        LoaderStepsOver(w, scope, v, bytes[1..]);
        UnaryStepped(w, scope, e, bytes);
      case Not(v) =>
        UnaryParts(w, scope, e, bytes);
        LoaderStepsOver(w, scope, v, bytes[1..]);
        UnaryStepped(w, scope, e, bytes);
      case _ => LeafStepped(w, scope, e, bytes);
    }
  }

  lemma {:induction false} LeafStepped(w: World, scope: Path, e: Expr, bytes: seq<byte>)
    requires e.Zero? || e.One? || e.Ones? || e.Literal? || e.Chars? || e.Named?
    requires ExprOk(w, scope, e) && Spell(w, scope, e) <= bytes
    ensures SteppedOver(w, scope, e, bytes)
  {
    hide ParseName, SpellName, LittleEndian, RecordNamed, LoaderTerms.ZeroPosition;
    match e {
      case Named(n) =>
        NameReadBack(n, bytes);
      case Chars(chars) =>
        Chop([0x0D], chars + [0x00], bytes);
        var rest := bytes[1..];
        assert rest[..|chars| + 1] == chars + [0x00];
        assert rest[|chars|] == 0 && forall k :: 0 <= k < |chars| ==> rest[k] == chars[k];
      case Literal(raw) =>
        assert bytes[0] == LiteralByte(|raw|);
        assert bytes[1..1 + |raw|] == Spell(w, scope, e)[1..];
      case _ =>
    }
  }

  /** A target takes exactly its own bytes. */
  lemma {:induction false} TargetStepped(w: World, scope: Path, t: Target, bytes: seq<byte>)
    requires !t.IntoIndex? && TargetOk(w, scope, t) && SpellTarget(w, scope, t) <= bytes
    ensures LoaderTerms.TargetLength(bytes) == Ok(|SpellTarget(w, scope, t)|)
  {
    hide ParseName, SpellName;
    if t.IntoName? { NameReadBack(t.name, bytes); }
  }

  lemma {:induction false} LeadIs(w: World, scope: Path, e: Expr, bytes: seq<byte>)
    requires e.Assign? || e.Binary? || e.Compare? || e.Update? || e.Invert? || e.Not?
    requires ExprOk(w, scope, e) && Spell(w, scope, e) <= bytes
    ensures bytes != [] && bytes[0] == match e
                                       case Assign(_, _) => 0x70
                                       case Binary(op, _, _, _) => OperatorByte(op)
                                       case Compare(relation, _, _) => RelationByte(relation)
                                       case Update(up, _) => if up then 0x75 else 0x76
                                       case Invert(_) => 0x80
                                       case _ => 0x92
  {
    hide ExprOk, SpellTarget, TargetOk;
  }

  lemma {:induction false} AssignStepped(w: World, scope: Path, e: Expr, bytes: seq<byte>)
    requires e.Assign? && !e.target.IntoIndex? && ExprOk(w, scope, e) && ExprOk(w, scope, e.value)
    requires Spell(w, scope, e) <= bytes && bytes != [] && SteppedOver(w, scope, e.value, bytes[1..])
    ensures SteppedOver(w, scope, e, bytes)
  {
    hide Spell, ExprOk, SpellTarget, TargetOk, ParseName, LoaderTerms.TargetLength;
    AssignParts(w, scope, e, bytes);
    LeadIs(w, scope, e, bytes);
    TargetStepped(w, scope, e.target, bytes[1 + |Spell(w, scope, e.value)|..]);
    assert LoaderTerms.TermArg(bytes) == LoaderTerms.Store(bytes);
  }

  lemma {:induction false} BinaryStepped(w: World, scope: Path, e: Expr, bytes: seq<byte>)
    requires e.Binary? && e.op != Multiply && !e.target.IntoIndex? && ExprOk(w, scope, e)
    requires ExprOk(w, scope, e.left) && ExprOk(w, scope, e.right) && Spell(w, scope, e) <= bytes
    requires 1 + |Spell(w, scope, e.left)| <= |bytes| && SteppedOver(w, scope, e.left, bytes[1..])
    requires SteppedOver(w, scope, e.right, bytes[1 + |Spell(w, scope, e.left)|..])
    ensures SteppedOver(w, scope, e, bytes)
  {
    hide Spell, ExprOk, SpellTarget, TargetOk, ParseName, LoaderTerms.TargetLength;
    BinaryParts(w, scope, e, bytes);
    LeadIs(w, scope, e, bytes);
    TargetStepped(w, scope, e.target, bytes[1 + |Spell(w, scope, e.left)| + |Spell(w, scope, e.right)|..]);
    assert LoaderTerms.TermArg(bytes) == LoaderTerms.Binary(bytes, true);
  }

  lemma {:induction false} CompareStepped(w: World, scope: Path, e: Expr, bytes: seq<byte>)
    requires e.Compare? && ExprOk(w, scope, e)
    requires ExprOk(w, scope, e.left) && ExprOk(w, scope, e.right) && Spell(w, scope, e) <= bytes
    requires 1 + |Spell(w, scope, e.left)| <= |bytes| && SteppedOver(w, scope, e.left, bytes[1..])
    requires SteppedOver(w, scope, e.right, bytes[1 + |Spell(w, scope, e.left)|..])
    ensures SteppedOver(w, scope, e, bytes)
  {
    hide Spell, ExprOk, ParseName;
    CompareParts(w, scope, e, bytes);
    LeadIs(w, scope, e, bytes);
    assert LoaderTerms.TermArg(bytes) == LoaderTerms.Binary(bytes, false);
  }

  lemma {:induction false} UpdateStepped(w: World, scope: Path, e: Expr, bytes: seq<byte>)
    requires e.Update? && !e.target.IntoIndex? && ExprOk(w, scope, e) && Spell(w, scope, e) <= bytes
    ensures SteppedOver(w, scope, e, bytes)
  {
    hide Spell, ExprOk, SpellTarget, TargetOk, ParseName, LoaderTerms.TargetLength;
    UpdateParts(w, scope, e, bytes);
    LeadIs(w, scope, e, bytes);
    TargetStepped(w, scope, e.target, bytes[1..]);
  }

  lemma {:induction false} UnaryStepped(w: World, scope: Path, e: Expr, bytes: seq<byte>)
    requires (e.Invert? || e.Not?) && ExprOk(w, scope, e) && ExprOk(w, scope, e.value) && Spell(w, scope, e) <= bytes
    requires bytes != [] && SteppedOver(w, scope, e.value, bytes[1..])
    ensures SteppedOver(w, scope, e, bytes)
  {
    hide Spell, ExprOk, ParseName;
    UnaryParts(w, scope, e, bytes);
    LeadIs(w, scope, e, bytes);
    assert LoaderTerms.TermArg(bytes) == LoaderTerms.Unary(bytes);
  }

  /** A declared text, buffer or package takes exactly its own bytes too. */
  lemma {:induction false} DataSteppedOver(w: World, scope: Path, init: Init, bytes: seq<byte>)
    requires InitOk(w, scope, init) && SpellInit(w, scope, init) <= bytes
    ensures LoaderTerms.TermArg(bytes) == Ok(LoaderTerms.Arg(None, |SpellInit(w, scope, init)|))
  {
    hide Spell, SpellArgs, ParsePkg, ExprOk, ParseName;
    match init {
      case TextInit(chars) =>
        TextSpelled(w, scope, chars);
        LeafStepped(w, scope, Chars(chars), bytes);
      case BufferInit(_, _, _) => BufferParts(w, scope, init, bytes);
      case PackageInit(_, _, _) => TermsParts(w, scope, init, bytes);
    }
  }

  lemma {:induction false} TextSpelled(w: World, scope: Path, chars: seq<byte>)
    requires 0 !in chars
    ensures ExprOk(w, scope, Chars(chars)) && Spell(w, scope, Chars(chars)) == [0x0D] + (chars + [0x00])
  {
  }

  // ---- The two evaluators ----

  /** Every constant and every declared value the condition mentions fits the integer width. */
  predicate LeavesFit(w: World, scope: Path, e: Expr)
    requires Conditional(w, scope, e) && ExprOk(w, scope, e)
  {
    match e
    case Not(v) => LeavesFit(w, scope, v)
    case Compare(_, l, r) => LeavesFit(w, scope, l) && LeavesFit(w, scope, r)
    case _ => Value64(w, scope, e) < w.width.Modulus()
  }

  /** No name the condition mentions has been written, or bound to something else inside a body. */
  predicate Unwritten(w: World, scope: Path, e: Expr, s: Store)
    requires Conditional(w, scope, e) && ExprOk(w, scope, e)
  {
    match e
    case Named(n) =>
      && (s.BindingFor(n).Some? ==> s.BindingFor(n).value.BoundRegion?)
      && s.Written(RecordNamed(w, scope, n).value.id).None?
    case Not(v) => Unwritten(w, scope, v, s)
    case Compare(_, l, r) => Unwritten(w, scope, l, s) && Unwritten(w, scope, r, s)
    case _ => true
  }

  /** What the condition means when every constant and every declared value is cut to the integer width. */
  function ValueCut(w: World, scope: Path, e: Expr): u64
    requires Conditional(w, scope, e) && ExprOk(w, scope, e)
  {
    if e.Not? then
      if ValueCut(w, scope, e.value) == 0 then 1 else 0
    else if e.Compare? then
      if e.relation.Test(ValueCut(w, scope, e.left), ValueCut(w, scope, e.right)) then 1 else 0
    else
      CutFits(Value64(w, scope, e), w.width);
      Value64(w, scope, e) % w.width.Modulus()
  }

  lemma CutFits(x: u64, width: Width)
    ensures x % width.Modulus() <= x
  {
  }

  lemma LeafIsCut(w: World, at: Site, e: Expr, s: Store, fuel: nat)
    requires Conditional(w, at.scope, e) && ExprOk(w, at.scope, e) && Unwritten(w, at.scope, e, s)
    requires !e.Not? && !e.Compare?
    ensures Eval(w, at, e, s, fuel) == Ok(Step(Integer(ValueCut(w, at.scope, e)), s))
  {
  }

  /** The evaluator gives every load-time condition the value computed from the cut leaves. */
  lemma {:induction false} EvaluatorComputes(w: World, at: Site, e: Expr, s: Store, fuel: nat)
    requires Conditional(w, at.scope, e) && ExprOk(w, at.scope, e) && Unwritten(w, at.scope, e, s)
    ensures Eval(w, at, e, s, fuel) == Ok(Step(Integer(ValueCut(w, at.scope, e)), s))
  {
    hide RecordNamed, NameOk, Eval, Value64, SizeOfValue, PutAt;
    match e {
      case Not(v) =>
        EvaluatorComputes(w, at, v, s, fuel);
        OneMeaning(w, at, e, s, fuel);
      case Compare(_, l, r) =>
        EvaluatorComputes(w, at, l, s, fuel);
        EvaluatorComputes(w, at, r, s, fuel);
        PairMeaning(w, at, e, s, fuel);
      case _ => LeafIsCut(w, at, e, s, fuel);
    }
  }

  /** From the same bytes, the loader chooses the branch the evaluator would if and only if cutting the
      leaves to the width does not change whether the condition is zero. */
  lemma SameBranchIff(w: World, at: Site, e: Expr, s: Store, fuel: nat, bytes: seq<byte>)
    requires Conditional(w, at.scope, e) && ExprOk(w, at.scope, e) && Unwritten(w, at.scope, e, s)
    requires Spell(w, at.scope, e) <= bytes
    ensures var loaded, run := LoaderTerms.LoadTimeValue(w.records, bytes, at.scope), Eval(w, at, e, s, fuel);
            && loaded.Ok? && run.Ok?
            && ((loaded.value.value != 0 <==> AsLogic(run.value.value))
                <==> (Value64(w, at.scope, e) == 0 <==> ValueCut(w, at.scope, e) == 0))
  {
    hide Spell, Eval, Value64, ValueCut, LoaderTerms.LoadTimeValue, ExprOk, Conditional, Unwritten;
    LoaderComputes(w, at.scope, e, bytes);
    EvaluatorComputes(w, at, e, s, fuel);
  }

  /** Where the leaves fit, cutting them changes nothing. In a 64-bit namespace every leaf fits. */
  lemma {:induction false} FittingLeavesUncut(w: World, scope: Path, e: Expr)
    requires Conditional(w, scope, e) && ExprOk(w, scope, e)
    ensures LeavesFit(w, scope, e) ==> ValueCut(w, scope, e) == Value64(w, scope, e)
    ensures w.width == Bits64 ==> LeavesFit(w, scope, e)
  {
    hide RecordNamed, NameOk;
    match e {
      case Not(v) => FittingLeavesUncut(w, scope, v);
      case Compare(_, l, r) =>
        FittingLeavesUncut(w, scope, l);
        FittingLeavesUncut(w, scope, r);
      case _ =>
    }
  }

  /** So the two evaluators agree on every condition whose leaves fit the width. */
  lemma EvaluatorsAgree(w: World, at: Site, e: Expr, s: Store, fuel: nat)
    requires Conditional(w, at.scope, e) && ExprOk(w, at.scope, e) && Unwritten(w, at.scope, e, s)
    requires LeavesFit(w, at.scope, e)
    ensures Eval(w, at, e, s, fuel) == Ok(Step(Integer(Value64(w, at.scope, e)), s))
  {
    EvaluatorComputes(w, at, e, s, fuel);
    FittingLeavesUncut(w, at.scope, e);
  }

  lemma LeafAgreesIffFits(w: World, at: Site, e: Expr, s: Store, fuel: nat)
    requires Conditional(w, at.scope, e) && ExprOk(w, at.scope, e) && Unwritten(w, at.scope, e, s)
    requires !e.Not? && !e.Compare?
    ensures Eval(w, at, e, s, fuel) == Ok(Step(Integer(Value64(w, at.scope, e)), s))
            <==> Value64(w, at.scope, e) < w.width.Modulus()
  {
    hide Eval, Value64, RecordNamed, NameOk;
    LeafIsCut(w, at, e, s, fuel);
  }

  /** Both evaluators give the condition, and every part of it, the same value. */
  predicate AgreeThroughout(w: World, at: Site, e: Expr, s: Store, fuel: nat)
    requires Conditional(w, at.scope, e) && ExprOk(w, at.scope, e)
    decreases e
  {
    && Eval(w, at, e, s, fuel) == Ok(Step(Integer(Value64(w, at.scope, e)), s))
    && match e
       case Not(v) => AgreeThroughout(w, at, v, s, fuel)
       case Compare(_, l, r) => AgreeThroughout(w, at, l, s, fuel) && AgreeThroughout(w, at, r, s, fuel)
       case _ => true
  }

  /** They agree on a condition and all its parts if and only if its leaves fit the width. */
  lemma {:induction false} AgreeIffLeavesFit(w: World, at: Site, e: Expr, s: Store, fuel: nat)
    requires Conditional(w, at.scope, e) && ExprOk(w, at.scope, e) && Unwritten(w, at.scope, e, s)
    ensures AgreeThroughout(w, at, e, s, fuel) <==> LeavesFit(w, at.scope, e)
  {
    hide Eval, Value64, RecordNamed, NameOk, ValueCut;
    match e {
      case Not(v) => AgreeIffLeavesFit(w, at, v, s, fuel);
      case Compare(_, l, r) =>
        AgreeIffLeavesFit(w, at, l, s, fuel);
        AgreeIffLeavesFit(w, at, r, s, fuel);
      case _ => LeafAgreesIffFits(w, at, e, s, fuel);
    }
    if LeavesFit(w, at.scope, e) { EvaluatorsAgree(w, at, e, s, fuel); }
  }

  /** In a 32-bit namespace they can differ: 2^32 is nonzero to the loader and zero to the evaluator. */
  lemma EvaluatorsDiffer(w: World, at: Site, s: Store, fuel: nat)
    requires w.width == Bits32
    ensures var e := Compare(Equal, Literal([0, 0, 0, 0, 1, 0, 0, 0]), Zero);
            && Conditional(w, at.scope, e) && ExprOk(w, at.scope, e) && Value64(w, at.scope, e) == 0
            && Eval(w, at, e, s, fuel) == Ok(Step(Integer(1), s))
  {
    hide LittleEndian;
    var raw: seq<byte> := [0, 0, 0, 0, 1, 0, 0, 0];
    BigLiteral();
    assert Eval(w, at, Literal(raw), s, fuel) == Ok(Step(Integer(0), s));
  }

  lemma BigLiteral()
    ensures LittleEndian([0, 0, 0, 0, 1, 0, 0, 0]) == 0x1_0000_0000
  {
    assert LittleEndian([1, 0, 0, 0]) == 1 by {
      assert [1, 0, 0, 0][1..] == [0, 0, 0];
      Digits3(0, 0, 0);
    }
    assert [0, 1, 0, 0, 0][1..] == [1, 0, 0, 0];
    assert [0, 0, 1, 0, 0, 0][1..] == [0, 1, 0, 0, 0];
    assert [0, 0, 0, 1, 0, 0, 0][1..] == [0, 0, 1, 0, 0, 0];
    assert [0, 0, 0, 0, 1, 0, 0, 0][1..] == [0, 0, 0, 1, 0, 0, 0];
  }

  /** The bytes of an If, of the Else after it if there is one, and of what follows. */
  ghost predicate SpellsIf(w: World, scope: Path, size: nat, c: Expr, yes: seq<byte>, other: Option<Package>,
                           rest: seq<byte>, bytes: seq<byte>)
    requires ExprOk(w, scope, c)
  {
    && PackageFits(size, Spell(w, scope, c) + yes)
    && (other.Some? ==> PackageFits(other.value.size, other.value.payload))
    && (other.None? && rest != [] ==> rest[0] != 0xA1)
    && bytes == [0xA0] + SpellPackage(size, Spell(w, scope, c) + yes)
                + (if other.Some? then [0xA1] + SpellPackage(other.value.size, other.value.payload) else [])
                + rest
  }

  /** A package payload and the number of bytes its length takes. */
  datatype Package = Package(size: nat, payload: seq<byte>)

  /** The part of the If or Else that is to be read: where it starts, and its bytes. */
  datatype Part = Part(from: nat, code: seq<byte>)

  /** The body when the condition means something other than zero, else the Else if there is one. */
  function Chosen(w: World, scope: Path, size: nat, c: Expr, yes: seq<byte>, other: Option<Package>): Option<Part>
    requires Conditional(w, scope, c) && ExprOk(w, scope, c)
  {
    var from := 1 + size + |Spell(w, scope, c)|;
    if Value64(w, scope, c) != 0 then Some(Part(from, yes))
    else if other.Some? then Some(Part(from + |yes| + 1 + other.value.size, other.value.payload))
    else None
  }

  /** The length of an If and of the Else after it. */
  function IfLength(size: nat, payload: nat, other: Option<Package>): nat {
    1 + size + payload + (if other.Some? then 1 + other.value.size + |other.value.payload| else 0)
  }

  /** A load-time If reads its body exactly when its condition means something other than zero, and its
      Else exactly when it means zero; either way it takes both packages and nothing more. */
  lemma {:induction false} IfReadsItsBranch(plan: Loader.Plan, rs: Records, p: Loader.Place, w: World, size: nat, c: Expr,
                                            yes: seq<byte>, other: Option<Package>, rest: seq<byte>, bytes: seq<byte>)
    requires Loader.Ready(plan, rs, p, bytes) && w.records == rs
    requires Conditional(w, p.scope, c) && ExprOk(w, p.scope, c)
    requires SpellsIf(w, p.scope, size, c, yes, other, rest, bytes)
    ensures |bytes| == IfLength(size, |Spell(w, p.scope, c)| + |yes|, other) + |rest|
    ensures var part := Chosen(w, p.scope, size, c, yes, other);
            var length := IfLength(size, |Spell(w, p.scope, c)| + |yes|, other);
            if part.None? then Loader.IfOp(plan, rs, p, bytes) == Ok(Loader.Loaded(rs, length))
            else
              && Loader.Ready(plan, rs, p.(at := p.at + part.value.from), part.value.code)
              && Loader.IfOp(plan, rs, p, bytes)
                 == match Loader.Walk(plan, rs, p.(at := p.at + part.value.from), part.value.code)
                    case Ok(rs') => Ok(Loader.Loaded(rs', length))
                    case Err(x) => Err(x)
  {
    hide Spell, SpellPackage, ParsePkg, ExprOk, Conditional, Value64, SpellsIf, Loader.Ready;
    hide Loader.Walk, Loader.Sound, Loader.Below, Loader.Shows, LoaderTerms.LoadTimeValue;
    IfLayout(w, p.scope, size, c, yes, other, rest, bytes);
    var n, end := |Spell(w, p.scope, c)|, 1 + size + |Spell(w, p.scope, c)| + |yes|;
    IfRanges(plan, rs, p, bytes, 1 + size + n, end);
    if other.Some? {
      ElseLayout(w, p.scope, size, c, yes, other, rest, bytes);
      IfRanges(plan, rs, p, bytes, end + 1 + other.value.size, |bytes| - |rest|);
    }
  }

  lemma IfRanges(plan: Loader.Plan, rs: Records, p: Loader.Place, bytes: seq<byte>, from: nat, to: nat)
    requires Loader.Ready(plan, rs, p, bytes) && from <= to <= |bytes|
    ensures Loader.Ready(plan, rs, p.(at := p.at + from), bytes[from..to])
  {
    Loader.NestedReady(plan, rs, rs, p, bytes, from, to, p.scope, p.scopeId);
  }

  /** Where the parts of an If lie in its bytes. */
  lemma IfLayout(w: World, scope: Path, size: nat, c: Expr, yes: seq<byte>, other: Option<Package>, rest: seq<byte>,
                 bytes: seq<byte>)
    requires Conditional(w, scope, c) && ExprOk(w, scope, c) && SpellsIf(w, scope, size, c, yes, other, rest, bytes)
    ensures var n := |Spell(w, scope, c)|;
            var end := 1 + size + n + |yes|;
            && end <= |bytes| && ParsePkg(bytes[1..]) == Ok(PkgLength(size + n + |yes|, size))
            && LoaderTerms.LoadTimeValue(w.records, bytes[1 + size..end], scope)
               == Ok(LoaderTerms.Valued(Value64(w, scope, c), n))
            && bytes[1 + size + n..end] == yes
            && (other.None? ==> bytes[end..] == rest && end == |bytes| - |rest|)
            && (other.None? && end < |bytes| ==> bytes[end] != 0xA1)
  {
    hide Spell, ParsePkg, EncodePkg, ExprOk, Conditional, Value64, LoaderTerms.LoadTimeValue;
    var payload := Spell(w, scope, c) + yes;
    var n, end := |Spell(w, scope, c)|, 1 + size + |Spell(w, scope, c)| + |yes|;
    PackageSize(size, payload);
    assert bytes[1..] == EncodePkg(size + |payload|, size) + bytes[1 + size..];
    PkgRoundTrip(size + |payload|, size, bytes[1 + size..]);
    assert bytes[1 + size..end] == payload;
    LoaderComputes(w, scope, c, payload);
    assert bytes[1 + size + n..end] == yes;
    if other.None? { assert bytes[end..] == rest; }
  }

  /** And those of the Else after it. */
  lemma ElseLayout(w: World, scope: Path, size: nat, c: Expr, yes: seq<byte>, other: Option<Package>, rest: seq<byte>,
                   bytes: seq<byte>)
    requires ExprOk(w, scope, c) && SpellsIf(w, scope, size, c, yes, other, rest, bytes) && other.Some?
    ensures var end := 1 + size + |Spell(w, scope, c)| + |yes|;
            var no := other.value;
            var elseEnd := end + 1 + no.size + |no.payload|;
            && end < elseEnd <= |bytes| && elseEnd == |bytes| - |rest| && bytes[end] == 0xA1
            && ParsePkg(bytes[end + 1..]) == Ok(PkgLength(no.size + |no.payload|, no.size))
            && bytes[end + 1 + no.size..elseEnd] == no.payload
  {
    hide Spell, ParsePkg, EncodePkg, ExprOk, SpellPackage;
    var end, no := 1 + size + |Spell(w, scope, c)| + |yes|, other.value;
    PackageSize(size, Spell(w, scope, c) + yes);
    PackageSize(no.size, no.payload);
    ElseAfter([0xA0] + SpellPackage(size, Spell(w, scope, c) + yes), no, rest);
  }

  lemma ElseAfter(front: seq<byte>, no: Package, rest: seq<byte>)
    requires PackageFits(no.size, no.payload)
    ensures var bytes, end := front + ([0xA1] + SpellPackage(no.size, no.payload)) + rest, |front|;
            && |SpellPackage(no.size, no.payload)| == no.size + |no.payload|
            && bytes[end] == 0xA1
            && ParsePkg(bytes[end + 1..]) == Ok(PkgLength(no.size + |no.payload|, no.size))
            && bytes[end + 1 + no.size..end + 1 + no.size + |no.payload|] == no.payload
  {
    hide ParsePkg, EncodePkg;
    var bytes, end := front + ([0xA1] + SpellPackage(no.size, no.payload)) + rest, |front|;
    assert bytes[end + 1..] == EncodePkg(no.size + |no.payload|, no.size) + (no.payload + rest);
    PkgRoundTrip(no.size + |no.payload|, no.size, no.payload + rest);
  }
}
