/** The bound on loop turns, which only the model has: how much of it a program needs does not change what it
    means, and programs without loops need none. */
module ProgramBounds {
  import opened Wrappers
  import opened Names
  import opened Namespace
  import opened Values
  import opened Elements
  import opened Programs

  // ---- The bound on loop turns does not matter once it is large enough ----

  lemma {:induction false} EvalMoreFuel(w: World, at: Site, e: Expr, s: Store, fuel: nat, more: nat)
    requires fuel <= more && Eval(w, at, e, s, fuel) != Err(OutOfFuel)
    ensures Eval(w, at, e, s, more) == Eval(w, at, e, s, fuel)
    decreases MAX_DEPTH - at.depth, e, 0
  {
    hide Store.Clean, Step.Clean, ArgStep.Clean, Flow.Clean, AllUsable, Usable;
    hide PutAt, NamedAt, ValueAt, SizeOfValue, Combined, Divided, Indexed, Compared, BytesOf;
    match e {
      case Assign(v, t) =>
        EvalMoreFuel(w, at, v, s, fuel, more);
        var x := Eval(w, at, v, s, fuel);
        if x.Ok? { PutMoreFuel(w, at, t, x.value.value, x.value.store, fuel, more); }
      case Update(up, t) => UpdateMoreFuel(w, at, e, s, fuel, more);
      case Invert(v) => EvalMoreFuel(w, at, v, s, fuel, more);
      case Not(v) => EvalMoreFuel(w, at, v, s, fuel, more);
      case SizeOf(v) => EvalMoreFuel(w, at, v, s, fuel, more);
      case TypeOf(v) => EvalMoreFuel(w, at, v, s, fuel, more);
      case Deref(v) => EvalMoreFuel(w, at, v, s, fuel, more);
      case Binary(op, l, r, t) =>
        PairMoreFuel(w, at, e, l, r, s, fuel, more);
        var x := Eval(w, at, l, s, fuel);
        var y := if x.Ok? then Eval(w, at, r, x.value.store, fuel) else x;
        if x.Ok? && y.Ok? { CombinedMoreFuel(w, at, op, t, x.value.value, y.value, fuel, more); }
      case Divide(l, r, _, _) =>
        PairMoreFuel(w, at, e, l, r, s, fuel, more);
        var x := Eval(w, at, l, s, fuel);
        var y := if x.Ok? then Eval(w, at, r, x.value.store, fuel) else x;
        if x.Ok? && y.Ok? { DividedMoreFuel(w, at, e, x.value.value, y.value, fuel, more); }
      case Index(l, r, t) =>
        PairMoreFuel(w, at, e, l, r, s, fuel, more);
        var x := Eval(w, at, l, s, fuel);
        var y := if x.Ok? then Eval(w, at, r, x.value.store, fuel) else x;
        if x.Ok? && y.Ok? { IndexedMoreFuel(w, at, t, x.value.value, y.value, fuel, more); }
      case Compare(_, l, r) => PairMoreFuel(w, at, e, l, r, s, fuel, more);
      case Call(n, args) =>
        if at.depth < MAX_DEPTH {
          ArgsMoreFuel(w, at, args, s, fuel, more);
          var given := EvalArgs(w, at, args, s, fuel);
          if given.Ok? { InvokeMoreFuel(w, at, n, given.value.values, given.value.store.shared, fuel, more); }
        }
      case _ =>
    }
  }

  lemma {:induction false} PutMoreFuel(w: World, at: Site, t: Target, v: Value, s: Store, fuel: nat, more: nat)
    requires fuel <= more && PutAt(w, at, t, v, s, fuel) != Err(OutOfFuel)
    ensures PutAt(w, at, t, v, s, more) == PutAt(w, at, t, v, s, fuel)
    decreases MAX_DEPTH - at.depth, t, 0
  {
    hide Store.Clean, Step.Clean, ArgStep.Clean, Flow.Clean, AllUsable, Usable;
    hide Eval, PutNamed, PutIndexed;
    if t.IntoIndex? && s.shared.tables.Some? {
      EvalMoreFuel(w, at, t.base, s, fuel, more);
      var x := Eval(w, at, t.base, s, fuel);
      if x.Ok? {
        EvalMoreFuel(w, at, t.index, x.value.store, fuel, more);
        var y := Eval(w, at, t.index, x.value.store, fuel);
        if y.Ok? { PutMoreFuel(w, at, t.rest, NoValue, y.value.store, fuel, more); }
      }
    }
  }

  lemma {:induction false} UpdateMoreFuel(w: World, at: Site, e: Expr, s: Store, fuel: nat, more: nat)
    requires e.Update? && fuel <= more && Eval(w, at, e, s, fuel) != Err(OutOfFuel)
    ensures Eval(w, at, e, s, more) == Eval(w, at, e, s, fuel)
    decreases MAX_DEPTH - at.depth, e, -1
  {
    hide Store.Clean, Step.Clean, ArgStep.Clean, Flow.Clean, AllUsable, Usable;
    hide PutAt, ValueAt;
    var bad := e.target.IntoName? && !NameOk(e.target.name);
    var x := if bad then Err(InvalidName) else ValueAt(w, at.scope, e.target, s);
    if x.Ok? && x.value.Integer? {
      var v := Reduced(if e.up then x.value.value + 1 else x.value.value - 1, w.width);
      PutMoreFuel(w, at, e.target, v, s, fuel, more);
    }
  }

  lemma {:induction false} CombinedMoreFuel(w: World, at: Site, op: Operator, t: Target, x: Value, y: Step, fuel: nat,
                                            more: nat)
    requires fuel <= more && Combined(w, at, op, t, x, y, fuel) != Err(OutOfFuel)
    ensures Combined(w, at, op, t, x, y, more) == Combined(w, at, op, t, x, y, fuel)
    decreases MAX_DEPTH - at.depth, t, 1
  {
    hide Store.Clean, Step.Clean, ArgStep.Clean, Flow.Clean, AllUsable, Usable;
    hide PutAt, Meaning;
    if x.Integer? && y.value.Integer? {
      PutMoreFuel(w, at, t, Integer(Meaning(op, x.value, y.value.value, w.width)), y.store, fuel, more);
    }
  }

  lemma {:induction false} DividedMoreFuel(w: World, at: Site, e: Expr, x: Value, y: Step, fuel: nat, more: nat)
    requires e.Divide? && fuel <= more && Divided(w, at, e, x, y, fuel) != Err(OutOfFuel)
    ensures Divided(w, at, e, x, y, more) == Divided(w, at, e, x, y, fuel)
    decreases MAX_DEPTH - at.depth, e, -1
  {
    hide Store.Clean, Step.Clean, ArgStep.Clean, Flow.Clean, AllUsable, Usable;
    hide PutAt, QuotientOf, RemainderOf;
    if y.value.Integer? && y.value.value != 0 && x.Integer? {
      var a, b := x.value, y.value.value;
      PutMoreFuel(w, at, e.remainder, RemainderOf(a, b, w.width), y.store, fuel, more);
      var s := PutAt(w, at, e.remainder, RemainderOf(a, b, w.width), y.store, fuel);
      if s.Ok? { PutMoreFuel(w, at, e.quotient, QuotientOf(a, b, w.width), s.value, fuel, more); }
    }
  }

  lemma {:induction false} IndexedMoreFuel(w: World, at: Site, t: Target, base: Value, y: Step, fuel: nat, more: nat)
    requires fuel <= more && Indexed(w, at, t, base, y, fuel) != Err(OutOfFuel)
    ensures Indexed(w, at, t, base, y, more) == Indexed(w, at, t, base, y, fuel)
    decreases MAX_DEPTH - at.depth, t, 1
  {
    hide Store.Clean, Step.Clean, ArgStep.Clean, Flow.Clean, AllUsable, Usable;
    hide PutAt, ElementAt;
    if y.value.Integer? {
      var v := ElementAt(w.width, y.store.shared.tables, base, y.value.value);
      if v.Ok? { PutMoreFuel(w, at, t, v.value, y.store, fuel, more); }
    }
  }

  lemma {:induction false} PairMoreFuel(w: World, at: Site, e: Expr, l: Expr, r: Expr, s: Store, fuel: nat, more: nat)
    requires fuel <= more && l < e && r < e
    requires Eval(w, at, l, s, fuel) != Err(OutOfFuel)
    requires Eval(w, at, l, s, fuel).Ok? ==> Eval(w, at, r, Eval(w, at, l, s, fuel).value.store, fuel) != Err(OutOfFuel)
    ensures Eval(w, at, l, s, more) == Eval(w, at, l, s, fuel)
    ensures Eval(w, at, l, s, fuel).Ok? ==>
              var s' := Eval(w, at, l, s, fuel).value.store;
              Eval(w, at, r, s', more) == Eval(w, at, r, s', fuel)
    decreases MAX_DEPTH - at.depth, e, -1
  {
    hide Store.Clean, Step.Clean, ArgStep.Clean, Flow.Clean, AllUsable, Usable;
    EvalMoreFuel(w, at, l, s, fuel, more);
    if Eval(w, at, l, s, fuel).Ok? { EvalMoreFuel(w, at, r, Eval(w, at, l, s, fuel).value.store, fuel, more); }
  }

  lemma {:induction false} ArgsMoreFuel(w: World, at: Site, args: Args, s: Store, fuel: nat, more: nat)
    requires fuel <= more && EvalArgs(w, at, args, s, fuel) != Err(OutOfFuel)
    ensures EvalArgs(w, at, args, s, more) == EvalArgs(w, at, args, s, fuel)
    decreases MAX_DEPTH - at.depth, args, 0
  {
    hide Store.Clean, Step.Clean, ArgStep.Clean, Flow.Clean, AllUsable, Usable;
    if args.MoreArgs? {
      EvalMoreFuel(w, at, args.head, s, fuel, more);
      var x := Eval(w, at, args.head, s, fuel);
      if x.Ok? { ArgsMoreFuel(w, at, args.tail, x.value.store, fuel, more); }
    }
  }

  lemma {:induction false} InvokeMoreFuel(w: World, at: Site, n: NameRef, values: seq<Value>, shared: Shared,
                                          fuel: nat, more: nat)
    requires fuel <= more && at.depth < MAX_DEPTH && Invoke(w, at, n, values, shared, fuel) != Err(OutOfFuel)
    ensures Invoke(w, at, n, values, shared, more) == Invoke(w, at, n, values, shared, fuel)
    decreases MAX_DEPTH - at.depth - 1
  {
    hide Store.Clean, Step.Clean, ArgStep.Clean, Flow.Clean, AllUsable, Usable;
    hide RecordNamed, FindId, BodyScope, Entry, Execute, Eval;
    if NamesRecord(w, at.scope, n) && |values| <= 7 && IsMethod(RecordNamed(w, at.scope, n).value) {
      var m := RecordNamed(w, at.scope, n).value.payload.info;
      if m.node in w.library && FindId(w.records, m.node).Some? {
        var inner := Site(BodyScope(w.records, m.node), at.depth + 1);
        BlockMoreFuel(w, inner, w.library[m.node], Entry(values, shared), fuel, more);
      }
    }
  }

  lemma {:induction false} BuildMoreFuel(w: World, at: Site, init: Init, s: Store, fuel: nat, more: nat)
    requires fuel <= more && Build(w, at, init, s, fuel) != Err(OutOfFuel)
    ensures Build(w, at, init, s, more) == Build(w, at, init, s, fuel)
    decreases MAX_DEPTH - at.depth, init, 0
  {
    hide Store.Clean, Step.Clean, ArgStep.Clean, Flow.Clean, AllUsable, Usable;
    hide Eval, Fill, NewPackage;
    if s.shared.tables.Some? {
      match init {
        case BufferInit(_, length, _) => EvalMoreFuel(w, at, length, s, fuel, more);
        case PackageInit(_, count, terms) =>
          var m := NewPackage(s.shared.tables.value, count);
          if m.Ok? {
            var s' := s.(shared := s.shared.(tables := Some(m.value.overlay)));
            FillMoreFuel(w, at, m.value.handle, 0, count, terms, s', fuel, more);
          }
        case _ =>
      }
    }
  }

  lemma {:induction false} FillMoreFuel(w: World, at: Site, h: nat, k: nat, count: nat, terms: Args, s: Store, fuel: nat,
                                        more: nat)
    requires fuel <= more && Fill(w, at, h, k, count, terms, s, fuel) != Err(OutOfFuel)
    ensures Fill(w, at, h, k, count, terms, s, more) == Fill(w, at, h, k, count, terms, s, fuel)
    decreases MAX_DEPTH - at.depth, terms, 1
  {
    hide Store.Clean, Step.Clean, ArgStep.Clean, Flow.Clean, AllUsable, Usable;
    hide Eval, PutIndexed;
    if terms.MoreArgs? && k < count {
      EvalMoreFuel(w, at, terms.head, s, fuel, more);
      var x := Eval(w, at, terms.head, s, fuel);
      if x.Ok? {
        var s' := PutIndexed(w, at.scope, PackageHandle(h), Integer(if k <= 0xFF then k else 0xFF), x.value.value,
                             x.value.store);
        if s'.Ok? { FillMoreFuel(w, at, h, k + 1, count, terms.tail, s'.value, fuel, more); }
      }
    }
  }

  lemma {:induction false} StmtMoreFuel(w: World, at: Site, st: Stmt, s: Store, fuel: nat, more: nat)
    requires fuel <= more && ExecuteStmt(w, at, st, s, fuel) != Err(OutOfFuel)
    ensures ExecuteStmt(w, at, st, s, more) == ExecuteStmt(w, at, st, s, fuel)
    decreases MAX_DEPTH - at.depth, st
  {
    hide Store.Clean, Step.Clean, ArgStep.Clean, Flow.Clean, AllUsable, Usable;
    match st {
      case Do(e) => EvalMoreFuel(w, at, e, s, fuel, more);
      case Return(e) => EvalMoreFuel(w, at, e, s, fuel, more);
      case Wait(_, e) => if s.shared.memory.Some? { EvalMoreFuel(w, at, e, s, fuel, more); }
      case Declare(local, init) => if MayBind(w, at.scope, local) { BuildMoreFuel(w, at, init, s, fuel, more); }
      case DeclareRegion(local, _, base, length) =>
        if MayBind(w, at.scope, local) {
          EvalMoreFuel(w, at, base, s, fuel, more);
          var x := Eval(w, at, base, s, fuel);
          if x.Ok? { EvalMoreFuel(w, at, length, x.value.store, fuel, more); }
        }
      case Signal(device, e) =>
        if s.shared.memory.Some? && NamesRecord(w, at.scope, device) { EvalMoreFuel(w, at, e, s, fuel, more); }
      case If(_, c, yes) =>
        EvalMoreFuel(w, at, c, s, fuel, more);
        var x := Eval(w, at, c, s, fuel);
        if x.Ok? && AsLogic(x.value.value) { BlockMoreFuel(w, at, yes, x.value.store, fuel, more); }
      case IfElse(_, c, yes, _, no) =>
        EvalMoreFuel(w, at, c, s, fuel, more);
        var x := Eval(w, at, c, s, fuel);
        if x.Ok? { BlockMoreFuel(w, at, if AsLogic(x.value.value) then yes else no, x.value.store, fuel, more); }
      case While(_, _, _) => TurnsMoreFuel(w, at, st, s, fuel, more, fuel, more);
      case _ =>
    }
  }

  lemma {:induction false} TurnsMoreFuel(w: World, at: Site, st: Stmt, s: Store, fuel: nat, more: nat, turns: nat,
                                         limit: nat)
    requires st.While? && fuel <= more && turns <= limit && Turns(w, at, st, s, fuel, turns) != Err(OutOfFuel)
    ensures Turns(w, at, st, s, more, limit) == Turns(w, at, st, s, fuel, turns)
    decreases MAX_DEPTH - at.depth, st, turns
  {
    hide Store.Clean, Step.Clean, ArgStep.Clean, Flow.Clean, AllUsable, Usable;
    EvalMoreFuel(w, at, st.condition, s, fuel, more);
    var x := Eval(w, at, st.condition, s, fuel);
    if x.Ok? && AsLogic(x.value.value) {
      BlockMoreFuel(w, at, st.body, x.value.store, fuel, more);
      var f := Execute(w, at, st.body, x.value.store, fuel);
      if f.Ok? && f.value.control.Continue? { TurnsMoreFuel(w, at, st, f.value.store, fuel, more, turns - 1, limit - 1); }
    }
  }

  /** A body that finishes within some bound finishes the same way within any larger one: the meaning of
      a program that terminates does not depend on the bound. */
  lemma {:induction false} BlockMoreFuel(w: World, at: Site, b: Block, s: Store, fuel: nat, more: nat)
    requires fuel <= more && Execute(w, at, b, s, fuel) != Err(OutOfFuel)
    ensures Execute(w, at, b, s, more) == Execute(w, at, b, s, fuel)
    decreases MAX_DEPTH - at.depth, b
  {
    hide Store.Clean, Step.Clean, ArgStep.Clean, Flow.Clean, AllUsable, Usable;
    if b.Then? {
      StmtMoreFuel(w, at, b.first, s, fuel, more);
      var f := ExecuteStmt(w, at, b.first, s, fuel);
      if f.Ok? && f.value.control.Continue? { BlockMoreFuel(w, at, b.rest, f.value.store, fuel, more); }
    }
  }

  // ---- Loop-free programs never meet the bound ----

  predicate LoopFree(b: Block) { b.Then? ==> LoopFreeStmt(b.first) && LoopFree(b.rest) }

  predicate LoopFreeStmt(st: Stmt) {
    match st
    case If(_, _, yes) => LoopFree(yes)
    case IfElse(_, _, yes, _, no) => LoopFree(yes) && LoopFree(no)
    case While(_, _, _) => false
    case _ => true
  }

  predicate LoopFreeLibrary(w: World) {
    forall node :: node in w.library ==> LoopFree(w.library[node])
  }

  lemma {:induction false} ExprFinishes(w: World, at: Site, e: Expr, s: Store, fuel: nat)
    requires LoopFreeLibrary(w)
    ensures Eval(w, at, e, s, fuel) != Err(OutOfFuel)
    decreases MAX_DEPTH - at.depth, e, 0
  {
    hide Store.Clean, Step.Clean, ArgStep.Clean, Flow.Clean, AllUsable, Usable;
    hide PutAt, NamedAt, ValueAt, SizeOfValue, Combined, Divided, Indexed, Compared, BytesOf;
    match e {
      case Assign(v, t) =>
        ExprFinishes(w, at, v, s, fuel);
        var x := Eval(w, at, v, s, fuel);
        if x.Ok? { PutFinishes(w, at, t, x.value.value, x.value.store, fuel); }
      case Update(up, t) => UpdateFinishes(w, at, e, s, fuel);
      case Invert(v) => ExprFinishes(w, at, v, s, fuel);
      case Not(v) => ExprFinishes(w, at, v, s, fuel);
      case SizeOf(v) => ExprFinishes(w, at, v, s, fuel);
      case TypeOf(v) => ExprFinishes(w, at, v, s, fuel);
      case Deref(v) => ExprFinishes(w, at, v, s, fuel);
      case Binary(op, l, r, t) =>
        PairFinishes(w, at, e, l, r, s, fuel);
        var x := Eval(w, at, l, s, fuel);
        var y := if x.Ok? then Eval(w, at, r, x.value.store, fuel) else x;
        if x.Ok? && y.Ok? { CombinedFinishes(w, at, op, t, x.value.value, y.value, fuel); }
      case Divide(l, r, _, _) =>
        PairFinishes(w, at, e, l, r, s, fuel);
        var x := Eval(w, at, l, s, fuel);
        var y := if x.Ok? then Eval(w, at, r, x.value.store, fuel) else x;
        if x.Ok? && y.Ok? { DividedFinishes(w, at, e, x.value.value, y.value, fuel); }
      case Index(l, r, t) =>
        PairFinishes(w, at, e, l, r, s, fuel);
        var x := Eval(w, at, l, s, fuel);
        var y := if x.Ok? then Eval(w, at, r, x.value.store, fuel) else x;
        if x.Ok? && y.Ok? { IndexedFinishes(w, at, t, x.value.value, y.value, fuel); }
      case Compare(_, l, r) => PairFinishes(w, at, e, l, r, s, fuel);
      case Call(n, args) =>
        if at.depth < MAX_DEPTH {
          ArgsFinish(w, at, args, s, fuel);
          var given := EvalArgs(w, at, args, s, fuel);
          if given.Ok? { InvokeFinishes(w, at, n, given.value.values, given.value.store.shared, fuel); }
        }
      case _ =>
    }
  }

  lemma {:induction false} PutFinishes(w: World, at: Site, t: Target, v: Value, s: Store, fuel: nat)
    requires LoopFreeLibrary(w)
    ensures PutAt(w, at, t, v, s, fuel) != Err(OutOfFuel)
    decreases MAX_DEPTH - at.depth, t, 0
  {
    hide Store.Clean, Step.Clean, ArgStep.Clean, Flow.Clean, AllUsable, Usable;
    hide Eval, PutNamed, PutIndexed;
    if t.IntoIndex? && s.shared.tables.Some? {
      ExprFinishes(w, at, t.base, s, fuel);
      var x := Eval(w, at, t.base, s, fuel);
      if x.Ok? {
        ExprFinishes(w, at, t.index, x.value.store, fuel);
        var y := Eval(w, at, t.index, x.value.store, fuel);
        if y.Ok? { PutFinishes(w, at, t.rest, NoValue, y.value.store, fuel); }
      }
    }
  }

  lemma {:induction false} UpdateFinishes(w: World, at: Site, e: Expr, s: Store, fuel: nat)
    requires LoopFreeLibrary(w) && e.Update?
    ensures Eval(w, at, e, s, fuel) != Err(OutOfFuel)
    decreases MAX_DEPTH - at.depth, e, -1
  {
    hide Store.Clean, Step.Clean, ArgStep.Clean, Flow.Clean, AllUsable, Usable;
    hide PutAt, ValueAt;
    var bad := e.target.IntoName? && !NameOk(e.target.name);
    var x := if bad then Err(InvalidName) else ValueAt(w, at.scope, e.target, s);
    if x.Ok? && x.value.Integer? {
      PutFinishes(w, at, e.target, Reduced(if e.up then x.value.value + 1 else x.value.value - 1, w.width), s, fuel);
    }
  }

  lemma {:induction false} CombinedFinishes(w: World, at: Site, op: Operator, t: Target, x: Value, y: Step, fuel: nat)
    requires LoopFreeLibrary(w)
    ensures Combined(w, at, op, t, x, y, fuel) != Err(OutOfFuel)
    decreases MAX_DEPTH - at.depth, t, 1
  {
    hide Store.Clean, Step.Clean, ArgStep.Clean, Flow.Clean, AllUsable, Usable;
    hide PutAt, Meaning;
    if x.Integer? && y.value.Integer? {
      PutFinishes(w, at, t, Integer(Meaning(op, x.value, y.value.value, w.width)), y.store, fuel);
    }
  }

  lemma {:induction false} DividedFinishes(w: World, at: Site, e: Expr, x: Value, y: Step, fuel: nat)
    requires LoopFreeLibrary(w) && e.Divide?
    ensures Divided(w, at, e, x, y, fuel) != Err(OutOfFuel)
    decreases MAX_DEPTH - at.depth, e, -1
  {
    hide Store.Clean, Step.Clean, ArgStep.Clean, Flow.Clean, AllUsable, Usable;
    hide PutAt, QuotientOf, RemainderOf;
    if y.value.Integer? && y.value.value != 0 && x.Integer? {
      var a, b := x.value, y.value.value;
      PutFinishes(w, at, e.remainder, RemainderOf(a, b, w.width), y.store, fuel);
      var s := PutAt(w, at, e.remainder, RemainderOf(a, b, w.width), y.store, fuel);
      if s.Ok? { PutFinishes(w, at, e.quotient, QuotientOf(a, b, w.width), s.value, fuel); }
    }
  }

  lemma {:induction false} IndexedFinishes(w: World, at: Site, t: Target, base: Value, y: Step, fuel: nat)
    requires LoopFreeLibrary(w)
    ensures Indexed(w, at, t, base, y, fuel) != Err(OutOfFuel)
    decreases MAX_DEPTH - at.depth, t, 1
  {
    hide Store.Clean, Step.Clean, ArgStep.Clean, Flow.Clean, AllUsable, Usable;
    hide PutAt, ElementAt;
    if y.value.Integer? {
      var v := ElementAt(w.width, y.store.shared.tables, base, y.value.value);
      if v.Ok? { PutFinishes(w, at, t, v.value, y.store, fuel); }
    }
  }

  lemma {:induction false} PairFinishes(w: World, at: Site, e: Expr, l: Expr, r: Expr, s: Store, fuel: nat)
    requires LoopFreeLibrary(w) && l < e && r < e
    ensures Eval(w, at, l, s, fuel) != Err(OutOfFuel)
    ensures Eval(w, at, l, s, fuel).Ok? ==> Eval(w, at, r, Eval(w, at, l, s, fuel).value.store, fuel) != Err(OutOfFuel)
    decreases MAX_DEPTH - at.depth, e, -1
  {
    hide Store.Clean, Step.Clean, ArgStep.Clean, Flow.Clean, AllUsable, Usable;
    ExprFinishes(w, at, l, s, fuel);
    if Eval(w, at, l, s, fuel).Ok? { ExprFinishes(w, at, r, Eval(w, at, l, s, fuel).value.store, fuel); }
  }

  lemma {:induction false} ArgsFinish(w: World, at: Site, args: Args, s: Store, fuel: nat)
    requires LoopFreeLibrary(w)
    ensures EvalArgs(w, at, args, s, fuel) != Err(OutOfFuel)
    decreases MAX_DEPTH - at.depth, args, 0
  {
    hide Store.Clean, Step.Clean, ArgStep.Clean, Flow.Clean, AllUsable, Usable;
    if args.MoreArgs? {
      ExprFinishes(w, at, args.head, s, fuel);
      var x := Eval(w, at, args.head, s, fuel);
      if x.Ok? { ArgsFinish(w, at, args.tail, x.value.store, fuel); }
    }
  }

  lemma {:induction false} InvokeFinishes(w: World, at: Site, n: NameRef, values: seq<Value>, shared: Shared,
                                          fuel: nat)
    requires LoopFreeLibrary(w) && at.depth < MAX_DEPTH
    ensures Invoke(w, at, n, values, shared, fuel) != Err(OutOfFuel)
    decreases MAX_DEPTH - at.depth - 1
  {
    hide Store.Clean, Step.Clean, ArgStep.Clean, Flow.Clean, AllUsable, Usable;
    hide RecordNamed, FindId, BodyScope, Entry, Execute, Eval;
    if NamesRecord(w, at.scope, n) && |values| <= 7 && IsMethod(RecordNamed(w, at.scope, n).value) {
      var m := RecordNamed(w, at.scope, n).value.payload.info;
      if m.node in w.library && FindId(w.records, m.node).Some? {
        var inner := Site(BodyScope(w.records, m.node), at.depth + 1);
        LoopFreeFinishes(w, inner, w.library[m.node], Entry(values, shared), fuel);
      }
    }
  }

  lemma {:induction false} BuildFinishes(w: World, at: Site, init: Init, s: Store, fuel: nat)
    requires LoopFreeLibrary(w)
    ensures Build(w, at, init, s, fuel) != Err(OutOfFuel)
    decreases MAX_DEPTH - at.depth, init, 0
  {
    hide Store.Clean, Step.Clean, ArgStep.Clean, Flow.Clean, AllUsable, Usable;
    hide Eval, Fill, NewPackage;
    if s.shared.tables.Some? {
      match init {
        case BufferInit(_, length, _) => ExprFinishes(w, at, length, s, fuel);
        case PackageInit(_, count, terms) =>
          var m := NewPackage(s.shared.tables.value, count);
          if m.Ok? {
            var s' := s.(shared := s.shared.(tables := Some(m.value.overlay)));
            FillFinishes(w, at, m.value.handle, 0, count, terms, s', fuel);
          }
        case _ =>
      }
    }
  }

  lemma {:induction false} FillFinishes(w: World, at: Site, h: nat, k: nat, count: nat, terms: Args, s: Store, fuel: nat)
    requires LoopFreeLibrary(w)
    ensures Fill(w, at, h, k, count, terms, s, fuel) != Err(OutOfFuel)
    decreases MAX_DEPTH - at.depth, terms, 1
  {
    hide Store.Clean, Step.Clean, ArgStep.Clean, Flow.Clean, AllUsable, Usable;
    hide Eval, PutIndexed;
    if terms.MoreArgs? && k < count {
      ExprFinishes(w, at, terms.head, s, fuel);
      var x := Eval(w, at, terms.head, s, fuel);
      if x.Ok? {
        var s' := PutIndexed(w, at.scope, PackageHandle(h), Integer(if k <= 0xFF then k else 0xFF), x.value.value,
                             x.value.store);
        if s'.Ok? { FillFinishes(w, at, h, k + 1, count, terms.tail, s'.value, fuel); }
      }
    }
  }

  lemma {:induction false} StmtFinishes(w: World, at: Site, st: Stmt, s: Store, fuel: nat)
    requires LoopFreeLibrary(w) && LoopFreeStmt(st)
    ensures ExecuteStmt(w, at, st, s, fuel) != Err(OutOfFuel)
    decreases MAX_DEPTH - at.depth, st
  {
    hide Store.Clean, Step.Clean, ArgStep.Clean, Flow.Clean, AllUsable, Usable;
    match st {
      case Do(e) => ExprFinishes(w, at, e, s, fuel);
      case Return(e) => ExprFinishes(w, at, e, s, fuel);
      case Wait(_, e) => ExprFinishes(w, at, e, s, fuel);
      case Declare(_, init) => BuildFinishes(w, at, init, s, fuel);
      case DeclareRegion(_, _, base, length) =>
        ExprFinishes(w, at, base, s, fuel);
        var x := Eval(w, at, base, s, fuel);
        if x.Ok? { ExprFinishes(w, at, length, x.value.store, fuel); }
      case Signal(_, e) => ExprFinishes(w, at, e, s, fuel);
      case If(_, c, yes) =>
        ExprFinishes(w, at, c, s, fuel);
        var x := Eval(w, at, c, s, fuel);
        if x.Ok? && AsLogic(x.value.value) { LoopFreeFinishes(w, at, yes, x.value.store, fuel); }
      case IfElse(_, c, yes, _, no) =>
        ExprFinishes(w, at, c, s, fuel);
        var x := Eval(w, at, c, s, fuel);
        if x.Ok? { LoopFreeFinishes(w, at, if AsLogic(x.value.value) then yes else no, x.value.store, fuel); }
      case _ =>
    }
  }

  /** Programs without While, recursive or not, finish: a chain of calls ends at the depth limit. */
  lemma {:induction false} LoopFreeFinishes(w: World, at: Site, b: Block, s: Store, fuel: nat)
    requires LoopFreeLibrary(w) && LoopFree(b)
    ensures Execute(w, at, b, s, fuel) != Err(OutOfFuel)
    decreases MAX_DEPTH - at.depth, b
  {
    hide Store.Clean, Step.Clean, ArgStep.Clean, Flow.Clean, AllUsable, Usable;
    if b.Then? {
      StmtFinishes(w, at, b.first, s, fuel);
      var f := ExecuteStmt(w, at, b.first, s, fuel);
      if f.Ok? && f.value.control.Continue? { LoopFreeFinishes(w, at, b.rest, f.value.store, fuel); }
    }
  }
}
