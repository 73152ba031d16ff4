/** What programs can rely on when they store into and read from elements of buffers and packages. */
module ProgramElements {
  import opened Wrappers
  import opened Bits
  import opened Names
  import opened Namespace
  import opened Values
  import opened Elements
  import opened Programs
  import opened Evaluator
  import RuntimeState

  // ---- Expressions that change nothing ----

  /** The expression stores nowhere and calls nothing. */
  predicate Quiet(e: Expr) {
    match e
    case Assign(_, _) => false
    case Update(_, _) => false
    case Call(_, _) => false
    case Binary(_, l, r, t) => Quiet(l) && Quiet(r) && t.Discard?
    case Divide(l, r, t, u) => Quiet(l) && Quiet(r) && t.Discard? && u.Discard?
    case Invert(v) => Quiet(v)
    case Not(v) => Quiet(v)
    case SizeOf(v) => Quiet(v)
    case TypeOf(v) => Quiet(v)
    case Deref(v) => Quiet(v)
    case Index(b, i, t) => Quiet(b) && Quiet(i) && t.Discard?
    case Compare(_, l, r) => Quiet(l) && Quiet(r)
    case _ => true
  }

  /** It leaves the store as it was. */
  lemma {:induction false} QuietLeaves(w: World, at: Site, e: Expr, s: Store, fuel: nat)
    requires Quiet(e) && Eval(w, at, e, s, fuel).Ok?
    ensures Eval(w, at, e, s, fuel).value.store == s
    decreases e
  {
    hide Eval, Store.Clean, Step.Clean, SizeOfValue, ElementAt, Meaning;
    match e {
      case Binary(_, l, r, t) => PairLeaves(w, at, e, s, fuel);
      case Divide(l, r, t, u) => PairLeaves(w, at, e, s, fuel);
      case Index(b, i, t) => PairLeaves(w, at, e, s, fuel);
      case Compare(_, l, r) => PairLeaves(w, at, e, s, fuel);
      case Invert(v) => OneLeaves(w, at, e, s, fuel);
      case Not(v) => OneLeaves(w, at, e, s, fuel);
      case SizeOf(v) => OneLeaves(w, at, e, s, fuel);
      case TypeOf(v) => OneLeaves(w, at, e, s, fuel);
      case Deref(v) => OneLeaves(w, at, e, s, fuel);
      case _ => LeafLeaves(w, at, e, s, fuel);
    }
  }

  lemma {:induction false} LeafLeaves(w: World, at: Site, e: Expr, s: Store, fuel: nat)
    requires e.Zero? || e.One? || e.Ones? || e.Literal? || e.Chars? || e.Read? || e.Named?
    requires Eval(w, at, e, s, fuel).Ok?
    ensures Eval(w, at, e, s, fuel).value.store == s
  {
    hide NamedAt, LittleEndian, Store.Clean, Step.Clean;
  }

  lemma {:induction false} OneLeaves(w: World, at: Site, e: Expr, s: Store, fuel: nat)
    requires (e.Invert? || e.Not? || e.SizeOf? || e.TypeOf? || e.Deref?) && Quiet(e.value)
    requires Eval(w, at, e, s, fuel).Ok?
    ensures Eval(w, at, e, s, fuel).value.store == s
    decreases e, 0
  {
    hide Eval, Store.Clean, Step.Clean, SizeOfValue;
    OneMeaning(w, at, e, s, fuel);
    QuietLeaves(w, at, e.value, s, fuel);
  }

  lemma {:induction false} Discarded(w: World, at: Site, v: Value, s: Store, fuel: nat)
    ensures PutAt(w, at, Discard, v, s, fuel) == Ok(s)
  {
  }

  lemma {:induction false} MadeLeaves(w: World, at: Site, e: Expr, x: Value, y: Step, fuel: nat)
    requires (e.Binary? || e.Divide? || e.Index? || e.Compare?) && Quiet(e) && MadeOfTwo(w, at, e, x, y, fuel).Ok?
    ensures MadeOfTwo(w, at, e, x, y, fuel).value.store == y.store
  {
    hide Eval, Store.Clean, Step.Clean, ElementAt, Meaning, Reduced;
    match e {
      case Binary(op, _, _, _) =>
        assert Combined(w, at, op, e.target, x, y, fuel).Ok?;
        Discarded(w, at, Integer(Meaning(op, x.value, y.value.value, w.width)), y.store, fuel);
      case Divide(_, _, _, _) =>
        assert Divided(w, at, e, x, y, fuel).Ok?;
        Discarded(w, at, RemainderOf(x.value, y.value.value, w.width), y.store, fuel);
        Discarded(w, at, QuotientOf(x.value, y.value.value, w.width), y.store, fuel);
      case Index(_, _, _) =>
        assert Indexed(w, at, e.target, x, y, fuel).Ok?;
        Discarded(w, at, ElementAt(w.width, y.store.shared.tables, x, y.value.value).value, y.store, fuel);
      case Compare(_, _, _) =>
    }
  }

  lemma {:induction false} PairLeaves(w: World, at: Site, e: Expr, s: Store, fuel: nat)
    requires (e.Binary? || e.Divide? || e.Index? || e.Compare?) && Quiet(e) && Eval(w, at, e, s, fuel).Ok?
    ensures Eval(w, at, e, s, fuel).value.store == s
    decreases e, 0
  {
    hide Eval, Store.Clean, Step.Clean, ElementAt, Meaning;
    PairMeaning(w, at, e, s, fuel);
    QuietLeaves(w, at, FirstOperand(e), s, fuel);
    var x := Eval(w, at, FirstOperand(e), s, fuel).value;
    QuietLeaves(w, at, SecondOperand(e), x.store, fuel);
    MadeLeaves(w, at, e, x.value, Eval(w, at, SecondOperand(e), x.store, fuel).value, fuel);
  }

  // ---- A store into an element, and a read of it ----

  /** An operand whose value depends on no table: a constant or a register. */
  predicate Fixed(e: Expr) { e.Zero? || e.One? || e.Ones? || e.Literal? || e.Read? }

  lemma {:induction false} FixedStays(w: World, at: Site, e: Expr, s: Store, tables: RuntimeState.Overlay, fuel: nat)
    requires Fixed(e)
    ensures match Eval(w, at, e, s, fuel)
            case Ok(x) => x.store == s && Eval(w, at, e, s.(shared := s.shared.(tables := Some(tables))), fuel)
                                          == Ok(Step(x.value, s.(shared := s.shared.(tables := Some(tables)))))
            case Err(x) => Eval(w, at, e, s.(shared := s.shared.(tables := Some(tables))), fuel) == Err(x)
  {
    hide LittleEndian, Store.Clean, Step.Clean;
  }

  /** What Store into Index leaves: the value is evaluated, then the operands, and one element is replaced. */
  lemma {:induction false} StoreMeans(w: World, at: Site, value: Expr, base: Expr, index: Expr, s: Store, fuel: nat)
    requires Fixed(base) && Fixed(index)
    requires Eval(w, at, Assign(value, IntoIndex(base, index, Discard)), s, fuel).Ok?
    ensures var done := Eval(w, at, Assign(value, IntoIndex(base, index, Discard)), s, fuel).value;
            var x := Eval(w, at, value, s, fuel);
            var b, k := Eval(w, at, base, done.store, fuel), Eval(w, at, index, done.store, fuel);
            && x.Ok? && b.Ok? && k.Ok? && k.value.value.Integer? && done.value == x.value.value
            && x.value.store.shared.tables.Some?
            && var o := PutElement(x.value.store.shared.tables.value, b.value.value, k.value.value.value, x.value.value);
               o.Ok? && done.store == x.value.store.(shared := x.value.store.shared.(tables := Some(o.value)))
  {
    hide Eval, Store.Clean, Step.Clean, PutElement, PutAt;
    var e := Assign(value, IntoIndex(base, index, Discard));
    OneMeaning(w, at, e, s, fuel);
    var x := Eval(w, at, value, s, fuel).value;
    TargetNeedsTables(w, at, e.target, x.value, x.store, fuel);
    IndexTargetMeaning(w, at, e.target, x.value, x.store, fuel);
    var done := Eval(w, at, e, s, fuel).value;
    var tables := done.store.shared.tables;
    FixedStays(w, at, base, x.store, x.store.shared.tables.value, fuel);
    FixedStays(w, at, index, x.store, x.store.shared.tables.value, fuel);
    Discarded(w, at, NoValue, x.store, fuel);
    FixedStays(w, at, base, x.store, tables.value, fuel);
    FixedStays(w, at, index, x.store, tables.value, fuel);
  }

  lemma {:induction false} TargetNeedsTables(w: World, at: Site, t: Target, v: Value, s: Store, fuel: nat)
    requires t.IntoIndex? && PutAt(w, at, t, v, s, fuel).Ok?
    ensures s.shared.tables.Some?
  {
  }

  lemma {:induction false} IndexMeans(w: World, at: Site, base: Expr, index: Expr, s: Store, fuel: nat)
    requires Eval(w, at, base, s, fuel).Ok? && Eval(w, at, base, s, fuel).value.store == s
    requires Eval(w, at, index, s, fuel).Ok? && Eval(w, at, index, s, fuel).value.store == s
    requires Eval(w, at, index, s, fuel).value.value.Integer?
    ensures var b, k := Eval(w, at, base, s, fuel).value.value, Eval(w, at, index, s, fuel).value.value;
            var v := ElementAt(w.width, s.shared.tables, b, k.value);
            && (v.Ok? ==> Eval(w, at, Index(base, index, Discard), s, fuel) == Ok(Step(v.value, s)))
            && (v.Err? ==> Eval(w, at, Index(base, index, Discard), s, fuel) == Err(v.error))
  {
    hide Eval, Store.Clean, Step.Clean, ElementAt;
    PairMeaning(w, at, Index(base, index, Discard), s, fuel);
    var b, k := Eval(w, at, base, s, fuel).value.value, Eval(w, at, index, s, fuel).value.value;
    var v := ElementAt(w.width, s.shared.tables, b, k.value);
    if v.Ok? { Discarded(w, at, v.value, s, fuel); }
  }

  /** After Store(value, Index(base, index)), Index of the same operands gives the value stored: an integer cut to
      the width and, in a buffer, to its low byte first; a buffer as it is. Index of any other element, of this or
      of any other buffer or package, gives what it would have given before the element was stored. */
  lemma {:induction false} ReadAfterStore(w: World, at: Site, value: Expr, base: Expr, index: Expr, otherBase: Expr,
                                          otherIndex: Expr, s: Store, fuel: nat)
    requires Fixed(base) && Fixed(index) && Fixed(otherBase) && Fixed(otherIndex)
    requires Eval(w, at, Assign(value, IntoIndex(base, index, Discard)), s, fuel).Ok?
    ensures var done := Eval(w, at, Assign(value, IntoIndex(base, index, Discard)), s, fuel).value;
            var b, k := Eval(w, at, base, done.store, fuel), Eval(w, at, index, done.store, fuel);
            && b.Ok? && k.Ok? && Eval(w, at, value, s, fuel).Ok?
            && Eval(w, at, Index(base, index, Discard), done.store, fuel)
               == Ok(Step(Kept(w.width, b.value.value, done.value), done.store))
            && var c, j := Eval(w, at, otherBase, done.store, fuel), Eval(w, at, otherIndex, done.store, fuel);
               && c.Ok? && j.Ok? && j.value.value.Integer?
               && (c.value.value != b.value.value || j.value.value != k.value.value) ==>
                 SameValue(Eval(w, at, Index(otherBase, otherIndex, Discard), done.store, fuel),
                           Eval(w, at, Index(otherBase, otherIndex, Discard), Eval(w, at, value, s, fuel).value.store, fuel))
  {
    hide Eval, Store.Clean, Step.Clean, ElementAt, PutElement, Kept;
    StoreMeans(w, at, value, base, index, s, fuel);
    var done := Eval(w, at, Assign(value, IntoIndex(base, index, Discard)), s, fuel).value;
    var x := Eval(w, at, value, s, fuel).value;
    var o, o' := x.store.shared.tables.value, done.store.shared.tables.value;
    FixedStays(w, at, base, done.store, o', fuel);
    FixedStays(w, at, index, done.store, o', fuel);
    var b, k := Eval(w, at, base, done.store, fuel).value.value, Eval(w, at, index, done.store, fuel).value.value;
    IndexMeans(w, at, base, index, done.store, fuel);
    FixedStays(w, at, otherBase, x.store, o', fuel);
    FixedStays(w, at, otherIndex, x.store, o', fuel);
    var c, j := Eval(w, at, otherBase, done.store, fuel), Eval(w, at, otherIndex, done.store, fuel);
    if c.Ok? && j.Ok? && j.value.value.Integer? {
      ReadAfterPut(w.width, o, b, k.value, x.value, c.value.value, j.value.value.value);
      IndexMeans(w, at, otherBase, otherIndex, done.store, fuel);
      IndexMeans(w, at, otherBase, otherIndex, x.store, fuel);
    } else {
      ReadAfterPut(w.width, o, b, k.value, x.value, b, k.value);
    }
  }

  /** The same value, or the same error. */
  predicate SameValue(a: Result<Step>, b: Result<Step>) {
    match a
    case Ok(x) => b.Ok? && b.value.value == x.value
    case Err(x) => b == Err(x)
  }

  /** The size of a buffer or package is the number of its elements: exactly those below it can be read. */
  lemma SizeBoundsIndex(w: World, o: RuntimeState.Overlay, v: Value, k: byte)
    requires RuntimeState.Sound(o) && (v.Buffer? || v.BufferHandle? || v.PackageHandle?)
    requires SizeOfValue(w.blocks, Some(o), v).Ok?
    ensures ElementAt(w.width, Some(o), v, k).Ok? <==> k < SizeOfValue(w.blocks, Some(o), v).value
  {
  }

  /** The size of a value made of bytes, wherever they are kept, is the number of those bytes. */
  lemma SizeCountsBytes(w: World, o: RuntimeState.Overlay, v: Value)
    requires RuntimeState.Sound(o) && BytesOf(w.blocks, o, v).Ok?
    ensures SizeOfValue(w.blocks, Some(o), v) == Ok(|BytesOf(w.blocks, o, v).value|)
  {
  }

  /** And that of a static package of constants is the number of the constants. */
  lemma SizeCountsConstants(w: World, tables: Option<RuntimeState.Overlay>, location: Location, size: nat,
                            values: seq<seq<byte>>)
    requires (forall i :: 0 <= i < |values| ==> LiteralSize(|values[i]|)) && |values| <= U8_MAX
    requires PackageFits(size, [|values|] + Literals(values))
    requires CodeBytes(w.blocks, location) == Some([0x12] + SpellPackage(size, [|values|] + Literals(values)))
    ensures SizeOfValue(w.blocks, tables, StaticPackage(location)) == Ok(|values|)
  {
    hide ParsePkg, EncodePkg, CodeBytes, Literals;
    var payload: seq<byte> := [|values|] + Literals(values);
    var code := [0x12] + SpellPackage(size, payload);
    PackageSize(size, payload);
    assert code[1..] == EncodePkg(size + |payload|, size) + payload;
    PkgRoundTrip(size + |payload|, size, payload);
    assert code[1 + size] == payload[0];
  }

  // ---- A package is its terms ----

  predicate QuietTerms(terms: Args) {
    terms.MoreArgs? ==> Quiet(terms.head) && QuietTerms(terms.tail)
  }

  function TermAt(terms: Args, i: nat): Expr
    requires i < ArgCount(terms)
  {
    if i == 0 then terms.head else TermAt(terms.tail, i - 1)
  }

  /** The value of a term in the store of the moment it is evaluated: the elements before it are stored already. */
  ghost predicate TermGives(w: World, at: Site, terms: Args, i: nat, s: Store, v: Value, fuel: nat)
    requires i < ArgCount(terms)
  {
    exists r: Store :: ExceptPackages(r, s) && Eval(w, at, TermAt(terms, i), r, fuel) == Ok(Step(v, r))
  }

  /** The stores differ in packages at most. */
  predicate ExceptPackages(r: Store, s: Store) {
    && r.shared.tables.Some? && s.shared.tables.Some?
    && r == s.(shared := s.shared.(tables := Some(s.shared.tables.value.(packages := r.shared.tables.value.packages))))
  }

  lemma PutInPackage(o: RuntimeState.Overlay, h: nat, k: nat, v: Value)
    requires PutElement(o, PackageHandle(h), k, v).Ok?
    ensures var o' := PutElement(o, PackageHandle(h), k, v).value; o' == o.(packages := o'.packages)
  {
  }

  /** Filling a package from element `k` on with terms that change nothing themselves: the element `i` places on is
      the value of term `i`, and every element before `k` and of every other package or buffer is as it was. */
  lemma {:induction false} FilledInOrder(w: World, at: Site, h: nat, k: nat, count: byte, terms: Args, s: Store, fuel: nat,
                                         i: nat)
    requires QuietTerms(terms) && Fill(w, at, h, k, count, terms, s, fuel).Ok? && s.shared.tables.Some?
    ensures var s' := Fill(w, at, h, k, count, terms, s, fuel).value;
            && ExceptPackages(s', s)
            && (i < ArgCount(terms) && k + i < count ==>
                  exists v :: TermGives(w, at, terms, i, s, v, fuel)
                              && ElementAt(w.width, s'.shared.tables, PackageHandle(h), k + i)
                                 == Ok(Kept(w.width, PackageHandle(h), v)))
            && (forall other: Value, j: nat :: other != PackageHandle(h) || j < k ==>
                  ElementAt(w.width, s'.shared.tables, other, j) == ElementAt(w.width, s.shared.tables, other, j))
    decreases terms
  {
    hide Eval, Store.Clean, Step.Clean, ElementAt, PutElement, Kept, Fill;
    if terms.NoArgs? || k >= count {
      FillsNothing(w, at, h, k, count, terms, s, fuel);
    } else {
      NextTerm(w, at, h, k, count, terms, s, fuel);
      var x := Eval(w, at, terms.head, s, fuel).value;
      QuietLeaves(w, at, terms.head, s, fuel);
      var s1 := PutIndexed(w, at.scope, PackageHandle(h), Integer(k), x.value, x.store).value;
      var o := s.shared.tables.value;
      PutInPackage(o, h, k, x.value);
      FilledInOrder(w, at, h, k + 1, count, terms.tail, s1, fuel, if i == 0 then 0 else i - 1);
      var s' := Fill(w, at, h, k, count, terms, s, fuel).value;
      forall other: Value, j: nat | other != PackageHandle(h) || j < k
        ensures ElementAt(w.width, s'.shared.tables, other, j) == ElementAt(w.width, s.shared.tables, other, j)
      {
        ReadAfterPut(w.width, o, PackageHandle(h), k, x.value, other, j);
      }
      ReadAfterPut(w.width, o, PackageHandle(h), k, x.value, PackageHandle(h), k);
      if i < ArgCount(terms) && k + i < count {
        if i == 0 {
          assert TermGives(w, at, terms, 0, s, x.value, fuel);
        } else {
          var v :| TermGives(w, at, terms.tail, i - 1, s1, v, fuel)
                   && ElementAt(w.width, s'.shared.tables, PackageHandle(h), k + 1 + (i - 1))
                      == Ok(Kept(w.width, PackageHandle(h), v));
          assert TermGives(w, at, terms, i, s, v, fuel);
        }
      }
    }
  }

  lemma {:induction false} FillsNothing(w: World, at: Site, h: nat, k: nat, count: nat, terms: Args, s: Store, fuel: nat)
    requires terms.NoArgs? || k >= count
    ensures Fill(w, at, h, k, count, terms, s, fuel) == Ok(s)
  {
  }
}
