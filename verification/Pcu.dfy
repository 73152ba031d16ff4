/** Admission of a dispatch kernel: capability masks, the executors that may take it, its parameters and
    its shape. */
module Pcu {
  import opened Wrappers
  import opened Bits

  // ---- Capability masks ----

  type Mask = nat

  predicate Contains(caps: Mask, required: Mask) { BitAnd(caps, required) == required }

  function Union(a: Mask, b: Mask): Mask { BitOr(a, b) }

  ghost predicate HasBits(caps: Mask, required: Mask) {
    forall i: nat :: Bit(required, i) ==> Bit(caps, i)
  }

  /** A mask contains another exactly when it has all of its bits. */
  lemma ContainsIffBits(caps: Mask, required: Mask)
    ensures Contains(caps, required) <==> HasBits(caps, required)
  {
    hide Bitwise, Bit;
    forall i: nat ensures Bit(BitAnd(caps, required), i) == (Bit(caps, i) && Bit(required, i)) {
      BitwiseBit(And, caps, required, i);
    }
    if HasBits(caps, required) { SameBits(BitAnd(caps, required), required); }
  }

  lemma ContainsUnion(caps: Mask, a: Mask, b: Mask)
    ensures Contains(caps, Union(a, b)) <==> Contains(caps, a) && Contains(caps, b)
  {
    hide Bitwise, Contains, Bit;
    ContainsIffBits(caps, a);
    ContainsIffBits(caps, b);
    ContainsIffBits(caps, Union(a, b));
    forall i: nat ensures Bit(Union(a, b), i) == (Bit(a, i) || Bit(b, i)) { BitwiseBit(Or, a, b, i); }
  }

  lemma ContainsNothing(caps: Mask)
    ensures Contains(caps, 0)
  {
    ContainsIffBits(caps, 0);
    forall i: nat ensures !Bit(0, i) { ZeroBits(i); }
  }

  // ---- What a kernel requires ----

  datatype Access = ReadOnly | WriteOnly | ReadWrite

  datatype Binding = Binding(shared: bool, builtin: bool, access: Access)

  datatype Slot = Slot(id: nat)

  datatype Parameter = Parameter(slot: Slot, valueType: nat)

  /** `ops` are the instructions, each by the flag it needs. */
  datatype Kernel = Kernel(ops: seq<Mask>, bindings: seq<Binding>, parameters: seq<Parameter>, typeCaps: Mask,
                           featureCaps: Mask, shape: seq<u32>)

  const DISPATCH: Mask := 1
  const ORDERED_SUBMISSION: Mask := 0x40
  const MUTABLE_RESOURCES: Mask := 1
  const READ_ONLY_RESOURCES: Mask := 2
  const INLINE_PARAMETERS: Mask := 4
  const COOPERATIVE_SCRATCHPAD: Mask := 8

  function UnionOf(flags: seq<Mask>): Mask {
    if flags == [] then 0 else Union(UnionOf(flags[..|flags| - 1]), flags[|flags| - 1])
  }

  /** Accumulates the flags of every instruction. */
  method RequiredInstructions(ops: seq<Mask>) returns (flags: Mask)
    ensures flags == UnionOf(ops)
  {
    flags := 0;
    for i := 0 to |ops|
      invariant flags == UnionOf(ops[..i])
    {
      assert ops[..i + 1][..i] == ops[..i];
      flags := Union(flags, ops[i]);
    }
    assert ops[..|ops|] == ops;
  }

  /** An instruction mask admits a kernel exactly when it admits each of its instructions. */
  lemma {:induction false} AdmitsIffEveryOp(caps: Mask, ops: seq<Mask>)
    ensures Contains(caps, UnionOf(ops)) <==> forall i :: 0 <= i < |ops| ==> Contains(caps, ops[i])
  {
    if ops == [] {
      ContainsNothing(caps);
    } else {
      var init, last := ops[..|ops| - 1], ops[|ops| - 1];
      AdmitsIffEveryOp(caps, init);
      ContainsUnion(caps, UnionOf(init), last);
      assert forall i :: 0 <= i < |init| ==> init[i] == ops[i];
    }
  }

  /** The features known so far, with what one more binding asks for. */
  function WithBinding(features: Mask, b: Binding): Mask {
    var f := if b.shared then Union(features, COOPERATIVE_SCRATCHPAD) else features;
    if b.builtin then f else Union(f, if b.access == ReadOnly then READ_ONLY_RESOURCES else MUTABLE_RESOURCES)
  }

  function WithBindings(features: Mask, bindings: seq<Binding>): Mask {
    if bindings == [] then features
    else WithBinding(WithBindings(features, bindings[..|bindings| - 1]), bindings[|bindings| - 1])
  }

  function Derived(k: Kernel): Mask {
    WithBindings(if k.parameters != [] then Union(0, INLINE_PARAMETERS) else 0, k.bindings)
  }

  function RequiredFeatures(k: Kernel): Mask { Union(Derived(k), k.featureCaps) }

  /** The loop that derives features from the kernel's signature. */
  method DerivedFeatures(k: Kernel) returns (features: Mask)
    ensures features == Derived(k)
  {
    features := 0;
    if k.parameters != [] { features := Union(features, INLINE_PARAMETERS); }
    ghost var base := features;
    for i := 0 to |k.bindings|
      invariant features == WithBindings(base, k.bindings[..i])
    {
      var b := k.bindings[i];
      assert k.bindings[..i + 1][..i] == k.bindings[..i];
      if b.shared { features := Union(features, COOPERATIVE_SCRATCHPAD); }
      if b.builtin { continue; }
      match b.access {
        case ReadOnly => features := Union(features, READ_ONLY_RESOURCES);
        case _ => features := Union(features, MUTABLE_RESOURCES);
      }
    }
    assert k.bindings[..|k.bindings|] == k.bindings;
  }

  predicate AdmitsBinding(caps: Mask, b: Binding) {
    && (b.shared ==> Contains(caps, COOPERATIVE_SCRATCHPAD))
    && (!b.builtin && b.access == ReadOnly ==> Contains(caps, READ_ONLY_RESOURCES))
    && (!b.builtin && b.access != ReadOnly ==> Contains(caps, MUTABLE_RESOURCES))
  }

  lemma {:induction false} AdmitsBindings(caps: Mask, features: Mask, bindings: seq<Binding>)
    ensures Contains(caps, WithBindings(features, bindings)) <==>
              Contains(caps, features) && forall i :: 0 <= i < |bindings| ==> AdmitsBinding(caps, bindings[i])
  {
    if bindings != [] {
      hide Contains;
      var init, b := bindings[..|bindings| - 1], bindings[|bindings| - 1];
      AdmitsBindings(caps, features, init);
      var f := WithBindings(features, init);
      var g := if b.shared then Union(f, COOPERATIVE_SCRATCHPAD) else f;
      ContainsUnion(caps, f, COOPERATIVE_SCRATCHPAD);
      ContainsUnion(caps, g, READ_ONLY_RESOURCES);
      ContainsUnion(caps, g, MUTABLE_RESOURCES);
    }
  }

  /** A feature mask admits a kernel exactly when it admits its stated floor, inline parameters if it has
      any, and each of its bindings. */
  lemma AdmitsFeatures(caps: Mask, k: Kernel)
    ensures Contains(caps, RequiredFeatures(k)) <==>
              && Contains(caps, k.featureCaps)
              && (k.parameters != [] ==> Contains(caps, INLINE_PARAMETERS))
              && forall i :: 0 <= i < |k.bindings| ==> AdmitsBinding(caps, k.bindings[i])
  {
    hide Contains;
    ContainsUnion(caps, Derived(k), k.featureCaps);
    AdmitsBindings(caps, if k.parameters != [] then Union(0, INLINE_PARAMETERS) else 0, k.bindings);
    ContainsNothing(caps);
    ContainsUnion(caps, 0, INLINE_PARAMETERS);
  }

  // ---- The executors ----

  datatype Executor = Executor(primitives: Mask, policy: Mask, instructions: Mask, types: Mask, features: Mask)

  predicate Structure(x: Executor, k: Kernel) {
    && Contains(x.primitives, DISPATCH)
    && Contains(x.policy, ORDERED_SUBMISSION)
    && Contains(x.instructions, UnionOf(k.ops))
  }

  predicate Supports(x: Executor, k: Kernel) {
    Structure(x, k) && Contains(x.types, k.typeCaps) && Contains(x.features, RequiredFeatures(k))
  }

  datatype Verdict = Rejected | UnsupportedTypes | UnsupportedFeatures | Admitted
  {
    function Rank(): nat {
      match this case Rejected => 0 case UnsupportedTypes => 1 case UnsupportedFeatures => 2 case Admitted => 3
    }
  }

  /** Three questions over all executors, asked in turn. */
  function Validate(executors: seq<Executor>, k: Kernel): Verdict {
    if exists x :: x in executors && Supports(x, k) then Admitted
    else if exists x :: x in executors && Structure(x, k) then
      if exists x :: x in executors && Structure(x, k) && Contains(x.types, k.typeCaps) then UnsupportedFeatures
      else UnsupportedTypes
    else Rejected
  }

  /** How far one executor gets with the kernel. */
  function Reach(x: Executor, k: Kernel): nat {
    if !Structure(x, k) then 0
    else if !Contains(x.types, k.typeCaps) then 1
    else if !Contains(x.features, RequiredFeatures(k)) then 2
    else 3
  }

  function Furthest(executors: seq<Executor>, k: Kernel): nat {
    if executors == [] then 0
    else
      var rest, x := Furthest(executors[..|executors| - 1], k), Reach(executors[|executors| - 1], k);
      if x > rest then x else rest
  }

  lemma {:induction false} FurthestIsMaximum(executors: seq<Executor>, k: Kernel)
    ensures forall x :: x in executors ==> Reach(x, k) <= Furthest(executors, k)
    ensures executors != [] ==> exists x :: x in executors && Reach(x, k) == Furthest(executors, k)
  {
    if executors != [] {
      var init, last := executors[..|executors| - 1], executors[|executors| - 1];
      FurthestIsMaximum(init, k);
      assert executors == init + [last];
      if Reach(last, k) > Furthest(init, k) || init == [] {
        assert last in executors && Reach(last, k) == Furthest(executors, k);
      } else {
        var x :| x in init && Reach(x, k) == Furthest(init, k);
        assert x in executors;
      }
    }
  }

  /** The verdict is the furthest stage any single executor reaches: stages passed by different executors
      do not add up. */
  lemma VerdictIsFurthest(executors: seq<Executor>, k: Kernel)
    ensures Validate(executors, k).Rank() == Furthest(executors, k)
  {
    hide Contains, Structure, Furthest;
    NoExecutors(k);
    FurthestIsMaximum(executors, k);
    if executors != [] {
      var x :| x in executors && Reach(x, k) == Furthest(executors, k);
      assert Reach(x, k) == 3 <==> Supports(x, k);
      if y :| y in executors && Supports(y, k) { assert Reach(y, k) == 3; }
      if y :| y in executors && Structure(y, k) { assert Reach(y, k) >= 1; }
      if y :| y in executors && Structure(y, k) && Contains(y.types, k.typeCaps) { assert Reach(y, k) >= 2; }
    }
  }

  lemma NoExecutors(k: Kernel)
    ensures Furthest([], k) == 0
  {
  }

  /** A mask contains a single flag exactly when it has that bit. */
  lemma ContainsFlag(caps: Mask, i: nat)
    ensures Contains(caps, Pow2(i)) <==> Bit(caps, i)
  {
    hide Contains, Bit, Pow2;
    ContainsIffBits(caps, Pow2(i));
    forall j: nat ensures Bit(Pow2(i), j) <==> j == i { OnlyBit(i, j); }
  }

  lemma {:induction false} OnlyBit(i: nat, j: nat)
    ensures Bit(Pow2(i), j) <==> j == i
  {
    if i == 0 {
      if j > 0 { ZeroBits(j - 1); }
    } else if j > 0 {
      OnlyBit(i - 1, j - 1);
    }
  }

  /** What a binding asks of a feature mask, by the numbers of the bits. */
  predicate BindingBits(features: Mask, b: Binding) {
    && (b.shared ==> Bit(features, 3))
    && (!b.builtin ==> if b.access == ReadOnly then Bit(features, 1) else Bit(features, 0))
  }

  /** The executor can take the kernel, said of single bits: it dispatches, it submits in order, and it has every
      bit of every instruction, of the types, of the stated features, and of those the signature asks for. */
  ghost predicate Takes(x: Executor, k: Kernel) {
    && StructureBits(x, k) && HasBits(x.types, k.typeCaps) && HasBits(x.features, k.featureCaps)
    && (k.parameters != [] ==> Bit(x.features, 2))
    && forall i :: 0 <= i < |k.bindings| ==> BindingBits(x.features, k.bindings[i])
  }

  ghost predicate StructureBits(x: Executor, k: Kernel) {
    Bit(x.primitives, 0) && Bit(x.policy, 6) && forall i :: 0 <= i < |k.ops| ==> HasBits(x.instructions, k.ops[i])
  }

  lemma StructureIffBits(x: Executor, k: Kernel)
    ensures Structure(x, k) <==> StructureBits(x, k)
  {
    hide Contains, Bit, UnionOf;
    Flags();
    ContainsFlag(x.primitives, 0);
    ContainsFlag(x.policy, 6);
    AdmitsIffEveryOp(x.instructions, k.ops);
    forall i | 0 <= i < |k.ops| ensures Contains(x.instructions, k.ops[i]) <==> HasBits(x.instructions, k.ops[i]) {
      ContainsIffBits(x.instructions, k.ops[i]);
    }
  }

  lemma Flags()
    ensures Pow2(0) == 1 && Pow2(1) == 2 && Pow2(2) == 4 && Pow2(3) == 8 && Pow2(6) == 64
  {
    assert Pow2(3) == 8;
  }

  lemma SupportsIffTakes(x: Executor, k: Kernel)
    ensures Supports(x, k) <==> Takes(x, k)
  {
    hide Contains, Bit, Structure, StructureBits, RequiredFeatures;
    StructureIffBits(x, k);
    ContainsIffBits(x.types, k.typeCaps);
    ContainsIffBits(x.features, k.featureCaps);
    AdmitsFeatures(x.features, k);
    Flags();
    ContainsFlag(x.features, 0);
    ContainsFlag(x.features, 1);
    ContainsFlag(x.features, 2);
    ContainsFlag(x.features, 3);
  }

  /** A kernel is admitted exactly when one executor can take all of it, and rejected outright exactly when none has
      even its structure. */
  lemma AdmittedIffTaken(executors: seq<Executor>, k: Kernel)
    ensures Validate(executors, k).Admitted? <==> exists x :: x in executors && Takes(x, k)
    ensures Validate(executors, k).Rejected? <==> forall x :: x in executors ==> !StructureBits(x, k)
  {
    hide Structure, StructureBits, Takes;
    forall x ensures (Supports(x, k) <==> Takes(x, k)) && (Structure(x, k) <==> StructureBits(x, k)) {
      SupportsIffTakes(x, k);
      StructureIffBits(x, k);
    }
    if x :| x in executors && Takes(x, k) { assert Supports(x, k); }
    if x :| x in executors && StructureBits(x, k) { assert Structure(x, k); }
    assert forall x :: Supports(x, k) ==> Structure(x, k);
  }

  /** More executors never make the verdict worse. */
  lemma MoreExecutorsNoWorse(few: seq<Executor>, many: seq<Executor>, k: Kernel)
    requires forall x :: x in few ==> x in many
    ensures Validate(few, k).Rank() <= Validate(many, k).Rank()
  {
    hide Furthest, Reach, Validate;
    VerdictIsFurthest(few, k);
    VerdictIsFurthest(many, k);
    NoExecutors(k);
    FurthestIsMaximum(few, k);
    FurthestIsMaximum(many, k);
    if few != [] {
      var x :| x in few && Reach(x, k) == Furthest(few, k);
      assert Reach(x, k) <= Furthest(many, k);
    }
  }

  // ---- Parameters ----

  datatype Given = Given(slot: Slot, valueType: nat, bits: nat)

  /** The first value given for a slot. */
  function ValueFor(given: seq<Given>, slot: Slot): (r: Option<nat>)
    ensures r.Some? ==> r.value < |given| && given[r.value].slot == slot
                        && forall j :: 0 <= j < r.value ==> given[j].slot != slot
    ensures r.None? ==> forall j :: 0 <= j < |given| ==> given[j].slot != slot
  {
    if given == [] then None
    else match ValueFor(given[..|given| - 1], slot)
      case Some(i) => Some(i)
      case None => if given[|given| - 1].slot == slot then Some(|given| - 1) else None
  }

  predicate ParameterOk(given: seq<Given>, parameters: seq<Parameter>, i: nat)
    requires i < |parameters|
  {
    && (forall j :: 0 <= j < i ==> parameters[j].slot != parameters[i].slot)
    && ValueFor(given, parameters[i].slot).Some?
    && given[ValueFor(given, parameters[i].slot).value].valueType == parameters[i].valueType
  }

  predicate GivenOk(given: seq<Given>, parameters: seq<Parameter>, i: nat)
    requires i < |given|
  {
    && (forall j :: 0 <= j < i ==> given[j].slot != given[i].slot)
    && exists j :: 0 <= j < |parameters| && parameters[j].slot == given[i].slot
  }

  predicate ValidateAgainst(given: seq<Given>, parameters: seq<Parameter>) {
    && (forall i :: 0 <= i < |parameters| ==> ParameterOk(given, parameters, i))
    && (forall i :: 0 <= i < |given| ==> GivenOk(given, parameters, i))
  }

  /** `f` pairs every declared parameter with one given value of its slot and type, and leaves no value out. */
  ghost predicate Bijection(given: seq<Given>, parameters: seq<Parameter>, f: seq<nat>) {
    && |f| == |parameters|
    && (forall i :: 0 <= i < |f| ==> f[i] < |given| && given[f[i]].slot == parameters[i].slot
                                     && given[f[i]].valueType == parameters[i].valueType)
    && (forall i, j :: 0 <= i < j < |f| ==> f[i] != f[j])
    && (forall n :: 0 <= n < |given| ==> n in f)
  }

  predicate DistinctSlots(parameters: seq<Parameter>, given: seq<Given>) {
    && (forall i, j :: 0 <= i < j < |parameters| ==> parameters[i].slot != parameters[j].slot)
    && (forall i, j :: 0 <= i < j < |given| ==> given[i].slot != given[j].slot)
  }

  function Pairing(given: seq<Given>, parameters: seq<Parameter>): (f: seq<nat>)
    requires forall i :: 0 <= i < |parameters| ==> ValueFor(given, parameters[i].slot).Some?
    ensures |f| == |parameters|
    ensures forall i :: 0 <= i < |f| ==> f[i] == ValueFor(given, parameters[i].slot).value
  {
    if parameters == [] then []
    else
      var init := parameters[..|parameters| - 1];
      assert forall i :: 0 <= i < |init| ==> init[i] == parameters[i];
      Pairing(given, init) + [ValueFor(given, parameters[|parameters| - 1].slot).value]
  }

  /** Parameters validate exactly when slots are distinct on both sides and the given values are a
      type-correct bijection onto the declared ones. */
  lemma ValidIffBijection(given: seq<Given>, parameters: seq<Parameter>)
    ensures ValidateAgainst(given, parameters) <==>
              DistinctSlots(parameters, given) && exists f :: Bijection(given, parameters, f)
  {
    if ValidateAgainst(given, parameters) { ValidGivesBijection(given, parameters); }
    if DistinctSlots(parameters, given) {
      if f :| Bijection(given, parameters, f) { BijectionIsValid(given, parameters, f); }
    }
  }

  lemma ValidGivesBijection(given: seq<Given>, parameters: seq<Parameter>)
    requires ValidateAgainst(given, parameters)
    ensures DistinctSlots(parameters, given) && exists f :: Bijection(given, parameters, f)
  {
    forall i, j | 0 <= i < j < |parameters| ensures parameters[i].slot != parameters[j].slot {
      assert ParameterOk(given, parameters, j);
    }
    forall i, j | 0 <= i < j < |given| ensures given[i].slot != given[j].slot { assert GivenOk(given, parameters, j); }
    forall i | 0 <= i < |parameters| ensures ValueFor(given, parameters[i].slot).Some? {
      assert ParameterOk(given, parameters, i);
    }
    var f := Pairing(given, parameters);
    forall i | 0 <= i < |f| ensures given[f[i]].valueType == parameters[i].valueType {
      assert ParameterOk(given, parameters, i);
    }
    forall n | 0 <= n < |given| ensures n in f {
      assert GivenOk(given, parameters, n);
      var j :| 0 <= j < |parameters| && parameters[j].slot == given[n].slot;
      assert f[j] == n;
    }
    assert Bijection(given, parameters, f);
  }

  lemma BijectionIsValid(given: seq<Given>, parameters: seq<Parameter>, f: seq<nat>)
    requires DistinctSlots(parameters, given) && Bijection(given, parameters, f)
    ensures ValidateAgainst(given, parameters)
  {
    forall i | 0 <= i < |parameters| ensures ParameterOk(given, parameters, i) {
      assert ValueFor(given, parameters[i].slot) == Some(f[i]);
    }
    forall n | 0 <= n < |given| ensures GivenOk(given, parameters, n) {
      assert n in f;
      var i :| 0 <= i < |f| && f[i] == n;
      assert parameters[i].slot == given[n].slot;
    }
  }

  /** So there are as many values as parameters. */
  lemma BijectionCounts(given: seq<Given>, parameters: seq<Parameter>, f: seq<nat>)
    requires Bijection(given, parameters, f)
    ensures |given| == |parameters|
  {
    CountBelow(|given|);
    CountDistinct(f);
    assert Below(|given|) == Members(f);
  }

  function Below(n: nat): (s: set<nat>)
    ensures forall i: nat :: i in s <==> i < n
  {
    if n == 0 then {} else Below(n - 1) + {n - 1}
  }

  function Members(f: seq<nat>): (s: set<nat>)
    ensures forall n: nat :: n in s <==> n in f
  {
    if f == [] then {} else Members(f[..|f| - 1]) + {f[|f| - 1]}
  }

  lemma {:induction false} CountBelow(n: nat)
    ensures |Below(n)| == n
  {
    if n > 0 { CountBelow(n - 1); }
  }

  lemma {:induction false} CountDistinct(f: seq<nat>)
    requires forall i, j :: 0 <= i < j < |f| ==> f[i] != f[j]
    ensures |Members(f)| == |f|
  {
    if f != [] {
      var init := f[..|f| - 1];
      CountDistinct(init);
      assert f[|f| - 1] !in init;
    }
  }

  // ---- Shape ----

  function Product(shape: seq<u32>): nat {
    if shape == [] then 1 else Product(shape[..|shape| - 1]) * shape[|shape| - 1]
  }

  /** The axes are multiplied in turn, giving up when the product leaves 64 bits; the shape is accepted
      exactly when the product, computed without any bound, is the number of threads. */
  method ValidateShape(shape: seq<u32>, threads: u32) returns (ok: bool)
    requires |shape| == 3 && threads > 0
    ensures ok <==> Product(shape) == threads
  {
    var product: nat := 1;
    for i := 0 to |shape|
      invariant product == Product(shape[..i])
      invariant (i == 0 ==> product == 1) && (i <= 1 ==> product <= U32_MAX)
      invariant i <= 2 ==> product <= U32_MAX * U32_MAX
    {
      assert shape[..i + 1][..i] == shape[..i];
      ProductStep(product, shape[i]);
      if product * shape[i] > U64_MAX {
        assert i == 2 && shape[..3] == shape;
        return false;
      }
      product := product * shape[i];
    }
    assert shape[..|shape|] == shape;
    return product != 0 && product == threads;
  }

  lemma ProductStep(product: nat, axis: u32)
    ensures product <= 1 ==> product * axis <= U32_MAX
    ensures product <= U32_MAX ==> product * axis <= U32_MAX * U32_MAX <= U64_MAX
  {
    if product <= U32_MAX {
      assert product * axis <= U32_MAX * axis;
      assert U32_MAX * axis <= U32_MAX * U32_MAX;
    }
  }
}
