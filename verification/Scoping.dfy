/** Where the names inside a method body lead: the body begins its lookups in the scope its method is declared in,
    finds what is declared beside the method first, and goes outwards from there. */
module Scoping {
  import opened Wrappers
  import opened Bits
  import opened Names
  import opened Namespace
  import opened Values
  import opened Programs

  /** In a well-formed table the body of a record's method starts from the path of the record's parent. */
  lemma BodyStartsAtParent(rs: Records, i: nat)
    requires Tree(rs) && 0 < i < |rs|
    ensures FindId(rs, i) == Some(i) && rs[i].parent.Some? && rs[i].parent.value < |rs|
    ensures BodyScope(rs, i) == rs[rs[i].parent.value].path
  {
    hide FindId;
    assert Placed(rs, i);
    IdsInOrder(rs, i);
  }

  lemma IdsInOrder(rs: Records, i: nat)
    requires Tree(rs) && i < |rs|
    ensures FindId(rs, i) == Some(i)
  {
    assert Placed(rs, i);
    forall j | 0 <= j < i ensures rs[j].id != i { assert Placed(rs, j); }
  }

  /** Record `j` is declared beside record `i`, under this name, and no record before it has its path. */
  predicate Sibling(rs: Records, i: nat, j: nat, name: NameSeg) {
    && i < |rs| && j < |rs| && rs[i].parent.Some? && rs[i].parent.value < |rs|
    && rs[j].parent == rs[i].parent && rs[j].path != [] && rs[j].path[|rs[j].path| - 1] == name
    && (forall k :: 0 <= k < j ==> rs[k].path != rs[j].path)
  }

  /** A name of one segment, looked up from where a method is declared, leads to what is declared beside it. */
  lemma SiblingFound(w: World, i: nat, j: nat, name: NameSeg)
    requires Tree(w.records) && 0 < i && 0 < j && Sibling(w.records, i, j, name)
    ensures RecordNamed(w, w.records[w.records[i].parent.value].path, SoleSegment(name)) == Ok(w.records[j])
  {
    hide Find;
    var rs := w.records;
    assert Placed(rs, i) && Placed(rs, j);
    var scope := rs[rs[i].parent.value].path;
    assert rs[j].path == scope + [name];
    FirstRecord(rs, j);
    NameSize(name);
    assert rs[j] in rs;
    assert rs[j].path in Paths(rs);
  }

  lemma FirstRecord(rs: Records, j: nat)
    requires j < |rs| && forall k :: 0 <= k < j ==> rs[k].path != rs[j].path
    ensures Find(rs, rs[j].path) == Some(j)
  {
  }

  lemma NameSize(name: NameSeg)
    ensures Parsed(SoleSegment(name)) == EncodedName(Local, 0, [name], false, 4)
  {
    assert [name][1..] == [];
    assert Flatten([name]) == name;
  }

  lemma {:induction false} OneScopeOut(known: set<Path>, scope: Path, name: EncodedName)
    requires name.anchor == Local && !name.isNull && scope != [] && |scope| + |name.segments| <= MAX_SEGMENTS
    requires scope + name.segments !in known
    ensures Lookup(known, scope, name) == Lookup(known, Parent(scope), name)
  {
  }

  lemma NotThere(rs: Records, path: Path)
    requires Find(rs, path).None?
    ensures path !in Paths(rs)
  {
  }

  /** A name that is not declared in a scope means there what it means in the scope around it. */
  lemma {:induction false} LookedForOutside(w: World, scope: Path, name: NameSeg)
    requires scope != [] && |scope| < MAX_SEGMENTS && Find(w.records, scope + [name]).None?
    ensures RecordNamed(w, scope, SoleSegment(name)) == RecordNamed(w, Parent(scope), SoleSegment(name))
  {
    hide Find, Paths, Lookup;
    NameSize(name);
    NotThere(w.records, scope + [name]);
    OneScopeOut(Paths(w.records), scope, Parsed(SoleSegment(name)));
  }

  lemma {:induction false} ReturnMeans(w: World, at: Site, e: Expr, s: Store, fuel: nat)
    ensures Execute(w, at, Then(Return(e), Done), s, fuel)
            == match Eval(w, at, e, s, fuel)
               case Ok(x) => Ok(Flow(Returned(x.value), x.store))
               case Err(x) => Err(x)
  {
    hide Eval, Store.Clean, Step.Clean, Flow.Clean;
    assert ExecuteStmt(w, at, Return(e), s, fuel)
           == match Eval(w, at, e, s, fuel)
              case Ok(x) => Ok(Flow(Returned(x.value), x.store))
              case Err(x) => Err(x);
  }

  lemma {:induction false} AssignMeans(w: World, at: Site, e: Expr, t: Target, s: Store, fuel: nat)
    requires Eval(w, at, e, s, fuel).Ok? && Eval(w, at, e, s, fuel).value.store == s
    ensures Execute(w, at, Then(Do(Assign(e, t)), Done), s, fuel)
            == match PutAt(w, at, t, Eval(w, at, e, s, fuel).value.value, s, fuel)
               case Ok(s') => Ok(Flow(Continue, s'))
               case Err(x) => Err(x)
  {
    hide PutAt, Store.Clean, Step.Clean, Flow.Clean;
    var st := Do(Assign(e, t));
    var v := Eval(w, at, e, s, fuel).value.value;
    assert Eval(w, at, Assign(e, t), s, fuel)
           == match PutAt(w, at, t, v, s, fuel) case Ok(s') => Ok(Step(v, s')) case Err(x) => Err(x);
    assert ExecuteStmt(w, at, st, s, fuel)
           == match PutAt(w, at, t, v, s, fuel) case Ok(s') => Ok(Flow(Continue, s')) case Err(x) => Err(x);
  }

  /** So a called method that returns such a name returns the current value of what is declared beside it, whatever
      scope it is called from. */
  lemma {:induction false} CallReadsSibling(w: World, at: Site, n: NameRef, values: seq<Value>, shared: Shared, fuel: nat,
                                            i: nat, j: nat, name: NameSeg)
    requires Tree(w.records) && 0 < i && 0 < j && Sibling(w.records, i, j, name) && NameOk(SoleSegment(name))
    requires at.depth < MAX_DEPTH && |values| <= 7 && NamesRecord(w, at.scope, n)
    requires RecordNamed(w, at.scope, n) == Ok(w.records[i]) && IsMethod(w.records[i])
    requires w.records[i].payload.info.node == i && i in w.library
    requires w.library[i] == Then(Return(Named(SoleSegment(name))), Done)
    ensures Invoke(w, at, n, values, shared, fuel)
            == match CellAt(w, w.records[j], Entry(values, shared))
               case Ok(v) => Ok(Answer(v, shared))
               case Err(x) => Err(x)
  {
    hide RecordNamed, NameOk, FindId, Find, CellAt, Tree, BodyScope, Store.Clean, Step.Clean, Flow.Clean;
    BodyStartsAtParent(w.records, i);
    SiblingFound(w, i, j, name);
    var s := Entry(values, shared);
    var inner := Site(BodyScope(w.records, i), at.depth + 1);
    assert s.BindingFor(SoleSegment(name)).None?;
    assert NamedAt(w, inner.scope, SoleSegment(name), s) == CellAt(w, w.records[j], s);
    ReturnMeans(w, inner, Named(SoleSegment(name)), s, fuel);
  }

  /** Calls nest 64 deep: the body of a call made at depth 63 runs, one made at depth 64 is refused. */
  lemma {:induction false} CallsNest(w: World, at: Site, n: NameRef, s: Store, fuel: nat)
    requires at.depth <= 64
    ensures at.depth == 64 ==> Eval(w, at, Call(n, NoArgs), s, fuel) == Err(InvalidState)
    ensures at.depth <= 63 ==>
              Eval(w, at, Call(n, NoArgs), s, fuel)
              == match Invoke(w, at, n, [], s.shared, fuel)
                 case Ok(answer) => Ok(Step(answer.value, s.(shared := answer.shared)))
                 case Err(x) => Err(x)
  {
    hide Invoke, Store.Clean, Step.Clean;
  }

  /** So a method that does nothing but call itself always ends in that error, from whatever depth it is called. */
  lemma {:induction false} EndlessCallsFail(w: World, at: Site, name: NameSeg, s: Store, fuel: nat, i: nat)
    requires Tree(w.records) && 0 < i < |w.records| && Sibling(w.records, i, i, name) && NameOk(SoleSegment(name))
    requires IsMethod(w.records[i]) && w.records[i].payload.info.node == i && i in w.library
    requires w.library[i] == Then(Return(Call(SoleSegment(name), NoArgs)), Done)
    requires at.depth <= 64 && at.scope == w.records[w.records[i].parent.value].path
    ensures Eval(w, at, Call(SoleSegment(name), NoArgs), s, fuel) == Err(InvalidState)
    decreases 64 - at.depth
  {
    hide RecordNamed, NameOk, FindId, Find, Tree, BodyScope, Store.Clean, Step.Clean, Flow.Clean, Eval, Execute;
    CallsNest(w, at, SoleSegment(name), s, fuel);
    if at.depth < 64 {
      BodyStartsAtParent(w.records, i);
      SiblingFound(w, i, i, name);
      var inner := Site(BodyScope(w.records, i), at.depth + 1);
      EndlessCallsFail(w, inner, name, Entry([], s.shared), fuel, i);
      ReturnMeans(w, inner, Call(SoleSegment(name), NoArgs), Entry([], s.shared), fuel);
    }
  }

  /** And one that stores into such a name changes what is declared beside it. */
  lemma {:induction false} CallWritesSibling(w: World, at: Site, n: NameRef, v: Value, shared: Shared, fuel: nat,
                                             i: nat, j: nat, name: NameSeg)
    requires Tree(w.records) && 0 < i && 0 < j && Sibling(w.records, i, j, name) && NameOk(SoleSegment(name))
    requires at.depth < MAX_DEPTH && NamesRecord(w, at.scope, n)
    requires RecordNamed(w, at.scope, n) == Ok(w.records[i]) && IsMethod(w.records[i])
    requires w.records[i].payload.info.node == i && i in w.library
    requires w.library[i] == Then(Do(Assign(Read(Argument(0)), IntoName(SoleSegment(name)))), Done)
    ensures Invoke(w, at, n, [v], shared, fuel)
            == match PutCell(w, w.records[j], v, shared)
               case Ok(shared') => Ok(Answer(NoValue, shared'))
               case Err(x) => Err(x)
  {
    hide RecordNamed, NameOk, FindId, Find, PutCell, Tree, BodyScope, Store.Clean, Step.Clean, Flow.Clean;
    BodyStartsAtParent(w.records, i);
    SiblingFound(w, i, j, name);
    var s := Entry([v], shared);
    var inner := Site(BodyScope(w.records, i), at.depth + 1);
    assert s.BindingFor(SoleSegment(name)).None? && s.Get(Argument(0)) == Ok(v);
    assert Eval(w, inner, Read(Argument(0)), s, fuel) == Ok(Step(v, s));
    assert PutAt(w, inner, IntoName(SoleSegment(name)), v, s, fuel)
           == match PutCell(w, w.records[j], v, shared)
              case Ok(shared') => Ok(s.(shared := shared'))
              case Err(x) => Err(x);
    AssignMeans(w, inner, Read(Argument(0)), IntoName(SoleSegment(name)), s, fuel);
  }
}
