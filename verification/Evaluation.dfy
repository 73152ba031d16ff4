/** One evaluator at work. Every method keeps the same promises, for any bytecode whatever: the frame
    and the tables stay well formed, integers fit the width, no call goes deeper than the limit, and a
    refused Acquire is either the reason the body stops or an error. And where the bytes spell an
    expression or a statement, the method computes its meaning. */
module Evaluation {
  import opened Wrappers
  import opened Bits
  import opened Names
  import opened Fields
  import opened Namespace
  import opened SlotTable
  import opened Values
  import opened Elements
  import opened Programs
  import opened Frames
  import opened Evaluator
  import RuntimeState
  import Loader
  import LoaderTerms

  /** The store after a field list that starts `start` bytes into some code is the store after the list itself. */
  lemma {:induction false} ListInside(code: seq<byte>, start: nat, list: seq<byte>, cursor: nat, s: Programs.Store,
                                      region: Region, flags: byte, at: nat)
    requires start <= |code| && code[start..] == list
    ensures FieldsInto(s, region, flags, code, start + cursor, at) == FieldsInto(s, region, flags, list, cursor, at)
    decreases |list| - cursor
  {
    hide Loader.EntryAt, Store.Clean, NamesClean;
    if cursor < |list| {
      EntryInside(code, start, list, cursor);
      var entry := Loader.EntryAt(list, cursor);
      if entry.Ok? {
        match entry.value {
          case Gap(bits, next) => ListInside(code, start, list, next, s, region, flags, at + bits);
          case Item(width, next) =>
            assert code[start + cursor..start + cursor + 4] == list[cursor..cursor + 4];
            var s' := s.Bind(list[cursor..cursor + 4], FieldIn(region, flags, at, width));
            if s'.Ok? { ListInside(code, start, list, next, s'.value, region, flags, at + width); }
        }
      }
    }
  }

  lemma EntryInside(code: seq<byte>, start: nat, list: seq<byte>, cursor: nat)
    requires start <= |code| && code[start..] == list && cursor < |list|
    ensures match Loader.EntryAt(list, cursor)
            case Err(e) => Loader.EntryAt(code, start + cursor) == Err(e)
            case Ok(Gap(bits, next)) => Loader.EntryAt(code, start + cursor) == Ok(Loader.Gap(bits, start + next))
            case Ok(Item(width, next)) => Loader.EntryAt(code, start + cursor) == Ok(Loader.Item(width, start + next))
  {
    hide ParsePkg, ParseName;
    var c := start + cursor;
    assert code[c] == list[cursor];
    assert code[c + 1..] == list[cursor + 1..];
    if cursor + 4 <= |list| {
      assert code[c..c + 4] == list[cursor..cursor + 4] && code[c + 4..] == list[cursor + 4..];
    }
  }

  class Machine {
    const records: Records
    const blocks: seq<seq<byte>>
    const revision: byte
    const host: Host?
    const state: RuntimeState.Tables?

    /** Whether bytes are well-formed text, and whether the host accepts a request. */
    const isText: seq<byte> -> bool
    const accepts: Request -> bool

    var requests: seq<Request>

    /** The depth of every frame entered, and of every Acquire that was refused, in order. */
    var entered: seq<nat>
    var refusals: seq<nat>

    /** How often a While or a static Buffer was begun, and whether one was cut short. */
    var loops: nat
    var starved: bool

    /** The source of the methods, where there is one, and whether it reads elements by Index. */
    ghost const library: map<nat, Block>
    ghost const indexes: bool

    constructor (records: Records, blocks: seq<seq<byte>>, revision: byte, host: Host?, state: RuntimeState.Tables?,
                 isText: seq<byte> -> bool, accepts: Request -> bool, ghost library: map<nat, Block>,
                 ghost indexes: bool)
      ensures this.records == records && this.blocks == blocks && this.revision == revision
      ensures this.host == host && this.state == state && this.isText == isText && this.accepts == accepts
      ensures this.library == library && this.indexes == indexes
      ensures requests == [] && entered == [] && refusals == [] && loops == 0 && !starved
    {
      this.records, this.blocks, this.revision, this.host, this.state := records, blocks, revision, host, state;
      this.isText, this.accepts, this.library, this.indexes := isText, accepts, library, indexes;
      requests, entered, refusals, loops, starved := [], [], [], 0, false;
    }

    function IntegerWidth(): Width { WidthOfRevision(revision) }

    ghost function TheWorld(): World { World(records, blocks, IntegerWidth(), library, accepts, isText, indexes) }

    function TablesNow(): Option<RuntimeState.Overlay>
      reads this, state
    {
      if state == null then None else Some(state.Contents())
    }

    function MemoryNow(): Option<Memory>
      reads this, host
    {
      if host == null then None else Some(host.bytes)
    }

    /** What every body shares. */
    function SharedNow(): Shared
      reads this, host, state
    {
      Shared(TablesNow(), MemoryNow(), requests)
    }

    /** What the body in this frame can change. */
    function StoreOf(frame: Frame): Programs.Store
      reads this, frame, host, state
    {
      frame.Contents(SharedNow())
    }

    ghost function SiteOf(frame: Frame): Site { Site(frame.scope, frame.depth) }

    // ---- What every method relies on and keeps ----

    ghost predicate Steady()
      reads this, state
    {
      && (state != null ==> state.Valid())
      && forall i :: 0 <= i < |entered| ==> entered[i] <= MAX_DEPTH
    }

    ghost predicate Ready(frame: Frame)
      reads this, frame, state
    {
      Steady() && frame.Valid() && frame.width == IntegerWidth()
    }

    /** Only a While or a static Buffer can be cut short. */
    twostate predicate Onward()
      reads this
    {
      loops >= old(loops) && (starved ==> old(starved) || loops > old(loops))
    }

    /** A result is the sign of a run cut short only where one was. */
    ghost predicate CutIfStarved<T>(r: Result<T>)
      reads this
    {
      r == Err(OutOfFuel) ==> starved
    }

    ghost predicate FitsFrame(frame: Frame, v: Value) { frame.trusted ==> Values.Fits(v, IntegerWidth()) }

    twostate predicate TermDone(frame: Frame, bytes: seq<byte>, new r: Result<Term>)
      reads this, frame, state
    {
      && Ready(frame) && Onward() && CutIfStarved(r)
      && (r.Ok? ==> 1 <= r.value.consumed <= |bytes| && FitsFrame(frame, r.value.value) && refusals == old(refusals))
    }

    twostate predicate TargetDone(frame: Frame, bytes: seq<byte>, new r: Result<nat>)
      reads this, frame, state
    {
      && Ready(frame) && Onward() && CutIfStarved(r)
      && (r.Ok? ==> 1 <= r.value <= |bytes| && refusals == old(refusals))
    }

    twostate predicate ControlDone(frame: Frame, new control: Control)
      reads this
    {
      && refusals == old(refusals) + (if control.Blocked? then [frame.depth] else [])
      && (control.Returned? ==> FitsFrame(frame, control.value))
    }

    twostate predicate ProgressDone(frame: Frame, new r: Result<Progress>)
      reads this, frame, state
    {
      Ready(frame) && Onward() && CutIfStarved(r) && (r.Ok? ==> ControlDone(frame, r.value.control))
    }

    // ---- Bytes that spell something ----

    /** Every method of the library is compiled: its body is the spelling of its source. */
    ghost predicate Compiled() {
      forall i :: 0 <= i < |records| && IsMethod(records[i]) ==> CompiledMethod(records[i].payload.info)
    }

    ghost predicate CompiledMethod(m: MethodInfo) {
      m.node in library ==>
        && FindId(records, m.node).Some?
        && BlockOk(TheWorld(), BodyScope(records, m.node), library[m.node])
        && CodeBytes(blocks, m.body) == Some(SpellBlock(TheWorld(), BodyScope(records, m.node), library[m.node]))
    }

    /** The body's own part of the store is one that a program can be run on. */
    ghost predicate CleanFrame(frame: Frame)
      reads frame
    {
      && SlotsUsable(TheWorld(), frame.locals) && SlotsUsable(TheWorld(), frame.args)
      && NamesClean(TheWorld(), frame.scope, View(frame.named))
    }

    ghost predicate Fluent(frame: Frame)
      reads frame
    {
      CleanFrame(frame) && Compiled()
    }

    ghost predicate Speaks(frame: Frame, bytes: seq<byte>, e: Option<Expr>)
      reads frame
    {
      e.Some? ==> Fluent(frame) && ExprOk(TheWorld(), frame.scope, e.value)
                  && Spell(TheWorld(), frame.scope, e.value) <= bytes
    }

    ghost predicate SpeaksStmt(frame: Frame, bytes: seq<byte>, s: Option<Stmt>)
      reads frame
    {
      s.Some? ==>
        && Fluent(frame) && StmtOk(TheWorld(), frame.scope, s.value)
        && SpellStmt(TheWorld(), frame.scope, s.value) <= bytes
        && (|bytes| > |SpellStmt(TheWorld(), frame.scope, s.value)| ==>
              bytes[|SpellStmt(TheWorld(), frame.scope, s.value)|] != 0xA1)
    }

    ghost predicate SpeaksBlock(frame: Frame, bytes: seq<byte>, b: Option<Block>)
      reads frame
    {
      b.Some? ==>
        && Fluent(frame) && BlockOk(TheWorld(), frame.scope, b.value)
        && bytes == SpellBlock(TheWorld(), frame.scope, b.value)
    }

    /** The method returned what the meaning says, and left the frame as it says. */
    ghost predicate Means(frame: Frame, e: Expr, meaning: Result<Step>, r: Result<Term>)
      requires ExprOk(TheWorld(), frame.scope, e)
      reads this, frame, host, state
    {
      match meaning
      case Err(x) => r == Err(x)
      case Ok(step) => r == Ok(Term(step.value, |Spell(TheWorld(), frame.scope, e)|))
                       && StoreOf(frame) == step.store
    }

    ghost predicate MeansControl(frame: Frame, meaning: Result<Flow>, r: Result<Control>)
      reads this, frame, host, state
    {
      match meaning
      case Err(x) => r == Err(x)
      case Ok(flow) => r == Ok(flow.control) && StoreOf(frame) == flow.store
    }

    /** A statement that lets control go on has taken exactly its own bytes. */
    ghost predicate MeansProgress(frame: Frame, s: Stmt, meaning: Result<Flow>, r: Result<Progress>)
      requires StmtOk(TheWorld(), frame.scope, s)
      reads this, frame, host, state
    {
      match meaning
      case Err(x) => r == Err(x)
      case Ok(flow) =>
        && r.Ok? && r.value.control == flow.control && StoreOf(frame) == flow.store
        && (flow.control.Continue? ==> r.value.consumed == |SpellStmt(TheWorld(), frame.scope, s)|)
        && r.value.consumed > 0
    }

    // ---- Statements ----

    method EvalTermList(bytes: seq<byte>, frame: Frame, fuel: nat, ghost b: Option<Block>) returns (r: Result<Control>)
      requires Ready(frame) && SpeaksBlock(frame, bytes, b)
      modifies this, frame, host, state
      ensures Ready(frame) && Onward() && CutIfStarved(r) && (r.Ok? ==> ControlDone(frame, r.value))
      ensures b.Some? ==>
                MeansControl(frame, Execute(TheWorld(), SiteOf(frame), b.value, old(StoreOf(frame)), fuel), r)
      decreases fuel, MAX_DEPTH - frame.depth, |bytes|, 9
    {
      hide Spell, ExprOk, SpellStmt, StmtOk, ExecuteStmt, Compiled, BlockOk, Ready;
      var offset := 0;
      ghost var left := b;
      while offset < |bytes|
        invariant Ready(frame) && Onward() && refusals == old(refusals)
        invariant b.Some? == left.Some?
        invariant b.Some? ==> offset <= |bytes| && SpeaksBlock(frame, bytes[offset..], left)
        invariant b.Some? ==> Execute(TheWorld(), SiteOf(frame), b.value, old(StoreOf(frame)), fuel)
                              == Execute(TheWorld(), SiteOf(frame), left.value, StoreOf(frame), fuel)
        decreases |bytes| - offset
      {
        ghost var first := FirstOf(left);
        if b.Some? { FirstSpeaks(frame, bytes[offset..], left.value); }
        var p :- EvalStatement(bytes[offset..], frame, fuel, first);
        if p.consumed == 0 { return Err(InvalidBytecode); }
        if b.Some? && p.control.Continue? {
          RestSpeaks(frame.scope, bytes[offset..], left.value, p.consumed);
          assert bytes[offset..][p.consumed..] == bytes[offset + p.consumed..];
        }
        offset := offset + p.consumed;
        if !p.control.Continue? { return Ok(p.control); }
        left := if b.Some? then Some(left.value.rest) else None;
      }
      return Ok(Continue);
    }

    ghost function FirstOf(b: Option<Block>): Option<Stmt> {
      if b.Some? && b.value.Then? then Some(b.value.first) else None
    }

    lemma FirstSpeaks(frame: Frame, bytes: seq<byte>, b: Block)
      requires SpeaksBlock(frame, bytes, Some(b)) && bytes != []
      ensures b.Then? && SpeaksStmt(frame, bytes, Some(b.first))
    {
      var w, scope := TheWorld(), frame.scope;
      assert b.Then?;
      BlockLead(w, scope, b.rest);
    }

    lemma RestSpeaks(scope: Path, bytes: seq<byte>, b: Block, n: nat)
      requires b.Then? && BlockOk(TheWorld(), scope, b) && bytes == SpellBlock(TheWorld(), scope, b)
      requires n == |SpellStmt(TheWorld(), scope, b.first)|
      ensures n <= |bytes| && BlockOk(TheWorld(), scope, b.rest) && bytes[n..] == SpellBlock(TheWorld(), scope, b.rest)
    {
    }

    method EvalStatement(bytes: seq<byte>, frame: Frame, fuel: nat, ghost s: Option<Stmt>) returns (r: Result<Progress>)
      requires Ready(frame) && SpeaksStmt(frame, bytes, s)
      modifies this, frame, host, state
      ensures ProgressDone(frame, r)
      ensures s.Some? ==>
                MeansProgress(frame, s.value, ExecuteStmt(TheWorld(), SiteOf(frame), s.value, old(StoreOf(frame)), fuel), r)
      decreases fuel, MAX_DEPTH - frame.depth, |bytes|, 8
    {
      hide Spell, ExprOk, Compiled, Ready, SpellGuarded, GuardedOk, SpellPackage, Eval, Execute;
      if bytes == [] { return Err(Truncated); }
      if s.Some? { SpellStmtKind(TheWorld(), frame.scope, s.value); }
      match StmtKindOf(bytes[0]) {
        case NameStmt => r := EvalNameStatement(bytes, frame, fuel, s);
        case WhileStmt => r := EvalWhile(bytes, frame, fuel, s);
        case NoopStmt => return Ok(Progress(1, Continue));
        case StoreStmt =>
          var t :- EvalStore(bytes, frame, fuel, if s.Some? then Some(s.value.expr) else None);
          return Ok(Progress(t.consumed, Continue));
        case ExtStmt => r := EvalExtStatement(bytes, frame, fuel, s);
        case IfStmt => r := EvalIf(bytes, frame, fuel, s);
        case BreakStmt => return Ok(Progress(1, Leave));
        case ReturnStmt =>
          var t :- EvalTermArg(bytes[1..], frame, fuel, if s.Some? then Some(s.value.expr) else None);
          return Ok(Progress(1 + t.consumed, Returned(t.value)));
        case TermStmt =>
          var t :- EvalTermArg(bytes, frame, fuel, if s.Some? then Some(s.value.expr) else None);
          return Ok(Progress(t.consumed, Continue));
      }
    }

    method EvalIf(bytes: seq<byte>, frame: Frame, fuel: nat, ghost s: Option<Stmt>) returns (r: Result<Progress>)
      requires Ready(frame) && SpeaksStmt(frame, bytes, s) && bytes != []
      requires s.Some? ==> s.value.If? || s.value.IfElse?
      modifies this, frame, host, state
      ensures ProgressDone(frame, r)
      ensures s.Some? ==>
                MeansProgress(frame, s.value, ExecuteStmt(TheWorld(), SiteOf(frame), s.value, old(StoreOf(frame)), fuel), r)
      decreases fuel, MAX_DEPTH - frame.depth, |bytes|, 7
    {
      hide Spell, ExprOk, Compiled, SpellStmt, StmtOk, SpellBlock, BlockOk, SpellGuarded, GuardedOk;
      hide PackageAt, Eval, Execute, Ready;
      if s.Some? {
        IfParts(TheWorld(), frame.scope, s.value, bytes);
        GuardedParts(TheWorld(), frame.scope, s.value.size, s.value.condition, s.value.yes, bytes);
        ElseSkipped(TheWorld(), frame.scope, s.value, bytes);
      }
      var x :- PackageAt(bytes, 1);
      var t :- EvalTermArg(bytes[x.start..x.end], frame, fuel, if s.Some? then Some(s.value.condition) else None);
      if !AsLogic(t.value) {
        r := EvalElse(bytes, x.end, frame, fuel, s);
        return;
      }
      var control :- EvalTermList(bytes[x.start + t.consumed..x.end], frame, fuel,
                                  if s.Some? then Some(s.value.yes) else None);
      if !control.Continue? { return Ok(Progress(x.end, control)); }
      var consumed :- SkipElse(bytes, x.end);
      return Ok(Progress(consumed, Continue));
    }

    /** What follows an If whose condition failed. */
    method EvalElse(bytes: seq<byte>, end: nat, frame: Frame, fuel: nat, ghost s: Option<Stmt>) returns (r: Result<Progress>)
      requires Ready(frame) && SpeaksStmt(frame, bytes, s) && 0 < end <= |bytes|
      requires s.Some? ==> (s.value.If? || s.value.IfElse?) && end == IfEnd(TheWorld(), frame.scope, s.value)
      modifies this, frame, host, state
      ensures ProgressDone(frame, r)
      ensures s.Some? ==>
                MeansProgress(frame, s.value,
                              if s.value.If? then Ok(Flow(Continue, old(StoreOf(frame))))
                              else Execute(TheWorld(), SiteOf(frame), s.value.no, old(StoreOf(frame)), fuel), r)
      decreases fuel, MAX_DEPTH - frame.depth, |bytes|, 6
    {
      hide Spell, ExprOk, Compiled, SpellStmt, StmtOk, SpellBlock, BlockOk, SpellGuarded, GuardedOk;
      hide PackageAt, Eval, Execute, Ready;
      if s.Some? {
        if s.value.IfElse? { ElseParts(TheWorld(), frame.scope, s.value, bytes); }
        else { IfParts(TheWorld(), frame.scope, s.value, bytes); }
      }
      if end == |bytes| || bytes[end] != 0xA1 { return Ok(Progress(end, Continue)); }
      var y :- PackageAt(bytes[end..], 1);
      var control :- EvalTermList(bytes[end..][y.start..y.end], frame, fuel, if s.Some? then Some(s.value.no) else None);
      return Ok(Progress(end + y.end, control));
    }

    method EvalWhile(bytes: seq<byte>, frame: Frame, fuel: nat, ghost s: Option<Stmt>) returns (r: Result<Progress>)
      requires Ready(frame) && SpeaksStmt(frame, bytes, s) && bytes != [] && (s.Some? ==> s.value.While?)
      modifies this, frame, host, state
      ensures ProgressDone(frame, r)
      ensures s.Some? ==>
                MeansProgress(frame, s.value, ExecuteStmt(TheWorld(), SiteOf(frame), s.value, old(StoreOf(frame)), fuel), r)
      decreases fuel, MAX_DEPTH - frame.depth, |bytes|, 7
    {
      hide Spell, ExprOk, Compiled, SpellStmt, StmtOk, SpellBlock, BlockOk, SpellGuarded, GuardedOk, PackageAt, Eval;
      hide ExecuteStmt, Execute, Frame.Valid, Turns;
      if s.Some? {
        IfParts(TheWorld(), frame.scope, s.value, bytes);
        GuardedParts(TheWorld(), frame.scope, s.value.size, s.value.condition, s.value.body, bytes);
        WhileMeaning(TheWorld(), SiteOf(frame), s.value, StoreOf(frame), fuel);
      }
      var x :- PackageAt(bytes, 1);
      loops := loops + 1;
      var turns := fuel;
      while turns > 0
        invariant Ready(frame) && Onward() && refusals == old(refusals) && loops > old(loops)
        invariant s.Some? ==> Fluent(frame)
        invariant s.Some? ==> Turns(TheWorld(), SiteOf(frame), s.value, StoreOf(frame), fuel, turns)
                              == ExecuteStmt(TheWorld(), SiteOf(frame), s.value, old(StoreOf(frame)), fuel)
        decreases turns
      {
        if s.Some? { OneTurn(TheWorld(), SiteOf(frame), s.value, StoreOf(frame), fuel, turns); }
        var t :- EvalTermArg(bytes[x.start..x.end], frame, fuel, if s.Some? then Some(s.value.condition) else None);
        if !AsLogic(t.value) { return Ok(Progress(x.end, Continue)); }
        var control :- EvalTermList(bytes[x.start + t.consumed..x.end], frame, fuel,
                                    if s.Some? then Some(s.value.body) else None);
        match control {
          case Continue =>
          case Leave => return Ok(Progress(x.end, Continue));
          case _ => return Ok(Progress(x.end, control));
        }
        turns := turns - 1;
      }
      if s.Some? { OneTurn(TheWorld(), SiteOf(frame), s.value, StoreOf(frame), fuel, 0); }
      starved := true;
      return Err(OutOfFuel);
    }

    /** A Name inside a body: the object is built, and the name bound to it. */
    method EvalNameStatement(bytes: seq<byte>, frame: Frame, fuel: nat, ghost s: Option<Stmt>) returns (r: Result<Progress>)
      requires Ready(frame) && SpeaksStmt(frame, bytes, s) && bytes != [] && (s.Some? ==> s.value.Declare?)
      modifies this, frame, host, state
      ensures ProgressDone(frame, r)
      ensures s.Some? ==>
                MeansProgress(frame, s.value, ExecuteStmt(TheWorld(), SiteOf(frame), s.value, old(StoreOf(frame)), fuel), r)
      decreases fuel, MAX_DEPTH - frame.depth, |bytes|, 7
    {
      hide Spell, ExprOk, Compiled, SpellStmt, StmtOk, Build, SpellInit, InitOk, ParseName, MayBind, Ready;
      hide CleanFrame, StoreOf, Store.Bind;
      if s.Some? {
        DeclareParts(TheWorld(), frame.scope, s.value, bytes);
        SegmentFound(s.value.local, bytes[1..]);
      }
      var name :- ParseName(bytes[1..]);
      var from := 1 + name.consumed;
      var t :- EvalNameInitializer(bytes[from..], frame, fuel, if s.Some? then Some(s.value.init) else None);
      if LocalSegment(name).None? { return Err(Unsupported); }
      var _ :- BindName(frame, LocalSegment(name).value, BoundValue(t.value));
      return Ok(Progress(from + t.consumed, Continue));
    }

    /** Binds a name in the body: over its old binding, or as one of at most eight. */
    method BindName(frame: Frame, name: NameSeg, binding: Binding) returns (r: Result<Unit>)
      requires Ready(frame) && (frame.trusted ==> BindingFits(binding, IntegerWidth()))
      modifies frame`named
      ensures Ready(frame) && r != Err(OutOfFuel)
      ensures match old(StoreOf(frame)).Bind(name, binding)
              case Ok(s) => r.Ok? && StoreOf(frame) == s
              case Err(x) => r == Err(x)
    {
      hide View;
      r := frame.Bind(name, binding);
    }

    method EvalExtStatement(bytes: seq<byte>, frame: Frame, fuel: nat, ghost s: Option<Stmt>) returns (r: Result<Progress>)
      requires Ready(frame) && SpeaksStmt(frame, bytes, s) && bytes != []
      requires s.Some? ==> IsExt(s.value)
      modifies this, frame, host, state
      ensures ProgressDone(frame, r)
      ensures s.Some? ==>
                MeansProgress(frame, s.value, ExecuteStmt(TheWorld(), SiteOf(frame), s.value, old(StoreOf(frame)), fuel), r)
      decreases fuel, MAX_DEPTH - frame.depth, |bytes|, 7
    {
      hide Spell, ExprOk, Compiled, Ready, SpellStmt, StmtOk, SpellName, NameOk, RecordNamed;
      if s.Some? { ExtParts(frame.scope, s.value, bytes); }
      if |bytes| < 2 { return Err(Truncated); }
      match bytes[1] {
        case 0x80 => r := EvalDynamicRegion(bytes, frame, fuel, s);
        case 0x81 => r := EvalDynamicField(bytes, frame, fuel, s);
        case 0x21 => r := EvalDelay(bytes, frame, fuel, true, s);
        case 0x22 => r := EvalDelay(bytes, frame, fuel, false, s);
        case 0x23 => r := EvalAcquire(bytes, frame, fuel, s);
        case 0x27 => r := EvalRelease(bytes, frame, fuel, s);
        case 0x86 => r := EvalNotify(bytes, frame, fuel, s);
        case _ => return Err(Unsupported);
      }
    }

    predicate IsExt(s: Stmt) {
      s.Acquire? || s.Release? || s.Wait? || s.Signal? || s.DeclareRegion? || s.DeclareFields?
    }

    lemma ExtParts(scope: Path, s: Stmt, bytes: seq<byte>)
      requires IsExt(s) && StmtOk(TheWorld(), scope, s) && SpellStmt(TheWorld(), scope, s) <= bytes
      ensures |bytes| >= 2
      ensures bytes[1] == match s
                          case Acquire(_, _) => 0x23
                          case Release(_) => 0x27
                          case Wait(stall, _) => if stall then 0x21 else 0x22
                          case DeclareRegion(_, _, _, _) => 0x80
                          case DeclareFields(_, _, _, _) => 0x81
                          case _ => 0x86
    {
      hide StmtOk, SpellStmt;
      match s {
        case Wait(_, _) => WaitParts(TheWorld(), scope, s, bytes);
        case Signal(_, _) => SignalParts(TheWorld(), scope, s, bytes);
        case DeclareRegion(_, _, _, _) => RegionParts(TheWorld(), scope, s, bytes);
        case DeclareFields(_, _, _, _) => FieldsParts(TheWorld(), scope, s, bytes);
        case _ => MutexParts(TheWorld(), scope, s, bytes);
      }
    }

    /** Stall and Sleep. */
    method EvalDelay(bytes: seq<byte>, frame: Frame, fuel: nat, stall: bool, ghost s: Option<Stmt>)
      returns (r: Result<Progress>)
      requires Ready(frame) && |bytes| >= 2 && SpeaksStmt(frame, bytes, s)
      requires s.Some? ==> s.value.Wait? && s.value.stall == stall
      modifies this, frame, host, state
      ensures ProgressDone(frame, r)
      ensures s.Some? ==>
                MeansProgress(frame, s.value, ExecuteStmt(TheWorld(), SiteOf(frame), s.value, old(StoreOf(frame)), fuel), r)
      decreases fuel, MAX_DEPTH - frame.depth, |bytes|, 6
    {
      hide Spell, ExprOk, Compiled, SpellStmt, StmtOk, Eval;
      if s.Some? { WaitParts(TheWorld(), frame.scope, s.value, bytes); }
      if host == null { return Err(Unsupported); }
      var t :- EvalTermArg(bytes[2..], frame, fuel, if s.Some? then Some(s.value.time) else None);
      var n :- AsInteger(t.value);
      var _ :- Ask(if stall then Stall(n % 0x1_0000_0000) else Sleep(n % 0x1_0000_0000));
      return Ok(Progress(2 + t.consumed, Continue));
    }

    method EvalNotify(bytes: seq<byte>, frame: Frame, fuel: nat, ghost s: Option<Stmt>) returns (r: Result<Progress>)
      requires Ready(frame) && |bytes| >= 2 && SpeaksStmt(frame, bytes, s) && (s.Some? ==> s.value.Signal?)
      modifies this, frame, host, state
      ensures ProgressDone(frame, r)
      ensures s.Some? ==>
                MeansProgress(frame, s.value, ExecuteStmt(TheWorld(), SiteOf(frame), s.value, old(StoreOf(frame)), fuel), r)
      decreases fuel, MAX_DEPTH - frame.depth, |bytes|, 6
    {
      hide Spell, ExprOk, Compiled, SpellStmt, StmtOk, Eval, ResolveSuperName, SpellName, NameOk, RecordNamed;
      if s.Some? {
        SignalParts(TheWorld(), frame.scope, s.value, bytes);
        ObjectFound(bytes[2..], frame.scope, s.value.device);
      }
      if host == null { return Err(Unsupported); }
      var target :- ResolveSuperName(bytes[2..], frame.scope);
      if target.node.None? { return Err(Unsupported); }
      var t :- EvalTermArg(bytes[2 + target.consumed..], frame, fuel, if s.Some? then Some(s.value.value) else None);
      var n :- AsInteger(t.value);
      var _ :- Ask(Notify(target.node.value, n % 256));
      return Ok(Progress(2 + target.consumed + t.consumed, Continue));
    }

    method Ask(request: Request) returns (r: Result<Unit>)
      modifies this`requests
      ensures r == if accepts(request) then Ok(Unit) else Err(HostFailure)
      ensures requests == old(requests) + [request]
    {
      requests := requests + [request];
      return if accepts(request) then Ok(Unit) else Err(HostFailure);
    }

    /** An Acquire that is refused stops the body: this is the only source of `Blocked`. */
    method EvalAcquire(bytes: seq<byte>, frame: Frame, fuel: nat, ghost s: Option<Stmt>) returns (r: Result<Progress>)
      requires Ready(frame) && |bytes| >= 2 && SpeaksStmt(frame, bytes, s) && (s.Some? ==> s.value.Acquire?)
      modifies this, frame, host, state
      ensures ProgressDone(frame, r)
      ensures s.Some? ==>
                MeansProgress(frame, s.value, ExecuteStmt(TheWorld(), SiteOf(frame), s.value, old(StoreOf(frame)), fuel), r)
    {
      hide Spell, ExprOk, Compiled, SpellStmt, StmtOk, SpellName, NameOk, RecordNamed, ResolveSuperName;
      hide RuntimeState.Acquired, RuntimeState.Released, Execute, Eval;
      if s.Some? {
        MutexParts(TheWorld(), frame.scope, s.value, bytes);
        ObjectFound(bytes[2..], frame.scope, s.value.mutex);
      }
      var target :- ResolveSuperName(bytes[2..], frame.scope);
      if |bytes| < 4 + target.consumed { return Err(Truncated); }
      if state == null { return Err(Unsupported); }
      if target.node.None? { return Err(Unsupported); }
      var granted :- state.TryAcquireMutex(target.node.value);
      if granted { return Ok(Progress(4 + target.consumed, Continue)); }
      refusals := refusals + [frame.depth];
      return Ok(Progress(4 + target.consumed, Blocked));
    }

    method EvalRelease(bytes: seq<byte>, frame: Frame, fuel: nat, ghost s: Option<Stmt>) returns (r: Result<Progress>)
      requires Ready(frame) && |bytes| >= 2 && SpeaksStmt(frame, bytes, s) && (s.Some? ==> s.value.Release?)
      modifies this, frame, host, state
      ensures ProgressDone(frame, r)
      ensures s.Some? ==>
                MeansProgress(frame, s.value, ExecuteStmt(TheWorld(), SiteOf(frame), s.value, old(StoreOf(frame)), fuel), r)
    {
      hide Spell, ExprOk, Compiled, SpellStmt, StmtOk, SpellName, NameOk, RecordNamed, ResolveSuperName;
      hide RuntimeState.Acquired, RuntimeState.Released, Execute, Eval;
      if s.Some? {
        MutexParts(TheWorld(), frame.scope, s.value, bytes);
        ObjectFound(bytes[2..], frame.scope, s.value.mutex);
      }
      var target :- ResolveSuperName(bytes[2..], frame.scope);
      if state == null { return Err(Unsupported); }
      if target.node.None? { return Err(Unsupported); }
      var _ :- state.ReleaseMutex(target.node.value);
      return Ok(Progress(2 + target.consumed, Continue));
    }

    lemma ObjectFound(bytes: seq<byte>, scope: Path, n: NameRef)
      requires NamesRecord(TheWorld(), scope, n) && SpellName(n) <= bytes
      ensures ResolveSuperName(bytes, scope)
              == Ok(SuperName(Some(RecordNamed(TheWorld(), scope, n).value.id), |SpellName(n)|))
    {
      hide ParseName, Lookup, Find, Paths, SpellName, NameOk;
      NameReadBack(n, bytes);
    }

    /** The object a Mutex or Notify operand names: none for a register or the debug object. */
    function ResolveSuperName(bytes: seq<byte>, scope: Path): (r: Result<SuperName>)
      ensures r.Ok? ==> 1 <= r.value.consumed <= |bytes|
      ensures r != Err(OutOfFuel)
    {
      if bytes == [] then Err(Truncated)
      else if RegisterByte(bytes[0]) then Ok(SuperName(None, 1))
      else if bytes[0] == 0x5B then
        if |bytes| < 2 then Err(Truncated) else if bytes[1] == 0x31 then Ok(SuperName(None, 2)) else Err(Unsupported)
      else if NameLead(bytes[0]) then
        var name :- ParseName(bytes);
        var path :- Lookup(Paths(records), scope, name);
        match Find(records, path)
        case None => Err(UndefinedObject)
        case Some(i) => Ok(SuperName(Some(records[i].id), name.consumed))
      else Err(Unsupported)
    }

    /** An OperationRegion inside a body: its base and length are evaluated, and its name is bound to it. */
    method EvalDynamicRegion(bytes: seq<byte>, frame: Frame, fuel: nat, ghost s: Option<Stmt>) returns (r: Result<Progress>)
      requires Ready(frame) && |bytes| >= 2 && SpeaksStmt(frame, bytes, s) && (s.Some? ==> s.value.DeclareRegion?)
      modifies this, frame, host, state
      ensures ProgressDone(frame, r)
      ensures s.Some? ==>
                MeansProgress(frame, s.value, ExecuteStmt(TheWorld(), SiteOf(frame), s.value, old(StoreOf(frame)), fuel), r)
      decreases fuel, MAX_DEPTH - frame.depth, |bytes|, 6
    {
      hide Spell, ExprOk, Compiled, SpellStmt, StmtOk, Eval, ParseName, MayBind, Loader.AddressSpace, Ready;
      hide Store.Bind, View;
      if s.Some? {
        Evaluator.RegionParts(TheWorld(), frame.scope, s.value, bytes);
        SegmentFound(s.value.local, bytes[2..]);
      }
      var name :- ParseName(bytes[2..]);
      if LocalSegment(name).None? { return Err(Unsupported); }
      var at := 2 + name.consumed;
      if at >= |bytes| { return Err(Truncated); }
      var offset :- EvalTermArg(bytes[at + 1..], frame, fuel, if s.Some? then Some(s.value.base) else None);
      var next := at + 1 + offset.consumed;
      var length :- EvalTermArg(bytes[next..], frame, fuel, if s.Some? then Some(s.value.length) else None);
      var base :- AsInteger(offset.value);
      var size :- AsInteger(length.value);
      var region := Region(Loader.AddressSpace(bytes[at]), Some(base), Some(size));
      var _ :- BindName(frame, LocalSegment(name).value, BoundRegion(region));
      return Ok(Progress(next + length.consumed, Continue));
    }

    /** A Field statement inside a body binds its names at the offsets its list gives them. */
    method EvalDynamicField(bytes: seq<byte>, frame: Frame, fuel: nat, ghost s: Option<Stmt>) returns (r: Result<Progress>)
      requires Ready(frame) && |bytes| >= 2 && SpeaksStmt(frame, bytes, s) && (s.Some? ==> s.value.DeclareFields?)
      modifies this, frame, host, state
      ensures ProgressDone(frame, r)
      ensures s.Some? ==>
                MeansProgress(frame, s.value, ExecuteStmt(TheWorld(), SiteOf(frame), s.value, old(StoreOf(frame)), fuel), r)
    {
      hide Spell, ExprOk, Compiled, SpellStmt, StmtOk, ParseName, ListMayBind, View, PackageAt, FieldsInto, RegionFor;
      hide RegionNamed, SpellName;
      if s.Some? {
        FieldsParts(TheWorld(), frame.scope, s.value, bytes);
        var x := PackageAt(bytes, 2).value;
        NameReadBack(s.value.region, bytes[x.start..x.end]);
        RegionMeans(s.value.region, frame);
        var from := x.start + |SpellName(s.value.region)| + 1;
        var region := RegionNamed(Parsed(s.value.region), frame);
        if region.Ok? {
          ListInside(bytes[..x.end], from, s.value.list, 0, StoreOf(frame), region.value, s.value.flags, 0);
        }
      }
      var x :- PackageAt(bytes, 2);
      var name :- ParseName(bytes[x.start..x.end]);
      var region :- RegionNamed(name, frame);
      var flags := x.start + name.consumed;
      if flags >= x.end { return Err(Truncated); }
      var _ :- BindFields(bytes[..x.end], flags + 1, region, bytes[flags], frame, SharedNow());
      return Ok(Progress(x.end, Continue));
    }

    function RegionNamed(name: EncodedName, frame: Frame): (r: Result<Region>)
      requires frame.Valid()
      reads frame
      ensures r != Err(OutOfFuel)
    {
      var local := if LocalSegment(name).Some? then frame.BindingOf(LocalSegment(name).value) else None;
      if local.Some? && local.value.BoundRegion? then Ok(local.value.region)
      else
        var path :- Lookup(Paths(records), frame.scope, name);
        match Find(records, path)
        case None => Err(UndefinedObject)
        case Some(i) =>
          if records[i].payload.RegionPayload? then Ok(RegionOf(records[i].payload.region)) else Err(Unsupported)
    }

    lemma RegionMeans(n: NameRef, frame: Frame)
      requires frame.Valid() && NameOk(n)
      ensures RegionNamed(Parsed(n), frame) == RegionFor(TheWorld(), frame.scope, n, StoreOf(frame))
    {
      hide Lookup, Paths, Find, SpellName, View;
    }

    /** The entries of a Field statement inside a body: each name is bound at the offset reached so far. */
    method BindFields(list: seq<byte>, start: nat, region: Region, flags: byte, frame: Frame, ghost shared: Shared)
      returns (r: Result<Unit>)
      requires Ready(frame)
      modifies frame`named
      ensures Ready(frame) && r != Err(OutOfFuel)
      ensures match FieldsInto(old(frame.Contents(shared)), region, flags, list, start, 0)
              case Ok(s) => r.Ok? && frame.Contents(shared) == s
              case Err(x) => r == Err(x)
    {
      hide View, Distinct, Loader.EntryAt, Store.Clean, NamesClean, ListMayBind;
      ghost var at: nat := 0;
      ghost var whole := FieldsInto(frame.Contents(shared), region, flags, list, start, 0);
      var bitOffset: u32, cursor := 0, start;
      while cursor < |list|
        invariant Ready(frame) && bitOffset == Loader.Saturated(at)
        invariant FieldsInto(frame.Contents(shared), region, flags, list, cursor, at) == whole
        decreases |list| - cursor
      {
        var entry :- Loader.EntryAt(list, cursor);
        match entry {
          case Gap(bits, next) =>
            bitOffset, cursor, at := Loader.SaturatingAdd(bitOffset, bits), next, at + bits;
          case Item(width, next) =>
            var field := DynamicField(region, bitOffset, width, Loader.FieldAccess(flags), Loader.FieldUpdate(flags));
            var _ :- frame.Bind(list[cursor..cursor + 4], BoundField(field));
            bitOffset, cursor, at := Loader.SaturatingAdd(bitOffset, width), next, at + width;
        }
      }
      return Ok(Unit);
    }

    // ---- Terms ----

    method EvalTermArg(bytes: seq<byte>, frame: Frame, fuel: nat, ghost e: Option<Expr>) returns (r: Result<Term>)
      requires Ready(frame) && Speaks(frame, bytes, e)
      modifies this, frame, host, state
      ensures TermDone(frame, bytes, r)
      ensures e.Some? ==> Means(frame, e.value, Eval(TheWorld(), SiteOf(frame), e.value, old(StoreOf(frame)), fuel), r)
      decreases fuel, MAX_DEPTH - frame.depth, |bytes|, 5
    {
      hide Spell, ExprOk, Compiled;
      if bytes == [] { return Err(Truncated); }
      if e.Some? { SpellKind(TheWorld(), frame.scope, e.value); }
      match KindOf(bytes[0]) {
        case ConstantTerm =>
          if e.Some? { ConstantMeans(TheWorld(), frame.scope, e.value, bytes); }
          return ConstantAt(bytes, IntegerWidth());
        case RegisterTerm =>
          if e.Some? { RegisterMeans(frame.scope, e.value, bytes); }
          var v :- StoreOf(frame).Get(RegisterOf(bytes[0]));
          return Ok(Term(v, 1));
        case TextTerm =>
          if e.Some? { CharsMean(frame.scope, e.value, bytes); }
          return TextAt(bytes);
        case NameTerm => r := EvalNamedTerm(bytes, frame, fuel, e);
        case _ => r := EvalOperator(bytes, frame, fuel, e);
      }
    }

    method EvalOperator(bytes: seq<byte>, frame: Frame, fuel: nat, ghost e: Option<Expr>) returns (r: Result<Term>)
      requires Ready(frame) && Speaks(frame, bytes, e) && bytes != []
      requires e.Some? ==> KindOfExpr(e.value) == KindOf(bytes[0])
      requires !KindOf(bytes[0]).ConstantTerm? && !KindOf(bytes[0]).RegisterTerm?
      requires !KindOf(bytes[0]).NameTerm? && !KindOf(bytes[0]).TextTerm?
      modifies this, frame, host, state
      ensures TermDone(frame, bytes, r)
      ensures e.Some? ==> Means(frame, e.value, Eval(TheWorld(), SiteOf(frame), e.value, old(StoreOf(frame)), fuel), r)
      decreases fuel, MAX_DEPTH - frame.depth, |bytes|, 4
    {
      hide Spell, ExprOk, Compiled, Eval, CleanFrame;
      match KindOf(bytes[0]) {
        case StoreTerm => r := EvalStore(bytes, frame, fuel, e);
        case BinaryTerm(op) => r := EvalBinaryOp(bytes, op, frame, fuel, e);
        case DivideTerm => r := EvalDivide(bytes, frame, fuel, e);
        case UpdateTerm(up) => r := EvalUpdateOp(bytes, up, frame, fuel, e);
        case InvertTerm => r := EvalInvert(bytes, frame, fuel, e);
        case NotTerm => r := EvalNot(bytes, frame, fuel, e);
        case CompareTerm(relation) => r := EvalLogicCompare(bytes, relation, frame, fuel, e);
        case DerefTerm => r := EvalDeref(bytes, frame, fuel, e);
        case SizeTerm => r := EvalSizeOf(bytes, frame, fuel, e);
        case TypeTerm => r := EvalObjectType(bytes, frame, fuel, e);
        case IndexTerm => r := EvalIndex(bytes, frame, fuel, e);
        case _ => return Err(Unsupported);
      }
    }

    lemma RegisterMeans(scope: Path, e: Expr, bytes: seq<byte>)
      requires e.Read? && ExprOk(TheWorld(), scope, e) && Spell(TheWorld(), scope, e) <= bytes
      ensures bytes != [] && RegisterByte(bytes[0]) && RegisterOf(bytes[0]) == e.register
      ensures |Spell(TheWorld(), scope, e)| == 1
    {
    }

    function TextAt(bytes: seq<byte>): (r: Result<Term>)
      requires bytes != []
      ensures r.Ok? ==> 1 <= r.value.consumed <= |bytes| && r.value.value.Text?
      ensures r != Err(OutOfFuel)
    {
      match LoaderTerms.ZeroPosition(bytes[1..])
      case None => Err(Truncated)
      case Some(n) => if isText(bytes[1..1 + n]) then Ok(Term(Text(bytes[1..1 + n]), 2 + n)) else Err(InvalidBytecode)
    }

    /** A text is read back as the characters before its zero. */
    lemma CharsMean(scope: Path, e: Expr, bytes: seq<byte>)
      requires e.Chars? && ExprOk(TheWorld(), scope, e) && Spell(TheWorld(), scope, e) <= bytes
      ensures TextAt(bytes) == if isText(e.bytes) then Ok(Term(Text(e.bytes), |Spell(TheWorld(), scope, e)|))
                               else Err(InvalidBytecode)
    {
      TextFound(e.bytes, bytes);
    }

    lemma TextFound(chars: seq<byte>, bytes: seq<byte>)
      requires 0 !in chars && [0x0D] + (chars + [0x00]) <= bytes
      ensures TextAt(bytes) == if isText(chars) then Ok(Term(Text(chars), 2 + |chars|)) else Err(InvalidBytecode)
    {
      hide LoaderTerms.ZeroPosition;
      Chop([0x0D], chars + [0x00], bytes);
      var rest := bytes[1..];
      assert rest[..|chars| + 1] == chars + [0x00];
      assert rest[|chars|] == 0 && forall k :: 0 <= k < |chars| ==> rest[k] == chars[k];
      assert bytes[1..1 + |chars|] == chars;
    }

    method EvalStore(bytes: seq<byte>, frame: Frame, fuel: nat, ghost e: Option<Expr>) returns (r: Result<Term>)
      requires Ready(frame) && Speaks(frame, bytes, e) && bytes != [] && (e.Some? ==> e.value.Assign?)
      modifies this, frame, host, state
      ensures TermDone(frame, bytes, r)
      ensures e.Some? ==> Means(frame, e.value, Eval(TheWorld(), SiteOf(frame), e.value, old(StoreOf(frame)), fuel), r)
      decreases fuel, MAX_DEPTH - frame.depth, |bytes|, 3
    {
      hide Spell, ExprOk, Compiled, Ready, Eval, PutAt, SpellTarget, TargetOk;
      if e.Some? {
        AssignParts(TheWorld(), frame.scope, e.value, bytes);
        OneMeaning(TheWorld(), SiteOf(frame), e.value, StoreOf(frame), fuel);
      }
      var t :- EvalTermArg(bytes[1..], frame, fuel, if e.Some? then Some(e.value.value) else None);
      var n :- AssignTarget(bytes[1 + t.consumed..], frame, t.value, fuel, if e.Some? then Some(e.value.target) else None);
      return Ok(Term(t.value, 1 + t.consumed + n));
    }

    method EvalBinaryOp(bytes: seq<byte>, op: Operator, frame: Frame, fuel: nat, ghost e: Option<Expr>)
      returns (r: Result<Term>)
      requires Ready(frame) && Speaks(frame, bytes, e) && bytes != [] && (e.Some? ==> e.value.Binary? && e.value.op == op)
      modifies this, frame, host, state
      ensures TermDone(frame, bytes, r)
      ensures e.Some? ==> Means(frame, e.value, Eval(TheWorld(), SiteOf(frame), e.value, old(StoreOf(frame)), fuel), r)
      decreases fuel, MAX_DEPTH - frame.depth, |bytes|, 3
    {
      hide Spell, ExprOk, Compiled, Ready, SpellTarget, TargetOk, Combined, Eval;
      if e.Some? {
        BinaryParts(TheWorld(), frame.scope, e.value, bytes);
        PairMeaning(TheWorld(), SiteOf(frame), e.value, StoreOf(frame), fuel);
      }
      var x :- EvalTermArg(bytes[1..], frame, fuel, if e.Some? then Some(e.value.left) else None);
      var y :- EvalTermArg(bytes[1 + x.consumed..], frame, fuel, if e.Some? then Some(e.value.right) else None);
      r := CombineInto(bytes, 1 + x.consumed + y.consumed, op, x.value, y.value, frame, fuel, e);
    }

    /** Applies the operator and stores the result; `rest` is where the target starts. */
    method CombineInto(bytes: seq<byte>, rest: nat, op: Operator, x: Value, y: Value, frame: Frame, fuel: nat,
                       ghost e: Option<Expr>) returns (r: Result<Term>)
      requires Ready(frame) && 1 <= rest <= |bytes| && (e.Some? ==> e.value.Binary? && e.value.op == op)
      requires e.Some? ==> ExprOk(TheWorld(), frame.scope, e.value)
      requires e.Some? ==> SpeaksTarget(frame, bytes[rest..], Some(e.value.target))
      requires e.Some? ==>
                 |Spell(TheWorld(), frame.scope, e.value)| == rest + |SpellTarget(TheWorld(), frame.scope, e.value.target)|
      modifies this, frame, host, state
      ensures TermDone(frame, bytes, r)
      ensures e.Some? ==>
                Means(frame, e.value,
                      Combined(TheWorld(), SiteOf(frame), op, e.value.target, x, Step(y, old(StoreOf(frame))), fuel), r)
      decreases fuel, MAX_DEPTH - frame.depth, |bytes|, 2
    {
      hide Spell, ExprOk, Compiled, Ready, Apply, Meaning, PutAt, SpellTarget, TargetOk;
      var a :- AsInteger(x);
      var b :- AsInteger(y);
      ApplyIsExact(op, a, b, IntegerWidth());
      var v := MakeInteger(Apply(op, a, b), IntegerWidth());
      var n :- AssignTarget(bytes[rest..], frame, v, fuel, if e.Some? then Some(e.value.target) else None);
      return Ok(Term(v, rest + n));
    }

    method EvalDivide(bytes: seq<byte>, frame: Frame, fuel: nat, ghost e: Option<Expr>) returns (r: Result<Term>)
      requires Ready(frame) && Speaks(frame, bytes, e) && bytes != [] && (e.Some? ==> e.value.Divide?)
      modifies this, frame, host, state
      ensures TermDone(frame, bytes, r)
      ensures e.Some? ==> Means(frame, e.value, Eval(TheWorld(), SiteOf(frame), e.value, old(StoreOf(frame)), fuel), r)
      decreases fuel, MAX_DEPTH - frame.depth, |bytes|, 3
    {
      hide Spell, ExprOk, Compiled, Ready, SpellTarget, TargetOk, Divided, Eval;
      if e.Some? {
        DivideParts(TheWorld(), frame.scope, e.value, bytes);
        PairMeaning(TheWorld(), SiteOf(frame), e.value, StoreOf(frame), fuel);
      }
      var x :- EvalTermArg(bytes[1..], frame, fuel, if e.Some? then Some(e.value.left) else None);
      var y :- EvalTermArg(bytes[1 + x.consumed..], frame, fuel, if e.Some? then Some(e.value.right) else None);
      r := DivideInto(bytes, 1 + x.consumed + y.consumed, x.value, y.value, frame, fuel, e);
    }

    /** Divides and stores the remainder and then the quotient. */
    method DivideInto(bytes: seq<byte>, rest: nat, x: Value, y: Value, frame: Frame, fuel: nat, ghost e: Option<Expr>)
      returns (r: Result<Term>)
      requires Ready(frame) && 1 <= rest <= |bytes| && (e.Some? ==> e.value.Divide?)
      requires e.Some? ==> ExprOk(TheWorld(), frame.scope, e.value) && SpeaksDivide(frame, bytes, rest, e.value)
      modifies this, frame, host, state
      ensures TermDone(frame, bytes, r)
      ensures e.Some? ==>
                Means(frame, e.value,
                      Divided(TheWorld(), SiteOf(frame), e.value, x, Step(y, old(StoreOf(frame))), fuel), r)
      decreases fuel, MAX_DEPTH - frame.depth, |bytes|, 2
    {
      hide Spell, ExprOk, Compiled, Ready, PutAt, SpellTarget, TargetOk;
      var divisor :- AsInteger(y);
      if divisor == 0 { return Err(InvalidState); }
      var dividend :- AsInteger(x);
      var remainder, quotient := Remainder(dividend, divisor), Quotient(dividend, divisor);
      var n :- AssignTarget(bytes[rest..], frame, remainder, fuel, if e.Some? then Some(e.value.remainder) else None);
      var m :- AssignTarget(bytes[rest + n..], frame, quotient, fuel, if e.Some? then Some(e.value.quotient) else None);
      return Ok(Term(quotient, rest + n + m));
    }

    /** Both targets of a Divide, one after the other. */
    ghost predicate SpeaksDivide(frame: Frame, bytes: seq<byte>, rest: nat, e: Expr)
      requires e.Divide? && rest <= |bytes| && ExprOk(TheWorld(), frame.scope, e)
      reads frame
    {
      SpeaksTarget(frame, bytes[rest..], Some(e.remainder))
      && var n := |SpellTarget(TheWorld(), frame.scope, e.remainder)|;
         && rest + n <= |bytes|
         && TargetOk(TheWorld(), frame.scope, e.quotient)
         && SpellTarget(TheWorld(), frame.scope, e.quotient) <= bytes[rest + n..]
         && |Spell(TheWorld(), frame.scope, e)| == rest + n + |SpellTarget(TheWorld(), frame.scope, e.quotient)|
    }

    function Remainder(a: u64, b: u64): (v: Value)
      requires b > 0
      ensures v == RemainderOf(a, b, IntegerWidth()) && Values.Fits(v, IntegerWidth())
    {
      MakeInteger(a % b, IntegerWidth())
    }

    function Quotient(a: u64, b: u64): (v: Value)
      requires b > 0
      ensures v == QuotientOf(a, b, IntegerWidth()) && Values.Fits(v, IntegerWidth())
    {
      assert a / b <= a;
      MakeInteger(a / b, IntegerWidth())
    }

    method EvalUpdateOp(bytes: seq<byte>, up: bool, frame: Frame, fuel: nat, ghost e: Option<Expr>) returns (r: Result<Term>)
      requires Ready(frame) && Speaks(frame, bytes, e) && bytes != [] && (e.Some? ==> e.value.Update? && e.value.up == up)
      modifies this, frame, host, state
      ensures TermDone(frame, bytes, r)
      ensures e.Some? ==> Means(frame, e.value, Eval(TheWorld(), SiteOf(frame), e.value, old(StoreOf(frame)), fuel), r)
      decreases fuel, MAX_DEPTH - frame.depth, |bytes|, 3
    {
      hide Spell, ExprOk, Compiled, Ready, PutAt, ValueAt, SpellTarget, TargetOk;
      if e.Some? { UpdateParts(TheWorld(), frame.scope, e.value, bytes); }
      var t :- ReadTargetValue(bytes[1..], frame, fuel, if e.Some? then Some(e.value.target) else None);
      var a :- AsInteger(t.value);
      UpdateReduced(up, a, IntegerWidth());
      var v := MakeInteger(Apply(if up then Add else Subtract, a, 1), IntegerWidth());
      var _ :- AssignTarget(bytes[1..], frame, v, fuel, if e.Some? then Some(e.value.target) else None);
      return Ok(Term(v, 1 + t.consumed));
    }

    method EvalInvert(bytes: seq<byte>, frame: Frame, fuel: nat, ghost e: Option<Expr>) returns (r: Result<Term>)
      requires Ready(frame) && Speaks(frame, bytes, e) && bytes != [] && (e.Some? ==> e.value.Invert?)
      modifies this, frame, host, state
      ensures TermDone(frame, bytes, r)
      ensures e.Some? ==> Means(frame, e.value, Eval(TheWorld(), SiteOf(frame), e.value, old(StoreOf(frame)), fuel), r)
      decreases fuel, MAX_DEPTH - frame.depth, |bytes|, 3
    {
      hide Spell, ExprOk, Compiled, Ready, Eval;
      if e.Some? {
        UnaryParts(TheWorld(), frame.scope, e.value, bytes);
        OneMeaning(TheWorld(), SiteOf(frame), e.value, StoreOf(frame), fuel);
      }
      var t :- EvalTermArg(bytes[1..], frame, fuel, if e.Some? then Some(e.value.value) else None);
      var a :- AsInteger(t.value);
      InvertReduced(a, IntegerWidth());
      return Ok(Term(MakeInteger(Inverted(a), IntegerWidth()), 1 + t.consumed));
    }

    method EvalNot(bytes: seq<byte>, frame: Frame, fuel: nat, ghost e: Option<Expr>) returns (r: Result<Term>)
      requires Ready(frame) && Speaks(frame, bytes, e) && bytes != [] && (e.Some? ==> e.value.Not?)
      modifies this, frame, host, state
      ensures TermDone(frame, bytes, r)
      ensures e.Some? ==> Means(frame, e.value, Eval(TheWorld(), SiteOf(frame), e.value, old(StoreOf(frame)), fuel), r)
      decreases fuel, MAX_DEPTH - frame.depth, |bytes|, 3
    {
      hide Spell, ExprOk, Compiled, Ready, Eval;
      if e.Some? {
        UnaryParts(TheWorld(), frame.scope, e.value, bytes);
        OneMeaning(TheWorld(), SiteOf(frame), e.value, StoreOf(frame), fuel);
      }
      var t :- EvalTermArg(bytes[1..], frame, fuel, if e.Some? then Some(e.value.value) else None);
      MakeReduced(Truth(!AsLogic(t.value)), IntegerWidth());
      return Ok(Term(MakeInteger(Truth(!AsLogic(t.value)), IntegerWidth()), 1 + t.consumed));
    }

    method EvalLogicCompare(bytes: seq<byte>, relation: Relation, frame: Frame, fuel: nat, ghost e: Option<Expr>)
      returns (r: Result<Term>)
      requires Ready(frame) && Speaks(frame, bytes, e) && bytes != []
      requires e.Some? ==> e.value.Compare? && e.value.relation == relation
      modifies this, frame, host, state
      ensures TermDone(frame, bytes, r)
      ensures e.Some? ==> Means(frame, e.value, Eval(TheWorld(), SiteOf(frame), e.value, old(StoreOf(frame)), fuel), r)
      decreases fuel, MAX_DEPTH - frame.depth, |bytes|, 3
    {
      hide Spell, ExprOk, Compiled, Ready, Eval;
      if e.Some? {
        CompareParts(TheWorld(), frame.scope, e.value, bytes);
        PairMeaning(TheWorld(), SiteOf(frame), e.value, StoreOf(frame), fuel);
      }
      var x :- EvalTermArg(bytes[1..], frame, fuel, if e.Some? then Some(e.value.left) else None);
      var y :- EvalTermArg(bytes[1 + x.consumed..], frame, fuel, if e.Some? then Some(e.value.right) else None);
      var a :- AsInteger(x.value);
      var b :- AsInteger(y.value);
      MakeReduced(Truth(relation.Test(a, b)), IntegerWidth());
      return Ok(Term(MakeInteger(Truth(relation.Test(a, b)), IntegerWidth()), 1 + x.consumed + y.consumed));
    }

    method EvalDeref(bytes: seq<byte>, frame: Frame, fuel: nat, ghost e: Option<Expr>) returns (r: Result<Term>)
      requires Ready(frame) && Speaks(frame, bytes, e) && bytes != [] && (e.Some? ==> e.value.Deref?)
      modifies this, frame, host, state
      ensures TermDone(frame, bytes, r)
      ensures e.Some? ==> Means(frame, e.value, Eval(TheWorld(), SiteOf(frame), e.value, old(StoreOf(frame)), fuel), r)
      decreases fuel, MAX_DEPTH - frame.depth, |bytes|, 3
    {
      hide Spell, ExprOk, Compiled, Ready, Eval;
      if e.Some? {
        UnaryParts(TheWorld(), frame.scope, e.value, bytes);
        OneMeaning(TheWorld(), SiteOf(frame), e.value, StoreOf(frame), fuel);
      }
      var t :- EvalTermArg(bytes[1..], frame, fuel, if e.Some? then Some(e.value.value) else None);
      return Ok(Term(t.value, 1 + t.consumed));
    }

    method EvalSizeOf(bytes: seq<byte>, frame: Frame, fuel: nat, ghost e: Option<Expr>) returns (r: Result<Term>)
      requires Ready(frame) && Speaks(frame, bytes, e) && bytes != [] && (e.Some? ==> e.value.SizeOf?)
      modifies this, frame, host, state
      ensures TermDone(frame, bytes, r)
      ensures e.Some? ==> Means(frame, e.value, Eval(TheWorld(), SiteOf(frame), e.value, old(StoreOf(frame)), fuel), r)
      decreases fuel, MAX_DEPTH - frame.depth, |bytes|, 3
    {
      hide Spell, ExprOk, Compiled, Ready, Eval, SizeOfValue;
      if e.Some? {
        UnaryParts(TheWorld(), frame.scope, e.value, bytes);
        OneMeaning(TheWorld(), SiteOf(frame), e.value, StoreOf(frame), fuel);
      }
      var t :- EvalTermArg(bytes[1..], frame, fuel, if e.Some? then Some(e.value.value) else None);
      var n :- SizeOfValue(blocks, TablesNow(), t.value);
      SizeReduced(n, IntegerWidth());
      return Ok(Term(MakeInteger(n % WORD, IntegerWidth()), 1 + t.consumed));
    }

    method EvalObjectType(bytes: seq<byte>, frame: Frame, fuel: nat, ghost e: Option<Expr>) returns (r: Result<Term>)
      requires Ready(frame) && Speaks(frame, bytes, e) && bytes != [] && (e.Some? ==> e.value.TypeOf?)
      modifies this, frame, host, state
      ensures TermDone(frame, bytes, r)
      ensures e.Some? ==> Means(frame, e.value, Eval(TheWorld(), SiteOf(frame), e.value, old(StoreOf(frame)), fuel), r)
      decreases fuel, MAX_DEPTH - frame.depth, |bytes|, 3
    {
      hide Spell, ExprOk, Compiled, Ready, Eval;
      if e.Some? {
        UnaryParts(TheWorld(), frame.scope, e.value, bytes);
        OneMeaning(TheWorld(), SiteOf(frame), e.value, StoreOf(frame), fuel);
      }
      var t :- EvalTermArg(bytes[1..], frame, fuel, if e.Some? then Some(e.value.value) else None);
      MakeReduced(ObjectType(t.value), IntegerWidth());
      return Ok(Term(MakeInteger(ObjectType(t.value), IntegerWidth()), 1 + t.consumed));
    }

    /** Index as a term: the package or buffer, then the index, then the element, then its target. */
    method EvalIndex(bytes: seq<byte>, frame: Frame, fuel: nat, ghost e: Option<Expr>) returns (r: Result<Term>)
      requires Ready(frame) && Speaks(frame, bytes, e) && bytes != [] && (e.Some? ==> e.value.Index?)
      modifies this, frame, host, state
      ensures TermDone(frame, bytes, r)
      ensures e.Some? ==> Means(frame, e.value, Eval(TheWorld(), SiteOf(frame), e.value, old(StoreOf(frame)), fuel), r)
      decreases fuel, MAX_DEPTH - frame.depth, |bytes|, 3
    {
      hide Spell, ExprOk, Compiled, Ready, SpellTarget, TargetOk, Indexed, Eval;
      if e.Some? {
        IndexParts(TheWorld(), frame.scope, e.value, bytes);
        PairMeaning(TheWorld(), SiteOf(frame), e.value, StoreOf(frame), fuel);
      }
      var x :- EvalTermArg(bytes[1..], frame, fuel, if e.Some? then Some(e.value.base) else None);
      var y :- EvalTermArg(bytes[1 + x.consumed..], frame, fuel, if e.Some? then Some(e.value.index) else None);
      r := IndexInto(bytes, 1 + x.consumed + y.consumed, x.value, y.value, frame, fuel, e);
    }

    /** Reads the element and stores it; `rest` is where the target starts. */
    method IndexInto(bytes: seq<byte>, rest: nat, x: Value, y: Value, frame: Frame, fuel: nat, ghost e: Option<Expr>)
      returns (r: Result<Term>)
      requires Ready(frame) && 1 <= rest <= |bytes| && (e.Some? ==> e.value.Index? && !x.StaticPackage?)
      requires e.Some? ==> ExprOk(TheWorld(), frame.scope, e.value)
      requires e.Some? ==> SpeaksTarget(frame, bytes[rest..], Some(e.value.target))
      requires e.Some? ==>
                 |Spell(TheWorld(), frame.scope, e.value)| == rest + |SpellTarget(TheWorld(), frame.scope, e.value.target)|
      modifies this, frame, host, state
      ensures TermDone(frame, bytes, r)
      ensures e.Some? ==>
                Means(frame, e.value,
                      Indexed(TheWorld(), SiteOf(frame), e.value.target, x, Step(y, old(StoreOf(frame))), fuel), r)
      decreases fuel, MAX_DEPTH - frame.depth, |bytes|, 2
    {
      hide Spell, ExprOk, Compiled, PutAt, SpellTarget, TargetOk, ElementAt;
      var index :- AsInteger(y);
      var v :- IndexValue(x, index, frame, fuel);
      var n :- AssignTarget(bytes[rest..], frame, v, fuel, if e.Some? then Some(e.value.target) else None);
      return Ok(Term(v, rest + n));
    }

    // ---- Names and calls ----

    method EvalNamedTerm(bytes: seq<byte>, frame: Frame, fuel: nat, ghost e: Option<Expr>) returns (r: Result<Term>)
      requires Ready(frame) && Speaks(frame, bytes, e) && (e.Some? ==> e.value.Call? || e.value.Named?)
      modifies this, frame, host, state
      ensures TermDone(frame, bytes, r)
      ensures e.Some? ==> Means(frame, e.value, Eval(TheWorld(), SiteOf(frame), e.value, old(StoreOf(frame)), fuel), r)
      ensures e.Some? && e.value.Named? ==> StoreOf(frame) == old(StoreOf(frame))
      decreases fuel, MAX_DEPTH - frame.depth, |bytes|, 3
    {
      hide Spell, SpellArgs, ExprOk, ArgsOk, ParseName, SpellName, NameOk, Eval, View, RecordNamed, Compiled;
      hide Frame.Valid, NamesClean, SlotsUsable, NamedAt, Store.BindingFor;
      if e.Some? {
        NameSpoken(frame.scope, e.value, bytes);
        if e.value.Call? { CallUnbound(frame, e.value); }
        else { NamedMeaning(TheWorld(), SiteOf(frame), e.value.name, StoreOf(frame), fuel); }
      }
      var name :- ParseName(bytes);
      if LocalSegment(name).Some? {
        assert e.Some? ==> e.value.name == SoleSegment(LocalSegment(name).value);
        var bound :- ReadBound(LocalSegment(name).value, frame);
        if bound.Some? { return Ok(Term(bound.value, name.consumed)); }
      } else if e.Some? {
        LocalOnly(e.value.name, StoreOf(frame));
      }
      r := EvalRecordNamed(name, bytes, frame, fuel, e);
    }

    /** What the bytes of a call or of a named object begin with. */
    lemma NameSpoken(scope: Path, e: Expr, bytes: seq<byte>)
      requires (e.Call? || e.Named?) && ExprOk(TheWorld(), scope, e) && Spell(TheWorld(), scope, e) <= bytes
      ensures NameOk(e.name) && ParseName(bytes) == Ok(Parsed(e.name))
      ensures e.Call? ==> Links(TheWorld(), scope, e.name, e.args)
      ensures e.Named? ==> |Spell(TheWorld(), scope, e)| == |SpellName(e.name)|
    {
      hide Spell, ExprOk, SpellArgs, ArgsOk, RecordNamed, ParseName, SpellName;
      if e.Call? { CallParts(TheWorld(), scope, e, bytes); } else { NamedParts(TheWorld(), scope, e, bytes); }
      NameReadBack(e.name, bytes);
    }

    lemma LocalOnly(n: NameRef, s: Programs.Store)
      requires LocalOf(n).None?
      ensures s.BindingFor(n).None?
    {
    }

    /** A name that is not bound in the body: a call, or an object of the namespace. */
    method EvalRecordNamed(name: EncodedName, bytes: seq<byte>, frame: Frame, fuel: nat, ghost e: Option<Expr>)
      returns (r: Result<Term>)
      requires Ready(frame) && 1 <= name.consumed <= |bytes| && Speaks(frame, bytes, e)
      requires e.Some? ==> (e.value.Call? || e.value.Named?) && NameOk(e.value.name) && name == Parsed(e.value.name)
      requires e.Some? && e.value.Named? ==>
                 var bound := StoreOf(frame).BindingFor(e.value.name); bound.None? || bound.value.BoundRegion?
      modifies this, frame, host, state
      ensures TermDone(frame, bytes, r)
      ensures e.Some? ==> Means(frame, e.value, Eval(TheWorld(), SiteOf(frame), e.value, old(StoreOf(frame)), fuel), r)
      ensures e.Some? && e.value.Named? ==> StoreOf(frame) == old(StoreOf(frame))
      decreases fuel, MAX_DEPTH - frame.depth, |bytes|, 2
    {
      hide Spell, SpellArgs, ExprOk, ArgsOk, ParseName, Lookup, Paths, Find, SpellName, NameOk, Eval, View, Load, MayBind;
      hide Ready, NamesClean, SlotsUsable, NamedAt, Store.BindingFor, CellAt;
      if e.Some? {
        NameSpoken(frame.scope, e.value, bytes);
        if e.value.Call? {
          CallParts(TheWorld(), frame.scope, e.value, bytes);
        } else {
          NamedParts(TheWorld(), frame.scope, e.value, bytes);
          NamedMeaning(TheWorld(), SiteOf(frame), e.value.name, StoreOf(frame), fuel);
          NamedElsewhere(frame.scope, e.value.name, StoreOf(frame));
        }
      }
      var path :- Lookup(Paths(records), frame.scope, name);
      var found := Find(records, path);
      if found.None? { return Err(UndefinedObject); }
      if IsMethod(records[found.value]) {
        r := CallNamed(records[found.value].payload.info, bytes, name.consumed, frame, fuel, e);
      } else {
        r := EvalObject(records[found.value], bytes, name.consumed, frame, fuel);
      }
    }

    /** A name that is not bound to a value or a field in the body means what it leads to in the namespace. */
    lemma NamedElsewhere(scope: Path, n: NameRef, s: Programs.Store)
      requires NameOk(n)
      ensures LocalOf(n).None? ==> s.BindingFor(n).None?
      ensures s.BindingFor(n).None? || s.BindingFor(n).value.BoundRegion? ==>
                var path := Lookup(Paths(records), scope, Parsed(n));
                && (path.Err? ==> NamedAt(TheWorld(), scope, n, s) == Err(path.error))
                && (path.Ok? && Find(records, path.value).None? ==> NamedAt(TheWorld(), scope, n, s) == Err(UndefinedObject))
                && (path.Ok? && Find(records, path.value).Some? ==>
                      && NamedAt(TheWorld(), scope, n, s) == CellAt(TheWorld(), records[Find(records, path.value).value], s)
                      && RecordNamed(TheWorld(), scope, n) == Ok(records[Find(records, path.value).value]))
    {
      hide Lookup, Paths, Find, CellAt, Store.Clean, SpellName;
    }

    /** The value of a name bound in the body to a value or a field. */
    method ReadBound(segment: NameSeg, frame: Frame) returns (r: Result<Option<Value>>)
      requires Ready(frame)
      ensures r != Err(OutOfFuel) && (r.Ok? && r.value.Some? ==> FitsFrame(frame, r.value.value))
      ensures match StoreOf(frame).BindingFor(SoleSegment(segment))
              case None => r == Ok(None)
              case Some(BoundRegion(_)) => r == Ok(None)
              case Some(_) =>
                match NamedAt(TheWorld(), frame.scope, SoleSegment(segment), StoreOf(frame))
                case Ok(v) => r == Ok(Some(v))
                case Err(x) => r == Err(x)
    {
      hide View, Load, RecordNamed, Store.Clean;
      var bound := frame.BindingOf(segment);
      if bound.None? || bound.value.BoundRegion? { return Ok(None); }
      if bound.value.BoundValue? { return Ok(Some(bound.value.value)); }
      if host == null { return Err(Unsupported); }
      var f := bound.value.field;
      var bits :- ReadFieldBits(host, f.region, f.bitOffset, f.bitWidth);
      MakeReduced(bits, IntegerWidth());
      return Ok(Some(MakeInteger(bits, IntegerWidth())));
    }

    /** A name bound in a body never hides a method. */
    lemma CallUnbound(frame: Frame, e: Expr)
      requires e.Call? && CleanFrame(frame) && Links(TheWorld(), frame.scope, e.name, e.args)
      ensures StoreOf(frame).BindingFor(e.name).None?
    {
      hide RecordNamed, NameOk, View;
      if LocalOf(e.name).Some? { assert e.name == SoleSegment(LocalOf(e.name).value); }
    }

    method CallNamed(m: MethodInfo, bytes: seq<byte>, skip: nat, frame: Frame, fuel: nat, ghost e: Option<Expr>)
      returns (r: Result<Term>)
      requires Ready(frame) && 1 <= skip <= |bytes|
      requires e.Some? ==> SpeaksCall(m, bytes[skip..], frame, e.value)
      requires e.Some? ==>
                 |Spell(TheWorld(), frame.scope, e.value)| == skip + |SpellArgs(TheWorld(), frame.scope, e.value.args)|
      modifies this, frame, host, state
      ensures TermDone(frame, bytes, r)
      ensures e.Some? ==> Means(frame, e.value, Eval(TheWorld(), SiteOf(frame), e.value, old(StoreOf(frame)), fuel), r)
      decreases fuel, MAX_DEPTH - frame.depth, |bytes|, 1
    {
      hide Eval, Spell, SpellArgs, ExprOk, Ready, Compiled, CompiledMethod, SpeaksCall, Links, ArgsOk, RecordNamed, NameOk;
      var t :- InvokeMethodFromTerm(m, bytes[skip..], frame, fuel, e);
      return Ok(Term(t.value, skip + t.consumed));
    }

    /** The bytes spell the arguments of a call that reaches the method. */
    ghost predicate SpeaksCall(m: MethodInfo, bytes: seq<byte>, frame: Frame, e: Expr)
      reads frame
    {
      && e.Call? && Fluent(frame) && ExprOk(TheWorld(), frame.scope, e) && Links(TheWorld(), frame.scope, e.name, e.args)
      && RecordNamed(TheWorld(), frame.scope, e.name).value.payload == MethodPayload(m) && CompiledMethod(m)
      && ArgsOk(TheWorld(), frame.scope, e.args) && SpellArgs(TheWorld(), frame.scope, e.args) <= bytes
    }

    /** A named object that is not a method: an integer as last written or declared, a field as the
        number its bits spell on the host, or a static value. */
    method EvalObject(record: Record, bytes: seq<byte>, consumed: nat, frame: Frame, fuel: nat) returns (r: Result<Term>)
      requires Ready(frame) && 1 <= consumed <= |bytes| && !IsMethod(record)
      modifies this, frame, host, state
      ensures TermDone(frame, bytes, r)
      ensures IsCell(record) ==>
                StoreOf(frame) == old(StoreOf(frame)) &&
                r == match CellAt(TheWorld(), record, old(StoreOf(frame)))
                     case Ok(v) => Ok(Term(v, consumed))
                     case Err(x) => Err(x)
      decreases fuel, MAX_DEPTH - frame.depth, |bytes|, 1
    {
      hide Spell, ExprOk, Compiled, RecordNamed, NameOk, Load;
      match record.payload {
        case IntegerPayload(value) =>
          var v := value;
          if state != null {
            var written := state.ReadInteger(record.id);
            if written.Some? { v := written.value; }
          }
          MakeReduced(v, IntegerWidth());
          return Ok(Term(MakeInteger(v, IntegerWidth()), consumed));
        case NoPayload =>
          if record.kind != Name { return Err(Unsupported); }
          if record.body.None? { return Err(InvalidState); }
          var t :- EvalStaticNameValue(record.body.value, frame, fuel);
          return Ok(Term(t.value, consumed));
        case FieldPayload(field) =>
          if host == null { return Err(Unsupported); }
          var region :- RegionOfField(records, field);
          var bits :- ReadFieldBits(host, region, field.bitOffset, field.bitWidth);
          MakeReduced(bits, IntegerWidth());
          return Ok(Term(MakeInteger(bits, IntegerWidth()), consumed));
        case _ => return Err(Unsupported);
      }
    }

    /** The arguments, in order, and then the call. */
    method InvokeMethodFromTerm(m: MethodInfo, bytes: seq<byte>, frame: Frame, fuel: nat, ghost e: Option<Expr>)
      returns (r: Result<Term>)
      requires Ready(frame) && (e.Some? ==> SpeaksCall(m, bytes, frame, e.value))
      modifies this, frame, host, state
      ensures Ready(frame) && Onward() && CutIfStarved(r)
      ensures r.Ok? ==> r.value.consumed <= |bytes| && FitsFrame(frame, r.value.value) && refusals == old(refusals)
      ensures e.Some? ==> MeansCall(frame, e.value, Eval(TheWorld(), SiteOf(frame), e.value, old(StoreOf(frame)), fuel), r)
      decreases fuel, MAX_DEPTH - frame.depth, |bytes|, 7
    {
      hide Spell, SpellArgs, ExprOk, ArgsOk, Compiled, CompiledMethod, EvalArgs, Invoke, RecordNamed, NameOk;
      if frame.depth >= MAX_DEPTH { return Err(InvalidState); }
      var given :- EvalArguments(m, bytes, frame, fuel, if e.Some? then Some(e.value.args) else None);
      var v :- InvokeMethodDescriptor(m, given.values, frame.depth + 1, fuel, frame.trusted,
                                      if e.Some? then Some(e.value.name) else None, SiteOf(frame));
      return Ok(Term(if v.Some? then v.value else NoValue, given.consumed));
    }

    ghost predicate MeansCall(frame: Frame, e: Expr, meaning: Result<Step>, r: Result<Term>)
      requires e.Call? && ExprOk(TheWorld(), frame.scope, e)
      reads this, frame, host, state
    {
      match meaning
      case Err(x) => r == Err(x)
      case Ok(step) => r == Ok(Term(step.value, |SpellArgs(TheWorld(), frame.scope, e.args)|))
                       && StoreOf(frame) == step.store
    }

    method EvalArguments(m: MethodInfo, bytes: seq<byte>, frame: Frame, fuel: nat, ghost args: Option<Args>)
      returns (r: Result<Arguments>)
      requires Ready(frame)
      requires args.Some? ==>
                 && Fluent(frame) && ArgsOk(TheWorld(), frame.scope, args.value)
                 && SpellArgs(TheWorld(), frame.scope, args.value) <= bytes && m.argCount == ArgCount(args.value) <= 7
      modifies this, frame, host, state
      ensures Ready(frame) && Onward() && CutIfStarved(r)
      ensures r.Ok? ==> |r.value.values| == m.argCount <= 7 && r.value.consumed <= |bytes| && refusals == old(refusals)
      ensures r.Ok? && frame.trusted ==> AllFit(r.value.values, IntegerWidth())
      ensures args.Some? ==>
                match EvalArgs(TheWorld(), SiteOf(frame), args.value, old(StoreOf(frame)), fuel)
                case Err(x) => r == Err(x)
                case Ok(a) =>
                  && r == Ok(Arguments(a.values, |SpellArgs(TheWorld(), frame.scope, args.value)|))
                  && StoreOf(frame) == a.store
      decreases fuel, MAX_DEPTH - frame.depth, |bytes|, 6
    {
      hide Spell, ExprOk, Compiled, Eval, Ready;
      var values: seq<Value> := [];
      var consumed: nat := 0;
      if args.Some? { PrependNothing(EvalArgs(TheWorld(), SiteOf(frame), args.value, StoreOf(frame), fuel)); }
      ghost var left := args;
      while |values| < m.argCount
        invariant Ready(frame) && Onward() && refusals == old(refusals)
        invariant |values| <= m.argCount && |values| <= 7 && consumed <= |bytes|
        invariant frame.trusted ==> AllFit(values, IntegerWidth())
        invariant args.Some? == left.Some?
        invariant args.Some? ==> ArgsLeft(frame, bytes, args.value, values, consumed, left.value)
        invariant args.Some? ==> EvalArgs(TheWorld(), SiteOf(frame), args.value, old(StoreOf(frame)), fuel)
                                 == Prepend(values, EvalArgs(TheWorld(), SiteOf(frame), left.value, StoreOf(frame), fuel))
        decreases m.argCount - |values|
      {
        if args.Some? {
          NextArgument(TheWorld(), SiteOf(frame), values, left.value, StoreOf(frame), fuel);
          HeadSpeaks(frame, bytes, args.value, values, consumed, left.value);
        }
        var t :- EvalTermArg(bytes[consumed..], frame, fuel, if args.Some? then Some(left.value.head) else None);
        if |values| >= 7 { return Err(Fault); }
        if args.Some? { TailSpeaks(frame, bytes, args.value, values, consumed, left.value, t.value); }
        values, consumed := values + [t.value], consumed + t.consumed;
        left := if args.Some? then Some(left.value.tail) else None;
      }
      assert args.Some? ==> left.value.NoArgs? && values + [] == values;
      return Ok(Arguments(values, consumed));
    }

    /** How far the arguments have been read. */
    ghost predicate ArgsLeft(frame: Frame, bytes: seq<byte>, args: Args, values: seq<Value>, consumed: nat, left: Args)
      requires consumed <= |bytes|
      reads frame
    {
      && Fluent(frame) && ArgsOk(TheWorld(), frame.scope, left) && ArgsOk(TheWorld(), frame.scope, args)
      && |values| + ArgCount(left) == ArgCount(args)
      && SpellArgs(TheWorld(), frame.scope, left) <= bytes[consumed..]
      && consumed + |SpellArgs(TheWorld(), frame.scope, left)| == |SpellArgs(TheWorld(), frame.scope, args)|
    }

    lemma HeadSpeaks(frame: Frame, bytes: seq<byte>, args: Args, values: seq<Value>, consumed: nat, left: Args)
      requires consumed <= |bytes| && ArgsLeft(frame, bytes, args, values, consumed, left) && left.MoreArgs?
      ensures Speaks(frame, bytes[consumed..], Some(left.head))
    {
      hide Spell;
      Chop(Spell(TheWorld(), frame.scope, left.head), SpellArgs(TheWorld(), frame.scope, left.tail), bytes[consumed..]);
    }

    lemma TailSpeaks(frame: Frame, bytes: seq<byte>, args: Args, values: seq<Value>, consumed: nat, left: Args, v: Value)
      requires consumed <= |bytes| && left.MoreArgs? && Fluent(frame)
      requires ArgsLeft(frame, bytes, args, values, consumed, left)
      ensures var n := |Spell(TheWorld(), frame.scope, left.head)|;
              consumed + n <= |bytes| && ArgsLeft(frame, bytes, args, values + [v], consumed + n, left.tail)
    {
      hide Spell;
      var n := |Spell(TheWorld(), frame.scope, left.head)|;
      Chop(Spell(TheWorld(), frame.scope, left.head), SpellArgs(TheWorld(), frame.scope, left.tail), bytes[consumed..]);
      assert bytes[consumed..][n..] == bytes[consumed + n..];
    }

    /** A body runs in a frame of its own, one call deeper; a body that blocks is an error here. */
    method InvokeMethodDescriptor(m: MethodInfo, values: seq<Value>, depth: nat, fuel: nat, ghost trusted: bool,
                                  ghost n: Option<NameRef>, ghost at: Site) returns (r: Result<Option<Value>>)
      requires Steady() && depth <= MAX_DEPTH && (trusted ==> AllFit(values, IntegerWidth()))
      requires n.Some? ==> at.depth + 1 == depth && |values| <= 7 && NamesRecord(TheWorld(), at.scope, n.value)
      requires n.Some? ==> RecordNamed(TheWorld(), at.scope, n.value).value.payload == MethodPayload(m)
      requires n.Some? ==> m.node in library && Compiled() && CompiledMethod(m) && AllUsable(TheWorld(), values)
      modifies this, host, state
      ensures Steady() && Onward() && CutIfStarved(r)
      ensures r.Ok? ==> refusals == old(refusals)
      ensures r.Ok? && r.value.Some? && trusted ==> Values.Fits(r.value.value, IntegerWidth())
      ensures n.Some? ==>
                match Invoke(TheWorld(), at, n.value, values, old(SharedNow()), fuel)
                case Err(x) => r == Err(x)
                case Ok(answer) =>
                  && r.Ok? && answer.value == (if r.value.Some? then r.value.value else NoValue)
                  && SharedNow() == answer.shared
      decreases fuel, MAX_DEPTH - depth
    {
      hide Execute, SpellBlock, BlockOk, Compiled, RecordNamed, NameOk, FindId, Entry;
      if FindId(records, m.node).None? { return Err(UndefinedObject); }
      var body := CodeBytes(blocks, m.body);
      if body.None? { return Err(InvalidState); }
      if |values| > 7 { return Err(Unsupported); }
      var frame := new Frame(IntegerWidth(), BodyScope(records, m.node), values, depth, trusted);
      entered := entered + [depth];
      assert n.Some? ==> frame.Contents(SharedNow()).Clean(TheWorld(), frame.scope);
      var control :- EvalTermList(body.value, frame, fuel, if n.Some? then Some(library[m.node]) else None);
      match control {
        case Continue => return Ok(None);
        case Blocked => return Err(Unsupported);
        case Leave => return Err(InvalidState);
        case Returned(v) => return Ok(Some(v));
      }
    }

    // ---- Targets ----

    ghost predicate SpeaksTarget(frame: Frame, bytes: seq<byte>, t: Option<Target>)
      reads frame
    {
      t.Some? ==> Fluent(frame) && TargetOk(TheWorld(), frame.scope, t.value)
                  && SpellTarget(TheWorld(), frame.scope, t.value) <= bytes
    }

    ghost predicate MeansTarget(frame: Frame, t: Target, meaning: Result<Programs.Store>, r: Result<nat>)
      requires TargetOk(TheWorld(), frame.scope, t)
      reads this, frame, host, state
    {
      match meaning
      case Err(x) => r == Err(x)
      case Ok(s) => r == Ok(|SpellTarget(TheWorld(), frame.scope, t)|) && StoreOf(frame) == s
    }

    method AssignTarget(bytes: seq<byte>, frame: Frame, value: Value, fuel: nat, ghost t: Option<Target>)
      returns (r: Result<nat>)
      requires Ready(frame) && FitsFrame(frame, value) && SpeaksTarget(frame, bytes, t)
      modifies this, frame, host, state
      ensures TargetDone(frame, bytes, r)
      ensures t.Some? ==>
                MeansTarget(frame, t.value, PutAt(TheWorld(), SiteOf(frame), t.value, value, old(StoreOf(frame)), fuel), r)
      decreases fuel, MAX_DEPTH - frame.depth, |bytes|, 4
    {
      hide NameOk, RecordNamed, PutAt, TargetOk, SpellTarget, PutNamed, SpellName, CleanFrame, Compiled;
      hide Ready, RegisterOf;
      if bytes == [] { return Err(Truncated); }
      if t.Some? {
        TargetLead(frame.scope, t.value, bytes);
        PutSimply(SiteOf(frame), t.value, value, StoreOf(frame), fuel);
      }
      var opcode := bytes[0];
      if opcode == 0x00 { return Ok(1); }
      if RegisterByte(opcode) {
        AssignRegister(opcode, frame, value);
        return Ok(1);
      }
      if opcode == 0x88 {
        r := AssignIndexTarget(bytes, frame, value, fuel, t);
      } else if NameLead(opcode) {
        r := AssignNamed(bytes, frame, value, if t.Some? then Some(t.value.name) else None);
      } else {
        return Err(Unsupported);
      }
    }

    /** Locals are 0x60 to 0x67, arguments 0x68 to 0x6E. */
    method AssignRegister(opcode: byte, frame: Frame, value: Value)
      requires Ready(frame) && FitsFrame(frame, value) && RegisterByte(opcode)
      modifies frame
      ensures Ready(frame) && StoreOf(frame) == old(StoreOf(frame)).Set(RegisterOf(opcode), value)
    {
      if opcode <= 0x67 {
        frame.locals := frame.locals[opcode - 0x60 := Some(value)];
      } else {
        frame.args := frame.args[opcode - 0x68 := Some(value)];
      }
    }

    lemma PutSimply(at: Site, t: Target, v: Value, s: Programs.Store, fuel: nat)
      ensures t.Discard? ==> PutAt(TheWorld(), at, t, v, s, fuel) == Ok(s)
      ensures t.Into? ==> PutAt(TheWorld(), at, t, v, s, fuel) == Ok(s.Set(t.register, v))
      ensures t.IntoName? && NameOk(t.name) ==>
                PutAt(TheWorld(), at, t, v, s, fuel) == Programs.PutNamed(TheWorld(), at.scope, t.name, v, s)
    {
      hide PutNamed, NameOk;
    }

    lemma TargetLead(scope: Path, t: Target, bytes: seq<byte>)
      requires TargetOk(TheWorld(), scope, t) && SpellTarget(TheWorld(), scope, t) <= bytes
      ensures bytes != []
      ensures match t
              case Discard => bytes[0] == 0x00
              case Into(r) => RegisterByte(bytes[0]) && RegisterOf(bytes[0]) == r
              case IntoName(n) =>
                && NameOk(n) && |n.segments| <= U8_MAX && NameLead(bytes[0])
                && SpellTarget(TheWorld(), scope, t) == SpellName(n)
              case IntoIndex(_, _, _) => bytes[0] == 0x88
      ensures t.Discard? || t.Into? ==> |SpellTarget(TheWorld(), scope, t)| == 1
    {
      hide Spell, SpellName;
      if t.IntoName? { NameLeads(t.name); }
    }

    method AssignNamed(bytes: seq<byte>, frame: Frame, value: Value, ghost n: Option<NameRef>) returns (r: Result<nat>)
      requires Ready(frame) && FitsFrame(frame, value)
      requires n.Some? ==> NameOk(n.value) && |n.value.segments| <= U8_MAX && SpellName(n.value) <= bytes
      modifies frame, host, state
      ensures TargetDone(frame, bytes, r)
      ensures n.Some? ==>
                match PutNamed(TheWorld(), frame.scope, n.value, value, old(StoreOf(frame)))
                case Err(x) => r == Err(x)
                case Ok(s) => r == Ok(|SpellName(n.value)|) && StoreOf(frame) == s
    {
      hide ParseName, Lookup, Paths, Find, NameOk, SpellName, PutCell, View, PutNamed, Store.Clean, Store.BindingFor;
      hide Frame.Valid, Steady;
      if n.Some? {
        NameReadBack(n.value, bytes);
        PutElsewhere(frame.scope, n.value, value, StoreOf(frame));
      }
      var name :- ParseName(bytes);
      if LocalSegment(name).Some? {
        assert n.Some? ==> n.value == SoleSegment(LocalSegment(name).value);
        var done :- AssignLocal(LocalSegment(name).value, frame, value);
        if done { return Ok(name.consumed); }
      }
      var _ :- AssignObject(name, frame.scope, value);
      return Ok(name.consumed);
    }

    method AssignObject(name: EncodedName, scope: Path, value: Value) returns (r: Result<Unit>)
      requires Steady()
      modifies host, state
      ensures Steady() && r != Err(OutOfFuel)
      ensures var path := Lookup(Paths(records), scope, name);
              && (path.Err? ==> r == Err(path.error))
              && (path.Ok? && Find(records, path.value).None? ==> r == Err(UndefinedObject))
              && (path.Ok? && Find(records, path.value).Some? ==>
                    match PutCell(TheWorld(), records[Find(records, path.value).value], value, old(SharedNow()))
                    case Err(x) => r == Err(x)
                    case Ok(s) => r.Ok? && SharedNow() == s)
    {
      hide Lookup, Paths, Find, PutCell;
      var path :- Lookup(Paths(records), scope, name);
      r := WriteNamedTarget(path, value);
    }

    /** A name that is not bound in the body to something that takes values leads to an object of the namespace. */
    lemma PutElsewhere(scope: Path, n: NameRef, v: Value, s: Programs.Store)
      requires |n.segments| <= U8_MAX
      ensures LocalOf(n).None? ==> s.BindingFor(n).None?
      ensures s.BindingFor(n).None? || s.BindingFor(n).value.BoundRegion? ==>
                var path := Lookup(Paths(records), scope, Parsed(n));
                && (path.Err? ==> Programs.PutNamed(TheWorld(), scope, n, v, s) == Err(path.error))
                && (path.Ok? && Find(records, path.value).None? ==>
                      Programs.PutNamed(TheWorld(), scope, n, v, s) == Err(UndefinedObject))
                && (path.Ok? && Find(records, path.value).Some? ==>
                      var shared := PutCell(TheWorld(), records[Find(records, path.value).value], v, s.shared);
                      && (shared.Err? ==> Programs.PutNamed(TheWorld(), scope, n, v, s) == Err(shared.error))
                      && (shared.Ok? ==> Programs.PutNamed(TheWorld(), scope, n, v, s) == Ok(s.(shared := shared.value))))
    {
      hide Lookup, Paths, Find, PutCell, Store.Clean, SpellName;
    }

    lemma PutBound(scope: Path, n: NameSeg, v: Value, s: Programs.Store)
      ensures var bound, put := s.BindingFor(SoleSegment(n)), Programs.PutNamed(TheWorld(), scope, SoleSegment(n), v, s);
              && bound == (if n in s.names then Some(s.names[n]) else None)
              && (bound.Some? && bound.value.BoundField? ==>
                    if s.shared.memory.None? then put == Err(Unsupported)
                    else if !v.Integer? then put == Err(Unsupported)
                    else
                      var f := bound.value.field;
                      var m := Fields.Store(s.shared.memory.value, f.region, f.bitOffset, f.bitWidth, f.update, v.value);
                      put == if m.Ok? then Ok(s.(shared := s.shared.(memory := Some(m.value)))) else Err(m.error))
              && (bound.Some? && bound.value.BoundValue? && bound.value.value.BufferHandle? ==>
                    if s.shared.tables.None? then put == Err(Unsupported)
                    else
                      var o := FillBuffer(blocks, s.shared.tables.value, bound.value.value.handle, v);
                      put == if o.Ok? then Ok(s.(shared := s.shared.(tables := Some(o.value)))) else Err(o.error))
              && (bound.Some? && bound.value.BoundValue? && !bound.value.value.BufferHandle? ==>
                    put == Ok(s.(names := s.names[n := BoundValue(v)])))
    {
      hide Fields.Store, FillBuffer, Store.Clean;
    }

    /** Stores into a name bound while this body runs, if there is one: a buffer is filled, a field
        written, any other value replaced. */
    method AssignLocal(segment: NameSeg, frame: Frame, value: Value) returns (r: Result<bool>)
      requires Ready(frame) && FitsFrame(frame, value)
      modifies frame, host, state
      ensures Ready(frame) && r != Err(OutOfFuel)
      ensures match old(StoreOf(frame)).BindingFor(SoleSegment(segment))
              case None => r == Ok(false) && StoreOf(frame) == old(StoreOf(frame))
              case Some(BoundRegion(_)) => r == Ok(false) && StoreOf(frame) == old(StoreOf(frame))
              case Some(_) =>
                match PutNamed(TheWorld(), frame.scope, SoleSegment(segment), value, old(StoreOf(frame)))
                case Err(x) => r == Err(x)
                case Ok(s) => r == Ok(true) && StoreOf(frame) == s
    {
      hide Fields.Store, View, Distinct, RuntimeState.Sound, FillBuffer, Store.Clean, PutNamed;
      PutBound(frame.scope, segment, value, StoreOf(frame));
      var bound := frame.BindingOf(segment);
      if bound.Some? && bound.value.BoundValue? && bound.value.value.BufferHandle? {
        if state == null { return Err(Unsupported); }
        var _ :- CopyValueIntoBuffer(bound.value.value.handle, value);
        return Ok(true);
      }
      if bound.Some? && bound.value.BoundField? {
        if host == null { return Err(Unsupported); }
        var n :- AsInteger(value);
        var f := bound.value.field;
        var _ :- WriteFieldBits(host, f.region, f.bitOffset, f.bitWidth, f.update, n);
        return Ok(true);
      }
      var written := frame.WriteNamedValue(segment, value);
      return Ok(written);
    }

    /** Stores into a named object: an integer goes to the tables, a field to the host's bits. */
    method WriteNamedTarget(path: Path, value: Value) returns (r: Result<Unit>)
      requires Steady()
      modifies host, state
      ensures Steady() && r != Err(OutOfFuel)
      ensures Find(records, path).None? ==> r == Err(UndefinedObject)
      ensures Find(records, path).Some? ==>
                match PutCell(TheWorld(), records[Find(records, path).value], value, old(SharedNow()))
                case Err(x) => r == Err(x)
                case Ok(s) => r.Ok? && SharedNow() == s
    {
      hide Fields.Store;
      var found := Find(records, path);
      if found.None? { return Err(UndefinedObject); }
      match records[found.value].payload {
        case FieldPayload(field) =>
          if host == null { return Err(Unsupported); }
          var n :- AsInteger(value);
          var region :- RegionOfField(records, field);
          r := WriteFieldBits(host, region, field.bitOffset, field.bitWidth, field.update, n);
        case IntegerPayload(_) =>
          if state == null { return Err(Unsupported); }
          var n :- AsInteger(value);
          r := state.WriteInteger(records[found.value].id, n);
        case _ => return Err(Unsupported);
      }
    }

    /** A store into an element: its operands are evaluated first, and what its own target names takes nothing. */
    method AssignIndexTarget(bytes: seq<byte>, frame: Frame, value: Value, fuel: nat, ghost t: Option<Target>)
      returns (r: Result<nat>)
      requires Ready(frame) && FitsFrame(frame, value) && bytes != []
      requires SpeaksTarget(frame, bytes, t) && (t.Some? ==> t.value.IntoIndex?)
      modifies this, frame, host, state
      ensures TargetDone(frame, bytes, r)
      ensures t.Some? ==>
                MeansTarget(frame, t.value, PutAt(TheWorld(), SiteOf(frame), t.value, value, old(StoreOf(frame)), fuel), r)
      decreases fuel, MAX_DEPTH - frame.depth, |bytes|, 3
    {
      hide Eval, Spell, ExprOk, PutAt, SpellTarget, TargetOk, Compiled, PutThen, Ready;
      if t.Some? {
        IndexTargetParts(TheWorld(), frame.scope, t.value, bytes);
        if state != null { IndexTargetMeaning(TheWorld(), SiteOf(frame), t.value, value, StoreOf(frame), fuel); }
        else { NoTablesToPut(SiteOf(frame), t.value, value, StoreOf(frame), fuel); }
      }
      if state == null { return Err(Unsupported); }
      var x :- EvalTermArg(bytes[1..], frame, fuel, if t.Some? then Some(t.value.base) else None);
      var y :- EvalTermArg(bytes[1 + x.consumed..], frame, fuel, if t.Some? then Some(t.value.index) else None);
      var rest := 1 + x.consumed + y.consumed;
      var n :- StoreIndexed(bytes[rest..], x.value, y.value, frame, value, fuel,
                            if t.Some? then Some(t.value.rest) else None);
      return Ok(rest + n);
    }

    method StoreIndexed(bytes: seq<byte>, x: Value, y: Value, frame: Frame, value: Value, fuel: nat, ghost t: Option<Target>)
      returns (r: Result<nat>)
      requires Ready(frame) && state != null && SpeaksTarget(frame, bytes, t)
      modifies this, frame, host, state
      ensures TargetDone(frame, bytes, r)
      ensures t.Some? ==>
                MeansTarget(frame, t.value,
                            PutThen(TheWorld(), SiteOf(frame), t.value, x, y, value, old(StoreOf(frame)), fuel), r)
      decreases fuel, MAX_DEPTH - frame.depth, |bytes|, 5
    {
      hide Spell, ExprOk, PutAt, SpellTarget, TargetOk, Compiled, PutIndexed, StoreOf;
      hide Ready, Eval, CleanFrame, Store.Clean, Fluent, SpeaksTarget;
      var n :- AssignTarget(bytes, frame, NoValue, fuel, t);
      var _ :- StoreAt(x, y, frame, value);
      return Ok(n);
    }

    /** The store itself, once the package or buffer and the index are known. */
    method StoreAt(x: Value, y: Value, frame: Frame, value: Value) returns (r: Result<Unit>)
      requires Ready(frame) && state != null
      modifies state
      ensures Ready(frame) && r != Err(OutOfFuel)
      ensures match PutIndexed(TheWorld(), frame.scope, x, y, value, old(StoreOf(frame)))
              case Ok(s) => r.Ok? && StoreOf(frame) == s
              case Err(e) => r == Err(e)
    {
      hide PutElement, Frame.Valid, View, Store.Clean;
      var index :- AsInteger(y);
      r := StoreElement(x, index, value);
    }

    lemma NoTablesToPut(at: Site, t: Target, v: Value, s: Programs.Store, fuel: nat)
      requires t.IntoIndex? && s.shared.tables.None?
      ensures PutAt(TheWorld(), at, t, v, s, fuel) == Err(Unsupported)
    {
    }

    /** Stores into an element of a package or a buffer. */
    method StoreElement(base: Value, index: u64, value: Value) returns (r: Result<Unit>)
      requires Steady() && state != null
      modifies state
      ensures Steady() && r != Err(OutOfFuel)
      ensures match PutElement(old(state.Contents()), base, index, value)
              case Ok(o) => r.Ok? && state.Contents() == o
              case Err(x) => r == Err(x)
    {
      hide RuntimeState.Perform;
      if index > U8_MAX { return Err(Overflow); }
      PutIsOneCall(state.Contents(), base, index, value);
      match base {
        case PackageHandle(h) =>
          var element :- Aggregated(value);
          r := state.WritePackageValue(h, index, element);
        case BufferHandle(h) =>
          var b :- AsInteger(value);
          r := state.WriteBufferByte(h, index, b % 256);
        case _ => return Err(Unsupported);
      }
    }

    method ReadTargetValue(bytes: seq<byte>, frame: Frame, fuel: nat, ghost t: Option<Target>) returns (r: Result<Term>)
      requires Ready(frame) && SpeaksTarget(frame, bytes, t) && (t.Some? ==> !t.value.Discard?)
      requires t.Some? && t.value.IntoName? ==> NameReads(TheWorld(), frame.scope, t.value.name)
      modifies this, frame, host, state
      ensures TermDone(frame, bytes, r)
      ensures t.Some? && r.Ok? ==> StoreOf(frame) == old(StoreOf(frame))
      ensures t.Some? ==>
                (t.value.IntoName? ==> NameOk(t.value.name)) &&
                r == match ValueAt(TheWorld(), frame.scope, t.value, old(StoreOf(frame)))
                     case Ok(v) => Ok(Term(v, |SpellTarget(TheWorld(), frame.scope, t.value)|))
                     case Err(x) => Err(x)
      decreases fuel, MAX_DEPTH - frame.depth, |bytes|, 4
    {
      hide NameOk, RecordNamed, Compiled, NamedAt, Eval, SpellName;
      if bytes == [] { return Err(Truncated); }
      ghost var e := if t.Some? && t.value.IntoName? then Some(Named(t.value.name)) else None;
      if t.Some? {
        TargetLead(frame.scope, t.value, bytes);
        if e.Some? { NamedMeaning(TheWorld(), SiteOf(frame), t.value.name, StoreOf(frame), fuel); }
      }
      if RegisterByte(bytes[0]) {
        var v :- StoreOf(frame).Get(RegisterOf(bytes[0]));
        return Ok(Term(v, 1));
      }
      if NameLead(bytes[0]) {
        r := EvalNamedTerm(bytes, frame, fuel, e);
      } else {
        return Err(Unsupported);
      }
    }

    // ---- Aggregates ----

    twostate predicate ValueDone(frame: Frame, new r: Result<Value>)
      reads this, frame, state
    {
      && Ready(frame) && Onward() && CutIfStarved(r)
      && (r.Ok? ==> FitsFrame(frame, r.value) && refusals == old(refusals))
    }

    ghost predicate SpeaksInit(frame: Frame, bytes: seq<byte>, i: Option<Init>)
      reads frame
    {
      i.Some? ==> Fluent(frame) && InitOk(TheWorld(), frame.scope, i.value)
                  && SpellInit(TheWorld(), frame.scope, i.value) <= bytes
    }

    ghost predicate MeansInit(frame: Frame, i: Init, meaning: Result<Step>, r: Result<Term>)
      requires InitOk(TheWorld(), frame.scope, i)
      reads this, frame, host, state
    {
      match meaning
      case Err(x) => r == Err(x)
      case Ok(step) => r == Ok(Term(step.value, |SpellInit(TheWorld(), frame.scope, i)|))
                       && StoreOf(frame) == step.store
    }

    method EvalNameInitializer(bytes: seq<byte>, frame: Frame, fuel: nat, ghost i: Option<Init>) returns (r: Result<Term>)
      requires Ready(frame) && SpeaksInit(frame, bytes, i)
      modifies this, frame, host, state
      ensures TermDone(frame, bytes, r)
      ensures i.Some? ==> MeansInit(frame, i.value, Build(TheWorld(), SiteOf(frame), i.value, old(StoreOf(frame)), fuel), r)
      decreases fuel, MAX_DEPTH - frame.depth, |bytes|, 6
    {
      hide Compiled, Spell, SpellPackage;
      if bytes == [] { return Err(Truncated); }
      if i.Some? { InitLead(frame.scope, i.value, bytes); }
      match bytes[0] {
        case 0x0D =>
          if i.Some? { TextMeaning(SiteOf(frame), i.value, StoreOf(frame), fuel); }
          r := EvalTermArg(bytes, frame, fuel, if i.Some? then Some(Chars(i.value.bytes)) else None);
        case 0x11 => r := EvalBufferInitializer(bytes, frame, fuel, i);
        case 0x12 => r := EvalPackageInitializer(bytes, frame, fuel, i);
        case _ => return Err(Unsupported);
      }
    }

    lemma InitLead(scope: Path, i: Init, bytes: seq<byte>)
      requires InitOk(TheWorld(), scope, i) && SpellInit(TheWorld(), scope, i) <= bytes
      ensures bytes != [] && bytes[0] == match i
                                         case TextInit(_) => 0x0D
                                         case BufferInit(_, _, _) => 0x11
                                         case PackageInit(_, _, _) => 0x12
    {
      hide SpellPackage, Spell, SpellArgs;
    }

    /** A declared text is the text that its characters spell as a term. */
    lemma TextMeaning(at: Site, i: Init, s: Programs.Store, fuel: nat)
      requires i.TextInit? && InitOk(TheWorld(), at.scope, i)
      ensures var e := Chars(i.bytes);
              && ExprOk(TheWorld(), at.scope, e)
              && Spell(TheWorld(), at.scope, e) == SpellInit(TheWorld(), at.scope, i)
              && Eval(TheWorld(), at, e, s, fuel) == Build(TheWorld(), at, i, s, fuel)
    {
    }

    /** A Package is made in the tables, and its terms are evaluated and stored one after the other. */
    method EvalPackageInitializer(bytes: seq<byte>, frame: Frame, fuel: nat, ghost i: Option<Init>) returns (r: Result<Term>)
      requires Ready(frame) && bytes != [] && SpeaksInit(frame, bytes, i) && (i.Some? ==> i.value.PackageInit?)
      modifies this, frame, host, state
      ensures TermDone(frame, bytes, r)
      ensures i.Some? ==> MeansInit(frame, i.value, Build(TheWorld(), SiteOf(frame), i.value, old(StoreOf(frame)), fuel), r)
      decreases fuel, MAX_DEPTH - frame.depth, |bytes|, 3
    {
      hide Eval, Spell, CountedAt, RuntimeState.Perform, SpellInit, InitOk, Build, Compiled, NewPackage, ExprOk, Fill;
      if i.Some? {
        TermsParts(TheWorld(), frame.scope, i.value, bytes);
        PackageBuilt(SiteOf(frame), i.value, StoreOf(frame), fuel);
      }
      if state == null { return Err(Unsupported); }
      var x :- CountedAt(bytes);
      var count := bytes[x.start];
      NewPackageIsOneCall(state.Contents(), count);
      var handle :- state.CreatePackage(count);
      var _ :- FillPackage(bytes[x.start + 1..x.end], handle, count, frame, fuel,
                           if i.Some? then Some(i.value.terms) else None);
      return Ok(Term(PackageHandle(handle), x.end));
    }

    /** Stores the terms in the package, until it is full or there are no more. */
    method FillPackage(bytes: seq<byte>, handle: nat, count: byte, frame: Frame, fuel: nat, ghost terms: Option<Args>)
      returns (r: Result<Unit>)
      requires Ready(frame) && state != null && (terms.Some? ==> TermsLeft(frame, bytes, terms.value))
      modifies this, frame, host, state
      ensures Ready(frame) && Onward() && CutIfStarved(r) && (r.Ok? ==> refusals == old(refusals))
      ensures terms.Some? ==>
                match Fill(TheWorld(), SiteOf(frame), handle, 0, count, terms.value, old(StoreOf(frame)), fuel)
                case Ok(s) => r.Ok? && StoreOf(frame) == s
                case Err(x) => r == Err(x)
      decreases fuel, MAX_DEPTH - frame.depth, |bytes|, 6
    {
      hide Eval, Spell, Compiled, ExprOk, Fill, PutElement;
      ghost var left := if terms.Some? then terms.value else NoArgs;
      ghost var whole := Fill(TheWorld(), SiteOf(frame), handle, 0, count, left, StoreOf(frame), fuel);
      var cursor, index := 0, 0;
      while index < count && cursor < |bytes|
        invariant Ready(frame) && Onward() && refusals == old(refusals)
        invariant index <= count && 0 <= cursor <= |bytes|
        invariant terms.Some? ==> TermsLeft(frame, bytes[cursor..], left)
        invariant terms.Some? ==> Fill(TheWorld(), SiteOf(frame), handle, index, count, left, StoreOf(frame), fuel) == whole
        decreases count - index
      {
        if terms.Some? { NextTerm(TheWorld(), SiteOf(frame), handle, index, count, left, StoreOf(frame), fuel); }
        var t :- EvalTermArg(bytes[cursor..], frame, fuel, if terms.Some? then Some(left.head) else None);
        var _ :- StoreElement(PackageHandle(handle), index, t.value);
        assert bytes[cursor..][t.consumed..] == bytes[cursor + t.consumed..];
        cursor, index := cursor + t.consumed, index + 1;
        left := if terms.Some? then left.tail else NoArgs;
      }
      if terms.Some? { Filled(SiteOf(frame), handle, index, count, left, StoreOf(frame), fuel); }
      return Ok(Unit);
    }

    lemma Filled(at: Site, h: nat, k: nat, count: nat, left: Args, s: Programs.Store, fuel: nat)
      requires k >= count || left.NoArgs?
      ensures Fill(TheWorld(), at, h, k, count, left, s, fuel) == Ok(s)
    {
    }

    /** The terms still to be stored are what is left of the package. */
    ghost predicate TermsLeft(frame: Frame, bytes: seq<byte>, left: Args)
      reads frame
    {
      Fluent(frame) && ArgsOk(TheWorld(), frame.scope, left) && bytes == SpellArgs(TheWorld(), frame.scope, left)
    }

    lemma PackageBuilt(at: Site, i: Init, s: Programs.Store, fuel: nat)
      requires i.PackageInit?
      ensures s.shared.tables.None? ==> Build(TheWorld(), at, i, s, fuel) == Err(Unsupported)
      ensures s.shared.tables.Some? ==>
                var m := NewPackage(s.shared.tables.value, i.count);
                && (m.Err? ==> Build(TheWorld(), at, i, s, fuel) == Err(m.error))
                && (m.Ok? ==>
                      var filled := Fill(TheWorld(), at, m.value.handle, 0, i.count, i.terms,
                                         s.(shared := s.shared.(tables := Some(m.value.overlay))), fuel);
                      && (filled.Err? ==> Build(TheWorld(), at, i, s, fuel) == Err(filled.error))
                      && (filled.Ok? ==>
                            Build(TheWorld(), at, i, s, fuel) == Ok(Step(PackageHandle(m.value.handle), filled.value))))
    {
      hide Fill, NewPackage;
    }

    /** A Buffer is made in the tables and filled with what follows its size in the package. */
    method EvalBufferInitializer(bytes: seq<byte>, frame: Frame, fuel: nat, ghost i: Option<Init>) returns (r: Result<Term>)
      requires Ready(frame) && bytes != [] && SpeaksInit(frame, bytes, i) && (i.Some? ==> i.value.BufferInit?)
      modifies this, frame, host, state
      ensures TermDone(frame, bytes, r)
      ensures r.Ok? ==> state != null && BufferFilled(state.Contents(), bytes, r.value)
      ensures i.Some? ==> MeansInit(frame, i.value, Build(TheWorld(), SiteOf(frame), i.value, old(StoreOf(frame)), fuel), r)
      decreases fuel, MAX_DEPTH - frame.depth, |bytes|, 3
    {
      hide Eval, Spell, PackageAt, RuntimeState.Fitted, RuntimeState.Perform, SpellInit, InitOk, Compiled, ExprOk, NewBuffer;
      if i.Some? { BufferParts(TheWorld(), frame.scope, i.value, bytes); }
      if state == null { return Err(Unsupported); }
      var x :- PackageAt(bytes, 1);
      var t :- EvalTermArg(bytes[x.start..x.end], frame, fuel, if i.Some? then Some(i.value.length) else None);
      var n :- AsInteger(t.value);
      if n > U8_MAX { return Err(Overflow); }
      var handle :- MakeBuffer(n, bytes[x.start + t.consumed..x.end]);
      return Ok(Term(BufferHandle(handle), x.end));
    }

    /** A new buffer, filled. */
    method MakeBuffer(length: byte, raw: seq<byte>) returns (r: Result<nat>)
      requires Steady() && state != null
      modifies state
      ensures Steady() && r != Err(OutOfFuel)
      ensures match NewBuffer(old(state.Contents()), length, raw)
              case Ok(m) => r == Ok(m.handle) && state.Contents() == m.overlay
              case Err(x) => r == Err(x)
      ensures r.Ok? ==> RuntimeState.BufferAt(state.Contents(), r.value)
                        == Some(RuntimeState.BufferSlot(r.value, length, RuntimeState.Fitted(raw, length)))
    {
      hide RuntimeState.Perform, RuntimeState.Fitted;
      NewBufferIsTwoCalls(state.Contents(), length, raw);
      var handle :- state.CreateBuffer(length);
      var copied := state.CopyBytesIntoBuffer(handle, raw);
      return match copied case Ok(_) => Ok(handle) case Err(x) => Err(x);
    }

    /** The buffer in the tables holds what follows the size in the package, cut or padded to its length. */
    ghost predicate BufferFilled(tables: RuntimeState.Overlay, bytes: seq<byte>, t: Term)
      requires bytes != []
    {
      && PackageAt(bytes, 1).Ok? && t.consumed == PackageAt(bytes, 1).value.end && t.value.BufferHandle?
      && RuntimeState.BufferAt(tables, t.value.handle).Some?
      && var slot := RuntimeState.BufferAt(tables, t.value.handle).value;
         slot.len <= RuntimeState.MAX_BUFFER_BYTES
         && exists from: nat :: PackageAt(bytes, 1).value.start < from <= t.consumed
                                && slot.bytes == RuntimeState.Fitted(bytes[from..t.consumed], slot.len)
    }

    /** The value of a Name that is not an integer. A Buffer evaluates its size, and that may name
        other static values: the model cuts such nesting at `fuel`. */
    method EvalStaticNameValue(location: Location, frame: Frame, fuel: nat) returns (r: Result<Term>)
      requires Ready(frame)
      modifies this, frame, host, state
      ensures Ready(frame) && Onward() && CutIfStarved(r)
      ensures r.Ok? ==> FitsFrame(frame, r.value.value) && refusals == old(refusals)
      ensures !StaticBuffer(blocks, location) ==>
                r == StaticTerm(blocks, IntegerWidth(), location) && StoreOf(frame) == old(StoreOf(frame))
      ensures r.Ok? && StaticBuffer(blocks, location) ==> BufferTail(CodeBytes(blocks, location).value, r.value)
      decreases fuel, MAX_DEPTH - frame.depth, 0, 0
    {
      hide Eval, Spell, StaticTerm;
      if !StaticBuffer(blocks, location) { return StaticTerm(blocks, IntegerWidth(), location); }
      var bytes := CodeBytes(blocks, location).value;
      var x :- PackageAt(bytes, 1);
      loops := loops + 1;
      if fuel == 0 {
        starved := true;
        return Err(OutOfFuel);
      }
      var t :- EvalTermArg(bytes[x.start..x.end], frame, fuel - 1, None);
      var n :- AsInteger(t.value);
      var raw := bytes[x.start + t.consumed..x.end];
      return Ok(Term(Buffer(raw[..if n < |raw| then n else |raw|]), x.end));
    }

    /** The buffer is part of the package: what follows its size, or a front part of that. */
    ghost predicate BufferTail(bytes: seq<byte>, t: Term) {
      && bytes != [] && PackageAt(bytes, 1).Ok? && t.consumed == PackageAt(bytes, 1).value.end && t.value.Buffer?
      && exists from: nat :: PackageAt(bytes, 1).value.start < from <= t.consumed && t.value.bytes <= bytes[from..t.consumed]
    }

    method IndexValue(base: Value, index: u64, frame: Frame, fuel: nat) returns (r: Result<Value>)
      requires Ready(frame)
      modifies this, frame, host, state
      ensures ValueDone(frame, r)
      ensures !base.StaticPackage? ==>
                r == ElementAt(IntegerWidth(), TablesNow(), base, index) && StoreOf(frame) == old(StoreOf(frame))
      ensures base.StaticPackage? && index <= U8_MAX && PlainUpTo(blocks, IntegerWidth(), base.location, index) ==>
                r == ElementOf(blocks, IntegerWidth(), base.location, index)
      ensures index > U8_MAX ==> r == Err(Overflow)
      decreases fuel, MAX_DEPTH - frame.depth, 0, 2
    {
      if index > U8_MAX { return Err(Overflow); }
      if base.StaticPackage? {
        r := StaticPackageElement(base.location, index, frame, fuel);
      } else {
        r := Element(base, index);
      }
    }

    /** The element of a buffer or of a runtime package. */
    function Element(base: Value, index: byte): (r: Result<Value>)
      requires Steady()
      reads this, state
      ensures r != Err(OutOfFuel)
      ensures r == ElementAt(IntegerWidth(), TablesNow(), base, index)
    {
      match base
      case Buffer(bytes) => if index < |bytes| then Ok(MakeInteger(bytes[index], IntegerWidth())) else Err(InvalidState)
      case BufferHandle(h) =>
        if state == null then Err(Unsupported)
        else (match state.ReadBufferByte(h, index)
              case Some(b) => Ok(MakeInteger(b, IntegerWidth()))
              case None => Err(InvalidState))
      case PackageHandle(h) =>
        if state == null then Err(Unsupported)
        else (match state.ReadPackageValue(h, index)
              case Some(Whole(n)) => Ok(MakeInteger(n, IntegerWidth()))
              case Some(BufferRef(b)) => Ok(BufferHandle(b))
              case Some(Vacant) => Ok(NoValue)
              case None => Err(InvalidState))
      case _ => Err(Unsupported)
    }

    /** Walks over the elements before the one asked for. */
    method StaticPackageElement(location: Location, index: byte, frame: Frame, fuel: nat) returns (r: Result<Value>)
      requires Ready(frame)
      modifies this, frame, host, state
      ensures ValueDone(frame, r)
      ensures PlainUpTo(blocks, IntegerWidth(), location, index) ==> r == ElementOf(blocks, IntegerWidth(), location, index)
      decreases fuel, MAX_DEPTH - frame.depth, 0, 1
    {
      hide Eval, Spell, StaticTerm, CountedAt, StaticBuffer, Ready;
      var code := CodeBytes(blocks, location);
      if code.None? { return Err(InvalidState); }
      var x :- CountedAt(code.value);
      var count := code.value[x.start];
      if index >= count { return Err(InvalidState); }
      var cursor: nat, current := x.start + 1, 0;
      ghost var width := IntegerWidth();
      ghost var plain := NoBuffers(blocks, width, location, x.end, x.start + 1, index);
      while current < count
        invariant Ready(frame) && Onward() && refusals == old(refusals) && 0 <= current <= index
        invariant plain ==> NoBuffers(blocks, width, location, x.end, cursor, index - current)
        invariant plain ==> StaticElement(blocks, width, location, x.end, cursor, index - current)
                            == StaticElement(blocks, width, location, x.end, x.start + 1, index)
      {
        if cursor > x.end { return Err(Fault); }
        var t :- EvalStaticNameValue(Inside(location, cursor, x.end), frame, fuel);
        if current == index { return Ok(t.value); }
        cursor, current := cursor + t.consumed, current + 1;
      }
      return Err(Truncated);
    }

    /** Fills a buffer from a text, a static text or another buffer. A buffer copied onto itself stays
        as it is. */
    method CopyValueIntoBuffer(handle: nat, value: Value) returns (r: Result<Unit>)
      requires Steady() && state != null
      modifies state
      ensures Steady() && r != Err(OutOfFuel)
      ensures value == BufferHandle(handle) ==> state.Contents() == old(state.Contents())
      ensures match FillBuffer(blocks, old(state.Contents()), handle, value)
              case Ok(o) => r.Ok? && state.Contents() == o
              case Err(x) => r == Err(x)
    {
      hide RuntimeState.Perform, FillBuffer;
      if BytesOf(blocks, state.Contents(), value).Ok? { FillIsOneCall(blocks, state.Contents(), handle, value); }
      else { NothingToFill(state.Contents(), handle, value); }
      match value {
        case Text(bytes) => r := state.CopyBytesIntoBuffer(handle, bytes);
        case StaticText(location) =>
          var code := CodeBytes(blocks, location);
          if code.None? { return Err(InvalidState); }
          r := state.CopyBytesIntoBuffer(handle, code.value);
        case Buffer(bytes) => r := state.CopyBytesIntoBuffer(handle, bytes);
        case BufferHandle(source) =>
          var bytes :- ReadWholeBuffer(source);
          if source == handle { RuntimeState.CopyOntoItself(state.Contents(), handle); }
          r := state.CopyBytesIntoBuffer(handle, bytes);
        case _ => return Err(Unsupported);
      }
    }

    lemma NothingToFill(o: RuntimeState.Overlay, h: nat, v: Value)
      requires BytesOf(blocks, o, v).Err?
      ensures FillBuffer(blocks, o, h, v) == Err(BytesOf(blocks, o, v).error)
    {
    }

    method ReadWholeBuffer(source: nat) returns (r: Result<seq<byte>>)
      requires Steady() && state != null
      ensures r == BytesOf(blocks, state.Contents(), BufferHandle(source))
      ensures r.Ok? <==> RuntimeState.BufferAt(state.Contents(), source).Some?
      ensures r.Ok? ==> r.value == RuntimeState.Readable(state.Contents(), source)
      ensures r != Err(OutOfFuel)
    {
      var len := state.ReadBufferLen(source);
      if len.None? { return Err(InvalidState); }
      var bytes: seq<byte>, index := [], 0;
      while index < len.value
        invariant 0 <= index <= len.value && bytes == RuntimeState.Readable(state.Contents(), source)[..index]
      {
        var b := state.ReadBufferByte(source, index);
        if b.None? { return Err(InvalidState); }
        bytes, index := bytes + [b.value], index + 1;
      }
      assert bytes == RuntimeState.Readable(state.Contents(), source);
      return Ok(bytes);
    }

    // ---- The whole evaluation ----

    /** Runs a method from the top. The verdict is blocked exactly when an Acquire of the method's own
        body was refused, and then there is no value; a refusal any deeper is an error. */
    method Evaluate(id: nat, values: seq<Value>, fuel: nat, ghost trusted: bool, ghost b: Option<Block>)
      returns (r: Result<Verdict>)
      requires Steady() && (trusted ==> AllFit(values, IntegerWidth()))
      requires b.Some? ==> |values| <= 7 && Compiled() && BodyOf(id) == Some(b.value) && AllUsable(TheWorld(), values)
      modifies this, host, state
      ensures Steady() && Onward() && CutIfStarved(r)
      ensures !old(starved) && loops == old(loops) ==> r != Err(OutOfFuel)
      ensures r.Ok? ==> refusals == old(refusals) + (if r.value.blocked then [0] else [])
      ensures r.Ok? && r.value.blocked ==> r.value.returned.None?
      ensures r.Ok? && trusted && r.value.returned.Some? ==> Values.Fits(r.value.returned.value, IntegerWidth())
      ensures b.Some? ==>
                match Execute(TheWorld(), Site(TopScope(id), 0), b.value, Entry(values, old(SharedNow())), fuel)
                case Err(x) => r == Err(x)
                case Ok(flow) =>
                  SharedNow() == flow.store.shared &&
                  match flow.control
                  case Continue => r == Ok(Verdict(None, false))
                  case Blocked => r == Ok(Verdict(None, true))
                  case Leave => r == Err(InvalidState)
                  case Returned(v) => r == Ok(Verdict(Some(v), false))
    {
      hide Spell, SpellBlock, BlockOk, Execute, FindId, Entry;
      var found := FindId(records, id);
      if found.None? { return Err(UndefinedObject); }
      if !IsMethod(records[found.value]) { return Err(InvalidState); }
      var m := records[found.value].payload.info;
      var body := CodeBytes(blocks, m.body);
      if body.None? { return Err(InvalidState); }
      if |values| > 7 { return Err(Unsupported); }
      var frame := new Frame(IntegerWidth(), TopScope(id), values, 0, trusted);
      entered := entered + [0];
      assert b.Some? ==> frame.Contents(SharedNow()).Clean(TheWorld(), frame.scope);
      var control :- EvalTermList(body.value, frame, fuel, b);
      match control {
        case Continue => return Ok(Verdict(None, false));
        case Blocked => return Ok(Verdict(None, true));
        case Leave => return Err(InvalidState);
        case Returned(v) => return Ok(Verdict(Some(v), false));
      }
    }

    /** The source of the method with an id. */
    ghost function BodyOf(id: nat): Option<Block> {
      var found := FindId(records, id);
      if found.Some? && IsMethod(records[found.value]) && records[found.value].payload.info.node == id && id in library
      then Some(library[id]) else None
    }

    function TopScope(id: nat): Path {
      if FindId(records, id).Some? then BodyScope(records, id) else []
    }
  }
}
