/** One-time initialisation behind an atomic phase: any number of threads, one atomic step at a time. Two
    objects follow the protocol. The vector broker keeps a spin lock in front of what was built and hands
    it, mutable, to one body at a time; the FDXE registry cache has no lock, no SKIPPED phase, and hands
    what was built to readers only. */
module OnceInit {
  import opened Wrappers

  type Tid = nat
  type Payload = nat

  datatype Kind = Broker | Cache

  datatype Phase = Uninitialized | Running | Ready | Skipped

  /** What a thread came for: to have the builder built, to use it under the lock, or to read the registry. */
  datatype Task = Ensure | WithBuilder | GetRegistry
  {
    predicate Serves(kind: Kind) { GetRegistry? <==> kind.Cache? }
  }

  /** What a body found in the cell when it began, and what it has itself made of it since. */
  datatype Visit = Visit(found: Payload, left: Payload)

  /** The operation a thread performs next. A body under the lock takes any number of steps. */
  datatype Pc =
    | Idle
    | Load(task: Task)
    | Claim(task: Task)
    | Bootstrap(task: Task)
    | Write(task: Task, built: Payload)
    | PublishReady(task: Task)
    | PublishSkipped
    | PublishFailed
    | Lock
    | Recheck
    | Borrow
    | Body(visit: Visit)
    | Unlock
    | ReadCell
    | Conflict
    | Uninit
  {
    /** Between the exchange that sets RUNNING and the store that leaves it. */
    predicate Bootstrapping() { Bootstrap? || Write? || PublishReady? || PublishSkipped? || PublishFailed? }

    predicate HoldsLock() { Recheck? || Borrow? || Body? || Unlock? }

    /** Has seen READY. */
    predicate SawReady() { Lock? || HoldsLock() || ReadCell? }
  }

  /** The atomics and the cell, then the history the properties speak about. */
  datatype Shared = Shared(
    kind: Kind,
    phase: Phase,
    locked: bool,
    cell: Option<Payload>,
    writes: seq<Payload>,           // what bootstraps wrote to the cell
    uses: seq<Payload>,             // what every reader of the registry found there
    log: seq<Visit>,                // the bodies that have finished under the lock
    open: Option<Visit>,            // the body in progress
    bootstrapper: Option<Tid>,
    holder: Option<Tid>
  )

  datatype State = State(shared: Shared, pcs: map<Tid, Pc>)

  /** What the environment decides: the call an idle thread makes, how a bootstrap turns out, and what
      a body does next. */
  datatype Choice = Begin(task: Task) | Built(payload: Payload) | Nothing | Broken | Change(payload: Payload) | Finish

  datatype Move = Move(thread: Tid, choice: Choice)

  datatype Effect = Effect(shared: Shared, pc: Pc)

  function Initial(kind: Kind): State {
    State(Shared(kind, Uninitialized, false, None, [], [], [], None, None, None), map[])
  }

  function PcOf(s: State, t: Tid): Pc {
    if t in s.pcs then s.pcs[t] else Idle
  }

  /** Where a thread goes once the phase is READY. */
  function AfterReady(task: Task): Pc {
    match task case Ensure => Idle case WithBuilder => Lock case GetRegistry => ReadCell
  }

  function Perform(sh: Shared, t: Tid, pc: Pc, c: Choice): Effect {
    match pc
    case Idle => Effect(sh, if c.Begin? && c.task.Serves(sh.kind) then Load(c.task) else Idle)
    case Load(task) =>
      (match sh.phase
       case Ready => Effect(sh, AfterReady(task))
       case Skipped => Effect(sh, Idle)
       case Running => Effect(sh, Load(task))
       case Uninitialized => Effect(sh, Claim(task)))
    case Claim(task) =>
      if sh.phase != Uninitialized then Effect(sh, Load(task))
      else Effect(sh.(phase := Running, bootstrapper := Some(t)), Bootstrap(task))
    case Bootstrap(task) =>
      (match c
       case Built(p) => Effect(sh, Write(task, p))
       case Nothing => Effect(sh, if sh.kind.Cache? then PublishFailed else PublishSkipped)
       case _ => Effect(sh, PublishFailed))
    case Write(task, p) => Effect(sh.(cell := Some(p), writes := sh.writes + [p]), PublishReady(task))
    case PublishReady(task) => Effect(sh.(phase := Ready, bootstrapper := None), AfterReady(task))
    case PublishSkipped => Effect(sh.(phase := Skipped, bootstrapper := None), Idle)
    case PublishFailed => Effect(sh.(phase := Uninitialized, bootstrapper := None), Idle)
    case Lock => if sh.locked then Effect(sh, Lock) else Effect(sh.(locked := true, holder := Some(t)), Recheck)
    case Recheck => Effect(sh, if sh.phase.Ready? then Borrow else Conflict)
    case Borrow =>
      if sh.cell.None? then Effect(sh, Uninit)
      else
        var visit := Visit(sh.cell.value, sh.cell.value);
        Effect(sh.(open := Some(visit)), Body(visit))
    case Body(visit) =>
      if c.Change? then
        var next := visit.(left := c.payload);
        Effect(sh.(cell := Some(c.payload), open := Some(next)), Body(next))
      else Effect(sh.(open := None, log := sh.log + [visit]), Unlock)
    case Unlock => Effect(sh.(locked := false, holder := None), Idle)
    case ReadCell =>
      if sh.cell.None? then Effect(sh, Uninit) else Effect(sh.(uses := sh.uses + [sh.cell.value]), Idle)
    case Conflict => Effect(sh, Conflict)
    case Uninit => Effect(sh, Uninit)
  }

  function Exec(s: State, m: Move): State {
    var e := Perform(s.shared, m.thread, PcOf(s, m.thread), m.choice);
    State(e.shared, s.pcs[m.thread := e.pc])
  }

  /** The state after a list of moves. */
  function Run(kind: Kind, moves: seq<Move>): State {
    if moves == [] then Initial(kind) else Exec(Run(kind, moves[..|moves| - 1]), moves[|moves| - 1])
  }

  // ---- The invariant ----

  /** What the first body finds is what the bootstrap wrote, and what each later one finds is what the
      one before it left. */
  predicate Serial(built: Payload, log: seq<Visit>) {
    forall k :: 0 <= k < |log| ==> log[k].found == Left(built, log[..k])
  }

  /** What is in the cell once these bodies have finished. */
  function Left(built: Payload, log: seq<Visit>): Payload {
    if log == [] then built else log[|log| - 1].left
  }

  lemma SerialAppend(built: Payload, log: seq<Visit>, visit: Visit)
    requires Serial(built, log) && visit.found == Left(built, log)
    ensures Serial(built, log + [visit])
  {
    var longer := log + [visit];
    forall k | 0 <= k < |longer| ensures longer[k].found == Left(built, longer[..k]) {
      assert longer[..k] == log[..k];
      assert log[..|log|] == log;
    }
  }

  /** How many values the cell has received from bootstraps, told from the phase. */
  predicate PhaseOk(sh: Shared) {
    && (sh.phase.Running? <==> sh.bootstrapper.Some?)
    && (sh.phase.Ready? ==> |sh.writes| == 1)
    && (sh.phase.Uninitialized? || sh.phase.Skipped? ==> sh.writes == [])
    && |sh.writes| <= 1
    && (sh.cell.Some? <==> sh.writes != [])
    && (sh.kind.Cache? ==> !sh.phase.Skipped?)
  }

  /** What has been done with the cell since READY. */
  predicate UseOk(sh: Shared) {
    && (sh.locked <==> sh.holder.Some?)
    && (sh.locked || sh.uses != [] || sh.log != [] || sh.open.Some? ==> sh.phase.Ready?)
    && (sh.kind.Broker? ==> sh.uses == [])
    && (sh.kind.Cache? ==> sh.log == [] && sh.open.None?)
    && (sh.cell.Some? && sh.writes != [] ==>
          && Serial(sh.writes[0], sh.log)
          && (sh.open.None? ==> sh.cell.value == Left(sh.writes[0], sh.log))
          && (sh.open.Some? ==> sh.open.value.found == Left(sh.writes[0], sh.log) && sh.cell.value == sh.open.value.left)
          && forall k :: 0 <= k < |sh.uses| ==> sh.uses[k] == sh.writes[0])
  }

  predicate ThreadOk(sh: Shared, t: Tid, pc: Pc) {
    && (pc.Bootstrapping() <==> sh.bootstrapper == Some(t))
    && (pc.Bootstrapping() ==> |sh.writes| == if pc.PublishReady? then 1 else 0)
    && (pc.HoldsLock() <==> sh.holder == Some(t))
    && (pc.HoldsLock() ==> sh.open == if pc.Body? then Some(pc.visit) else None)
    && (pc.SawReady() ==> sh.phase.Ready?)
    && (pc.Lock? || pc.HoldsLock() || pc.PublishSkipped? ==> sh.kind.Broker?)
    && (pc.ReadCell? ==> sh.kind.Cache?)
    && (pc.Load? || pc.Claim? || pc.Bootstrap? || pc.Write? || pc.PublishReady? ==> pc.task.Serves(sh.kind))
    && !pc.Conflict? && !pc.Uninit?
  }

  ghost predicate Inv(s: State) {
    && PhaseOk(s.shared) && UseOk(s.shared)
    && (s.shared.bootstrapper.Some? ==> PcOf(s, s.shared.bootstrapper.value).Bootstrapping())
    && (s.shared.holder.Some? ==> PcOf(s, s.shared.holder.value).HoldsLock())
    && (s.shared.open.Some? ==> s.shared.holder.Some?)
    && forall t: Tid :: ThreadOk(s.shared, t, PcOf(s, t))
  }

  lemma MoverKept(sh: Shared, t: Tid, pc: Pc, c: Choice)
    requires PhaseOk(sh) && UseOk(sh) && ThreadOk(sh, t, pc) && (sh.open.Some? ==> sh.holder.Some?)
    ensures var e := Perform(sh, t, pc, c);
            && PhaseOk(e.shared) && UseOk(e.shared) && ThreadOk(e.shared, t, e.pc)
            && (e.shared.open.Some? ==> e.shared.holder.Some?)
  {
    if pc.Body? && !c.Change? { SerialAppend(sh.writes[0], sh.log, pc.visit); }
  }

  lemma BystanderKept(sh: Shared, t: Tid, pc: Pc, c: Choice, u: Tid, qc: Pc)
    requires PhaseOk(sh) && UseOk(sh) && ThreadOk(sh, t, pc) && ThreadOk(sh, u, qc) && u != t
    ensures ThreadOk(Perform(sh, t, pc, c).shared, u, qc)
  {
  }

  lemma InvKept(s: State, m: Move)
    requires Inv(s)
    ensures Inv(Exec(s, m))
  {
    var s', t := Exec(s, m), m.thread;
    assert ThreadOk(s.shared, t, PcOf(s, t));
    MoverKept(s.shared, t, PcOf(s, t), m.choice);
    forall u: Tid ensures ThreadOk(s'.shared, u, PcOf(s', u)) {
      if u != t { BystanderKept(s.shared, t, PcOf(s, t), m.choice, u, PcOf(s, u)); }
    }
    var b, h := s'.shared.bootstrapper, s'.shared.holder;
    if b.Some? { assert ThreadOk(s'.shared, b.value, PcOf(s', b.value)); }
    if h.Some? { assert ThreadOk(s'.shared, h.value, PcOf(s', h.value)); }
  }

  /** It holds in every interleaving. */
  lemma {:induction false} AlwaysInv(kind: Kind, moves: seq<Move>)
    ensures Inv(Run(kind, moves)) && Run(kind, moves).shared.kind == kind
  {
    if moves == [] {
      forall t: Tid ensures PcOf(Initial(kind), t) == Idle { }
    } else {
      AlwaysInv(kind, moves[..|moves| - 1]);
      InvKept(Run(kind, moves[..|moves| - 1]), moves[|moves| - 1]);
    }
  }

  // ---- What it says of both ----

  /** RUNNING holds exactly while some thread is bootstrapping, and then only one is. */
  lemma RunningIffOneBootstraps(kind: Kind, moves: seq<Move>)
    ensures var s := Run(kind, moves);
            && (s.shared.phase.Running? <==> exists t: Tid :: PcOf(s, t).Bootstrapping())
            && forall t: Tid, u: Tid :: PcOf(s, t).Bootstrapping() && PcOf(s, u).Bootstrapping() ==> t == u
  {
    AlwaysInv(kind, moves);
    var s := Run(kind, moves);
    forall t: Tid ensures PcOf(s, t).Bootstrapping() <==> s.shared.bootstrapper == Some(t) {
      assert ThreadOk(s.shared, t, PcOf(s, t));
    }
  }

  lemma RunOne(kind: Kind, moves: seq<Move>, m: Move)
    ensures Run(kind, moves + [m]) == Exec(Run(kind, moves), m)
  {
    assert (moves + [m])[..|moves|] == moves;
  }

  /** READY and SKIPPED are final, and no bootstrap writes the cell again; the cache's cell is then
      never changed at all. */
  lemma {:induction false} FinalPhases(kind: Kind, moves: seq<Move>, more: seq<Move>)
    ensures var before, after := Run(kind, moves).shared, Run(kind, moves + more).shared;
            && (before.phase.Ready? ==> after.phase.Ready? && |after.writes| == 1 && after.writes == before.writes)
            && (before.phase.Ready? && kind.Cache? ==> after.cell == before.cell)
            && (before.phase.Skipped? ==> after.phase.Skipped? && after.writes == [] && after.cell.None?)
    decreases |more|
  {
    if more == [] {
      assert moves + more == moves;
      AlwaysInv(kind, moves);
    } else {
      var init, last := more[..|more| - 1], more[|more| - 1];
      FinalPhases(kind, moves, init);
      assert moves + more == (moves + init) + [last];
      RunOne(kind, moves + init, last);
      AlwaysInv(kind, moves + init);
      var s := Run(kind, moves + init);
      if s.shared.phase.Ready? || s.shared.phase.Skipped? { FinalStep(s, last); }
    }
  }

  lemma FinalStep(s: State, m: Move)
    requires Inv(s) && (s.shared.phase.Ready? || s.shared.phase.Skipped?)
    ensures var s' := Exec(s, m);
            && s'.shared.phase == s.shared.phase && s'.shared.writes == s.shared.writes
            && (s'.shared.cell != s.shared.cell ==> PcOf(s, m.thread).Body? && s.shared.kind.Broker?)
  {
    assert ThreadOk(s.shared, m.thread, PcOf(s, m.thread));
  }

  /** A bootstrap that fails puts the phase back, with the cell untouched; the next caller tries again. */
  lemma FailureAllowsAnother(kind: Kind, moves: seq<Move>, t: Tid, c: Choice)
    requires PcOf(Run(kind, moves), t).PublishFailed?
    ensures var s' := Run(kind, moves + [Move(t, c)]);
            s'.shared.phase.Uninitialized? && s'.shared.cell.None? && s'.shared.writes == [] && PcOf(s', t).Idle?
  {
    AlwaysInv(kind, moves);
    RunOne(kind, moves, Move(t, c));
    assert ThreadOk(Run(kind, moves).shared, t, PcOf(Run(kind, moves), t));
  }

  // ---- How a bootstrap turns out ----

  /** Moves of other threads. */
  predicate Others(moves: seq<Move>, t: Tid) {
    forall i :: 0 <= i < |moves| ==> moves[i].thread != t
  }

  /** Whatever the others do meanwhile, a bootstrap goes on where it was, and nobody else touches the cell. */
  lemma {:induction false} BootstrapUndisturbed(kind: Kind, moves: seq<Move>, t: Tid, others: seq<Move>)
    requires PcOf(Run(kind, moves), t).Bootstrapping() && Others(others, t)
    ensures var s, s' := Run(kind, moves), Run(kind, moves + others);
            && PcOf(s', t) == PcOf(s, t) && s'.shared.phase == s.shared.phase == Running
            && s'.shared.cell == s.shared.cell && s'.shared.writes == s.shared.writes
    decreases |others|
  {
    AlwaysInv(kind, moves);
    assert ThreadOk(Run(kind, moves).shared, t, PcOf(Run(kind, moves), t));
    if others == [] {
      assert moves + others == moves;
    } else {
      var init, last := others[..|others| - 1], others[|others| - 1];
      BootstrapUndisturbed(kind, moves, t, init);
      assert moves + others == (moves + init) + [last];
      RunOne(kind, moves + init, last);
      AlwaysInv(kind, moves + init);
      OthersWait(Run(kind, moves + init), t, last);
    }
  }

  lemma OthersWait(s: State, t: Tid, m: Move)
    requires Inv(s) && PcOf(s, t).Bootstrapping() && m.thread != t
    ensures var s' := Exec(s, m);
            PcOf(s', t) == PcOf(s, t) && s'.shared.phase == s.shared.phase && s'.shared.cell == s.shared.cell
            && s'.shared.writes == s.shared.writes
  {
    assert ThreadOk(s.shared, t, PcOf(s, t)) && ThreadOk(s.shared, m.thread, PcOf(s, m.thread));
  }

  /** A bootstrap that has built something publishes that and nothing else, whatever other threads do between its
      steps: the phase is READY, the cell holds it, and the caller goes on to use it. */
  lemma BuiltIsPublished(kind: Kind, moves: seq<Move>, t: Tid, task: Task, p: Payload, one: seq<Move>, two: seq<Move>,
                         c: Choice, d: Choice)
    requires PcOf(Run(kind, moves), t) == Bootstrap(task) && Others(one, t) && Others(two, t)
    ensures var s := Run(kind, moves + [Move(t, Built(p))] + one + [Move(t, c)] + two + [Move(t, d)]);
            && s.shared.phase.Ready? && s.shared.writes == [p] && s.shared.cell == Some(p)
            && PcOf(s, t) == match task case Ensure => Idle case WithBuilder => Lock case GetRegistry => ReadCell
  {
    AlwaysInv(kind, moves);
    assert ThreadOk(Run(kind, moves).shared, t, PcOf(Run(kind, moves), t));
    RunOne(kind, moves, Move(t, Built(p)));
    var a := moves + [Move(t, Built(p))];
    BootstrapUndisturbed(kind, a, t, one);
    RunOne(kind, a + one, Move(t, c));
    var b := a + one + [Move(t, c)];
    BootstrapUndisturbed(kind, b, t, two);
    RunOne(kind, b + two, Move(t, d));
  }

  /** One that has nothing to build leaves the broker SKIPPED and the cache as it was; one that breaks leaves both
      to be tried again. */
  lemma NothingIsSkipped(kind: Kind, moves: seq<Move>, t: Tid, task: Task, outcome: Choice, others: seq<Move>, c: Choice)
    requires PcOf(Run(kind, moves), t) == Bootstrap(task) && Others(others, t) && !outcome.Built?
    ensures var s := Run(kind, moves + [Move(t, outcome)] + others + [Move(t, c)]);
            && s.shared.phase == (if outcome.Nothing? && kind.Broker? then Skipped else Uninitialized)
            && s.shared.cell.None? && s.shared.writes == [] && PcOf(s, t).Idle?
  {
    AlwaysInv(kind, moves);
    assert ThreadOk(Run(kind, moves).shared, t, PcOf(Run(kind, moves), t));
    RunOne(kind, moves, Move(t, outcome));
    var a := moves + [Move(t, outcome)];
    BootstrapUndisturbed(kind, a, t, others);
    RunOne(kind, a + others, Move(t, c));
  }

  /** A thread that comes to an object nobody has begun to build begins it, and leaves a skipped one alone. */
  lemma CallerBegins(kind: Kind, moves: seq<Move>, t: Tid, task: Task, c: Choice)
    requires PcOf(Run(kind, moves), t).Idle? && task.Serves(kind)
    ensures var s := Run(kind, moves);
            var arrived := moves + [Move(t, Begin(task))] + [Move(t, c)];
            && (s.shared.phase.Uninitialized? ==> PcOf(Run(kind, arrived + [Move(t, c)]), t) == Bootstrap(task))
            && (s.shared.phase.Skipped? ==> PcOf(Run(kind, arrived), t).Idle?)
            && (s.shared.phase.Ready? && task.Ensure? ==> PcOf(Run(kind, arrived), t).Idle?)
  {
    hide Run;
    Arrives(kind, moves, t, task, c);
    var arrived := moves + [Move(t, Begin(task))] + [Move(t, c)];
    RunOne(kind, arrived, Move(t, c));
  }

  /** Where a call leads when it has loaded the phase. */
  lemma Arrives(kind: Kind, moves: seq<Move>, t: Tid, task: Task, c: Choice)
    requires PcOf(Run(kind, moves), t).Idle? && task.Serves(kind)
    ensures var s, s' := Run(kind, moves), Run(kind, moves + [Move(t, Begin(task))] + [Move(t, c)]);
            && s'.shared == s.shared && s.shared.kind == kind
            && PcOf(s', t) == match s.shared.phase
                              case Ready =>
                                (match task case Ensure => Idle case WithBuilder => Lock case GetRegistry => ReadCell)
                              case Skipped => Idle
                              case Running => Load(task)
                              case Uninitialized => Claim(task)
  {
    AlwaysInv(kind, moves);
    hide Run, Inv;
    var a := moves + [Move(t, Begin(task))];
    RunOne(kind, moves, Move(t, Begin(task)));
    RunOne(kind, a, Move(t, c));
  }

  /** One that comes for the registry when it is READY reads what is in the cell. */
  lemma ReaderServed(moves: seq<Move>, t: Tid, c: Choice)
    requires PcOf(Run(Cache, moves), t).Idle? && Run(Cache, moves).shared.phase.Ready?
    ensures var s := Run(Cache, moves).shared;
            && s.cell.Some?
            && Run(Cache, moves + [Move(t, Begin(GetRegistry))] + [Move(t, c)] + [Move(t, c)]).shared.uses
               == s.uses + [s.cell.value]
  {
    AlwaysInv(Cache, moves);
    hide Run;
    Arrives(Cache, moves, t, GetRegistry, c);
    RunOne(Cache, moves + [Move(t, Begin(GetRegistry))] + [Move(t, c)], Move(t, c));
  }

  /** One that comes for the builder when it is READY, and finds the lock free, runs its body on what is in the cell. */
  lemma BuilderServed(moves: seq<Move>, t: Tid, c: Choice)
    requires PcOf(Run(Broker, moves), t).Idle? && Run(Broker, moves).shared.phase.Ready? && !Run(Broker, moves).shared.locked
    ensures var s := Run(Broker, moves).shared;
            var arrived := moves + [Move(t, Begin(WithBuilder))] + [Move(t, c)];
            && s.cell.Some?
            && PcOf(Run(Broker, arrived + [Move(t, c)] + [Move(t, c)] + [Move(t, c)]), t)
               == Body(Visit(s.cell.value, s.cell.value))
  {
    AlwaysInv(Broker, moves);
    hide Run, Inv;
    Arrives(Broker, moves, t, WithBuilder, c);
    var m, arrived := Move(t, c), moves + [Move(t, Begin(WithBuilder))] + [Move(t, c)];
    CellFilled(Broker, moves);
    RunOne(Broker, arrived, m);
    RunOne(Broker, arrived + [m], m);
    RunOne(Broker, arrived + [m] + [m], m);
  }

  lemma CellFilled(kind: Kind, moves: seq<Move>)
    requires Run(kind, moves).shared.phase.Ready?
    ensures Run(kind, moves).shared.cell.Some?
  {
    AlwaysInv(kind, moves);
  }

  /** The arms after the lock for a phase other than READY are never taken, and nobody ever reads a
      cell that was not written. */
  lemma FallbackUnreachable(kind: Kind, moves: seq<Move>, t: Tid)
    ensures !PcOf(Run(kind, moves), t).Conflict? && !PcOf(Run(kind, moves), t).Uninit?
    ensures PcOf(Run(kind, moves), t).Recheck? ==> Run(kind, moves).shared.phase.Ready?
  {
    AlwaysInv(kind, moves);
    assert ThreadOk(Run(kind, moves).shared, t, PcOf(Run(kind, moves), t));
  }

  // ---- What it says of the cache ----

  /** READY means the registry was written exactly once, and everyone who reads it ever reads that value. */
  lemma CacheReadsTheOneWrite(moves: seq<Move>)
    ensures var sh := Run(Cache, moves).shared;
            && |sh.writes| <= 1
            && (sh.phase.Ready? ==> |sh.writes| == 1 && sh.cell == Some(sh.writes[0]))
            && forall k :: 0 <= k < |sh.uses| ==> |sh.writes| == 1 && sh.uses[k] == sh.writes[0]
  {
    AlwaysInv(Cache, moves);
  }

  // ---- What it says of the broker ----

  /** Once READY, a step that changes the cell is a step of a body, and its thread holds the lock. */
  lemma OnlyHolderChanges(moves: seq<Move>, m: Move)
    requires Run(Broker, moves).shared.phase.Ready?
    ensures var s, s' := Run(Broker, moves), Run(Broker, moves + [m]);
            s'.shared.cell != s.shared.cell ==>
              s.shared.locked && s.shared.holder == Some(m.thread) && PcOf(s, m.thread).Body?
  {
    AlwaysInv(Broker, moves);
    RunOne(Broker, moves, m);
    FinalStep(Run(Broker, moves), m);
    assert ThreadOk(Run(Broker, moves).shared, m.thread, PcOf(Run(Broker, moves), m.thread));
  }

  /** The bodies never overlap, and throughout its many steps a body finds in the cell what it last
      put there itself, whatever the other threads do in between. */
  lemma BodiesExclude(moves: seq<Move>, t: Tid, u: Tid)
    requires PcOf(Run(Broker, moves), t).Body?
    ensures Run(Broker, moves).shared.phase.Ready?
    ensures Run(Broker, moves).shared.cell == Some(PcOf(Run(Broker, moves), t).visit.left)
    ensures PcOf(Run(Broker, moves), u).HoldsLock() ==> t == u
  {
    AlwaysInv(Broker, moves);
    var s := Run(Broker, moves);
    assert ThreadOk(s.shared, t, PcOf(s, t)) && ThreadOk(s.shared, u, PcOf(s, u));
  }

  /** The bodies are a serial history: the first finds what the one bootstrap wrote, each later one what
      the body before it left, the one in progress what the last finished one left; and between bodies
      that is what the cell holds. */
  lemma BodiesAreSerial(moves: seq<Move>, t: Tid)
    requires Run(Broker, moves).shared.phase.Ready?
    ensures var s := Run(Broker, moves);
            && |s.shared.writes| == 1
            && Serial(s.shared.writes[0], s.shared.log)
            && (PcOf(s, t).Body? ==> PcOf(s, t).visit.found == Left(s.shared.writes[0], s.shared.log))
            && ((forall u: Tid :: !PcOf(s, u).Body?) ==> s.shared.cell == Some(Left(s.shared.writes[0], s.shared.log)))
  {
    AlwaysInv(Broker, moves);
    var s := Run(Broker, moves);
    assert ThreadOk(s.shared, t, PcOf(s, t));
    if s.shared.open.Some? {
      var h := s.shared.holder.value;
      assert ThreadOk(s.shared, h, PcOf(s, h));
    }
  }
}
