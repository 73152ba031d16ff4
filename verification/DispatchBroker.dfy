/** The deferred-dispatch broker: a registry of callback slots held in atomics, driven by any number
    of threads that each take one atomic step at a time. Every interleaving is a list of moves. */
module DispatchBroker {
  import opened Wrappers

  const CAPACITY: nat := 32

  type Slot = i: nat | i < CAPACITY
  type Fn = f: nat | f > 0 witness 1
  type Tid = nat

  datatype Binding = Binding(fn: Fn, context: nat)

  /** Where a thread stands: the atomic operation it will perform next. */
  datatype Pc =
    | Idle
    | RegisterFetch(binding: Binding)
    | RegisterBind(slot: Slot, binding: Binding)
    | RegisterContext(slot: Slot, binding: Binding)
    | UnregisterSwap(slot: Slot)
    | UnregisterContext(slot: Slot)
    | UnregisterPending(slot: Slot)
    | RequestLoad(slot: Slot)
    | RequestMark(slot: Slot)
    | RequestCheck(slot: Slot)
    | Schedule
    | DispatchEnter
    | Sweep(next: nat)
    | SweepLoad(slot: Slot)
    | SweepContext(slot: Slot, fn: Fn)
    | SweepCall(slot: Slot, call: Binding)
    | Conflict
  {
    /** Between the exchange that sets RUNNING and the store that clears it. */
    predicate InBatch() { Sweep? || SweepLoad? || SweepContext? || SweepCall? }

    /** The first slot whose pending mark the batch has yet to swap. */
    function NextSwap(): nat
      requires InBatch()
    {
      if Sweep? then next else slot + 1
    }

    predicate Registering() { RegisterBind? || RegisterContext? }
  }

  /** One registry slot: its three atomics, then the history the properties speak about. */
  datatype SlotState = SlotState(
    callback: nat,
    context: nat,
    pending: bool,
    bound: Option<Binding>,   // what register stored here, once
    issued: bool,             // register has returned this slot's cookie
    unregistered: bool,       // some unregister of this slot has begun
    forged: bool,             // some request began before the cookie was returned
    requests: nat,            // how many requests have marked this slot
    calls: seq<Binding>,      // the calls the batches made
    taken: bool,              // the running batch has taken the mark and not yet called
    remarked: bool,           // marked since the latest batch swapped it
    unanswered: bool,         // no call has been made since the latest mark
    lost: Option<Loss>        // how the latest mark came to have nobody left to answer it
  )

  /** The three ways a mark is lost: its request leaves it to a batch that has passed the slot; a batch
      takes it and finds no callback; an unregister erases it. */
  datatype Loss = Stranded | Dropped | Cleared

  /** The batch in progress: who runs it, and the first slot it has yet to swap. */
  datatype Batch = Batch(owner: Tid, next: nat)

  datatype Shared = Shared(
    nextCookie: nat,
    slots: seq<SlotState>,
    running: bool,
    armed: bool,              // the platform has a deferred dispatch outstanding
    batch: Option<Batch>
  )

  datatype State = State(shared: Shared, pcs: map<Tid, Pc>)

  /** What the environment decides: the call an idle thread makes, and whether a schedule request
      is deferred to the platform or falls back to a local dispatch. */
  datatype Choice =
    | CallRegister(binding: Binding)
    | CallUnregister(cookie: nat)
    | CallRequest(cookie: nat)
    | CallDispatch
    | FireDeferred
    | Defer
    | RunLocally

  datatype Move = Move(thread: Tid, choice: Choice)

  function PcOf(s: State, t: Tid): Pc {
    if t in s.pcs then s.pcs[t] else Idle
  }

  const EMPTY_SLOT := SlotState(0, 0, false, None, false, false, false, 0, [], false, false, false, None)

  function EmptySlots(n: nat): (r: seq<SlotState>)
    ensures |r| == n && forall i :: 0 <= i < n ==> r[i] == EMPTY_SLOT
  {
    if n == 0 then [] else EmptySlots(n - 1) + [EMPTY_SLOT]
  }

  const INITIAL := State(Shared(1, EmptySlots(CAPACITY), false, false, None), map[])

  function With(sh: Shared, i: Slot, slot: SlotState): Shared
    requires |sh.slots| == CAPACITY
  {
    sh.(slots := sh.slots[i := slot])
  }

  /** The running batch has yet to swap slot `i`. */
  predicate Ahead(sh: Shared, i: nat) {
    sh.batch.Some? && sh.batch.value.next <= i
  }

  /** The loss that the step at `pc` inflicts on slot `i`, if any. */
  function LossOf(sh: Shared, pc: Pc, i: Slot): Option<Loss>
    requires |sh.slots| == CAPACITY
  {
    var slot := sh.slots[i];
    if !slot.unanswered then None
    else if pc == RequestCheck(i) && sh.running && slot.pending && !Ahead(sh, i) then Some(Stranded)
    else if pc == SweepLoad(i) && slot.callback == 0 && !slot.remarked then Some(Dropped)
    else if pc == UnregisterPending(i) && slot.pending then Some(Cleared)
    else None
  }

  /** The slot after the step at `pc` has inflicted its loss. */
  function Losing(sh: Shared, pc: Pc, i: Slot): SlotState
    requires |sh.slots| == CAPACITY
  {
    var loss := LossOf(sh, pc, i);
    if loss.Some? then sh.slots[i].(lost := loss) else sh.slots[i]
  }

  /** The effect of one atomic step: the shared state it leaves and where the thread goes. */
  datatype Effect = Effect(shared: Shared, pc: Pc)

  function Enter(sh: Shared, c: Choice): Effect
    requires |sh.slots| == CAPACITY
  {
    match c
    case CallRegister(binding) => Effect(sh, RegisterFetch(binding))
    case CallUnregister(cookie) =>
      if 1 <= cookie <= CAPACITY then
        Effect(With(sh, cookie - 1, sh.slots[cookie - 1].(unregistered := true)), UnregisterSwap(cookie - 1))
      else Effect(sh, Idle)
    case CallRequest(cookie) =>
      if 1 <= cookie <= CAPACITY then
        var slot := sh.slots[cookie - 1];
        Effect(With(sh, cookie - 1, slot.(forged := slot.forged || !slot.issued)), RequestLoad(cookie - 1))
      else Effect(sh, Idle)
    case CallDispatch => Effect(sh, DispatchEnter)
    case FireDeferred => if sh.armed then Effect(sh.(armed := false), DispatchEnter) else Effect(sh, Idle)
    case _ => Effect(sh, Idle)
  }

  /** What thread `t` does at each point of its code. */
  function Perform(sh: Shared, t: Tid, pc: Pc, c: Choice): (e: Effect)
    requires |sh.slots| == CAPACITY
    ensures |e.shared.slots| == CAPACITY
  {
    match pc
    case Idle => Enter(sh, c)
    case Conflict => Effect(sh, pc)
    case RegisterFetch(binding) =>
      Effect(sh.(nextCookie := sh.nextCookie + 1),
             if sh.nextCookie == 0 || sh.nextCookie - 1 >= CAPACITY then Idle
             else RegisterBind(sh.nextCookie - 1, binding))
    case RegisterBind(i, binding) =>
      if sh.slots[i].callback != 0 then Effect(sh, Conflict)
      else Effect(With(sh, i, sh.slots[i].(callback := binding.fn, bound := Some(binding))),
                  RegisterContext(i, binding))
    case RegisterContext(i, binding) =>
      Effect(With(sh, i, sh.slots[i].(context := binding.context, issued := true)), Idle)
    case UnregisterSwap(i) =>
      Effect(With(sh, i, sh.slots[i].(callback := 0)),
             if sh.slots[i].callback == 0 then Idle else UnregisterContext(i))
    case UnregisterContext(i) => Effect(With(sh, i, sh.slots[i].(context := 0)), UnregisterPending(i))
    case UnregisterPending(i) =>
      Effect(With(sh, i, Losing(sh, pc, i).(pending := false)), Idle)
    case RequestLoad(i) => Effect(sh, if sh.slots[i].callback == 0 then Idle else RequestMark(i))
    case RequestMark(i) =>
      var slot := sh.slots[i];
      Effect(With(sh, i, slot.(pending := true, requests := slot.requests + 1, remarked := true,
                               unanswered := true, lost := None)), RequestCheck(i))
    case RequestCheck(i) =>
      if sh.running then Effect(With(sh, i, Losing(sh, pc, i)), Idle) else Effect(sh, Schedule)
    case Schedule => if c == Defer then Effect(sh.(armed := true), Idle) else Effect(sh, DispatchEnter)
    case DispatchEnter =>
      if sh.running then Effect(sh, Idle)
      else Effect(sh.(running := true, batch := Some(Batch(t, 0))), Sweep(0))
    case Sweep(k) =>
      if k >= CAPACITY then Effect(sh.(running := false, batch := None), Idle)
      else
        var slot := sh.slots[k];
        Effect(With(sh, k, slot.(pending := false, taken := slot.pending, remarked := false,
                                 lost := if slot.lost == Some(Stranded) then None else slot.lost))
               .(batch := Some(Batch(t, k + 1))),
               if slot.pending then SweepLoad(k) else Sweep(k + 1))
    case SweepLoad(i) =>
      if sh.slots[i].callback == 0 then Effect(With(sh, i, Losing(sh, pc, i).(taken := false)), Sweep(i + 1))
      else Effect(sh, SweepContext(i, sh.slots[i].callback))
    case SweepContext(i, fn) => Effect(sh, SweepCall(i, Binding(fn, sh.slots[i].context)))
    case SweepCall(i, call) =>
      var slot := sh.slots[i];
      Effect(With(sh, i, slot.(calls := slot.calls + [call], taken := false, unanswered := false, lost := None)),
             Sweep(i + 1))
  }

  function Exec(s: State, m: Move): (s': State)
    requires |s.shared.slots| == CAPACITY
    ensures |s'.shared.slots| == CAPACITY
  {
    var e := Perform(s.shared, m.thread, PcOf(s, m.thread), m.choice);
    State(e.shared, s.pcs[m.thread := e.pc])
  }

  /** The state after a list of moves from the initial one. */
  function Run(moves: seq<Move>): (s: State)
    ensures |s.shared.slots| == CAPACITY
  {
    if moves == [] then INITIAL
    else Exec(Run(moves[..|moves| - 1]), moves[|moves| - 1])
  }

  // ---- The invariant: one part per slot, one per thread, one per pair of threads ----

  /** A call's context is the registered one, or the zero that an unregister or an early request sees. */
  predicate GoodCall(slot: SlotState, call: Binding) {
    && slot.bound.Some?
    && call.fn == slot.bound.value.fn
    && (call.context == 0 || call.context == slot.bound.value.context)
    && (!slot.unregistered && !slot.forged ==> call == slot.bound.value)
  }

  predicate GoodCalls(slot: SlotState) {
    forall k :: 0 <= k < |slot.calls| ==> GoodCall(slot, slot.calls[k])
  }

  function Count(b: bool): nat { if b then 1 else 0 }

  /** What holds of a slot on its own: it is bound once, and every call answers its own request. */
  predicate SlotOk(slot: SlotState) {
    && (slot.bound.None? ==> slot.callback == 0 && slot.context == 0 && !slot.issued)
    && (slot.bound.Some? ==> slot.callback == 0 || slot.callback == slot.bound.value.fn)
    && (slot.bound.Some? ==> slot.context == 0 || slot.context == slot.bound.value.context)
    && (slot.issued && !slot.unregistered ==> slot.context == slot.bound.value.context)
    && GoodCalls(slot)
    && |slot.calls| + Count(slot.pending) + Count(slot.taken) <= slot.requests
    && (slot.pending || slot.taken ==> slot.issued || slot.forged)
    && (slot.bound.Some? && !slot.unregistered ==> slot.callback == slot.bound.value.fn)
    && (slot.pending || slot.taken ==> slot.bound.Some?)
  }

  /** An unanswered mark is still there, or a batch has it, or it is lost; and only an unregister lets
      a mark be lost for any other reason than stranding. */
  predicate LossOk(slot: SlotState) {
    && (slot.unanswered ==> slot.pending || slot.taken || slot.lost.Some?)
    && (slot.unanswered && slot.remarked ==> slot.pending || slot.lost.Some?)
    && (slot.lost.Some? ==> slot.unanswered)
    && (slot.lost.Some? ==> (slot.lost == Some(Stranded) <==> slot.pending))
    && (slot.lost.Some? && !slot.unregistered ==> slot.lost == Some(Stranded))
  }

  /** What holds of a slot against the shared state. */
  predicate PlaceOk(sh: Shared, i: Slot)
    requires |sh.slots| == CAPACITY
  {
    && SlotOk(sh.slots[i]) && LossOk(sh.slots[i])
    && (i >= sh.nextCookie - 1 ==> sh.slots[i].bound.None?)
    && (sh.slots[i].pending && sh.running && !Ahead(sh, i) ==> sh.slots[i].remarked)
    && (sh.slots[i].taken ==> sh.batch.Some? && sh.batch.value.next == i + 1)
  }

  /** What a thread may rely on at each point of its code. */
  predicate ThreadOk(sh: Shared, t: Tid, pc: Pc)
    requires |sh.slots| == CAPACITY
  {
    && pc.InBatch() == (sh.batch.Some? && sh.batch.value.owner == t)
    && (pc.InBatch() ==> sh.batch.value.next == pc.NextSwap())
    && match pc
       case RegisterBind(i, _) => i < sh.nextCookie - 1 && sh.slots[i].bound.None?
       case RegisterContext(i, binding) => i < sh.nextCookie - 1 && sh.slots[i].bound == Some(binding)
       case UnregisterSwap(i) => sh.slots[i].unregistered
       case UnregisterContext(i) => sh.slots[i].unregistered
       case UnregisterPending(i) => sh.slots[i].unregistered
       case RequestLoad(i) => sh.slots[i].issued || sh.slots[i].forged
       case RequestMark(i) => (sh.slots[i].issued || sh.slots[i].forged) && sh.slots[i].bound.Some?
       case RequestCheck(i) => sh.slots[i].issued || sh.slots[i].forged
       case Sweep(k) => 0 < k <= CAPACITY ==> !sh.slots[k - 1].taken
       case SweepLoad(i) => sh.slots[i].taken
       case SweepContext(i, fn) =>
         sh.slots[i].taken && sh.slots[i].bound.Some? && fn == sh.slots[i].bound.value.fn
       case SweepCall(i, call) => sh.slots[i].taken && GoodCall(sh.slots[i], call)
       case Conflict => false
       case _ => true
  }

  /** A cookie is handed out once, so no two threads ever bind the same slot. */
  predicate Apart(t: Tid, pc: Pc, u: Tid, qc: Pc) {
    t != u && pc.Registering() && qc.Registering() ==> pc.slot != qc.slot
  }

  /** Some thread has marked slot `i` and not yet looked at RUNNING. */
  ghost predicate Checking(s: State, i: Slot) {
    exists t: Tid :: PcOf(s, t) == RequestCheck(i)
  }

  /** A dispatch is on its way: some thread is about to try one, or the platform owes one. */
  ghost predicate DispatchDue(s: State) {
    s.shared.armed || exists t: Tid :: PcOf(s, t).Schedule? || PcOf(s, t).DispatchEnter?
  }

  /** No unanswered mark is forgotten save the stranded. */
  ghost predicate MarkOk(s: State, i: Slot)
    requires |s.shared.slots| == CAPACITY
  {
    var slot := s.shared.slots[i];
    slot.pending && slot.unanswered && slot.lost != Some(Stranded) && !Checking(s, i) ==>
      if s.shared.running then Ahead(s.shared, i) else DispatchDue(s)
  }

  ghost predicate Inv(s: State) {
    && |s.shared.slots| == CAPACITY
    && s.shared.nextCookie >= 1
    && s.shared.running == s.shared.batch.Some?
    && (s.shared.batch.Some? ==> PcOf(s, s.shared.batch.value.owner).InBatch())
    && (forall i: Slot :: PlaceOk(s.shared, i))
    && (forall i: Slot :: MarkOk(s, i))
    && (forall t: Tid :: ThreadOk(s.shared, t, PcOf(s, t)))
    && (forall t: Tid, u: Tid :: Apart(t, PcOf(s, t), u, PcOf(s, u)))
  }

  /** The parts of the invariant that speak of no thread. */
  ghost predicate SharedOk(sh: Shared) {
    && |sh.slots| == CAPACITY
    && sh.nextCookie >= 1
    && sh.running == sh.batch.Some?
    && forall i: Slot :: PlaceOk(sh, i)
  }

  lemma MoverKept(sh: Shared, t: Tid, pc: Pc, c: Choice)
    requires SharedOk(sh) && ThreadOk(sh, t, pc)
    ensures var e := Perform(sh, t, pc, c); ThreadOk(e.shared, t, e.pc)
  {
    if pc.InBatch() { SweeperKept(sh, t, pc, c); } else { CallerKept(sh, t, pc, c); }
  }

  lemma CallerKept(sh: Shared, t: Tid, pc: Pc, c: Choice)
    requires SharedOk(sh) && ThreadOk(sh, t, pc) && !pc.InBatch()
    ensures var e := Perform(sh, t, pc, c); ThreadOk(e.shared, t, e.pc)
  {
    match pc {
      case RegisterFetch(_) => if sh.nextCookie - 1 < CAPACITY { assert PlaceOk(sh, sh.nextCookie - 1); }
      case RegisterBind(i, _) => assert PlaceOk(sh, i);
      case RequestLoad(i) => assert PlaceOk(sh, i);
      case _ =>
    }
  }

  lemma SweeperKept(sh: Shared, t: Tid, pc: Pc, c: Choice)
    requires SharedOk(sh) && ThreadOk(sh, t, pc) && pc.InBatch()
    ensures var e := Perform(sh, t, pc, c); ThreadOk(e.shared, t, e.pc)
  {
    match pc {
      case SweepLoad(i) => assert PlaceOk(sh, i);
      case SweepContext(i, _) => assert PlaceOk(sh, i);
      case _ =>
    }
  }

  lemma RegisterKeepsPlace(sh: Shared, t: Tid, pc: Pc, c: Choice, i: Slot)
    requires SharedOk(sh) && ThreadOk(sh, t, pc)
    requires pc.Idle? || pc.RegisterFetch? || pc.RegisterBind? || pc.RegisterContext?
    ensures PlaceOk(Perform(sh, t, pc, c).shared, i)
  {
    assert PlaceOk(sh, i);
  }

  lemma UnregisterKeepsPlace(sh: Shared, t: Tid, pc: Pc, c: Choice, i: Slot)
    requires SharedOk(sh) && ThreadOk(sh, t, pc)
    requires pc.UnregisterSwap? || pc.UnregisterContext? || pc.UnregisterPending?
    ensures PlaceOk(Perform(sh, t, pc, c).shared, i)
  {
    assert PlaceOk(sh, i);
  }

  lemma RequestKeepsPlace(sh: Shared, t: Tid, pc: Pc, c: Choice, i: Slot)
    requires SharedOk(sh) && ThreadOk(sh, t, pc)
    requires pc.RequestLoad? || pc.RequestMark? || pc.RequestCheck? || pc.Schedule? || pc.DispatchEnter?
    ensures PlaceOk(Perform(sh, t, pc, c).shared, i)
  {
    assert PlaceOk(sh, i);
  }

  lemma SweepKeepsPlace(sh: Shared, t: Tid, pc: Pc, c: Choice, i: Slot)
    requires SharedOk(sh) && ThreadOk(sh, t, pc) && pc.InBatch()
    ensures PlaceOk(Perform(sh, t, pc, c).shared, i)
  {
    assert PlaceOk(sh, i);
  }

  lemma PlaceKept(sh: Shared, t: Tid, pc: Pc, c: Choice, i: Slot)
    requires SharedOk(sh) && ThreadOk(sh, t, pc)
    ensures PlaceOk(Perform(sh, t, pc, c).shared, i)
  {
    if pc.InBatch() { SweepKeepsPlace(sh, t, pc, c, i); }
    else if pc.UnregisterSwap? || pc.UnregisterContext? || pc.UnregisterPending? {
      UnregisterKeepsPlace(sh, t, pc, c, i);
    } else if pc.Idle? || pc.RegisterFetch? || pc.RegisterBind? || pc.RegisterContext? {
      RegisterKeepsPlace(sh, t, pc, c, i);
    } else { RequestKeepsPlace(sh, t, pc, c, i); }
  }

  /** What a step of one thread can do to a slot, from the point of view of another. */
  predicate Ages(before: SlotState, after: SlotState) {
    && (before.bound.Some? ==> after.bound == before.bound)
    && (before.issued ==> after.issued)
    && (before.unregistered ==> after.unregistered)
    && (before.forged ==> after.forged)
  }

  /** Slot `i` ages, and only its own registration binds it. */
  predicate SlotAges(sh: Shared, pc: Pc, sh': Shared, i: Slot)
    requires |sh.slots| == CAPACITY && |sh'.slots| == CAPACITY
  {
    && Ages(sh.slots[i], sh'.slots[i])
    && (sh.slots[i].bound.None? && sh'.slots[i].bound.Some? ==> pc.RegisterBind? && pc.slot == i)
    && (pc.InBatch() || sh.slots[i].taken == sh'.slots[i].taken)
    && sh.nextCookie <= sh'.nextCookie
  }

  lemma SlotsAge(sh: Shared, t: Tid, pc: Pc, c: Choice, i: Slot)
    requires |sh.slots| == CAPACITY && ThreadOk(sh, t, pc)
    ensures SlotAges(sh, pc, Perform(sh, t, pc, c).shared, i)
  {
    if pc.InBatch() { SlotsAgeInBatch(sh, t, pc, c, i); }
    else if pc.Idle? || pc.RegisterFetch? || pc.RegisterBind? || pc.RegisterContext? {
      SlotsAgeRegistering(sh, t, pc, c, i);
    } else {
      SlotsAgeOutside(sh, t, pc, c, i);
    }
  }

  lemma SlotsAgeInBatch(sh: Shared, t: Tid, pc: Pc, c: Choice, i: Slot)
    requires |sh.slots| == CAPACITY && pc.InBatch()
    ensures SlotAges(sh, pc, Perform(sh, t, pc, c).shared, i)
  {
  }

  lemma SlotsAgeRegistering(sh: Shared, t: Tid, pc: Pc, c: Choice, i: Slot)
    requires |sh.slots| == CAPACITY && ThreadOk(sh, t, pc)
    requires pc.Idle? || pc.RegisterFetch? || pc.RegisterBind? || pc.RegisterContext?
    ensures SlotAges(sh, pc, Perform(sh, t, pc, c).shared, i)
  {
  }

  lemma SlotsAgeOutside(sh: Shared, t: Tid, pc: Pc, c: Choice, i: Slot)
    requires |sh.slots| == CAPACITY && !pc.InBatch() && !pc.Idle? && !pc.RegisterFetch? && !pc.Registering()
    ensures SlotAges(sh, pc, Perform(sh, t, pc, c).shared, i)
  {
  }

  lemma BatchChanges(sh: Shared, t: Tid, pc: Pc, c: Choice)
    requires SharedOk(sh) && ThreadOk(sh, t, pc)
    ensures var sh' := Perform(sh, t, pc, c).shared;
            && sh'.running == sh'.batch.Some?
            && sh'.nextCookie >= 1
            && (sh'.batch == sh.batch
                || ((sh.batch.Some? ==> sh.batch.value.owner == t) && (sh'.batch.Some? ==> sh'.batch.value.owner == t)))
  {
  }

  lemma BystanderKept(sh: Shared, t: Tid, pc: Pc, c: Choice, u: Tid, qc: Pc)
    requires SharedOk(sh) && ThreadOk(sh, t, pc) && ThreadOk(sh, u, qc) && u != t && Apart(t, pc, u, qc)
    ensures ThreadOk(Perform(sh, t, pc, c).shared, u, qc)
  {
    BatchChanges(sh, t, pc, c);
    match qc {
      case RegisterBind(i, _) => SlotsAge(sh, t, pc, c, i);
      case RegisterContext(i, _) => SlotsAge(sh, t, pc, c, i);
      case UnregisterSwap(i) => SlotsAge(sh, t, pc, c, i);
      case UnregisterContext(i) => SlotsAge(sh, t, pc, c, i);
      case UnregisterPending(i) => SlotsAge(sh, t, pc, c, i);
      case RequestLoad(i) => SlotsAge(sh, t, pc, c, i);
      case RequestMark(i) => SlotsAge(sh, t, pc, c, i);
      case RequestCheck(i) => SlotsAge(sh, t, pc, c, i);
      case Sweep(k) => if 0 < k <= CAPACITY { SlotsAge(sh, t, pc, c, k - 1); }
      case SweepLoad(i) => SlotsAge(sh, t, pc, c, i);
      case SweepContext(i, _) => SlotsAge(sh, t, pc, c, i);
      case SweepCall(i, _) => SlotsAge(sh, t, pc, c, i);
      case _ =>
    }
  }

  lemma NewcomerApart(sh: Shared, t: Tid, pc: Pc, c: Choice, u: Tid, qc: Pc)
    requires |sh.slots| == CAPACITY && ThreadOk(sh, u, qc) && Apart(t, pc, u, qc)
    ensures Apart(t, Perform(sh, t, pc, c).pc, u, qc)
  {
  }

  lemma CheckingKept(s: State, m: Move, i: Slot)
    requires |s.shared.slots| == CAPACITY
    ensures Checking(s, i) && PcOf(s, m.thread) != RequestCheck(i) ==> Checking(Exec(s, m), i)
    ensures PcOf(s, m.thread) == RequestMark(i) ==> Checking(Exec(s, m), i)
  {
    var s' := Exec(s, m);
    if Checking(s, i) && PcOf(s, m.thread) != RequestCheck(i) {
      var u: Tid :| PcOf(s, u) == RequestCheck(i);
      assert PcOf(s', u) == RequestCheck(i);
    }
    if PcOf(s, m.thread) == RequestMark(i) { assert PcOf(s', m.thread) == RequestCheck(i); }
  }

  lemma DispatchDueKept(s: State, m: Move)
    requires |s.shared.slots| == CAPACITY && !s.shared.running && !Exec(s, m).shared.running
    ensures DispatchDue(s) || PcOf(s, m.thread).RequestCheck? ==> DispatchDue(Exec(s, m))
  {
    var s', t := Exec(s, m), m.thread;
    if s.shared.armed {
      if !s'.shared.armed { assert PcOf(s', t).DispatchEnter?; }
    } else if PcOf(s, t).RequestCheck? {
      assert PcOf(s', t).Schedule?;
    } else if DispatchDue(s) {
      var u: Tid :| PcOf(s, u).Schedule? || PcOf(s, u).DispatchEnter?;
      if u == t { assert s'.shared.armed || PcOf(s', t).DispatchEnter?; } else { assert PcOf(s', u) == PcOf(s, u); }
    }
  }

  lemma MarkKept(s: State, m: Move, i: Slot)
    requires Inv(s)
    ensures MarkOk(Exec(s, m), i)
  {
    var pc := PcOf(s, m.thread);
    if pc.InBatch() { SweepKeepsMark(s, m, i); }
    else if pc.RequestMark? || pc.RequestCheck? || pc.Schedule? || pc.DispatchEnter? { RequestKeepsMark(s, m, i); }
    else { BinderKeepsMark(s, m, i); }
  }

  lemma RequestKeepsMark(s: State, m: Move, i: Slot)
    requires Inv(s)
    requires var pc := PcOf(s, m.thread); pc.RequestMark? || pc.RequestCheck? || pc.Schedule? || pc.DispatchEnter?
    ensures MarkOk(Exec(s, m), i)
  {
    var s', pc := Exec(s, m), PcOf(s, m.thread);
    assert PlaceOk(s.shared, i) && MarkOk(s, i) && ThreadOk(s.shared, m.thread, pc);
    CheckingKept(s, m, i);
    if !s.shared.running && !s'.shared.running { DispatchDueKept(s, m); }
  }

  lemma BinderKeepsMark(s: State, m: Move, i: Slot)
    requires Inv(s)
    requires var pc := PcOf(s, m.thread);
             !(pc.InBatch() || pc.RequestMark? || pc.RequestCheck? || pc.Schedule? || pc.DispatchEnter?)
    ensures MarkOk(Exec(s, m), i)
  {
    var s', pc := Exec(s, m), PcOf(s, m.thread);
    assert PlaceOk(s.shared, i) && MarkOk(s, i) && ThreadOk(s.shared, m.thread, pc);
    CheckingKept(s, m, i);
    if !s.shared.running && !s'.shared.running { DispatchDueKept(s, m); }
  }

  lemma SweepKeepsMark(s: State, m: Move, i: Slot)
    requires Inv(s) && PcOf(s, m.thread).InBatch()
    ensures MarkOk(Exec(s, m), i)
  {
    var s', pc := Exec(s, m), PcOf(s, m.thread);
    assert PlaceOk(s.shared, i) && MarkOk(s, i) && ThreadOk(s.shared, m.thread, pc);
    CheckingKept(s, m, i);
  }

  lemma InvKept(s: State, m: Move)
    requires Inv(s)
    ensures Inv(Exec(s, m))
  {
    var s', t := Exec(s, m), m.thread;
    var pc := PcOf(s, t);
    assert ThreadOk(s.shared, t, pc);
    assert SharedOk(s.shared);
    forall i: Slot ensures PlaceOk(s'.shared, i) { PlaceKept(s.shared, t, pc, m.choice, i); }
    forall i: Slot ensures MarkOk(s', i) { MarkKept(s, m, i); }
    forall u: Tid ensures ThreadOk(s'.shared, u, PcOf(s', u)) {
      if u == t {
        MoverKept(s.shared, t, pc, m.choice);
      } else {
        assert ThreadOk(s.shared, u, PcOf(s, u)) && Apart(t, pc, u, PcOf(s, u));
        BystanderKept(s.shared, t, pc, m.choice, u, PcOf(s, u));
      }
    }
    forall u: Tid, v: Tid ensures Apart(u, PcOf(s', u), v, PcOf(s', v)) {
      assert Apart(u, PcOf(s, u), v, PcOf(s, v));
      if u == t && v != t { NewcomerApart(s.shared, t, pc, m.choice, v, PcOf(s, v)); }
      if v == t && u != t {
        assert Apart(t, pc, u, PcOf(s, u)) && ThreadOk(s.shared, u, PcOf(s, u));
        NewcomerApart(s.shared, t, pc, m.choice, u, PcOf(s, u));
      }
    }
    BatchChanges(s.shared, t, pc, m.choice);
    OwnerStays(s, m);
  }

  lemma OwnerStays(s: State, m: Move)
    requires Inv(s)
    ensures var s' := Exec(s, m);
            s'.shared.batch.Some? ==> PcOf(s', s'.shared.batch.value.owner).InBatch()
  {
    var s', t := Exec(s, m), m.thread;
    MoverKept(s.shared, t, PcOf(s, t), m.choice);
    BatchChanges(s.shared, t, PcOf(s, t), m.choice);
  }

  /** The invariant holds after every list of moves, that is, in every interleaving. */
  lemma {:induction false} AlwaysInv(moves: seq<Move>)
    ensures Inv(Run(moves))
  {
    if moves == [] {
      forall i: Slot ensures PlaceOk(INITIAL.shared, i) && MarkOk(INITIAL, i) { }
      forall t: Tid ensures PcOf(INITIAL, t) == Idle { }
    } else {
      AlwaysInv(moves[..|moves| - 1]);
      InvKept(Run(moves[..|moves| - 1]), moves[|moves| - 1]);
    }
  }

  // ---- What the invariant says to a caller ----

  /** At most one thread is inside a batch, and RUNNING says whether one is. */
  lemma BatchesExclude(moves: seq<Move>)
    ensures var s := Run(moves);
            && (forall t: Tid, u: Tid :: PcOf(s, t).InBatch() && PcOf(s, u).InBatch() ==> t == u)
            && (s.shared.running <==> exists t: Tid :: PcOf(s, t).InBatch())
  {
    AlwaysInv(moves);
    var s := Run(moves);
    forall t: Tid ensures PcOf(s, t).InBatch() ==> s.shared.batch.Some? && s.shared.batch.value.owner == t {
      assert ThreadOk(s.shared, t, PcOf(s, t));
    }
  }

  /** A slot is never called more often than it was requested. */
  lemma CallsWithinRequests(moves: seq<Move>, i: Slot)
    ensures |Run(moves).shared.slots[i].calls| <= Run(moves).shared.slots[i].requests
  {
    AlwaysInv(moves);
    assert PlaceOk(Run(moves).shared, i);
  }

  /** A call always gets the function registered for its slot, with the registered context or zero;
      and exactly that context when nobody unregisters the slot and every request uses a cookie
      that registration had returned. */
  lemma CallsSeeTheirBinding(moves: seq<Move>, i: Slot, k: nat)
    requires k < |Run(moves).shared.slots[i].calls|
    ensures var slot := Run(moves).shared.slots[i];
            && slot.bound.Some?
            && slot.calls[k].fn == slot.bound.value.fn
            && (slot.calls[k].context == 0 || slot.calls[k].context == slot.bound.value.context)
            && (!slot.unregistered && !slot.forged ==> slot.calls[k] == slot.bound.value)
  {
    hide Run;
    AlwaysInv(moves);
    var slot := Run(moves).shared.slots[i];
    assert PlaceOk(Run(moves).shared, i);
    assert SlotOk(slot) && GoodCall(slot, slot.calls[k]);
  }

  /** When a batch is about to clear RUNNING, a slot still pending was marked after that batch's
      swap of it. */
  lemma PendingAtTheEnd(moves: seq<Move>, t: Tid, i: Slot)
    requires PcOf(Run(moves), t).Sweep? && PcOf(Run(moves), t).next >= CAPACITY
    ensures Run(moves).shared.slots[i].pending ==> Run(moves).shared.slots[i].remarked
  {
    AlwaysInv(moves);
    assert ThreadOk(Run(moves).shared, t, PcOf(Run(moves), t));
    assert PlaceOk(Run(moves).shared, i);
  }

  /** The exchange that binds a slot never finds it taken. */
  lemma RegistrationNeverConflicts(moves: seq<Move>, t: Tid)
    ensures PcOf(Run(moves), t) != Conflict
  {
    AlwaysInv(moves);
    assert ThreadOk(Run(moves).shared, t, PcOf(Run(moves), t));
  }

  /** Nothing is under way: no thread is in a call and the platform owes no dispatch. */
  ghost predicate Quiet(s: State) {
    !s.shared.armed && forall t: Tid :: PcOf(s, t) == Idle
  }

  /** Once everything is quiet, a slot's latest request is unanswered exactly when its mark was lost;
      and if nobody ever unregistered the slot, exactly when the mark is still there, stranded. */
  lemma QuietUnansweredIffLost(moves: seq<Move>, i: Slot)
    requires Quiet(Run(moves))
    ensures var slot := Run(moves).shared.slots[i];
            && (slot.unanswered <==> slot.lost.Some?)
            && (slot.pending && slot.unanswered <==> slot.lost == Some(Stranded))
            && (!slot.unregistered ==> (slot.unanswered <==> slot.lost == Some(Stranded)))
  {
    AlwaysInv(moves);
    var s := Run(moves);
    assert PlaceOk(s.shared, i) && MarkOk(s, i);
    forall t: Tid ensures PcOf(s, t) == Idle { }
  }

  // ---- The same in terms of the run alone ----

  /** Where the thread that makes move `k` stands. */
  function PcAt(moves: seq<Move>, k: nat): Pc
    requires k < |moves|
  {
    PcOf(Run(moves[..k]), moves[k].thread)
  }

  predicate MarksAt(moves: seq<Move>, k: nat, i: Slot)
    requires k < |moves|
  {
    PcAt(moves, k) == RequestMark(i)
  }

  predicate CallsAt(moves: seq<Move>, k: nat, i: Slot)
    requires k < |moves|
  {
    PcAt(moves, k).SweepCall? && PcAt(moves, k).slot == i
  }

  function LossAt(moves: seq<Move>, k: nat, i: Slot): Option<Loss>
    requires k < |moves|
  {
    LossOf(Run(moves[..k]).shared, PcAt(moves, k), i)
  }

  /** A mark or a call makes up for any loss; a later batch that takes the mark makes up for stranding. */
  predicate MendsAt(moves: seq<Move>, k: nat, i: Slot, loss: Loss)
    requires k < |moves|
  {
    MarksAt(moves, k, i) || CallsAt(moves, k, i) || (loss == Stranded && PcAt(moves, k) == Sweep(i))
  }

  /** Move `k` marks slot `i`, and no call of the slot follows it. */
  ghost predicate MarkedForNothing(moves: seq<Move>, k: nat, i: Slot) {
    k < |moves| && MarksAt(moves, k, i) && forall j: nat :: k < j < |moves| ==> !CallsAt(moves, j, i)
  }

  /** Move `k` loses the mark of slot `i` for good. */
  ghost predicate LostForGood(moves: seq<Move>, k: nat, i: Slot, loss: Loss) {
    && k < |moves| && LossAt(moves, k, i) == Some(loss)
    && forall j: nat :: k < j < |moves| ==> !MendsAt(moves, j, i, loss)
  }

  lemma EventsOfPrefix(moves: seq<Move>, m: Move, k: nat, i: Slot)
    requires k < |moves|
    ensures PcAt(moves + [m], k) == PcAt(moves, k) && LossAt(moves + [m], k, i) == LossAt(moves, k, i)
    ensures CallsAt(moves + [m], k, i) == CallsAt(moves, k, i)
    ensures forall loss :: MendsAt(moves + [m], k, i, loss) == MendsAt(moves, k, i, loss)
  {
    assert (moves + [m])[..k] == moves[..k];
  }

  lemma LastEvent(moves: seq<Move>, m: Move, i: Slot)
    ensures PcAt(moves + [m], |moves|) == PcOf(Run(moves), m.thread)
    ensures LossAt(moves + [m], |moves|, i) == LossOf(Run(moves).shared, PcOf(Run(moves), m.thread), i)
    ensures Run(moves + [m]) == Exec(Run(moves), m)
  {
    assert (moves + [m])[..|moves|] == moves;
  }

  /** What a step at `pc` does to a slot's account of its latest mark. */
  predicate Accounts(sh: Shared, pc: Pc, i: Slot, after: SlotState)
    requires |sh.slots| == CAPACITY
  {
    var before, loss := sh.slots[i], LossOf(sh, pc, i);
    if pc == RequestMark(i) then after.unanswered && after.lost.None?
    else if pc.SweepCall? && pc.slot == i then !after.unanswered && after.lost.None?
    else
      && after.unanswered == before.unanswered
      && after.lost == if loss.Some? then loss
                       else if pc == Sweep(i) && before.lost == Some(Stranded) then None
                       else before.lost
  }

  lemma CallerAccounts(sh: Shared, t: Tid, pc: Pc, c: Choice, i: Slot)
    requires |sh.slots| == CAPACITY && !pc.InBatch()
    ensures Accounts(sh, pc, i, Perform(sh, t, pc, c).shared.slots[i])
  {
  }

  lemma SweeperAccounts(sh: Shared, t: Tid, pc: Pc, c: Choice, i: Slot)
    requires |sh.slots| == CAPACITY && pc.InBatch()
    ensures Accounts(sh, pc, i, Perform(sh, t, pc, c).shared.slots[i])
  {
  }

  lemma StepAccounts(sh: Shared, t: Tid, pc: Pc, c: Choice, i: Slot)
    requires |sh.slots| == CAPACITY
    ensures Accounts(sh, pc, i, Perform(sh, t, pc, c).shared.slots[i])
  {
    if pc.InBatch() { SweeperAccounts(sh, t, pc, c, i); } else { CallerAccounts(sh, t, pc, c, i); }
  }

  /** The latest mark is unanswered exactly when some move marks the slot and no call follows. */
  lemma {:induction false} UnansweredEvents(moves: seq<Move>, i: Slot)
    ensures Run(moves).shared.slots[i].unanswered <==> exists k: nat :: MarkedForNothing(moves, k, i)
  {
    hide Perform, LossOf;
    if moves != [] {
      var init, m := moves[..|moves| - 1], moves[|moves| - 1];
      assert moves == init + [m];
      UnansweredEvents(init, i);
      LastEvent(init, m, i);
      StepAccounts(Run(init).shared, m.thread, PcOf(Run(init), m.thread), m.choice, i);
      forall k: nat | k < |init|
        ensures CallsAt(moves, k, i) == CallsAt(init, k, i) && PcAt(moves, k) == PcAt(init, k)
      {
        EventsOfPrefix(init, m, k, i);
      }
      if Run(moves).shared.slots[i].unanswered {
        if MarksAt(moves, |init|, i) {
          assert MarkedForNothing(moves, |init|, i);
        } else {
          var k: nat :| MarkedForNothing(init, k, i);
          assert MarkedForNothing(moves, k, i);
        }
      }
      if k: nat :| MarkedForNothing(moves, k, i) {
        if k < |init| { UncalledBefore(init, m, k, i); }
      }
    }
  }

  lemma UncalledBefore(moves: seq<Move>, m: Move, k: nat, i: Slot)
    requires k < |moves| && MarkedForNothing(moves + [m], k, i)
    ensures MarkedForNothing(moves, k, i) && !CallsAt(moves + [m], |moves|, i)
  {
    hide Run, Perform, LossOf;
    EventsOfPrefix(moves, m, k, i);
    forall j: nat | k < j < |moves| ensures !CallsAt(moves, j, i) { EventsOfPrefix(moves, m, j, i); }
  }

  lemma UnmendedBefore(moves: seq<Move>, m: Move, k: nat, i: Slot, loss: Loss)
    requires k < |moves| && LostForGood(moves + [m], k, i, loss)
    ensures LostForGood(moves, k, i, loss) && !MendsAt(moves + [m], |moves|, i, loss)
  {
    hide Run, Perform, LossOf;
    EventsOfPrefix(moves, m, k, i);
    forall j: nat | k < j < |moves| ensures !MendsAt(moves, j, i, loss) { EventsOfPrefix(moves, m, j, i); }
  }

  lemma StillLost(moves: seq<Move>, m: Move, k: nat, i: Slot, loss: Loss)
    requires LostForGood(moves, k, i, loss) && !MendsAt(moves + [m], |moves|, i, loss)
    ensures LostForGood(moves + [m], k, i, loss)
  {
    hide Run, Perform, LossOf;
    EventsOfPrefix(moves, m, k, i);
    forall j: nat | k < j <= |moves| ensures !MendsAt(moves + [m], j, i, loss) {
      if j < |moves| { EventsOfPrefix(moves, m, j, i); }
    }
  }

  /** A slot's recorded loss was inflicted by some move, and no later one made up for it. */
  lemma {:induction false} LossHasEvent(moves: seq<Move>, i: Slot) returns (k: nat)
    requires Run(moves).shared.slots[i].lost.Some?
    ensures LostForGood(moves, k, i, Run(moves).shared.slots[i].lost.value)
  {
    hide Perform, LossOf;
    var init, m := moves[..|moves| - 1], moves[|moves| - 1];
    assert moves == init + [m];
    LastEvent(init, m, i);
    StepAccounts(Run(init).shared, m.thread, PcOf(Run(init), m.thread), m.choice, i);
    if LossAt(moves, |init|, i).Some? {
      k := |init|;
    } else {
      k := LossHasEvent(init, i);
      StillLost(init, m, k, i, Run(moves).shared.slots[i].lost.value);
    }
  }

  /** And what a move has lost for good is still recorded as lost. */
  lemma {:induction false} EventLeavesLoss(moves: seq<Move>, k: nat, i: Slot, loss: Loss)
    requires LostForGood(moves, k, i, loss)
    ensures Run(moves).shared.slots[i].lost.Some?
    ensures loss != Stranded ==> Run(moves).shared.slots[i].lost != Some(Stranded)
  {
    hide Perform;
    var init, m := moves[..|moves| - 1], moves[|moves| - 1];
    assert moves == init + [m];
    AlwaysInv(init);
    assert PlaceOk(Run(init).shared, i);
    LastEvent(init, m, i);
    StepAccounts(Run(init).shared, m.thread, PcOf(Run(init), m.thread), m.choice, i);
    if k < |init| {
      UnmendedBefore(init, m, k, i, loss);
      EventLeavesLoss(init, k, i, loss);
    }
  }

  /** In every run that has come to rest, some request of slot `i` was marked and never followed by a
      call if and only if some move lost the slot's mark for good: a request read RUNNING as set after
      the batch had passed the slot, a batch took the mark and found no callback, or an unregister
      erased it. If nobody ever unregistered the slot, only the first can have happened. */
  lemma UnansweredIffLost(moves: seq<Move>, i: Slot)
    requires Quiet(Run(moves))
    ensures (exists k: nat :: MarkedForNothing(moves, k, i)) <==> exists k: nat, loss :: LostForGood(moves, k, i, loss)
    ensures !Run(moves).shared.slots[i].unregistered ==>
              ((exists k: nat :: MarkedForNothing(moves, k, i)) <==> exists k: nat :: LostForGood(moves, k, i, Stranded))
  {
    UnansweredEvents(moves, i);
    QuietUnansweredIffLost(moves, i);
    if Run(moves).shared.slots[i].lost.Some? { var k := LossHasEvent(moves, i); }
    if k: nat, loss :| LostForGood(moves, k, i, loss) { EventLeavesLoss(moves, k, i, loss); }
  }

  // ---- Cookies ----

  /** How many registers have drawn a number from the counter. */
  function Fetches(moves: seq<Move>): nat {
    if moves == [] then 0
    else
      var init, m := moves[..|moves| - 1], moves[|moves| - 1];
      Fetches(init) + Count(PcOf(Run(init), m.thread).RegisterFetch?)
  }

  /** Move `r` is a register drawing the number `c`, the cookie it will return, for this binding. */
  predicate DrawsCookie(moves: seq<Move>, r: nat, c: nat, binding: Binding) {
    r < |moves| && PcAt(moves, r) == RegisterFetch(binding) && c == 1 + Fetches(moves[..r])
  }

  /** Move `q` is a call of request_runtime_dispatch with the cookie `c`. */
  predicate RequestsCookie(moves: seq<Move>, q: nat, c: nat) {
    q < |moves| && PcAt(moves, q) == Idle && moves[q].choice == CallRequest(c)
  }

  lemma {:induction false} DrawsBefore(moves: seq<Move>, m: Move, r: nat, c: nat, binding: Binding)
    requires DrawsCookie(moves, r, c, binding)
    ensures DrawsCookie(moves + [m], r, c, binding)
  {
    hide Run, Fetches;
    EventsOfPrefix(moves, m, r, 0);
    assert (moves + [m])[..r] == moves[..r];
  }

  lemma {:induction false} RequestsBefore(moves: seq<Move>, m: Move, q: nat, c: nat)
    requires RequestsCookie(moves, q, c)
    ensures RequestsCookie(moves + [m], q, c) && (moves + [m])[q].thread == moves[q].thread
  {
    hide Run;
    EventsOfPrefix(moves, m, q, 0);
  }

  /** The counter stands one past the number of draws: cookies are given out in order, each once. */
  lemma {:induction false} CounterCounts(moves: seq<Move>)
    ensures Run(moves).shared.nextCookie == 1 + Fetches(moves)
  {
    if moves != [] {
      var init, m := moves[..|moves| - 1], moves[|moves| - 1];
      CounterCounts(init);
      var s := Run(init);
      CounterStep(s.shared, m.thread, PcOf(s, m.thread), m.choice);
    }
  }

  lemma {:induction false} CounterStep(sh: Shared, t: Tid, pc: Pc, c: Choice)
    requires |sh.slots| == CAPACITY
    ensures Perform(sh, t, pc, c).shared.nextCookie == sh.nextCookie + Count(pc.RegisterFetch?)
  {
    hide LossOf;
  }

  /** The first thirty-two registers are accepted and get the cookies 1 to 32 in order; all later ones fail. */
  lemma {:induction false} RegistersInOrder(moves: seq<Move>, t: Tid, binding: Binding, c: Choice)
    requires PcOf(Run(moves), t) == RegisterFetch(binding)
    ensures var pc := PcOf(Run(moves + [Move(t, c)]), t);
            && DrawsCookie(moves + [Move(t, c)], |moves|, 1 + Fetches(moves), binding)
            && (Fetches(moves) < 32 ==> pc == RegisterBind(Fetches(moves), binding))
            && (Fetches(moves) >= 32 ==> pc == Idle)
  {
    CounterCounts(moves);
    LastEvent(moves, Move(t, c), 0);
    assert (moves + [Move(t, c)])[..|moves|] == moves;
  }

  /** A thread that is binding a slot drew that slot's cookie for that binding. */
  lemma {:induction false} BinderDrew(moves: seq<Move>, t: Tid) returns (r: nat)
    requires PcOf(Run(moves), t).Registering()
    ensures var pc := PcOf(Run(moves), t); DrawsCookie(moves, r, pc.slot + 1, pc.binding)
  {
    hide Perform, Fetches;
    var init, m := moves[..|moves| - 1], moves[|moves| - 1];
    assert moves == init + [m];
    LastEvent(init, m, 0);
    if PcOf(Run(init), t).Registering() {
      r := BinderDrew(init, t);
      DrawsBefore(init, m, r, PcOf(Run(init), t).slot + 1, PcOf(Run(init), t).binding);
      if m.thread == t { BindingSteps(Run(init).shared, t, PcOf(Run(init), t), m.choice); }
    } else {
      r := |init|;
      BindingSteps(Run(init).shared, t, PcOf(Run(init), t), m.choice);
      CounterCounts(init);
      assert moves[..r] == init;
    }
  }

  /** How a thread comes to bind a slot, and how it goes on. */
  lemma {:induction false} BindingSteps(sh: Shared, t: Tid, pc: Pc, c: Choice)
    requires |sh.slots| == CAPACITY
    ensures var next := Perform(sh, t, pc, c).pc;
            next.Registering() ==>
              || (pc.Registering() && next.slot == pc.slot && next.binding == pc.binding)
              || (pc == RegisterFetch(next.binding) && next.slot + 1 == sh.nextCookie)
  {
    hide LossOf;
  }

  /** What is bound to a slot was registered under the slot's own cookie. */
  lemma {:induction false} BoundUnderItsCookie(moves: seq<Move>, i: Slot) returns (r: nat)
    requires Run(moves).shared.slots[i].bound.Some?
    ensures DrawsCookie(moves, r, i + 1, Run(moves).shared.slots[i].bound.value)
  {
    hide Perform, Fetches;
    var init, m := moves[..|moves| - 1], moves[|moves| - 1];
    assert moves == init + [m];
    LastEvent(init, m, 0);
    AlwaysInv(init);
    var s := Run(init);
    assert ThreadOk(s.shared, m.thread, PcOf(s, m.thread));
    SlotsAge(s.shared, m.thread, PcOf(s, m.thread), m.choice, i);
    BindingSet(s.shared, m.thread, PcOf(s, m.thread), m.choice, i);
    if s.shared.slots[i].bound.Some? {
      r := BoundUnderItsCookie(init, i);
    } else {
      r := BinderDrew(init, m.thread);
    }
    DrawsBefore(init, m, r, i + 1, Run(moves).shared.slots[i].bound.value);
  }

  lemma {:induction false} BindingSet(sh: Shared, t: Tid, pc: Pc, c: Choice, i: Slot)
    requires |sh.slots| == CAPACITY
    ensures sh.slots[i].bound.None? && Perform(sh, t, pc, c).shared.slots[i].bound.Some? ==>
              pc.RegisterBind? && pc.slot == i && Perform(sh, t, pc, c).shared.slots[i].bound == Some(pc.binding)
  {
    if pc.InBatch() { SlotsAgeInBatch(sh, t, pc, c, i); }
    hide LossOf;
  }

  /** A thread about to check or mark a slot is in a request of the slot's own cookie. */
  lemma {:induction false} RequesterAsked(moves: seq<Move>, t: Tid) returns (q: nat)
    requires var pc := PcOf(Run(moves), t); pc.RequestLoad? || pc.RequestMark?
    ensures RequestsCookie(moves, q, PcOf(Run(moves), t).slot + 1) && moves[q].thread == t
  {
    hide Perform;
    var init, m := moves[..|moves| - 1], moves[|moves| - 1];
    assert moves == init + [m];
    LastEvent(init, m, 0);
    if m.thread == t { RequestSteps(Run(init).shared, t, PcOf(Run(init), t), m.choice); }
    if m.thread == t && PcOf(Run(init), t) == Idle {
      q := |init|;
    } else {
      q := RequesterAsked(init, t);
      RequestsBefore(init, m, q, PcOf(Run(init), t).slot + 1);
    }
  }

  lemma {:induction false} RequestSteps(sh: Shared, t: Tid, pc: Pc, c: Choice)
    requires |sh.slots| == CAPACITY
    ensures var next := Perform(sh, t, pc, c).pc;
            next.RequestLoad? || next.RequestMark? ==>
              || ((pc.RequestLoad? || pc.RequestMark?) && next.slot == pc.slot)
              || (pc == Idle && c == CallRequest(next.slot + 1))
  {
    hide LossOf;
  }

  /** A slot that was ever marked was marked by a request of its own cookie. */
  lemma {:induction false} MarkedByItsCookie(moves: seq<Move>, i: Slot) returns (q: nat, k: nat)
    requires Run(moves).shared.slots[i].requests > 0
    ensures k < |moves| && MarksAt(moves, k, i) && q < k
    ensures RequestsCookie(moves, q, i + 1) && moves[q].thread == moves[k].thread
  {
    hide Perform;
    var init, m := moves[..|moves| - 1], moves[|moves| - 1];
    assert moves == init + [m];
    LastEvent(init, m, i);
    RequestsCounted(Run(init).shared, m.thread, PcOf(Run(init), m.thread), m.choice, i);
    if PcOf(Run(init), m.thread) == RequestMark(i) {
      k := |init|;
      q := RequesterAsked(init, m.thread);
    } else {
      q, k := MarkedByItsCookie(init, i);
      EventsOfPrefix(init, m, k, i);
    }
    RequestsBefore(init, m, q, i + 1);
  }

  lemma {:induction false} RequestsCounted(sh: Shared, t: Tid, pc: Pc, c: Choice, i: Slot)
    requires |sh.slots| == CAPACITY
    ensures Perform(sh, t, pc, c).shared.slots[i].requests == sh.slots[i].requests + Count(pc == RequestMark(i))
  {
    hide LossOf;
    if pc.InBatch() { SweepCounts(sh, t, pc, c, i); }
  }

  lemma {:induction false} SweepCounts(sh: Shared, t: Tid, pc: Pc, c: Choice, i: Slot)
    requires |sh.slots| == CAPACITY && pc.InBatch()
    ensures Perform(sh, t, pc, c).shared.slots[i].requests == sh.slots[i].requests
  {
    hide LossOf;
  }

  /** Every call a batch makes is of the function registered under some cookie, after that very cookie was
      requested and the request accepted; and if no such cookie was unregistered or used before it was
      returned, with the context registered under it. */
  lemma {:induction false} CallAnswersItsCookie(moves: seq<Move>, k: nat) returns (c: nat, r: nat, q: nat, mark: nat)
    requires k < |moves| && PcAt(moves, k).SweepCall?
    ensures 1 <= c <= 32 && q < mark < k && r < k
    ensures RequestsCookie(moves[..k], q, c) && MarksAt(moves[..k], mark, c - 1) && moves[q].thread == moves[mark].thread
    ensures exists b :: DrawsCookie(moves[..k], r, c, b) && CallOf(b, PcAt(moves, k).call)
    ensures var slot := Run(moves[..k]).shared.slots[c - 1];
            !slot.unregistered && !slot.forged ==> DrawsCookie(moves[..k], r, c, PcAt(moves, k).call)
  {
    hide Run, Perform, Fetches;
    var before, pc := moves[..k], PcAt(moves, k);
    AlwaysInv(before);
    var s := Run(before);
    assert ThreadOk(s.shared, moves[k].thread, pc) && PlaceOk(s.shared, pc.slot);
    c := pc.slot + 1;
    r := BoundUnderItsCookie(before, pc.slot);
    q, mark := MarkedByItsCookie(before, pc.slot);
    assert CallOf(s.shared.slots[pc.slot].bound.value, pc.call);
  }

  /** The call gets the registered function, with the registered context or zero. */
  predicate CallOf(binding: Binding, call: Binding) {
    call.fn == binding.fn && (call.context == binding.context || call.context == 0)
  }

  // ---- Which requests are accepted ----

  predicate BindsAt(moves: seq<Move>, k: nat, i: Slot)
    requires k < |moves|
  {
    PcAt(moves, k).RegisterBind? && PcAt(moves, k).slot == i
  }

  predicate UnbindsAt(moves: seq<Move>, k: nat, i: Slot)
    requires k < |moves|
  {
    PcAt(moves, k) == UnregisterSwap(i)
  }

  /** Some register bound the slot and no unregister has unbound it since. */
  ghost predicate BoundNow(moves: seq<Move>, i: Slot) {
    exists k: nat :: LastBound(moves, k, i)
  }

  ghost predicate LastBound(moves: seq<Move>, k: nat, i: Slot) {
    k < |moves| && BindsAt(moves, k, i) && forall j: nat :: k < j < |moves| ==> !UnbindsAt(moves, j, i)
  }

  lemma {:induction false} CallbackIffBound(moves: seq<Move>, i: Slot)
    ensures Run(moves).shared.slots[i].callback != 0 <==> BoundNow(moves, i)
  {
    hide Perform;
    if moves != [] {
      var init, m := moves[..|moves| - 1], moves[|moves| - 1];
      assert moves == init + [m];
      CallbackIffBound(init, i);
      LastEvent(init, m, i);
      AlwaysInv(init);
      var s := Run(init);
      assert ThreadOk(s.shared, m.thread, PcOf(s, m.thread));
      assert PlaceOk(s.shared, i);
      CallbackStep(s.shared, m.thread, PcOf(s, m.thread), m.choice, i);
      BoundStep(init, m, i);
    }
  }

  lemma {:induction false} CallbackStep(sh: Shared, t: Tid, pc: Pc, c: Choice, i: Slot)
    requires SharedOk(sh) && ThreadOk(sh, t, pc)
    ensures Perform(sh, t, pc, c).shared.slots[i].callback != 0 <==>
              (pc.RegisterBind? && pc.slot == i) || (sh.slots[i].callback != 0 && pc != UnregisterSwap(i))
  {
    hide LossOf;
    assert PlaceOk(sh, i);
  }

  lemma {:induction false} BoundStep(moves: seq<Move>, m: Move, i: Slot)
    ensures BoundNow(moves + [m], i) <==>
              BindsAt(moves + [m], |moves|, i) || (BoundNow(moves, i) && !UnbindsAt(moves + [m], |moves|, i))
  {
    hide Run, Perform;
    var longer := moves + [m];
    forall k: nat | k < |moves| ensures PcAt(longer, k) == PcAt(moves, k) { EventsOfPrefix(moves, m, k, i); }
    if BindsAt(longer, |moves|, i) {
      assert LastBound(longer, |moves|, i);
    }
    if BoundNow(moves, i) && !UnbindsAt(longer, |moves|, i) {
      var k: nat :| LastBound(moves, k, i);
      StillBound(moves, m, k, i);
    }
    if k: nat :| LastBound(longer, k, i) {
      if k < |moves| {
        assert !UnbindsAt(longer, |moves|, i);
        WasBound(moves, m, k, i);
      }
    }
  }

  lemma {:induction false} StillBound(moves: seq<Move>, m: Move, k: nat, i: Slot)
    requires LastBound(moves, k, i) && !UnbindsAt(moves + [m], |moves|, i)
    ensures LastBound(moves + [m], k, i)
  {
    hide Run;
    EventsOfPrefix(moves, m, k, i);
    forall j: nat | k < j < |moves + [m]| ensures !UnbindsAt(moves + [m], j, i) {
      if j < |moves| { EventsOfPrefix(moves, m, j, i); assert !UnbindsAt(moves, j, i); }
    }
  }

  lemma {:induction false} WasBound(moves: seq<Move>, m: Move, k: nat, i: Slot)
    requires k < |moves| && LastBound(moves + [m], k, i)
    ensures LastBound(moves, k, i)
  {
    hide Run;
    EventsOfPrefix(moves, m, k, i);
    forall j: nat | k < j < |moves| ensures !UnbindsAt(moves, j, i) {
      EventsOfPrefix(moves, m, j, i);
      assert !UnbindsAt(moves + [m], j, i);
    }
  }

  /** A request gets past the cookie check exactly for the cookies 1 to 32. */
  lemma {:induction false} RequestChecksCookie(moves: seq<Move>, t: Tid, c: nat)
    requires PcOf(Run(moves), t) == Idle
    ensures var pc := PcOf(Run(moves + [Move(t, CallRequest(c))]), t);
            if 1 <= c <= 32 then pc == RequestLoad(c - 1) else pc == Idle
  {
    LastEvent(moves, Move(t, CallRequest(c)), 0);
  }

  /** An unregister turns to its own cookie's slot, exactly for the cookies 1 to 32. */
  lemma {:induction false} UnregisterChecksCookie(moves: seq<Move>, t: Tid, c: nat)
    requires PcOf(Run(moves), t) == Idle
    ensures var pc := PcOf(Run(moves + [Move(t, CallUnregister(c))]), t);
            if 1 <= c <= 32 then pc == UnregisterSwap(c - 1) else pc == Idle
  {
    LastEvent(moves, Move(t, CallUnregister(c)), 0);
  }

  /** A request is accepted from there exactly when its cookie is bound: registered, and not unregistered since. */
  lemma {:induction false} RequestAcceptedIffBound(moves: seq<Move>, t: Tid, i: Slot, c: Choice)
    requires PcOf(Run(moves), t) == RequestLoad(i)
    ensures var pc := PcOf(Run(moves + [Move(t, c)]), t);
            if BoundNow(moves, i) then pc == RequestMark(i) else pc == Idle
  {
    CallbackIffBound(moves, i);
    LastEvent(moves, Move(t, c), 0);
  }

  // ---- Such a run exists ----

  lemma RunOne(moves: seq<Move>, m: Move)
    ensures Run(moves + [m]) == Exec(Run(moves), m)
  {
    assert (moves + [m])[..|moves|] == moves;
  }

  /** Let thread `t` perform the given choices, one after the other. */
  lemma Perform4(moves: seq<Move>, t: Tid, c1: Choice, c2: Choice, c3: Choice, c4: Choice) returns (moves': seq<Move>)
    ensures var s, s' := Run(moves), Run(moves');
            var e1 := Perform(s.shared, t, PcOf(s, t), c1);
            var e2 := Perform(e1.shared, t, e1.pc, c2);
            var e3 := Perform(e2.shared, t, e2.pc, c3);
            var e4 := Perform(e3.shared, t, e3.pc, c4);
            && s'.shared == e4.shared && PcOf(s', t) == e4.pc
            && forall u: Tid :: u != t ==> PcOf(s', u) == PcOf(s, u)
  {
    moves' := Perform1(moves, t, c1);
    moves' := Perform1(moves', t, c2);
    moves' := Perform1(moves', t, c3);
    moves' := Perform1(moves', t, c4);
  }

  lemma Perform1(moves: seq<Move>, t: Tid, c: Choice) returns (moves': seq<Move>)
    ensures var s, s' := Run(moves), Run(moves');
            var e := Perform(s.shared, t, PcOf(s, t), c);
            && s'.shared == e.shared && PcOf(s', t) == e.pc
            && forall u: Tid :: u != t ==> PcOf(s', u) == PcOf(s, u)
  {
    RunOne(moves, Move(t, c));
    moves' := moves + [Move(t, c)];
  }

  /** Slot 0 is `first`, no other slot is pending, and the cookie counter, RUNNING and the sweep
      stand where the script has brought them. */
  ghost predicate Stage(sh: Shared, nextCookie: nat, first: SlotState, batch: Option<Batch>) {
    && |sh.slots| == CAPACITY
    && sh.nextCookie == nextCookie && !sh.armed && sh.running == batch.Some? && sh.batch == batch
    && sh.slots[0] == first
    && forall i: Slot :: i > 0 ==> !sh.slots[i].pending
  }

  const BOUND: Binding := Binding(7, 9)
  const BARE := SlotState(7, 9, false, Some(BOUND), true, false, false, 0, [], false, false, false, None)
  const MARKED := BARE.(pending := true, requests := 1, remarked := true, unanswered := true)
  const TAKEN := MARKED.(pending := false, taken := true, remarked := false)
  const CALLED := TAKEN.(calls := [BOUND], taken := false, unanswered := false)
  const STRANDED := CALLED.(pending := true, requests := 2, remarked := true, unanswered := true, lost := Some(Stranded))
  const GONE := BARE.(callback := 0, context := 0, unregistered := true)
  const LATE := GONE.(pending := true, requests := 1, remarked := true, unanswered := true)
  const DROPPED := LATE.(pending := false, remarked := false, lost := Some(Dropped))

  lemma RegisterScript(sh: Shared)
    requires Stage(sh, 1, EMPTY_SLOT, None)
    ensures var e1 := Perform(sh, 0, Idle, CallRegister(BOUND));
            var e2 := Perform(e1.shared, 0, e1.pc, Defer);
            var e3 := Perform(e2.shared, 0, e2.pc, Defer);
            var e4 := Perform(e3.shared, 0, e3.pc, Defer);
            Stage(e4.shared, 2, BARE, None) && e4.pc == Idle
  {
  }

  lemma RequestScript(sh: Shared)
    requires Stage(sh, 2, BARE, None)
    ensures var e1 := Perform(sh, 0, Idle, CallRequest(1));
            var e2 := Perform(e1.shared, 0, e1.pc, Defer);
            var e3 := Perform(e2.shared, 0, e2.pc, Defer);
            var e4 := Perform(e3.shared, 0, e3.pc, Defer);
            Stage(e4.shared, 2, MARKED, None) && e4.pc == Schedule
  {
  }

  lemma CallScript(sh: Shared)
    requires Stage(sh, 2, MARKED, None)
    ensures var e1 := Perform(sh, 0, Schedule, RunLocally);
            var e2 := Perform(e1.shared, 0, e1.pc, Defer);
            var e3 := Perform(e2.shared, 0, e2.pc, Defer);
            var e4 := Perform(e3.shared, 0, e3.pc, Defer);
            Stage(e4.shared, 2, TAKEN, Some(Batch(0, 1))) && e4.pc == SweepContext(0, 7)
  {
  }

  lemma ReturnScript(sh: Shared)
    requires Stage(sh, 2, TAKEN, Some(Batch(0, 1)))
    ensures var e1 := Perform(sh, 0, SweepContext(0, 7), Defer);
            var e2 := Perform(e1.shared, 0, e1.pc, Defer);
            Stage(e2.shared, 2, CALLED, Some(Batch(0, 1))) && e2.pc == Sweep(1)
  {
  }

  lemma StrandScript(sh: Shared)
    requires Stage(sh, 2, CALLED, Some(Batch(0, 1)))
    ensures var e1 := Perform(sh, 1, Idle, CallRequest(1));
            var e2 := Perform(e1.shared, 1, e1.pc, Defer);
            var e3 := Perform(e2.shared, 1, e2.pc, Defer);
            var e4 := Perform(e3.shared, 1, e3.pc, Defer);
            Stage(e4.shared, 2, STRANDED, Some(Batch(0, 1))) && e4.pc == Idle
  {
  }

  lemma SweepScript(sh: Shared, t: Tid, first: SlotState, k: nat)
    requires 1 <= k <= CAPACITY && Stage(sh, 2, first, Some(Batch(t, k)))
    ensures var e := Perform(sh, t, Sweep(k), Defer);
            if k < CAPACITY then Stage(e.shared, 2, first, Some(Batch(t, k + 1))) && e.pc == Sweep(k + 1)
            else Stage(e.shared, 2, first, None) && e.pc == Idle
  {
    assert k < CAPACITY ==> !sh.slots[k].pending;
  }

  lemma {:induction false} SweepToTheEnd(moves: seq<Move>, t: Tid, first: SlotState, k: nat) returns (moves': seq<Move>)
    requires 1 <= k <= CAPACITY && Stage(Run(moves).shared, 2, first, Some(Batch(t, k)))
    requires Alone(Run(moves), t, Sweep(k))
    ensures Quiet(Run(moves')) && Run(moves').shared.slots[0] == first
    decreases CAPACITY - k
  {
    hide Run, Perform;
    SweepScript(Run(moves).shared, t, first, k);
    moves' := Perform1(moves, t, Defer);
    if k < CAPACITY {
      moves' := SweepToTheEnd(moves', t, first, k + 1);
    } else {
      forall u: Tid ensures PcOf(Run(moves'), u) == Idle { }
    }
  }

  /** Thread `t` stands at `pc` and every other thread is idle. */
  ghost predicate Alone(s: State, t: Tid, pc: Pc) {
    PcOf(s, t) == pc && forall u: Tid :: u != t ==> PcOf(s, u) == Idle
  }

  lemma FirstRegistration() returns (moves: seq<Move>)
    ensures Alone(Run(moves), 0, Idle) && Stage(Run(moves).shared, 2, BARE, None)
  {
    moves := [];
    assert Stage(Run(moves).shared, 1, EMPTY_SLOT, None) && Alone(Run(moves), 0, Idle);
    RegisterScript(Run(moves).shared);
    moves := Perform4(moves, 0, CallRegister(BOUND), Defer, Defer, Defer);
  }

  lemma FirstCall() returns (moves: seq<Move>)
    ensures Alone(Run(moves), 0, Sweep(1)) && Stage(Run(moves).shared, 2, CALLED, Some(Batch(0, 1)))
  {
    hide Run, Perform;
    moves := FirstRegistration();
    RequestScript(Run(moves).shared);
    moves := Perform4(moves, 0, CallRequest(1), Defer, Defer, Defer);
    assert Stage(Run(moves).shared, 2, MARKED, None) && Alone(Run(moves), 0, Schedule);
    CallScript(Run(moves).shared);
    moves := Perform4(moves, 0, RunLocally, Defer, Defer, Defer);
    assert Stage(Run(moves).shared, 2, TAKEN, Some(Batch(0, 1))) && Alone(Run(moves), 0, SweepContext(0, 7));
    ReturnScript(Run(moves).shared);
    moves := Perform1(moves, 0, Defer);
    moves := Perform1(moves, 0, Defer);
  }

  /** A request that returned Ok and will never be answered: everything is quiet, the slot was
      requested twice and called once before the second request, and its mark is still set. */
  lemma StrandedRequestExists() returns (moves: seq<Move>)
    ensures Quiet(Run(moves))
    ensures Run(moves).shared.slots[0].pending && Run(moves).shared.slots[0].unanswered
    ensures Run(moves).shared.slots[0].requests == 2 && |Run(moves).shared.slots[0].calls| == 1
  {
    hide Run, Perform;
    moves := FirstCall();
    StrandScript(Run(moves).shared);
    moves := Perform4(moves, 1, CallRequest(1), Defer, Defer, Defer);
    assert Alone(Run(moves), 0, Sweep(1));
    moves := SweepToTheEnd(moves, 0, STRANDED, 1);
  }

  lemma RequestStartScript(sh: Shared)
    requires Stage(sh, 2, BARE, None)
    ensures var e1 := Perform(sh, 1, Idle, CallRequest(1));
            var e2 := Perform(e1.shared, 1, e1.pc, Defer);
            Stage(e2.shared, 2, BARE, None) && e2.pc == RequestMark(0)
  {
  }

  lemma UnregisterScript(sh: Shared)
    requires Stage(sh, 2, BARE, None)
    ensures var e1 := Perform(sh, 0, Idle, CallUnregister(1));
            var e2 := Perform(e1.shared, 0, e1.pc, Defer);
            var e3 := Perform(e2.shared, 0, e2.pc, Defer);
            var e4 := Perform(e3.shared, 0, e3.pc, Defer);
            Stage(e4.shared, 2, GONE, None) && e4.pc == Idle
  {
  }

  lemma LateMarkScript(sh: Shared)
    requires Stage(sh, 2, GONE, None)
    ensures var e1 := Perform(sh, 1, RequestMark(0), Defer);
            var e2 := Perform(e1.shared, 1, e1.pc, Defer);
            var e3 := Perform(e2.shared, 1, e2.pc, RunLocally);
            var e4 := Perform(e3.shared, 1, e3.pc, Defer);
            Stage(e4.shared, 2, LATE, Some(Batch(1, 0))) && e4.pc == Sweep(0)
  {
  }

  lemma DropScript(sh: Shared)
    requires Stage(sh, 2, LATE, Some(Batch(1, 0)))
    ensures var e1 := Perform(sh, 1, Sweep(0), Defer);
            var e2 := Perform(e1.shared, 1, e1.pc, Defer);
            Stage(e2.shared, 2, DROPPED, Some(Batch(1, 1))) && e2.pc == Sweep(1)
  {
  }

  /** A second kind of request that returned Ok and is never answered: it found the callback, another
      thread unregistered the slot, and the batch the request then ran itself dropped its mark. */
  lemma DroppedRequestExists() returns (moves: seq<Move>)
    ensures Quiet(Run(moves))
    ensures Run(moves).shared.slots[0].unanswered && !Run(moves).shared.slots[0].pending
    ensures Run(moves).shared.slots[0].requests == 1 && Run(moves).shared.slots[0].calls == []
  {
    hide Run, Perform;
    moves := FirstRegistration();
    RequestStartScript(Run(moves).shared);
    moves := Perform1(moves, 1, CallRequest(1));
    moves := Perform1(moves, 1, Defer);
    assert Stage(Run(moves).shared, 2, BARE, None) && Alone(Run(moves), 1, RequestMark(0));
    UnregisterScript(Run(moves).shared);
    moves := Perform4(moves, 0, CallUnregister(1), Defer, Defer, Defer);
    assert Stage(Run(moves).shared, 2, GONE, None) && Alone(Run(moves), 1, RequestMark(0));
    LateMarkScript(Run(moves).shared);
    moves := Perform4(moves, 1, Defer, Defer, RunLocally, Defer);
    assert Stage(Run(moves).shared, 2, LATE, Some(Batch(1, 0))) && Alone(Run(moves), 1, Sweep(0));
    DropScript(Run(moves).shared);
    moves := Perform1(moves, 1, Defer);
    moves := Perform1(moves, 1, Defer);
    moves := SweepToTheEnd(moves, 1, DROPPED, 1);
  }
}
