/** The AML lifecycle passes. The evaluator is an oracle that sees every call made so far; what a pass
    does is the list of calls it makes and the state it leaves. */
module Vm {
  import opened Wrappers
  import opened Bits
  import opened Names
  import opened Fields
  import opened Namespace
  import opened Values
  import Loader

  datatype Call = Call(node: nat, args: seq<nat>)

  datatype Verdict = Verdict(returned: Option<Value>, blocked: bool)

  /** What the evaluator answers to the last call of a history. */
  type Oracle = seq<Call> -> Result<Verdict>

  datatype VmState = Empty | Loaded | Ready | Blocked

  datatype End = Finished | Stopped | Failed(error: Error)

  /** The calls made so far, and how the pass ended. */
  datatype Pass = Pass(trace: seq<Call>, end: End)

  function Saturate(n: nat): nat { if n > U16_MAX then U16_MAX else n }

  /** How many calls were made between two histories. */
  function Since(before: seq<Call>, after: seq<Call>): nat {
    if |after| < |before| then 0 else |after| - |before|
  }

  function SaturatingInc(n: nat): nat { if n >= U16_MAX then U16_MAX else n + 1 }

  // ---- Passes whose calls do not depend on the answers ----

  datatype Planned = Evaluate(call: Call) | TooMany

  /** One call after the other, until one fails or blocks. */
  function Follow(ask: Oracle, trace: seq<Call>, plan: seq<Planned>): Pass
    decreases |plan|
  {
    if plan == [] then Pass(trace, Finished)
    else match plan[0]
      case TooMany => Pass(trace, Failed(Overflow))
      case Evaluate(call) =>
        match ask(trace + [call])
        case Err(e) => Pass(trace + [call], Failed(e))
        case Ok(v) => if v.blocked then Pass(trace + [call], Stopped) else Follow(ask, trace + [call], plan[1..])
  }

  function CallsOf(plan: seq<Planned>): seq<Call> {
    if plan == [] then []
    else (if plan[0].Evaluate? then [plan[0].call] else []) + CallsOf(plan[1..])
  }

  /** A pass that finishes has made exactly the planned calls, none of which blocked. A pass that stops
      has made some of them, and the last one, and only that one, was answered by blocking. */
  lemma {:induction false} FollowMakesThePlan(ask: Oracle, trace: seq<Call>, plan: seq<Planned>)
    ensures var p := Follow(ask, trace, plan);
            && trace <= p.trace && p.trace[|trace|..] <= CallsOf(plan)
            && (p.end.Finished? ==> p.trace == trace + CallsOf(plan) && TooMany !in plan)
            && (p.end.Stopped? ==> |p.trace| > |trace| && Blocks(ask, p.trace))
            && (forall k :: |trace| < k <= |p.trace| && (k < |p.trace| || p.end.Finished?) ==> GoesOn(ask, p.trace[..k]))
    decreases |plan|
  {
    if plan == [] {
      assert trace + CallsOf(plan) == trace;
    } else if plan[0].Evaluate? {
      var more := trace + [plan[0].call];
      var answer := ask(more);
      if answer.Ok? && !answer.value.blocked {
        FollowMakesThePlan(ask, more, plan[1..]);
        OneCallEarlier(trace, plan[0].call, Follow(ask, more, plan[1..]).trace, CallsOf(plan[1..]));
        assert Follow(ask, trace, plan).trace[..|more|] == more;
        assert plan == [plan[0]] + plan[1..];
      } else {
        assert more[|trace|..] == [plan[0].call];
        assert CallsOf(plan)[..1] == [plan[0].call];
      }
    }
  }

  /** What was made of the rest of a plan, seen from one call earlier. */
  lemma OneCallEarlier(trace: seq<Call>, call: Call, made: seq<Call>, rest: seq<Call>)
    requires trace + [call] <= made && made[|trace| + 1..] <= rest
    ensures trace <= made && made[|trace|..] <= [call] + rest
    ensures made == trace + [call] + rest ==> made == trace + ([call] + rest)
  {
    assert made[|trace|..] == [call] + made[|trace| + 1..];
  }

  predicate Blocks(ask: Oracle, trace: seq<Call>) { ask(trace).Ok? && ask(trace).value.blocked }

  predicate GoesOn(ask: Oracle, trace: seq<Call>) { ask(trace).Ok? && !ask(trace).value.blocked }

  // ---- _REG ----

  function SpaceArgument(space: Space): nat {
    match space
    case SystemMemory => 0x00
    case SystemIo => 0x01
    case PciConfig => 0x02
    case EmbeddedControl => 0x03
    case SmBus => 0x04
    case Cmos => 0x05
    case PciBarTarget => 0x06
    case Ipmi => 0x07
    case Gpio => 0x08
    case GenericSerialBus => 0x09
    case PlatformCommChannel => 0x0A
    case FunctionalFixedHardware => 0x7F
    case Oem(id) => id
  }

  /** The number a _REG method is given is the byte the region was declared with, for every byte. */
  lemma SpaceRoundTrip(b: byte)
    ensures SpaceArgument(Loader.AddressSpace(b)) == b
  {
  }

  /** So two regions are of one space exactly when they are registered under one number. */
  lemma SpaceArgumentInverse(space: Space)
    requires exists b: byte :: space == Loader.AddressSpace(b)
    ensures SpaceArgument(space) <= U8_MAX && Loader.AddressSpace(SpaceArgument(space)) == space
  {
    var b: byte :| space == Loader.AddressSpace(b);
    SpaceRoundTrip(b);
  }

  predicate IsKind(r: Record, kind: MethodKind) { IsMethod(r) && r.payload.info.kind == kind }

  predicate SiblingRegion(rs: Records, parent: Option<nat>, j: nat)
    requires j < |rs|
  {
    rs[j].parent == parent && rs[j].payload.RegionPayload?
  }

  /** The address spaces of the sibling regions from record `j` on that are not yet among `seen`. */
  function NewSpaces(rs: Records, parent: Option<nat>, j: nat, seen: seq<Space>): seq<Space>
    requires j <= |rs|
    decreases |rs| - j
  {
    if j == |rs| then []
    else if SiblingRegion(rs, parent, j) && rs[j].payload.region.space !in seen then
      [rs[j].payload.region.space] + NewSpaces(rs, parent, j + 1, seen + [rs[j].payload.region.space])
    else NewSpaces(rs, parent, j + 1, seen)
  }

  const MAX_SPACES: nat := 16

  function Registrations(node: nat, done: nat, spaces: seq<Space>): seq<Planned>
    decreases |spaces|
  {
    if spaces == [] then []
    else if done >= MAX_SPACES then [TooMany]
    else [Evaluate(Call(node, [SpaceArgument(spaces[0]), 1]))] + Registrations(node, done + 1, spaces[1..])
  }

  /** What registration does from record `i` on. */
  function RegistrationPlan(rs: Records, i: nat): seq<Planned>
    requires i <= |rs|
    decreases |rs| - i
  {
    if i == |rs| then []
    else if IsKind(rs[i], RegionAvailability) then
      Registrations(rs[i].payload.info.node, 0, NewSpaces(rs, rs[i].parent, 0, [])) + RegistrationPlan(rs, i + 1)
    else RegistrationPlan(rs, i + 1)
  }

  /** Where a space first occurs among the siblings. */
  predicate FirstOccurrence(rs: Records, parent: Option<nat>, space: Space, j: nat) {
    && j < |rs| && SiblingRegion(rs, parent, j) && rs[j].payload.region.space == space
    && forall k :: 0 <= k < j && SiblingRegion(rs, parent, k) ==> rs[k].payload.region.space != space
  }

  /** `seen` is every space among the sibling regions before `j`. */
  ghost predicate SeenBefore(rs: Records, parent: Option<nat>, j: nat, seen: seq<Space>)
    requires j <= |rs|
  {
    forall space :: space in seen <==>
      exists k :: 0 <= k < j && SiblingRegion(rs, parent, k) && rs[k].payload.region.space == space
  }

  lemma SeenNext(rs: Records, parent: Option<nat>, j: nat, seen: seq<Space>)
    requires j < |rs| && SeenBefore(rs, parent, j, seen)
    ensures SeenBefore(rs, parent, j + 1, if SiblingRegion(rs, parent, j) then seen + [rs[j].payload.region.space] else seen)
    ensures SiblingRegion(rs, parent, j) && rs[j].payload.region.space in seen ==> SeenBefore(rs, parent, j + 1, seen)
  {
    var next := if SiblingRegion(rs, parent, j) then seen + [rs[j].payload.region.space] else seen;
    forall space ensures space in next <==>
      exists k :: 0 <= k < j + 1 && SiblingRegion(rs, parent, k) && rs[k].payload.region.space == space {
      if space in seen {
        var k :| 0 <= k < j && SiblingRegion(rs, parent, k) && rs[k].payload.region.space == space;
        assert k < j + 1;
      } else if SiblingRegion(rs, parent, j) && rs[j].payload.region.space == space {
        assert 0 <= j < j + 1;
      }
    }
  }

  /** The spaces are distinct, each with the place of its first occurrence, and those places ascend. */
  ghost predicate InOrder(rs: Records, parent: Option<nat>, j: nat, spaces: seq<Space>, firsts: seq<nat>) {
    && |firsts| == |spaces|
    && (forall n :: 0 <= n < |spaces| ==> j <= firsts[n] && FirstOccurrence(rs, parent, spaces[n], firsts[n]))
    && (forall m, n :: 0 <= m < n < |spaces| ==> firsts[m] < firsts[n] && spaces[m] != spaces[n])
  }

  lemma NewIsFirst(rs: Records, parent: Option<nat>, j: nat, seen: seq<Space>)
    requires j < |rs| && SeenBefore(rs, parent, j, seen)
    requires SiblingRegion(rs, parent, j) && rs[j].payload.region.space !in seen
    ensures FirstOccurrence(rs, parent, rs[j].payload.region.space, j)
  {
  }

  lemma InOrderCons(rs: Records, parent: Option<nat>, j: nat, space: Space, tail: seq<Space>, rest: seq<nat>)
    requires InOrder(rs, parent, j + 1, tail, rest) && FirstOccurrence(rs, parent, space, j)
    ensures InOrder(rs, parent, j, [space] + tail, [j] + rest)
  {
    forall n | 0 <= n < |tail| ensures tail[n] != space { assert FirstOccurrence(rs, parent, tail[n], rest[n]); }
  }

  /** Each sibling space is registered once, and they come in the order of their first occurrence. */
  lemma {:induction false} SpacesInFirstSeenOrder(rs: Records, parent: Option<nat>, j: nat, seen: seq<Space>)
    returns (firsts: seq<nat>)
    requires j <= |rs| && SeenBefore(rs, parent, j, seen)
    ensures var spaces := NewSpaces(rs, parent, j, seen);
            && InOrder(rs, parent, j, spaces, firsts)
            && (forall k :: j <= k < |rs| && SiblingRegion(rs, parent, k) ==>
                  rs[k].payload.region.space in seen || rs[k].payload.region.space in spaces)
    decreases |rs| - j
  {
    hide FirstOccurrence, SeenBefore;
    if j == |rs| {
      firsts := [];
    } else {
      SeenNext(rs, parent, j, seen);
      if SiblingRegion(rs, parent, j) && rs[j].payload.region.space !in seen {
        var space := rs[j].payload.region.space;
        var rest := SpacesInFirstSeenOrder(rs, parent, j + 1, seen + [space]);
        firsts := [j] + rest;
        NewIsFirst(rs, parent, j, seen);
        InOrderCons(rs, parent, j, space, NewSpaces(rs, parent, j + 1, seen + [space]), rest);
      } else {
        firsts := SpacesInFirstSeenOrder(rs, parent, j + 1, seen);
      }
    }
  }

  /** So a _REG that is not cut short is called once for each address space among its sibling regions,
      in the order the spaces first appear; it fails before the seventeenth. */
  lemma RegistersEachSpaceOnce(rs: Records, i: nat) returns (firsts: seq<nat>)
    requires i < |rs| && IsKind(rs[i], RegionAvailability)
    ensures var parent := rs[i].parent;
            var spaces := NewSpaces(rs, parent, 0, []);
            && InOrder(rs, parent, 0, spaces, firsts)
            && (forall k :: 0 <= k < |rs| && SiblingRegion(rs, parent, k) ==> rs[k].payload.region.space in spaces)
            && |Registrations(rs[i].payload.info.node, 0, spaces)|
               == (if |spaces| > MAX_SPACES then MAX_SPACES + 1 else |spaces|)
            && forall n :: 0 <= n < |spaces| && n < MAX_SPACES ==>
                 Registrations(rs[i].payload.info.node, 0, spaces)[n]
                 == Evaluate(Call(rs[i].payload.info.node, [SpaceArgument(spaces[n]), 1]))
  {
    firsts := SpacesInFirstSeenOrder(rs, rs[i].parent, 0, []);
    RegistrationsAre(rs[i].payload.info.node, 0, NewSpaces(rs, rs[i].parent, 0, []));
  }

  lemma {:induction false} RegistrationsAre(node: nat, done: nat, spaces: seq<Space>)
    requires done <= MAX_SPACES
    ensures var plan := Registrations(node, done, spaces);
            && |plan| == (if done + |spaces| > MAX_SPACES then MAX_SPACES - done + 1 else |spaces|)
            && forall n :: 0 <= n < |spaces| && done + n < MAX_SPACES ==>
                 plan[n] == Evaluate(Call(node, [SpaceArgument(spaces[n]), 1]))
    decreases |spaces|
  {
    if spaces != [] && done < MAX_SPACES { RegistrationsAre(node, done + 1, spaces[1..]); }
  }

  // ---- _INI ----

  /** The first _STA beside a record with this parent. */
  function FirstStatus(rs: Records, parent: Option<nat>, j: nat): (r: Option<nat>)
    requires j <= |rs|
    ensures r.Some? ==> j <= r.value < |rs| && rs[r.value].parent == parent && IsKind(rs[r.value], Status)
                        && forall k :: j <= k < r.value ==> !(rs[k].parent == parent && IsKind(rs[k], Status))
    ensures r.None? ==> forall k :: j <= k < |rs| ==> !(rs[k].parent == parent && IsKind(rs[k], Status))
    decreases |rs| - j
  {
    if j == |rs| then None
    else if rs[j].parent == parent && IsKind(rs[j], Status) then Some(j)
    else FirstStatus(rs, parent, j + 1)
  }

  /** Present and functioning: bits 0 and 3. */
  predicate Present(status: u64) { Bit(status, 0) && Bit(status, 3) }

  datatype Decision = Run | Skip | Stop

  /** Whether a device's _INI runs, and the calls made to find out. */
  datatype Choice = Choice(trace: seq<Call>, decision: Result<Decision>)

  function Decide(ask: Oracle, rs: Records, parent: Option<nat>, trace: seq<Call>): Choice {
    if parent.None? || FirstStatus(rs, parent, 0).None? then Choice(trace, Ok(Run))
    else
      var more := trace + [Call(rs[FirstStatus(rs, parent, 0).value].payload.info.node, [])];
      Choice(more,
             match ask(more)
             case Err(e) => Err(e)
             case Ok(v) =>
               if v.blocked then Ok(Stop)
               else if v.returned.None? then Err(InvalidState)
               else match AsInteger(v.returned.value)
                 case Err(e) => Err(e)
                 case Ok(status) => Ok(if Present(status) then Run else Skip))
  }

  /** One visit: the record, the calls made before it, and whether its _INI ran. */
  datatype Visit = Visit(record: nat, before: seq<Call>, ran: bool)

  /** What became of one device: whether its _INI ran, and whether the pass stops there. */
  datatype Turn = Turn(ran: bool, stop: bool)

  datatype InitPass = InitPass(trace: seq<Call>, devices: seq<Visit>, end: End)

  /** The devices from record `i` on. */
  function InitFrom(ask: Oracle, rs: Records, i: nat, trace: seq<Call>): InitPass
    requires i <= |rs|
    decreases |rs| - i
  {
    if i == |rs| then InitPass(trace, [], Finished)
    else if !IsKind(rs[i], Initialize) then InitFrom(ask, rs, i + 1, trace)
    else
      var choice := Decide(ask, rs, rs[i].parent, trace);
      match choice.decision
      case Err(e) => InitPass(choice.trace, [], Failed(e))
      case Ok(Stop) => InitPass(choice.trace, [], Stopped)
      case Ok(Skip) => WithDevice(Visit(i, trace, false), InitFrom(ask, rs, i + 1, choice.trace))
      case Ok(Run) =>
        var more := choice.trace + [Call(rs[i].payload.info.node, [])];
        match ask(more)
        case Err(e) => InitPass(more, [], Failed(e))
        case Ok(v) =>
          if v.blocked then InitPass(more, [Visit(i, trace, true)], Stopped)
          else WithDevice(Visit(i, trace, true), InitFrom(ask, rs, i + 1, more))
  }

  lemma {:induction false} NotADevice(ask: Oracle, rs: Records, i: nat, trace: seq<Call>)
    requires i < |rs| && !IsKind(rs[i], Initialize)
    ensures InitFrom(ask, rs, i, trace) == InitFrom(ask, rs, i + 1, trace)
  {
  }

  lemma {:induction false} InitEnds(ask: Oracle, rs: Records, trace: seq<Call>)
    ensures InitFrom(ask, rs, |rs|, trace) == InitPass(trace, [], Finished)
  {
  }

  function WithDevice(d: Visit, p: InitPass): InitPass { p.(devices := [d] + p.devices) }

  /** The _INI methods from record `i` on. */
  function Initializers(rs: Records, i: nat): seq<nat>
    requires i <= |rs|
    decreases |rs| - i
  {
    if i == |rs| then [] else (if IsKind(rs[i], Initialize) then [i] else []) + Initializers(rs, i + 1)
  }

  function RecordsOf(devices: seq<Visit>): seq<nat> {
    if devices == [] then [] else [devices[0].record] + RecordsOf(devices[1..])
  }

  predicate Functioning(status: u64) { status % 2 == 1 && status / 8 % 2 == 1 }

  /** A device's _INI ran exactly when it has no _STA beside it, or its first one answered with bits 0
      and 3 set. */
  predicate RanIffPresent(ask: Oracle, rs: Records, d: Visit) {
    && d.record < |rs|
    && var status := FirstStatus(rs, rs[d.record].parent, 0);
       if rs[d.record].parent.None? || status.None? then d.ran
       else
         var answer := ask(d.before + [Call(rs[status.value].payload.info.node, [])]);
         && answer.Ok? && !answer.value.blocked && answer.value.returned.Some? && answer.value.returned.value.Integer?
         && (d.ran <==> Functioning(answer.value.returned.value.value))
  }

  /** What a device contributes to the calls. */
  function DeviceCalls(rs: Records, d: Visit): seq<Call> {
    if d.record >= |rs| || !IsMethod(rs[d.record]) then []
    else
      var status := FirstStatus(rs, rs[d.record].parent, 0);
      (if rs[d.record].parent.None? || status.None? then [] else [Call(rs[status.value].payload.info.node, [])])
      + (if d.ran then [Call(rs[d.record].payload.info.node, [])] else [])
  }

  function AllCalls(rs: Records, devices: seq<Visit>): seq<Call> {
    if devices == [] then [] else DeviceCalls(rs, devices[0]) + AllCalls(rs, devices[1..])
  }

  lemma DecideCalls(ask: Oracle, rs: Records, i: nat, trace: seq<Call>)
    requires i < |rs| && IsKind(rs[i], Initialize)
    ensures var c := Decide(ask, rs, rs[i].parent, trace);
            (c.decision == Ok(Run) || c.decision == Ok(Skip)) ==>
              var d := Visit(i, trace, c.decision == Ok(Run));
              && RanIffPresent(ask, rs, d)
              && c.trace + (if d.ran then [Call(rs[i].payload.info.node, [])] else []) == trace + DeviceCalls(rs, d)
  {
  }

  /** An initialisation that finishes has visited every _INI in record order, each once, and run exactly
      those whose device is present; the calls made are theirs and no others. */
  lemma {:induction false} InitVisitsEveryDevice(ask: Oracle, rs: Records, i: nat, trace: seq<Call>)
    requires i <= |rs|
    ensures var p := InitFrom(ask, rs, i, trace);
            && (forall k :: 0 <= k < |p.devices| ==> RanIffPresent(ask, rs, p.devices[k]))
            && (p.end.Finished? ==> RecordsOf(p.devices) == Initializers(rs, i)
                                    && p.trace == trace + AllCalls(rs, p.devices))
            && (p.end.Stopped? ==> |p.trace| > |trace| && Blocks(ask, p.trace))
            && trace <= p.trace
    decreases |rs| - i
  {
    if i == |rs| {
      assert trace + AllCalls(rs, []) == trace;
    } else if !IsKind(rs[i], Initialize) {
      InitVisitsEveryDevice(ask, rs, i + 1, trace);
    } else {
      var c := Decide(ask, rs, rs[i].parent, trace);
      DecideCalls(ask, rs, i, trace);
      if c.decision == Ok(Skip) {
        InitVisitsEveryDevice(ask, rs, i + 1, c.trace);
        AddDevice(rs, Visit(i, trace, false), InitFrom(ask, rs, i + 1, c.trace), trace, c.trace);
      } else if c.decision == Ok(Run) {
        var more := c.trace + [Call(rs[i].payload.info.node, [])];
        if ask(more).Ok? && !ask(more).value.blocked {
          InitVisitsEveryDevice(ask, rs, i + 1, more);
          AddDevice(rs, Visit(i, trace, true), InitFrom(ask, rs, i + 1, more), trace, more);
        }
      }
    }
  }

  lemma AddDevice(rs: Records, d: Visit, p: InitPass, trace: seq<Call>, more: seq<Call>)
    requires more == trace + DeviceCalls(rs, d) && more <= p.trace
    ensures trace <= p.trace
    ensures RecordsOf([d] + p.devices) == [d.record] + RecordsOf(p.devices)
    ensures p.trace == more + AllCalls(rs, p.devices) ==> p.trace == trace + AllCalls(rs, [d] + p.devices)
  {
    assert ([d] + p.devices)[1..] == p.devices;
    assert trace + (DeviceCalls(rs, d) + AllCalls(rs, p.devices)) == more + AllCalls(rs, p.devices);
  }

  function CountRan(devices: seq<Visit>, ran: bool): nat {
    if devices == [] then 0 else (if devices[0].ran == ran then 1 else 0) + CountRan(devices[1..], ran)
  }

  /** Every _INI is counted once: as invoked or as skipped. */
  lemma {:induction false} EveryInitializerCounted(devices: seq<Visit>)
    ensures CountRan(devices, true) + CountRan(devices, false) == |devices| == |RecordsOf(devices)|
  {
    if devices != [] { EveryInitializerCounted(devices[1..]); }
  }

  // ---- _Qxx, _Lxx and _Exx ----

  function HexNibble(b: byte): Option<nat> {
    if 0x30 <= b <= 0x39 then Some(b - 0x30) else if 0x41 <= b <= 0x46 then Some(b - 0x41 + 10) else None
  }

  /** The code a method's last segment carries after the two prefix letters. */
  function SuffixCode(path: Path, prefix: seq<byte>): Option<nat>
    requires |prefix| == 2
  {
    if path == [] then None
    else
      var s := path[|path| - 1];
      if s[0] != prefix[0] || s[1] != prefix[1] || HexNibble(s[2]).None? || HexNibble(s[3]).None? then None
      else Some(HexNibble(s[2]).value * 16 + HexNibble(s[3]).value)
  }

  predicate Handles(r: Record, kind: MethodKind, prefix: seq<byte>, code: byte)
    requires |prefix| == 2
  {
    IsKind(r, kind) && SuffixCode(r.path, prefix) == Some(code)
  }

  function DispatchPlan(rs: Records, kind: MethodKind, prefix: seq<byte>, code: byte, i: nat): seq<Planned>
    requires |prefix| == 2 && i <= |rs|
    decreases |rs| - i
  {
    if i == |rs| then []
    else (if Handles(rs[i], kind, prefix, code) then [Evaluate(Call(rs[i].payload.info.node, []))] else [])
         + DispatchPlan(rs, kind, prefix, code, i + 1)
  }

  function HexUpper(nibble: nat): byte
    requires nibble < 16
  {
    if nibble <= 9 then 0x30 + nibble else 0x41 + (nibble - 10)
  }

  /** The segment the lowering layer looks for. */
  function HandlerSegment(prefix: seq<byte>, code: byte): seq<byte> {
    prefix + [HexUpper(code / 16), HexUpper(code % 16)]
  }

  datatype Event = Query | Level | Edge
  {
    function Prefix(): (p: seq<byte>)
      ensures |p| == 2
    {
      match this
      case Query => [0x5F, 0x51]
      case Level => [0x5F, 0x4C]
      case Edge => [0x5F, 0x45]
    }

    function Kind(): MethodKind { if Query? then NotificationQuery else EventHandler }
  }

  /** The bytes are the letters of a text. */
  predicate Letters(bytes: seq<byte>, text: string) {
    |bytes| == |text| && forall i :: 0 <= i < |bytes| ==> bytes[i] == text[i] as int
  }

  predicate Named(path: Path, text: string) { path != [] && Letters(path[|path| - 1], text) }

  /** In a loaded namespace the methods that initialise a device, report its status or learn of a region are those
      named _INI, _STA and _REG, wherever they are declared. */
  lemma KindsByName(blocks: seq<seq<byte>>, rs: Records, i: nat)
    requires Methods(blocks, rs) && i < |rs| && IsMethod(rs[i])
    ensures IsKind(rs[i], Initialize) <==> Named(rs[i].path, "_INI")
    ensures IsKind(rs[i], Status) <==> Named(rs[i].path, "_STA")
    ensures IsKind(rs[i], RegionAvailability) <==> Named(rs[i].path, "_REG")
  {
    assert MethodOk(blocks, rs[i]);
    if rs[i].path != [] { SegmentKinds(rs[i].path[|rs[i].path| - 1]); }
  }

  lemma SegmentKinds(s: NameSeg)
    ensures ClassifySegment(s) == Initialize <==> Letters(s, "_INI")
    ensures ClassifySegment(s) == Status <==> Letters(s, "_STA")
    ensures ClassifySegment(s) == RegionAvailability <==> Letters(s, "_REG")
  {
  }

  lemma NibbleRoundTrip(b: byte, n: nat)
    requires n < 16
    ensures HexNibble(b) == Some(n) <==> b == HexUpper(n)
  {
  }

  /** In a loaded namespace the methods a dispatch finds are exactly those whose last segment is the one
      the lowering layer spells: the loader's classification, the code decoding and the suffix agree. */
  lemma HandlesIffNamed(blocks: seq<seq<byte>>, rs: Records, i: nat, event: Event, code: byte)
    requires Methods(blocks, rs) && i < |rs|
    ensures Handles(rs[i], event.Kind(), event.Prefix(), code) <==>
              IsMethod(rs[i]) && rs[i].path != [] && rs[i].path[|rs[i].path| - 1] == HandlerSegment(event.Prefix(), code)
  {
    assert MethodOk(blocks, rs[i]);
    if IsMethod(rs[i]) && rs[i].path != [] {
      SegmentMatches(rs[i].path[|rs[i].path| - 1], rs[i].path, event, code);
    }
  }

  lemma SegmentMatches(s: NameSeg, path: Path, event: Event, code: byte)
    requires path != [] && s == path[|path| - 1]
    ensures (ClassifySegment(s) == event.Kind() && SuffixCode(path, event.Prefix()) == Some(code))
            <==> s == HandlerSegment(event.Prefix(), code)
  {
    NibbleRoundTrip(s[2], code / 16);
    NibbleRoundTrip(s[3], code % 16);
    if SuffixCode(path, event.Prefix()) == Some(code) {
      assert HexNibble(s[2]).value == code / 16 && HexNibble(s[3]).value == code % 16;
    }
  }

  /** The methods whose last segment is the given one, in record order. */
  function CallsNamed(rs: Records, segment: seq<byte>, i: nat): seq<Call>
    requires i <= |rs|
    decreases |rs| - i
  {
    if i == |rs| then []
    else (if IsMethod(rs[i]) && rs[i].path != [] && rs[i].path[|rs[i].path| - 1] == segment
          then [Call(rs[i].payload.info.node, [])] else [])
         + CallsNamed(rs, segment, i + 1)
  }

  lemma {:induction false} DispatchCallsNamed(blocks: seq<seq<byte>>, rs: Records, event: Event, code: byte, i: nat)
    requires Methods(blocks, rs) && i <= |rs|
    ensures CallsOf(DispatchPlan(rs, event.Kind(), event.Prefix(), code, i))
            == CallsNamed(rs, HandlerSegment(event.Prefix(), code), i)
    decreases |rs| - i
  {
    if i < |rs| {
      hide Methods, Handles, CallsOf, HandlerSegment;
      HandlesIffNamed(blocks, rs, i, event, code);
      DispatchCallsNamed(blocks, rs, event, code, i + 1);
      var later := DispatchPlan(rs, event.Kind(), event.Prefix(), code, i + 1);
      FirstCall([], later);
      if IsMethod(rs[i]) { FirstCall([Evaluate(Call(rs[i].payload.info.node, []))], later); }
    }
  }

  lemma {:induction false} FirstCall(first: seq<Planned>, later: seq<Planned>)
    requires |first| <= 1 && forall k :: 0 <= k < |first| ==> first[k].Evaluate?
    ensures CallsOf(first + later) == (if first == [] then [] else [first[0].call]) + CallsOf(later)
  {
    if first == [] { assert first + later == later; } else { assert (first + later)[1..] == later; }
  }

  /** And nothing is planned exactly when there is no such method. */
  lemma {:induction false} PlanEmptyIffMissing(rs: Records, kind: MethodKind, prefix: seq<byte>, code: byte, i: nat)
    requires |prefix| == 2 && i <= |rs|
    ensures DispatchPlan(rs, kind, prefix, code, i) == [] <==>
              forall k :: i <= k < |rs| ==> !Handles(rs[k], kind, prefix, code)
    decreases |rs| - i
  {
    if i < |rs| { PlanEmptyIffMissing(rs, kind, prefix, code, i + 1); }
  }

  // ---- The passes as loops ----

  datatype Lifecycle = Lifecycle(invoked: nat, skipped: nat, blocked: nat)

  datatype Dispatch = Dispatch(invoked: nat, blocked: nat, missing: nat)

  /** The _REG methods from record `i` on that have no region beside them. */
  function Unneeded(rs: Records, i: nat): nat
    requires i <= |rs|
    decreases |rs| - i
  {
    if i == |rs| then 0
    else (if IsKind(rs[i], RegionAvailability) && NewSpaces(rs, rs[i].parent, 0, []) == [] then 1 else 0)
         + Unneeded(rs, i + 1)
  }

  class AmlVm {
    const eager: bool
    const ask: Oracle
    var state: VmState
    var trace: seq<Call>

    constructor (eager: bool, ask: Oracle)
      ensures state == Empty && trace == [] && this.eager == eager && this.ask == ask
    {
      this.eager, this.ask, state, trace := eager, ask, Empty, [];
    }

    method EvaluateMethod(call: Call) returns (r: Result<Verdict>)
      modifies this`trace
      ensures trace == old(trace) + [call] && r == ask(trace)
    {
      trace := trace + [call];
      return ask(trace);
    }

    /** Registration makes its planned calls in order; the state says whether it was cut short. */
    method RegisterRegions(rs: Records) returns (r: Result<Lifecycle>)
      modifies this
      ensures !eager ==> r == Ok(Lifecycle(0, 0, 0)) && trace == old(trace) && state == Loaded
      ensures eager ==>
                var p := Follow(ask, old(trace), RegistrationPlan(rs, 0));
                && trace == p.trace && Ended(p.end, r)
                && (r.Ok? ==> r.value.invoked == Saturate(Since(old(trace), trace))
                              && r.value.blocked == (if p.end.Stopped? then 1 else 0))
                && (p.end.Finished? ==> r.value.skipped == Saturate(Unneeded(rs, 0)))
    {
      state := Loaded;
      if !eager { return Ok(Lifecycle(0, 0, 0)); }
      var invoked, skipped: nat, i := 0, 0, 0;
      while i < |rs|
        invariant 0 <= i <= |rs| && old(trace) <= trace && state == Loaded
        invariant invoked == Saturate(Since(old(trace), trace))
        invariant Follow(ask, old(trace), RegistrationPlan(rs, 0)) == Follow(ask, trace, RegistrationPlan(rs, i))
        invariant skipped <= U16_MAX && Saturate(Unneeded(rs, 0)) == Saturate(skipped + Unneeded(rs, i))
      {
        if IsKind(rs[i], RegionAvailability) {
          var end, calls := RegisterOne(rs, i);
          invoked := Saturate(invoked + calls);
          match end {
            case Failed(e) => return Err(e);
            case Stopped =>
              state := Blocked;
              return Ok(Lifecycle(invoked, skipped, 1));
            case Finished =>
          }
          if calls == 0 { skipped := SaturatingInc(skipped); }
        }
        i := i + 1;
      }
      state := Ready;
      return Ok(Lifecycle(invoked, skipped, 0));
    }

    ghost predicate Ended(end: End, r: Result<Lifecycle>)
      reads this
    {
      match end
      case Finished => r.Ok? && state == Ready
      case Stopped => r.Ok? && state == Blocked
      case Failed(e) => r == Err(e)
    }

    /** The inner loop: one _REG against every sibling region with a new address space. */
    method RegisterOne(rs: Records, i: nat) returns (end: End, calls: nat)
      requires i < |rs| && IsKind(rs[i], RegionAvailability)
      modifies this`trace
      ensures old(trace) <= trace && calls == |trace| - |old(trace)|
      ensures end.Finished? ==> calls == |NewSpaces(rs, rs[i].parent, 0, [])|
      ensures var whole := Follow(ask, old(trace), RegistrationPlan(rs, i));
              match end
              case Finished => whole == Follow(ask, trace, RegistrationPlan(rs, i + 1))
              case _ => whole == Pass(trace, end)
    {
      var node, parent := rs[i].payload.info.node, rs[i].parent;
      ghost var later := RegistrationPlan(rs, i + 1);
      var seen: seq<Space>, j := [], 0;
      while j < |rs|
        invariant 0 <= j <= |rs| && |seen| <= MAX_SPACES && old(trace) <= trace && |seen| == |trace| - |old(trace)|
        invariant |seen| + |NewSpaces(rs, parent, j, seen)| == |NewSpaces(rs, parent, 0, [])|
        invariant Follow(ask, old(trace), RegistrationPlan(rs, i))
                  == Follow(ask, trace, Registrations(node, |seen|, NewSpaces(rs, parent, j, seen)) + later)
      {
        if SiblingRegion(rs, parent, j) && rs[j].payload.region.space !in seen {
          var space := rs[j].payload.region.space;
          ghost var spaces := NewSpaces(rs, parent, j, seen);
          if |seen| >= MAX_SPACES { return Failed(Overflow), |seen|; }
          NextRegistration(node, |seen|, spaces, later);
          seen := seen + [space];
          var answer := EvaluateMethod(Call(node, [SpaceArgument(space), 1]));
          if answer.Err? { return Failed(answer.error), |seen|; }
          if answer.value.blocked { return Stopped, |seen|; }
        }
        j := j + 1;
      }
      assert [] + later == later;
      return Finished, |seen|;
    }

    method InitializeDevices(rs: Records) returns (r: Result<Lifecycle>)
      modifies this
      ensures var p := InitFrom(ask, rs, 0, old(trace));
              && trace == p.trace && Ended(p.end, r)
              && (r.Ok? ==> r.value.invoked == Saturate(CountRan(p.devices, true))
                            && r.value.skipped == Saturate(CountRan(p.devices, false))
                            && r.value.blocked == (if p.end.Stopped? then 1 else 0))
    {
      assert CountRan([], true) == 0 && CountRan([], false) == 0;
      hide Decide, CountRan, InitFrom;
      if state == Empty { state := Loaded; }
      var invoked, skipped, i := 0, 0, 0;
      ghost var whole := InitFrom(ask, rs, 0, trace);
      ghost var done: seq<Visit> := [];
      assert [] + whole.devices == whole.devices;
      while i < |rs|
        invariant 0 <= i <= |rs|
        invariant var rest := InitFrom(ask, rs, i, trace);
                  whole == InitPass(rest.trace, done + rest.devices, rest.end)
        invariant invoked == Saturate(CountRan(done, true)) && skipped == Saturate(CountRan(done, false))
      {
        if IsKind(rs[i], Initialize) {
          ghost var before := trace;
          var turn :- VisitDevice(rs, i);
          ghost var visit := Visit(i, before, turn.ran);
          if !turn.ran && turn.stop {
            state := Blocked;
            assert done + [] == done;
            return Ok(Lifecycle(invoked, skipped, 1));
          }
          CountOneMore(done, visit);
          if turn.ran { invoked := SaturatingInc(invoked); } else { skipped := SaturatingInc(skipped); }
          if turn.stop {
            state := Blocked;
            assert [visit] + [] == [visit];
            return Ok(Lifecycle(invoked, skipped, 1));
          }
          ghost var rest := InitFrom(ask, rs, i + 1, trace);
          assert done + ([visit] + rest.devices) == done + [visit] + rest.devices;
          done := done + [visit];
        } else {
          NotADevice(ask, rs, i, trace);
        }
        i := i + 1;
      }
      assert done + [] == done;
      InitEnds(ask, rs, trace);
      state := Ready;
      return Ok(Lifecycle(invoked, skipped, 0));
    }

    /** One device: its initialiser runs unless its status says otherwise, and the pass goes on unless a call blocked. */
    method VisitDevice(rs: Records, i: nat) returns (r: Result<Turn>)
      requires i < |rs| && IsKind(rs[i], Initialize)
      modifies this`trace
      ensures var rest := if r.Ok? && !r.value.stop then InitFrom(ask, rs, i + 1, trace)
                          else InitPass(trace, [], if r.Ok? then Stopped else Failed(r.error));
              InitFrom(ask, rs, i, old(trace))
              == if r.Ok? && (r.value.ran || !r.value.stop) then WithDevice(Visit(i, old(trace), r.value.ran), rest)
                 else rest
    {
      hide Decide;
      var decision :- ShouldRunInitializer(rs, rs[i].parent);
      match decision {
        case Stop => return Ok(Turn(false, true));
        case Skip => return Ok(Turn(false, false));
        case Run =>
          var v :- EvaluateMethod(Call(rs[i].payload.info.node, []));
          return Ok(Turn(true, v.blocked));
      }
    }

    method ShouldRunInitializer(rs: Records, parent: Option<nat>) returns (r: Result<Decision>)
      modifies this`trace
      ensures Choice(trace, r) == Decide(ask, rs, parent, old(trace))
    {
      if parent.None? { return Ok(Run); }
      var j := 0;
      while j < |rs|
        invariant 0 <= j <= |rs| && trace == old(trace)
        invariant FirstStatus(rs, parent, 0) == FirstStatus(rs, parent, j)
      {
        if rs[j].parent == parent && IsKind(rs[j], Status) {
          var v :- EvaluateMethod(Call(rs[j].payload.info.node, []));
          if v.blocked { return Ok(Stop); }
          if v.returned.None? { return Err(InvalidState); }
          var status :- AsInteger(v.returned.value);
          return Ok(if Present(status) then Run else Skip);
        }
        j := j + 1;
      }
      return Ok(Run);
    }

    /** A query or an event: every handler with its code, in record order. */
    method DispatchHandler(rs: Records, event: Event, code: byte) returns (r: Result<Dispatch>)
      modifies this
      ensures var plan := DispatchPlan(rs, event.Kind(), event.Prefix(), code, 0);
              var p := Follow(ask, old(trace), plan);
              && trace == p.trace
              && match p.end
                 case Failed(e) => r == Err(e)
                 case Stopped => state == Blocked && r == Ok(Dispatch(Saturate(Since(old(trace), trace)), 1, 0))
                 case Finished =>
                   && state == Ready
                   && r == Ok(Dispatch(Saturate(Since(old(trace), trace)), 0, if plan == [] then 1 else 0))
    {
      hide SuffixCode;
      var invoked, i := 0, 0;
      ghost var plan := DispatchPlan(rs, event.Kind(), event.Prefix(), code, 0);
      while i < |rs|
        invariant 0 <= i <= |rs| && old(trace) <= trace && invoked == Saturate(Since(old(trace), trace))
        invariant Follow(ask, old(trace), plan)
                  == Follow(ask, trace, DispatchPlan(rs, event.Kind(), event.Prefix(), code, i))
        invariant trace == old(trace) ==> plan == DispatchPlan(rs, event.Kind(), event.Prefix(), code, i)
        invariant trace != old(trace) ==> plan != []
      {
        ghost var left := DispatchPlan(rs, event.Kind(), event.Prefix(), code, i);
        ghost var later := DispatchPlan(rs, event.Kind(), event.Prefix(), code, i + 1);
        assert [] + later == later;
        if Handles(rs[i], event.Kind(), event.Prefix(), code) {
          assert left[1..] == later;
          var v :- EvaluateMethod(Call(rs[i].payload.info.node, []));
          invoked := SaturatingInc(invoked);
          if v.blocked {
            state := Blocked;
            return Ok(Dispatch(invoked, 1, 0));
          }
        }
        i := i + 1;
      }
      state := Ready;
      return Ok(Dispatch(invoked, 0, if invoked == 0 then 1 else 0));
    }
  }

  lemma NextRegistration(node: nat, n: nat, spaces: seq<Space>, later: seq<Planned>)
    requires spaces != [] && n < MAX_SPACES
    ensures var plan := Registrations(node, n, spaces) + later;
            && plan != [] && plan[0] == Evaluate(Call(node, [SpaceArgument(spaces[0]), 1]))
            && plan[1..] == Registrations(node, n + 1, spaces[1..]) + later
  {
  }

  lemma {:induction false} CountOneMore(devices: seq<Visit>, d: Visit)
    ensures CountRan(devices + [d], true) == CountRan(devices, true) + (if d.ran then 1 else 0)
    ensures CountRan(devices + [d], false) == CountRan(devices, false) + (if d.ran then 0 else 1)
  {
    if devices != [] {
      CountOneMore(devices[1..], d);
      assert (devices + [d])[1..] == devices[1..] + [d];
    }
  }
}
