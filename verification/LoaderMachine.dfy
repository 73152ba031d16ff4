/** The loader as it runs: one table of records that grows in place, scanned and extended by loops. */
module LoaderMachine {
  import opened Wrappers
  import opened Bits
  import opened Names
  import opened Fields
  import opened Namespace
  import opened LoaderTerms
  import opened Loader

  class NamespaceLoader {
    const plan: Plan
    var records: Records
    var nextId: nat

    /** The table so far is sound and the id counter is its length. */
    ghost predicate Valid()
      reads this
    {
      plan.Valid() && nextId == |records| && (records == [] || Sound(plan, records))
    }

    constructor (plan: Plan)
      requires plan.Valid()
      ensures this.plan == plan && records == [] && Valid()
    {
      this.plan := plan;
      records := [];
      nextId := 0;
    }

    method NextNodeId() returns (r: Result<nat>)
      modifies this`nextId
      ensures r == if old(nextId) >= U32_MAX then Err(Fault) else Ok(old(nextId))
      ensures nextId == if r.Ok? then old(nextId) + 1 else old(nextId)
    {
      if nextId >= U32_MAX { return Err(Fault); }
      r := Ok(nextId);
      nextId := nextId + 1;
    }

    method PushRecord(record: Record) returns (r: Result<nat>)
      modifies this
      ensures r.Ok? <==> |old(records)| < plan.capacity
      ensures r.Ok? ==> r.value == record.id && records == old(records) + [record]
      ensures r.Ok? ==> nextId == if record.id + 1 > old(nextId) then record.id + 1 else old(nextId)
      ensures r.Err? ==> r.error == Overflow && records == old(records) && nextId == old(nextId)
    {
      if |records| >= plan.capacity { return Err(Overflow); }
      records := records + [record];
      nextId := if record.id + 1 > nextId then record.id + 1 else nextId;
      return Ok(record.id);
    }

    /** The scan for the first record with a path. */
    method FindRecord(path: Path) returns (r: Option<nat>)
      ensures r == Find(records, path)
    {
      var index := 0;
      while index < |records|
        invariant 0 <= index <= |records|
        invariant forall j :: 0 <= j < index ==> records[j].path != path
      {
        if records[index].path == path { return Some(index); }
        index := index + 1;
      }
      return None;
    }

    method InsertRecord(parent: nat, kind: ObjectKind, path: Path, body: Option<Location>, payload: Payload)
      returns (r: Result<nat>)
      requires Valid() && records != [] && Fits(records, parent, kind, path)
      requires kind != Method && !payload.MethodPayload?
      modifies this
      ensures match Insert(plan, old(records), parent, kind, path, body, payload)
              case Ok(rs) => r == Ok(|old(records)|) && records == rs && Valid()
              case Err(e) => r == Err(e) && records == old(records)
    {
      var id :- NextNodeId();
      InsertKeepsSound(plan, records, parent, kind, path, body, payload);
      r := PushRecord(Record(id, Some(parent), kind, path, body, payload));
    }

    /** Makes every scope of a path exist, outermost first, and returns the innermost one's id. */
    method EnsureScopeLikePath(path: Path) returns (r: Result<nat>)
      requires Valid() && records != []
      modifies this
      ensures match EnsureScope(plan, old(records), path)
              case Ok(rs) => r == Ok(IdOf(rs, path)) && records == rs && Valid()
              case Err(e) => r == Err(e)
    {
      hide Sound, Find, EnsureScope;
      ghost var was := records;
      var current := 0;
      RootFound(plan, records);
      var depth := 1;
      while depth <= |path|
        invariant 1 <= depth <= |path| + 1 && Valid() && records != []
        invariant EnsureScope(plan, was, path[..depth - 1]) == Ok(records)
        invariant Find(records, path[..depth - 1]) == Some(current)
      {
        assert Parent(path[..depth]) == path[..depth - 1];
        EnsureScopeFailsEarly(plan, was, path, depth);
        current :- EnsureOneScope(path[..depth], current, was);
        depth := depth + 1;
      }
      assert path[..|path|] == path;
      return Ok(current);
    }

    /** One turn of that loop: the scope is there already, or is inserted below its parent. */
    method EnsureOneScope(prefix: Path, parent: nat, ghost was: Records) returns (r: Result<nat>)
      requires Valid() && records != [] && prefix != [] && Sound(plan, was)
      requires EnsureScope(plan, was, Parent(prefix)) == Ok(records) && Find(records, Parent(prefix)) == Some(parent)
      modifies this
      ensures match EnsureScope(plan, was, prefix)
              case Ok(rs) => r == Ok(IdOf(rs, prefix)) && records == rs && Valid() && records != []
              case Err(e) => r == Err(e)
    {
      var existing := FindRecord(prefix);
      if existing.Some? {
        if !ScopeCapable(records[existing.value].kind) { return Err(NamespaceConflict); }
        return Ok(existing.value);
      }
      r := InsertRecord(parent, Scope, prefix, None, NoPayload);
    }

    /** Walks the entries of a field list with a running bit offset. */
    method ParseFieldEntries(list: seq<byte>, start: nat, h: FieldHome) returns (r: Result<Unit>)
      requires Valid() && records != [] && ScopeRef(records, h.scopeId, h.scope)
      modifies this
      ensures match FieldEntries(plan, old(records), list, start, h, 0)
              case Ok(rs) => r == Ok(Unit) && records == rs && Valid()
              case Err(e) => r == Err(e)
    {
      ghost var whole := FieldEntries(plan, records, list, start, h, 0);
      var bitOffset: u32 := 0;
      var cursor := start;
      while cursor < |list|
        invariant Valid() && records != [] && ScopeRef(records, h.scopeId, h.scope)
        invariant FieldEntries(plan, records, list, cursor, h, bitOffset) == whole
        decreases |list| - cursor
      {
        var next :- ParseFieldEntry(list, cursor, h, bitOffset);
        cursor, bitOffset := next.cursor, next.bitOffset;
      }
      return Ok(Unit);
    }

    /** One entry: the cursor and the bit offset after it. */
    method ParseFieldEntry(list: seq<byte>, cursor: nat, h: FieldHome, bitOffset: u32) returns (r: Result<FieldCursor>)
      requires Valid() && records != [] && ScopeRef(records, h.scopeId, h.scope) && cursor < |list|
      modifies this
      ensures r.Ok? ==> Valid() && records != [] && ScopeRef(records, h.scopeId, h.scope) && cursor < r.value.cursor
      ensures r.Ok? ==> FieldEntries(plan, records, list, r.value.cursor, h, r.value.bitOffset)
                        == FieldEntries(plan, old(records), list, cursor, h, bitOffset)
      ensures r.Err? ==> FieldEntries(plan, old(records), list, cursor, h, bitOffset) == Err(r.error)
    {
      hide ParseName, ParsePkg, OneField;
      match list[cursor] {
        case 0x00 =>
          var skip :- ScanPkg(list[cursor + 1..]);
          return Ok(FieldCursor(cursor + 1 + skip.encoded, SaturatingAdd(bitOffset, skip.value)));
        case 0x01 => return Ok(FieldCursor(cursor + 3, bitOffset));
        case 0x02 =>
          var name :- ScanName(list[cursor + 1..]);
          return Ok(FieldCursor(cursor + 1 + name.consumed, bitOffset));
        case 0x03 => return Ok(FieldCursor(cursor + 4, bitOffset));
        case _ =>
          var width :- FieldWidth(list, cursor);
          var _ :- InsertField(list, cursor, h, bitOffset, width.value);
          return Ok(FieldCursor(cursor + 4 + width.encoded, SaturatingAdd(bitOffset, width.value)));
      }
    }

    method InsertField(list: seq<byte>, cursor: nat, h: FieldHome, bitOffset: u32, width: u32) returns (r: Result<Unit>)
      requires Valid() && records != [] && ScopeRef(records, h.scopeId, h.scope)
      requires cursor + 4 <= |list| && AllNameChars(list[cursor..cursor + 4])
      modifies this
      ensures match OneField(plan, old(records), list, cursor, h, bitOffset, width)
              case Ok(rs) => r == Ok(Unit) && records == rs && Valid()
              case Err(e) => r == Err(e)
    {
      if |h.scope| >= MAX_SEGMENTS { return Err(Overflow); }
      var path: Path := h.scope + [list[cursor..cursor + 4]];
      assert Parent(path) == h.scope;
      var info := FieldInfo(|records|, h.region, bitOffset, width, FieldAccess(h.flags), FieldUpdate(h.flags));
      var _ :- InsertRecord(h.scopeId, Field, path, None, FieldPayload(info));
      return Ok(Unit);
    }

    /** The whole load on a fresh table: the root record, then every block in turn. */
    method Load() returns (r: Result<Unit>)
      requires Valid() && records == []
      modifies this
      ensures match LoadAll(plan)
              case Ok(rs) => r == Ok(Unit) && records == rs && Valid()
              case Err(e) => r == Err(e)
    {
      hide Sound, Methods, Tree;
      RootAlone(plan);
      var _ :- PushRecord(ROOT_RECORD);
      assert records == [ROOT_RECORD];
      var b := 0;
      while b < |plan.blocks|
        invariant 0 <= b <= |plan.blocks| && Valid() && records != [] && Settled(plan, records, b)
        invariant LoadBlocks(plan, records, b) == LoadBlocks(plan, [ROOT_RECORD], 0)
      {
        if b > U16_MAX { return Err(Overflow); }
        BlockReady(plan, records, b);
        var _ :- WalkTermList(Place(b, 0, [], 0), plan.blocks[b]);
        b := b + 1;
      }
      return Ok(Unit);
    }

    /** Reads term objects until the bytes run out. */
    method WalkTermList(p: Place, bytes: seq<byte>) returns (r: Result<Unit>)
      requires Valid() && records != [] && Ready(plan, records, p, bytes)
      modifies this
      ensures match Walk(plan, old(records), p, bytes)
              case Ok(rs) => r == Ok(Unit) && records == rs && Valid()
              case Err(e) => r == Err(e)
      decreases |bytes|, 3
    {
      hide TermObject, Walk, Ready;
      ghost var whole := Walk(plan, records, p, bytes);
      var rest, here := bytes, p;
      while |rest| > 0
        invariant |rest| <= |bytes| && Valid() && records != [] && Ready(plan, records, here, rest)
        invariant Walk(plan, records, here, rest) == whole
        decreases |rest|
      {
        WalkFails(plan, records, here, rest);
        ghost var was := records;
        var consumed :- ParseTermObject(here, rest);
        if consumed == 0 { return Err(InvalidBytecode); }
        WalkStep(plan, was, here, rest, Loaded(records, consumed));
        if consumed >= |rest| { return Ok(Unit); }
        here, rest := here.(at := here.at + consumed), rest[consumed..];
      }
      WalkNothing(plan, records, here);
      return Ok(Unit);
    }

    /** The table is what a term object makes of it, or the object failed. */
    ghost predicate Did(expected: Result<Loaded>, r: Result<nat>)
      reads this
    {
      match expected
      case Ok(l) => r == Ok(l.consumed) && records == l.records && Valid() && records != []
      case Err(e) => r == Err(e)
    }

    method ParseTermObject(p: Place, bytes: seq<byte>) returns (r: Result<nat>)
      requires Valid() && records != [] && Ready(plan, records, p, bytes) && bytes != []
      modifies this
      ensures Did(TermObject(plan, old(records), p, bytes), r)
      decreases |bytes|, 2
    {
      hide Ready, AliasOp, NameOp, ScopeOp, MethodOp, ExternalOp, IfOp, CreateFieldOp, ExtOp;
      match bytes[0] {
        case 0x06 => r := ParseAliasOp(p, bytes);
        case 0x08 => r := ParseNameOp(p, bytes);
        case 0x10 => r := ParseScopeOp(p, bytes);
        case 0x14 => r := ParseMethodOp(p, bytes);
        case 0x15 => r := ParseExternalOp(p, bytes);
        case 0xA0 => r := ParseIfOp(p, bytes);
        case 0x8A => r := ParseCreateFieldLikeOp(p, bytes, 2);
        case 0x8B => r := ParseCreateFieldLikeOp(p, bytes, 2);
        case 0x8C => r := ParseCreateFieldLikeOp(p, bytes, 2);
        case 0x8D => r := ParseCreateFieldLikeOp(p, bytes, 2);
        case 0x8F => r := ParseCreateFieldLikeOp(p, bytes, 2);
        case 0x5B => r := ParseExtOp(p, bytes);
        case _ => return Err(Unsupported);
      }
    }

    method ParseExtOp(p: Place, bytes: seq<byte>) returns (r: Result<nat>)
      requires Valid() && records != [] && Ready(plan, records, p, bytes) && bytes != [] && bytes[0] == 0x5B
      modifies this
      ensures Did(ExtOp(plan, old(records), p, bytes), r)
      decreases |bytes|, 1
    {
      hide Ready, MutexOp, EventOp, CreateFieldOp, OpRegionOp, FieldOp, IndexFieldOp, ScopedObjectOp;
      if |bytes| < 2 { return Err(Truncated); }
      match bytes[1] {
        case 0x01 => r := ParseMutexOp(p, bytes);
        case 0x02 => r := ParseEventOp(p, bytes);
        case 0x13 => r := ParseCreateFieldLikeOp(p, bytes, 3);
        case 0x80 => r := ParseOpRegionOp(p, bytes);
        case 0x81 => r := ParseFieldOp(p, bytes);
        case 0x86 => r := ParseIndexFieldOp(p, bytes);
        case 0x82 => r := ParsePkgScopedNamedObject(p, bytes, Device, 0);
        case 0x83 => r := ParsePkgScopedNamedObject(p, bytes, Processor, 6);
        case 0x84 => r := ParsePkgScopedNamedObject(p, bytes, PowerResource, 3);
        case 0x85 => r := ParsePkgScopedNamedObject(p, bytes, ThermalZone, 0);
        case _ => return Err(Unsupported);
      }
    }

    /** Inserts a record of a checked kind below the scopes that were just ensured. */
    method InsertUniqueRecord(parent: nat, kind: ObjectKind, path: Path, body: Option<Location>, payload: Payload,
                              ghost was: Records) returns (r: Result<nat>)
      requires Valid() && records != [] && Sound(plan, was) && CheckedKind(kind) && !payload.MethodPayload?
      requires EnsureScope(plan, was, Home(path)) == Ok(records) && parent == IdOf(records, Home(path))
      modifies this
      ensures match Declare(plan, was, path, kind, body, payload)
              case Ok(rs) => r == Ok(|rs| - 1) && records == rs && Valid() && records != []
              case Err(e) => r == Err(e)
    {
      hide EnsureScope, Sound, Find;
      var existing := FindRecord(path);
      if existing.Some? { return Err(NamespaceConflict); }
      r := InsertRecord(parent, kind, path, body, payload);
    }

    method ParseAliasOp(p: Place, bytes: seq<byte>) returns (r: Result<nat>)
      requires Valid() && records != [] && Ready(plan, records, p, bytes) && bytes != []
      modifies this
      ensures Did(AliasOp(plan, old(records), p, bytes), r)
    {
      hide ParseName, EnsureScope, Sound, Find, Resolved, Adds;
      ghost var was := records;
      var source :- ScanName(bytes[1..]);
      var target :- ScanName(bytes[1 + source.consumed..]);
      var path :- Resolved(p.scope, target);
      var parent :- EnsureScopeLikePath(Home(path));
      var _ :- InsertUniqueRecord(parent, Alias, path, None, NoPayload, was);
      return Ok(1 + source.consumed + target.consumed);
    }

    method ParseNameOp(p: Place, bytes: seq<byte>) returns (r: Result<nat>)
      requires Valid() && records != [] && Ready(plan, records, p, bytes) && bytes != []
      modifies this
      ensures Did(NameOp(plan, old(records), p, bytes), r)
    {
      hide ParseName, EnsureScope, Sound, Find, Resolved, Adds, TermArg;
      ghost var was := records;
      var name :- ScanName(bytes[1..]);
      var path :- Resolved(p.scope, name);
      var parent :- EnsureScopeLikePath(Home(path));
      var start := 1 + name.consumed;
      var init :- TermArg(bytes[start..]);
      var payload := match init.value case Some(v) => IntegerPayload(v) case None => NoPayload;
      var _ :- InsertUniqueRecord(parent, Name, path, Some(Location(p.block, p.at + start, init.consumed)), payload, was);
      return Ok(start + init.consumed);
    }

    method ParseExternalOp(p: Place, bytes: seq<byte>) returns (r: Result<nat>)
      requires Valid() && records != [] && Ready(plan, records, p, bytes) && bytes != []
      modifies this
      ensures Did(ExternalOp(plan, old(records), p, bytes), r)
    {
      hide ParseName, EnsureScope, Sound, Find, Resolved, Adds;
      ghost var was := records;
      var name :- ScanName(bytes[1..]);
      var path :- Resolved(p.scope, name);
      var parent :- EnsureScopeLikePath(Home(path));
      var known := FindRecord(path);
      if known.None? {
        var _ :- InsertUniqueRecord(parent, External, path, None, NoPayload, was);
      }
      if |bytes| < 1 + name.consumed + 2 { return Err(Truncated); }
      return Ok(1 + name.consumed + 2);
    }

    method ParseCreateFieldLikeOp(p: Place, bytes: seq<byte>, count: nat) returns (r: Result<nat>)
      requires Valid() && records != [] && Ready(plan, records, p, bytes) && bytes != []
      modifies this
      ensures Did(CreateFieldOp(plan, old(records), p, bytes, if bytes[0] == 0x5B then 2 else 1, count), r)
    {
      hide ParseName, EnsureScope, Sound, Find, Resolved, Adds, TermArg;
      ghost var was := records;
      var cursor: nat := if bytes[0] == 0x5B then 2 else 1;
      ghost var start: nat := cursor;
      var remaining := count;
      while remaining != 0
        invariant 0 <= remaining && SkipArgs(bytes, cursor, remaining) == SkipArgs(bytes, start, count)
      {
        if cursor > |bytes| { return Err(Fault); }
        var arg :- TermArg(bytes[cursor..]);
        cursor, remaining := cursor + arg.consumed, remaining - 1;
      }
      if cursor > |bytes| { return Err(Fault); }
      var name :- ScanName(bytes[cursor..]);
      var path :- Resolved(p.scope, name);
      var parent :- EnsureScopeLikePath(Home(path));
      var _ :- InsertUniqueRecord(parent, BufferField, path, None, NoPayload, was);
      return Ok(cursor + name.consumed);
    }

    method ParseMutexOp(p: Place, bytes: seq<byte>) returns (r: Result<nat>)
      requires Valid() && records != [] && Ready(plan, records, p, bytes) && |bytes| >= 2
      modifies this
      ensures Did(MutexOp(plan, old(records), p, bytes), r)
    {
      hide ParseName, EnsureScope, Sound, Find, Resolved, Adds;
      ghost var was := records;
      var name :- ScanName(bytes[2..]);
      var path :- Resolved(p.scope, name);
      var parent :- EnsureScopeLikePath(Home(path));
      if |bytes| < 2 + name.consumed + 1 { return Err(Truncated); }
      var _ :- InsertUniqueRecord(parent, Mutex, path, None, NoPayload, was);
      return Ok(2 + name.consumed + 1);
    }

    method ParseEventOp(p: Place, bytes: seq<byte>) returns (r: Result<nat>)
      requires Valid() && records != [] && Ready(plan, records, p, bytes) && |bytes| >= 2
      modifies this
      ensures Did(EventOp(plan, old(records), p, bytes), r)
    {
      hide ParseName, EnsureScope, Sound, Find, Resolved, Adds;
      ghost var was := records;
      var name :- ScanName(bytes[2..]);
      var path :- Resolved(p.scope, name);
      var parent :- EnsureScopeLikePath(Home(path));
      var _ :- InsertUniqueRecord(parent, Event, path, None, NoPayload, was);
      return Ok(2 + name.consumed);
    }

    method ParseOpRegionOp(p: Place, bytes: seq<byte>) returns (r: Result<nat>)
      requires Valid() && records != [] && Ready(plan, records, p, bytes) && |bytes| >= 2
      modifies this
      ensures Did(OpRegionOp(plan, old(records), p, bytes), r)
    {
      hide ParseName, EnsureScope, Sound, Find, Resolved, Adds, TermArg;
      var name :- ScanName(bytes[2..]);
      var path :- Resolved(p.scope, name);
      var parent :- EnsureScopeLikePath(Home(path));
      var space := 2 + name.consumed;
      if |bytes| <= space { return Err(Truncated); }
      var offset :- TermArg(bytes[space + 1..]);
      if space + 1 + offset.consumed > |bytes| { return Err(Fault); }
      var length :- TermArg(bytes[space + 1 + offset.consumed..]);
      var info := RegionInfo(|records|, AddressSpace(bytes[space]), offset.value, length.value);
      var _ :- InsertRecord(parent, OpRegion, path, None, RegionPayload(info));
      return Ok(space + 1 + offset.consumed + length.consumed);
    }

    method ParseFieldOp(p: Place, bytes: seq<byte>) returns (r: Result<nat>)
      requires Valid() && records != [] && Ready(plan, records, p, bytes) && |bytes| >= 2
      modifies this
      ensures Did(FieldOp(plan, old(records), p, bytes), r)
    {
      hide PackageHeader, FieldEntries, Sound, Find, Ready, Resolved;
      ReadySound(plan, records, p, bytes);
      var head :- PackageHeader(bytes, 2);
      var path :- Resolved(p.scope, head.name);
      var region := FindRecord(path);
      if head.after >= head.end { return Err(Truncated); }
      var _ :- ParseFieldEntries(bytes[..head.end], head.after + 1, FieldHome(p.scope, p.scopeId, region, bytes[head.after]));
      return Ok(head.end);
    }

    method ParseIndexFieldOp(p: Place, bytes: seq<byte>) returns (r: Result<nat>)
      requires Valid() && records != [] && Ready(plan, records, p, bytes) && |bytes| >= 2
      modifies this
      ensures Did(IndexFieldOp(plan, old(records), p, bytes), r)
    {
      hide PackageHeader, FieldEntries, Sound, ParseName, Ready;
      ReadySound(plan, records, p, bytes);
      var head :- PackageHeader(bytes, 2);
      var data :- ScanName(bytes[head.after..head.end]);
      var flags := head.after + data.consumed;
      if flags >= head.end { return Err(Truncated); }
      var _ :- ParseFieldEntries(bytes[..head.end], flags + 1, FieldHome(p.scope, p.scopeId, None, bytes[flags]));
      return Ok(head.end);
    }

    /** A method is pushed under an id taken beforehand, with the rest of its package as its body. */
    method ParseMethodOp(p: Place, bytes: seq<byte>) returns (r: Result<nat>)
      requires Valid() && records != [] && Ready(plan, records, p, bytes) && bytes != [] && bytes[0] == 0x14
      modifies this
      ensures Did(MethodOp(plan, old(records), p, bytes), r)
    {
      hide PackageHeader, EnsureScope, Sound, Find, Classify, Below, Shows;
      ghost var was := records;
      var head :- PackageHeader(bytes, 1);
      var path :- Resolved(p.scope, head.name);
      var parent :- EnsureScopeLikePath(Home(path));
      if head.after >= head.end { return Err(Truncated); }
      var id :- NextNodeId();
      var info := MethodHere(p, bytes, head, id, path);
      MethodKept(plan, was, records, p, bytes, head, path);
      var _ :- PushRecord(Record(id, Some(parent), Method, path, Some(info.body), MethodPayload(info)));
      return Ok(head.end);
    }

    method ParseScopeOp(p: Place, bytes: seq<byte>) returns (r: Result<nat>)
      requires Valid() && records != [] && Ready(plan, records, p, bytes) && bytes != []
      modifies this
      ensures Did(ScopeOp(plan, old(records), p, bytes), r)
      decreases |bytes|, 0
    {
      hide PackageHeader, EnsureScope, Sound, Find, Walk, Ready;
      ghost var was := records;
      ReadySound(plan, was, p, bytes);
      var head :- PackageHeader(bytes, 1);
      var path :- Resolved(p.scope, head.name);
      var id :- EnsureScopeLikePath(path);
      NestedReady(plan, was, records, p, bytes, head.after, head.end, path, id);
      var _ :- WalkTermList(Place(p.block, p.at + head.after, path, id), bytes[head.after..head.end]);
      return Ok(head.end);
    }

    /** Device, Processor, PowerResource and ThermalZone. */
    method ParsePkgScopedNamedObject(p: Place, bytes: seq<byte>, kind: ObjectKind, fixed: nat) returns (r: Result<nat>)
      requires Valid() && records != [] && Ready(plan, records, p, bytes) && |bytes| >= 2 && ScopeCapable(kind)
      modifies this
      ensures Did(ScopedObjectOp(plan, old(records), p, bytes, kind, fixed), r)
      decreases |bytes|, 0
    {
      hide PackageHeader, EnsureScope, Sound, Find, Ready, Resolved, ScopedBody;
      ghost var was := records;
      ReadySound(plan, was, p, bytes);
      var head :- PackageHeader(bytes, 2);
      var path :- Resolved(p.scope, head.name);
      var parent :- EnsureScopeLikePath(Home(path));
      if head.after + fixed > head.end { return Err(Fault); }
      r := DeclareAndWalk(p, bytes, kind, head.after + fixed, head.end, path, parent, was);
    }

    /** Inserts the object and walks its body inside it. */
    method DeclareAndWalk(p: Place, bytes: seq<byte>, kind: ObjectKind, from: nat, end: nat, path: Path, parent: nat,
                          ghost was: Records) returns (r: Result<nat>)
      requires Valid() && records != [] && Ready(plan, was, p, bytes) && Sound(plan, was) && ScopeCapable(kind)
      requires 0 < from <= end <= |bytes|
      requires EnsureScope(plan, was, Home(path)) == Ok(records) && parent == IdOf(records, Home(path))
      modifies this
      ensures Did(ScopedBody(plan, was, p, bytes, kind, from, end, path), r)
      decreases |bytes|, -1
    {
      hide EnsureScope, Sound, Find, Walk, Ready, Declare;
      var id :- InsertUniqueRecord(parent, kind, path, Some(Location(p.block, p.at + from, end - from)), NoPayload, was);
      NestedReady(plan, was, records, p, bytes, from, end, path, id);
      var _ :- WalkTermList(Place(p.block, p.at + from, path, id), bytes[from..end]);
      return Ok(end);
    }

    method ParseIfOp(p: Place, bytes: seq<byte>) returns (r: Result<nat>)
      requires Valid() && records != [] && Ready(plan, records, p, bytes) && bytes != []
      modifies this
      ensures Did(IfOp(plan, old(records), p, bytes), r)
      decreases |bytes|, 0
    {
      hide ParsePkg, LoadTimeValue, Sound, Walk, Ready;
      ghost var was := records;
      ReadySound(plan, was, p, bytes);
      var pkg :- ScanPkg(bytes[1..]);
      var end := 1 + pkg.value;
      if end > |bytes| { return Err(Truncated); }
      if 1 + pkg.encoded > end { return Err(Fault); }
      var condition :- LoadTimeValue(records, bytes[1 + pkg.encoded..end], p.scope);
      var from := 1 + pkg.encoded + condition.consumed;
      NestedReady(plan, was, was, p, bytes, from, end, p.scope, p.scopeId);
      if condition.value != 0 {
        var _ :- WalkTermList(p.(at := p.at + from), bytes[from..end]);
      }
      if end < |bytes| && bytes[end] == 0xA1 {
        var other :- ScanPkg(bytes[end + 1..]);
        var elseEnd := end + 1 + other.value;
        if elseEnd > |bytes| { return Err(Truncated); }
        if condition.value == 0 {
          if end + 1 + other.encoded > elseEnd { return Err(Fault); }
          var elseFrom := end + 1 + other.encoded;
          NestedReady(plan, was, was, p, bytes, elseFrom, elseEnd, p.scope, p.scopeId);
          var _ :- WalkTermList(p.(at := p.at + elseFrom), bytes[elseFrom..elseEnd]);
        }
        return Ok(elseEnd);
      }
      return Ok(end);
    }
  }

  datatype FieldCursor = FieldCursor(cursor: nat, bitOffset: u32)

  lemma RootFound(plan: Plan, rs: Records)
    requires Sound(plan, rs) && rs != []
    ensures Find(rs, []) == Some(0) && EnsureScope(plan, rs, []) == Ok(rs)
  {
    assert Placed(rs, 0);
  }

  /** Every method loaded so far lies in a block before `b`. */
  ghost predicate Settled(plan: Plan, rs: Records, b: nat) {
    Sound(plan, rs) && forall i :: 0 <= i < |rs| && IsMethod(rs[i]) ==> rs[i].payload.info.body.block < b
  }

  lemma RootAlone(plan: Plan)
    requires plan.Valid()
    ensures Settled(plan, [ROOT_RECORD], 0)
  {
    assert Placed([ROOT_RECORD], 0);
  }

  lemma BlockReady(plan: Plan, rs: Records, b: nat)
    requires plan.Valid() && rs != [] && b < |plan.blocks| && b <= U16_MAX && Settled(plan, rs, b)
    ensures Ready(plan, rs, Place(b, 0, [], 0), plan.blocks[b])
    ensures match Walk(plan, rs, Place(b, 0, [], 0), plan.blocks[b])
            case Ok(rs') => rs' != [] && Settled(plan, rs', b + 1)
                            && LoadBlocks(plan, rs, b) == LoadBlocks(plan, rs', b + 1)
            case Err(e) => LoadBlocks(plan, rs, b) == Err(e)
  {
    hide Walk;
    assert Placed(rs, 0);
  }

  lemma ReadySound(plan: Plan, rs: Records, p: Place, bytes: seq<byte>)
    requires Ready(plan, rs, p, bytes)
    ensures Sound(plan, rs) && Extends(plan, rs, rs) && NoNewMethods(rs, rs) && ScopeRef(rs, p.scopeId, p.scope)
  {
  }

  lemma WalkNothing(plan: Plan, rs: Records, p: Place)
    requires Ready(plan, rs, p, [])
    ensures Walk(plan, rs, p, []) == Ok(rs)
  {
  }

  lemma WalkFails(plan: Plan, rs: Records, p: Place, bytes: seq<byte>)
    requires Ready(plan, rs, p, bytes) && bytes != []
    ensures match TermObject(plan, rs, p, bytes)
            case Err(e) => Walk(plan, rs, p, bytes) == Err(e)
            case Ok(l) => l.consumed == 0 ==> Walk(plan, rs, p, bytes) == Err(InvalidBytecode)
  {
    hide TermObject;
  }

  lemma WalkStep(plan: Plan, rs: Records, p: Place, bytes: seq<byte>, l: Loaded)
    requires Ready(plan, rs, p, bytes) && bytes != [] && TermObject(plan, rs, p, bytes) == Ok(l) && l.consumed > 0
    ensures Sound(plan, l.records) && l.records != []
    ensures l.consumed >= |bytes| ==> Walk(plan, rs, p, bytes) == Ok(l.records)
    ensures l.consumed < |bytes| ==>
              var p' := p.(at := p.at + l.consumed);
              && Ready(plan, l.records, p', bytes[l.consumed..])
              && Walk(plan, rs, p, bytes) == Walk(plan, l.records, p', bytes[l.consumed..])
  {
    hide TermObject;
    if l.consumed < |bytes| { WalkOn(plan, rs, p, bytes, l); }
  }

  lemma {:induction false} EnsureScopeFailsEarly(plan: Plan, rs: Records, path: Path, depth: nat)
    requires Sound(plan, rs) && depth <= |path|
    ensures EnsureScope(plan, rs, path[..depth]).Err? ==>
              EnsureScope(plan, rs, path) == Err(EnsureScope(plan, rs, path[..depth]).error)
    decreases |path|
  {
    assert path[..|path|] == path;
    if depth < |path| {
      assert Parent(path)[..depth] == path[..depth];
      EnsureScopeFailsEarly(plan, rs, Parent(path), depth);
    }
  }
}
