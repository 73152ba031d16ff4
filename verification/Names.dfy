/** AML names: 4-byte segments, fixed-slot resolved paths, and the encoded name strings of
    section 20.2.2 of the ACPI specification. */
module Names {
  import opened Wrappers
  import opened Bits

  const MAX_SEGMENTS: nat := 16

  predicate NameChar(b: byte) {
    0x41 <= b <= 0x5A || 0x30 <= b <= 0x39 || b == 0x5F
  }

  /** A byte that can begin a name where a term is expected. */
  predicate NameLead(b: byte) {
    b == 0x5C || b == 0x5E || b == 0x5F || 0x41 <= b <= 0x5A
  }

  type NameSeg = s: seq<byte> | |s| == 4 && forall i :: 0 <= i < 4 ==> NameChar(s[i])
    witness [0x5F, 0x5F, 0x5F, 0x5F]

  const BLANK: NameSeg := [0x5F, 0x5F, 0x5F, 0x5F]

  /** A resolved path as its sequence of segments. */
  type Path = s: seq<NameSeg> | |s| <= MAX_SEGMENTS

  function Parent(p: Path): Path
    requires p != []
  {
    p[..|p| - 1]
  }

  // ---- The sixteen-slot representation ----

  datatype PathSlots = PathSlots(count: nat, segments: seq<NameSeg>)
  {
    /** Unused slots are blank. */
    predicate Valid() {
      && |segments| == MAX_SEGMENTS
      && count <= MAX_SEGMENTS
      && forall i :: count <= i < MAX_SEGMENTS ==> segments[i] == BLANK
    }

    function View(): Path
      requires Valid()
    {
      segments[..count]
    }

    function Push(segment: NameSeg): (r: Result<PathSlots>)
      requires Valid()
      ensures r.Ok? <==> count < MAX_SEGMENTS
      ensures r.Ok? ==> r.value.Valid() && r.value.View() == View() + [segment]
      ensures r.Err? ==> r.error == Overflow
    {
      if count >= MAX_SEGMENTS then Err(Overflow)
      else Ok(PathSlots(count + 1, segments[count := segment]))
    }

    function Pop(): (r: Result<PathSlots>)
      requires Valid()
      ensures r.Ok? <==> count > 0
      ensures r.Ok? ==> r.value.Valid() && r.value.View() == Parent(View())
      ensures r.Err? ==> r.error == InvalidName
    {
      if count == 0 then Err(InvalidName)
      else Ok(PathSlots(count - 1, segments[count - 1 := BLANK]))
    }
  }

  const ROOT_SLOTS := PathSlots(0, [BLANK, BLANK, BLANK, BLANK, BLANK, BLANK, BLANK, BLANK,
                                    BLANK, BLANK, BLANK, BLANK, BLANK, BLANK, BLANK, BLANK])

  /** The derived equality of the representation is equality of segment sequences. */
  lemma EqualSlotsIffEqualViews(p: PathSlots, q: PathSlots)
    requires p.Valid() && q.Valid()
    ensures p == q <==> p.View() == q.View()
  {
    if p.View() == q.View() {
      assert p.count == |p.View()| == |q.View()| == q.count;
      forall i | 0 <= i < MAX_SEGMENTS ensures p.segments[i] == q.segments[i] {
        if i < p.count { assert p.View()[i] == q.View()[i]; }
      }
      assert p.segments == q.segments;
    }
  }

  method Prefix(p: PathSlots, count: nat) returns (r: Option<PathSlots>)
    requires p.Valid()
    ensures r.Some? <==> count <= p.count
    ensures r.Some? ==> r.value.Valid() && r.value.View() == p.View()[..count]
  {
    if count > p.count { return None; }
    var path := ROOT_SLOTS;
    var index := 0;
    while index < count
      invariant 0 <= index <= count
      invariant path.Valid() && path.View() == p.View()[..index]
    {
      path := path.Push(p.segments[index]).value;
      index := index + 1;
    }
    return Some(path);
  }

  // ---- Encoded name strings ----

  datatype Anchor = Root | ParentPrefix | Local

  datatype EncodedName = EncodedName(anchor: Anchor, carets: nat, segments: seq<NameSeg>, isNull: bool, consumed: nat)

  /** What a name means in a scope. */
  function Resolved(scope: Path, name: EncodedName): (r: Result<Path>)
    ensures r != Err(OutOfFuel)
  {
    if name.isNull then Ok(scope)
    else if name.anchor == ParentPrefix && name.carets > |scope| then Err(InvalidName)
    else
      var base := match name.anchor
                  case Root => []
                  case ParentPrefix => scope[..|scope| - name.carets]
                  case Local => scope;
      if |base| + |name.segments| > MAX_SEGMENTS then Err(Overflow) else Ok(base + name.segments)
  }

  method Resolve(scope: PathSlots, name: EncodedName) returns (r: Result<PathSlots>)
    requires scope.Valid()
    ensures Resolved(scope.View(), name).Err? ==> r == Err(Resolved(scope.View(), name).error)
    ensures Resolved(scope.View(), name).Ok? ==>
              r.Ok? && r.value.Valid() && r.value.View() == Resolved(scope.View(), name).value
  {
    if name.isNull { return Ok(scope); }
    var path := match name.anchor case Root => ROOT_SLOTS case ParentPrefix => scope case Local => scope;
    if name.anchor == ParentPrefix { path :- Climb(scope, name.carets); }
    r := Descend(path, name.segments);
  }

  /** Pops one segment for every caret. */
  method Climb(scope: PathSlots, carets: nat) returns (r: Result<PathSlots>)
    requires scope.Valid()
    ensures r.Err? ==> r.error == InvalidName && carets > |scope.View()|
    ensures r.Ok? ==> carets <= |scope.View()| && r.value.Valid()
                      && r.value.View() == scope.View()[..|scope.View()| - carets]
  {
    var path, remaining := scope, carets;
    while remaining != 0
      invariant 0 <= remaining <= carets
      invariant path.Valid() && path.count + (carets - remaining) == scope.count
      invariant path.View() == scope.View()[..path.count]
      decreases remaining
    {
      path :- path.Pop();
      remaining := remaining - 1;
    }
    return Ok(path);
  }

  /** Pushes the segments one by one. */
  method Descend(base: PathSlots, segments: seq<NameSeg>) returns (r: Result<PathSlots>)
    requires base.Valid()
    ensures r.Err? ==> r.error == Overflow && |base.View()| + |segments| > MAX_SEGMENTS
    ensures r.Ok? ==> r.value.Valid() && r.value.View() == base.View() + segments
  {
    var path, index := base, 0;
    while index < |segments|
      invariant 0 <= index <= |segments|
      invariant path.Valid() && path.View() == base.View() + segments[..index]
    {
      path :- path.Push(segments[index]);
      index := index + 1;
    }
    return Ok(path);
  }

  /** A rooted name means the same from every scope, unless it is the null name: that one is taken
      for the scope it is read in. */
  lemma RootedNameIgnoresScope(scope: Path, name: EncodedName)
    requires name.anchor == Root
    ensures Resolved(scope, name) == Resolved([], name) <==> !name.isNull || scope == []
  {
  }

  lemma RootedNullNameStaysInScope()
    ensures ParseName([0x5C, 0x00]) == Ok(EncodedName(Root, 0, [], true, 2))
    ensures Resolved([BLANK], ParseName([0x5C, 0x00]).value) == Ok([BLANK])
  {
  }

  /** A name with carets climbs as many scopes as it has carets, unless it is the null name: that one
      stays where it is however many carets precede it. */
  lemma CaretsClimb(scope: Path, name: EncodedName)
    requires name.anchor == ParentPrefix && 0 < name.carets <= |scope| && (name.isNull ==> name.segments == [])
    requires |scope| - name.carets + |name.segments| <= MAX_SEGMENTS
    ensures Resolved(scope, name) == Ok(scope[..|scope| - name.carets] + name.segments) <==> !name.isNull
  {
    if name.isNull { assert |scope[..|scope| - name.carets] + name.segments| < |scope|; }
  }

  lemma CaretNullNameStaysInScope()
    ensures ParseName([0x5E, 0x00]) == Ok(EncodedName(ParentPrefix, 1, [], true, 2))
    ensures Resolved([BLANK], ParseName([0x5E, 0x00]).value) == Ok([BLANK])
  {
    assert LeadingCarets([0x00]) == 0;
    assert [0x5E, 0x00][1..] == [0x00];
    assert LeadingCarets([0x5E, 0x00]) == 1;
  }

  function LeadingCarets(bytes: seq<byte>): (n: nat)
    ensures n <= |bytes|
    ensures forall i :: 0 <= i < n ==> bytes[i] == 0x5E
    ensures n < |bytes| ==> bytes[n] != 0x5E
  {
    if bytes == [] || bytes[0] != 0x5E then 0 else 1 + LeadingCarets(bytes[1..])
  }

  predicate AllNameChars(raw: seq<byte>) {
    forall i :: 0 <= i < |raw| ==> NameChar(raw[i])
  }

  function Segments(raw: seq<byte>): (r: seq<NameSeg>)
    requires |raw| % 4 == 0 && AllNameChars(raw)
    ensures 4 * |r| == |raw|
  {
    if raw == [] then [] else [raw[..4]] + Segments(raw[4..])
  }

  /** The name body that follows the prefix: how many bytes it takes and its segments. */
  datatype Body = Body(segments: seq<NameSeg>, isNull: bool, length: nat)

  function TakeSegments(bytes: seq<byte>, start: nat, count: nat): (r: Result<Body>)
    ensures r != Err(OutOfFuel)
  {
    if start + 4 * count > |bytes| then Err(Truncated)
    else if !AllNameChars(bytes[start..start + 4 * count]) then Err(InvalidName)
    else Ok(Body(Segments(bytes[start..start + 4 * count]), false, start + 4 * count))
  }

  function ParseBody(bytes: seq<byte>): (r: Result<Body>)
    ensures r != Err(OutOfFuel)
  {
    if bytes == [] then Err(Truncated)
    else match bytes[0]
      case 0x00 => Ok(Body([], true, 1))
      case 0x2E => TakeSegments(bytes, 1, 2)
      case 0x2F => if |bytes| < 2 then Err(Truncated) else TakeSegments(bytes, 2, bytes[1])
      case _ => TakeSegments(bytes, 0, 1)
  }

  /** The encoded name at the front of `bytes`. */
  function ParseName(bytes: seq<byte>): (r: Result<EncodedName>)
    ensures r.Ok? ==> 1 <= r.value.consumed <= U8_MAX && r.value.consumed <= |bytes|
    ensures r != Err(OutOfFuel)
  {
    if bytes == [] then Err(Truncated)
    else
      var offset := if bytes[0] == 0x5C then 1 else LeadingCarets(bytes);
      var anchor := if bytes[0] == 0x5C then Root else if offset > 0 then ParentPrefix else Local;
      var body :- ParseBody(bytes[offset..]);
      if offset + body.length > U8_MAX then Err(Overflow)
      else Ok(EncodedName(anchor, if anchor == Root then 0 else offset, body.segments, body.isNull,
                          offset + body.length))
  }

  /** The byte scan, with a caret counter that saturates at 255: an accepted name never lost one. */
  method ScanName(bytes: seq<byte>) returns (r: Result<EncodedName>)
    ensures r == ParseName(bytes)
  {
    if |bytes| == 0 { return Err(Truncated); }
    var offset := 0;
    var anchor := Local;
    var carets := 0;
    if bytes[offset] == 0x5C {
      anchor := Root;
      offset := offset + 1;
    } else {
      while offset < |bytes| && bytes[offset] == 0x5E
        invariant 0 <= offset <= |bytes|
        invariant offset <= LeadingCarets(bytes)
        invariant carets == if offset > U8_MAX then U8_MAX else offset
        invariant anchor == if offset > 0 then ParentPrefix else Local
      {
        anchor := ParentPrefix;
        carets := if carets == U8_MAX then U8_MAX else carets + 1;
        offset := offset + 1;
      }
    }
    var body :- ScanBody(bytes, offset);
    if offset + body.length > U8_MAX { return Err(Overflow); }
    return Ok(EncodedName(anchor, carets, body.segments, body.isNull, offset + body.length));
  }

  method ScanBody(bytes: seq<byte>, offset: nat) returns (r: Result<Body>)
    requires offset <= |bytes|
    ensures r == ParseBody(bytes[offset..])
  {
    if offset >= |bytes| { return Err(Truncated); }
    var segments: seq<NameSeg> := [];
    var isNull := false;
    var tail := 0;
    match bytes[offset] {
      case 0x00 => isNull, tail := true, 1;
      case 0x2E => segments :- ScanSegments(bytes, offset, 1, 2); tail := 9;
      case 0x2F =>
        if offset + 1 >= |bytes| { return Err(Truncated); }
        segments :- ScanSegments(bytes, offset, 2, bytes[offset + 1]);
        tail := 2 + 4 * |segments|;
      case _ => segments :- ScanSegments(bytes, offset, 0, 1); tail := 4;
    }
    return Ok(Body(segments, isNull, tail));
  }

  method ScanSegments(bytes: seq<byte>, offset: nat, skip: nat, count: nat) returns (r: Result<seq<NameSeg>>)
    requires offset + skip <= |bytes|
    ensures r == match TakeSegments(bytes[offset..], skip, count)
                 case Ok(body) => Ok(body.segments)
                 case Err(e) => Err(e)
  {
    var start := offset + skip;
    if start + 4 * count > |bytes| { return Err(Truncated); }
    ghost var raw := bytes[start..start + 4 * count];
    assert bytes[offset..][skip..skip + 4 * count] == raw;
    var segments: seq<NameSeg> := [];
    var index := 0;
    while index < count
      invariant 0 <= index <= count
      invariant AllNameChars(raw[..4 * index]) && segments == Segments(raw[..4 * index])
    {
      var chunk := bytes[start + 4 * index..start + 4 * index + 4];
      assert 4 * index + 4 <= 4 * count;
      assert forall k :: 0 <= k < 4 ==> chunk[k] == raw[4 * index + k];
      if !(NameChar(chunk[0]) && NameChar(chunk[1]) && NameChar(chunk[2]) && NameChar(chunk[3])) {
        assert !AllNameChars(raw);
        return Err(InvalidName);
      }
      SegmentsAppend(raw[..4 * index], chunk);
      assert raw[..4 * index] + chunk == raw[..4 * (index + 1)];
      segments := segments + [chunk];
      index := index + 1;
    }
    assert raw[..4 * count] == raw;
    return Ok(segments);
  }

  lemma {:induction false} SegmentsAppend(raw: seq<byte>, chunk: NameSeg)
    requires |raw| % 4 == 0 && AllNameChars(raw)
    ensures AllNameChars(raw + chunk) && Segments(raw + chunk) == Segments(raw) + [chunk]
  {
    if raw == [] {
      assert raw + chunk == chunk && chunk[4..] == [] && chunk[..4] == chunk;
    } else {
      SegmentsAppend(raw[4..], chunk);
      assert (raw + chunk)[..4] == raw[..4] && (raw + chunk)[4..] == raw[4..] + chunk;
    }
  }

  // ---- The encoder of the specification, and the round trip ----

  function Carets(n: nat): (r: seq<byte>)
    ensures |r| == n && forall i :: 0 <= i < n ==> r[i] == 0x5E
  {
    if n == 0 then [] else [0x5E] + Carets(n - 1)
  }

  function Flatten(segments: seq<NameSeg>): (r: seq<byte>)
    ensures |r| == 4 * |segments|
    ensures AllNameChars(r)
  {
    if segments == [] then [] else segments[0] + Flatten(segments[1..])
  }

  function EncodeBody(segments: seq<NameSeg>): seq<byte>
    requires |segments| <= U8_MAX
  {
    match |segments|
    case 0 => [0x00]
    case 1 => Flatten(segments)
    case 2 => [0x2E] + Flatten(segments)
    case n => [0x2F, n] + Flatten(segments)
  }

  function EncodeName(anchor: Anchor, carets: nat, segments: seq<NameSeg>): seq<byte>
    requires |segments| <= U8_MAX
  {
    EncodeAnchor(anchor, carets) + EncodeBody(segments)
  }

  function EncodeAnchor(anchor: Anchor, carets: nat): seq<byte> {
    match anchor
    case Root => [0x5C]
    case ParentPrefix => Carets(carets)
    case Local => []
  }

  lemma {:induction false} SegmentsFlatten(segments: seq<NameSeg>)
    ensures Segments(Flatten(segments)) == segments
  {
    if segments != [] {
      SegmentsFlatten(segments[1..]);
      var raw := Flatten(segments);
      assert raw[..4] == segments[0] && raw[4..] == Flatten(segments[1..]);
    }
  }

  lemma BodyRoundTrip(segments: seq<NameSeg>, rest: seq<byte>)
    requires |segments| <= U8_MAX
    ensures ParseBody(EncodeBody(segments) + rest)
            == Ok(Body(segments, segments == [], |EncodeBody(segments)|))
  {
    var bytes := EncodeBody(segments) + rest;
    SegmentsFlatten(segments);
    var flat := Flatten(segments);
    match |segments| {
      case 0 =>
      case 1 => assert bytes[0..4] == flat; assert NameChar(bytes[0]) by { assert flat[0] == bytes[0]; }
      case 2 => assert bytes[1..9] == flat;
      case n => assert bytes[2..2 + 4 * n] == flat;
    }
  }

  lemma {:induction false} LeadingCaretsExact(n: nat, rest: seq<byte>)
    requires rest != [] ==> rest[0] != 0x5E
    ensures LeadingCarets(Carets(n) + rest) == n
  {
    if n > 0 {
      LeadingCaretsExact(n - 1, rest);
      assert (Carets(n) + rest)[1..] == Carets(n - 1) + rest;
    } else {
      assert Carets(n) + rest == rest;
    }
  }

  /** Any anchor, caret count and segment list whose encoding fits the one-byte length parses back
      exactly, whatever follows it. */
  lemma NameRoundTrip(anchor: Anchor, carets: nat, segments: seq<NameSeg>, rest: seq<byte>)
    requires anchor == ParentPrefix <==> carets > 0
    requires |segments| <= U8_MAX && |EncodeName(anchor, carets, segments)| <= U8_MAX
    ensures ParseName(EncodeName(anchor, carets, segments) + rest)
            == Ok(EncodedName(anchor, carets, segments, segments == [], |EncodeName(anchor, carets, segments)|))
  {
    hide ParseName, ParseBody;
    var code := EncodeBody(segments);
    BodyRoundTrip(segments, rest);
    BodyLead(segments);
    AnchoredRoundTrip(anchor, carets, code, rest, Body(segments, segments == [], |code|));
  }

  lemma AnchoredRoundTrip(anchor: Anchor, carets: nat, code: seq<byte>, rest: seq<byte>, body: Body)
    requires anchor == ParentPrefix <==> carets > 0
    requires code != [] && code[0] != 0x5C && code[0] != 0x5E && ParseBody(code + rest) == Ok(body)
    requires |EncodeAnchor(anchor, carets)| + body.length <= U8_MAX
    ensures ParseName(EncodeAnchor(anchor, carets) + code + rest)
            == Ok(EncodedName(anchor, carets, body.segments, body.isNull,
                              |EncodeAnchor(anchor, carets)| + body.length))
  {
    hide ParseName, ParseBody;
    assert EncodeAnchor(anchor, carets) + code + rest == EncodeAnchor(anchor, carets) + (code + rest);
    if anchor == Root {
      RootedParse(code + rest, body);
    } else {
      assert EncodeAnchor(anchor, carets) == Carets(carets);
      CaretParse(carets, code + rest, body);
    }
  }

  lemma BodyLead(segments: seq<NameSeg>)
    requires |segments| <= U8_MAX
    ensures EncodeBody(segments) != [] && EncodeBody(segments)[0] != 0x5C && EncodeBody(segments)[0] != 0x5E
  {
    if |segments| == 1 { assert NameChar(Flatten(segments)[0]); }
  }

  lemma RootedParse(tail: seq<byte>, body: Body)
    requires tail != [] && ParseBody(tail) == Ok(body) && 1 + body.length <= U8_MAX
    ensures ParseName([0x5C] + tail) == Ok(EncodedName(Root, 0, body.segments, body.isNull, 1 + body.length))
  {
    assert ([0x5C] + tail)[1..] == tail;
  }

  lemma CaretParse(carets: nat, tail: seq<byte>, body: Body)
    requires tail != [] && tail[0] != 0x5C && tail[0] != 0x5E && ParseBody(tail) == Ok(body)
    requires carets + body.length <= U8_MAX
    ensures ParseName(Carets(carets) + tail)
            == Ok(EncodedName(if carets > 0 then ParentPrefix else Local, carets, body.segments, body.isNull,
                              carets + body.length))
  {
    LeadingCaretsExact(carets, tail);
    assert (Carets(carets) + tail)[carets..] == tail;
  }

  // ---- Package lengths, section 20.2.4 ----

  datatype PkgLength = PkgLength(value: nat, encoded: nat)

  function LittleEndian(bytes: seq<byte>): nat {
    if bytes == [] then 0 else bytes[0] + 256 * LittleEndian(bytes[1..])
  }

  function ParsePkg(bytes: seq<byte>): (r: Result<PkgLength>)
    ensures r.Ok? ==> 1 <= r.value.encoded <= 4 && r.value.encoded <= |bytes|
    ensures r.Ok? ==> r.value.value < 0x1000_0000
    ensures r != Err(OutOfFuel)
  {
    if bytes == [] then Err(Truncated)
    else
      var follow := bytes[0] / 64;
      if |bytes| < follow + 1 then Err(Truncated)
      else if follow == 0 then Ok(PkgLength(bytes[0] % 64, 1))
      else
        ThreeByteBound(bytes[1..follow + 1]);
        Ok(PkgLength(bytes[0] % 16 + 16 * LittleEndian(bytes[1..follow + 1]), follow + 1))
  }

  method ScanPkg(bytes: seq<byte>) returns (r: Result<PkgLength>)
    ensures r == ParsePkg(bytes)
  {
    hide LittleEndian, Bitwise, Shl;
    if |bytes| == 0 { return Err(Truncated); }
    var lead := bytes[0];
    var follow := Shr(lead, 6);
    TopTwoBits(lead);
    NoBytes(bytes);
    if |bytes| < follow + 1 { return Err(Truncated); }
    if follow == 0 {
      MaskIsMod(lead, 6);
      return Ok(PkgLength(BitAnd(lead, 0x3F), 1));
    }
    MaskIsMod(lead, 4);
    var value, shift, index := BitAnd(lead, 0x0F), 4, 1;
    while index <= follow
      invariant 1 <= index <= follow + 1 && shift == 8 * index - 4
      invariant value == lead % 16 + 16 * LittleEndian(bytes[1..index])
    {
      PkgStep(lead, bytes[1..index], bytes[index]);
      assert bytes[1..index] + [bytes[index]] == bytes[1..index + 1];
      value := BitOr(value, Shl(bytes[index], shift));
      shift, index := shift + 8, index + 1;
    }
    return Ok(PkgLength(value, follow + 1));
  }

  lemma TopTwoBits(lead: byte)
    ensures Shr(lead, 6) == lead / 64
  {
    assert Shr(lead, 6) == lead / 2 / 2 / 2 / 2 / 2 / 2;
  }

  lemma NoBytes(bytes: seq<byte>)
    requires bytes != []
    ensures LittleEndian(bytes[1..1]) == 0
  {
  }

  /** Or-ing the next byte in above the bits read so far appends it to the number. */
  lemma PkgStep(lead: byte, read: seq<byte>, b: byte)
    ensures BitOr(lead % 16 + 16 * LittleEndian(read), Shl(b, 8 * |read| + 4))
            == lead % 16 + 16 * LittleEndian(read + [b])
  {
    hide Bitwise, Shl, LittleEndian;
    var low, high, k, p := lead % 16, LittleEndian(read), 8 * |read|, Pow2(8 * |read|);
    LittleEndianBound(read);
    Pow2Nibble(k);
    OrAbove(low + 16 * high, b, k + 4);
    LittleEndianSnoc(read, b);
    Regroup(b, 16, p);
  }

  lemma Pow2Nibble(k: nat)
    ensures Pow2(k + 4) == 16 * Pow2(k)
  {
    Pow2Sum(4, k);
    assert Pow2(4) == 16;
  }

  lemma Regroup(a: nat, b: nat, c: nat)
    ensures a * (b * c) == b * (a * c)
  {
  }

  lemma OrAbove(value: nat, b: nat, shift: nat)
    requires value < Pow2(shift)
    ensures BitOr(value, Shl(b, shift)) == value + b * Pow2(shift)
  {
    DisjointOr(value, b, shift);
    ShlIsTimes(b, shift);
  }

  lemma {:induction false} LittleEndianBound(bytes: seq<byte>)
    ensures LittleEndian(bytes) < Pow2(8 * |bytes|)
  {
    if bytes != [] {
      LittleEndianBound(bytes[1..]);
      Pow2Byte(|bytes| - 1);
    }
  }

  lemma ThreeByteBound(bytes: seq<byte>)
    requires |bytes| <= 3
    ensures LittleEndian(bytes) < 0x100_0000
  {
    LittleEndianBound(bytes);
    Pow2Grows(8 * |bytes|, 24);
    Pow2Byte(0);
    Pow2Byte(1);
    Pow2Byte(2);
  }

  lemma Pow2Byte(n: nat)
    ensures Pow2(8 * (n + 1)) == 256 * Pow2(8 * n)
  {
    Pow2Sum(8, 8 * n);
    assert Pow2(8) == 256 by { assert Pow2(4) == 16; }
  }

  lemma {:induction false} LittleEndianSnoc(bytes: seq<byte>, b: byte)
    ensures LittleEndian(bytes + [b]) == LittleEndian(bytes) + b * Pow2(8 * |bytes|)
  {
    if bytes == [] {
      assert bytes + [b] == [b];
    } else {
      assert (bytes + [b])[1..] == bytes[1..] + [b];
      LittleEndianSnoc(bytes[1..], b);
      var p := Pow2(8 * (|bytes| - 1));
      Pow2Byte(|bytes| - 1);
      Regroup(b, 256, p);
    }
  }

  /** `x & (2^k - 1)` is `x mod 2^k`. */
  lemma {:induction false} MaskIsMod(x: nat, k: nat)
    ensures BitAnd(x, Pow2(k) - 1) == x % Pow2(k)
    decreases k
  {
    TruncateIsMod(x, k);
    forall i: nat ensures Bit(BitAnd(x, Pow2(k) - 1), i) == Bit(Truncate(x, k), i) {
      BitwiseBit(And, x, Pow2(k) - 1, i);
      TruncateBit(x, k, i);
      OnesBit(k, i);
    }
    SameBits(BitAnd(x, Pow2(k) - 1), Truncate(x, k));
  }

  /** The largest value a package length of `size` bytes can hold, plus one. */
  function PkgBound(size: nat): nat {
    match size
    case 1 => 64
    case 2 => 0x1000
    case 3 => 0x10_0000
    case 4 => 0x1000_0000
    case _ => 0
  }

  function EncodePkg(value: nat, size: nat): (r: seq<byte>)
    requires value < PkgBound(size)
    ensures |r| == size
  {
    match size
    case 1 => [value]
    case 2 => [0x40 + value % 16, value / 16]
    case 3 => [0x80 + value % 16, value / 16 % 256, value / 16 / 256]
    case 4 => [0xC0 + value % 16, value / 16 % 256, value / 16 / 256 % 256, value / 16 / 256 / 256]
  }

  /** Every value below 2^28, in any of the forms that can hold it, parses back exactly. */
  lemma PkgRoundTrip(value: nat, size: nat, rest: seq<byte>)
    requires value < PkgBound(size)
    ensures ParsePkg(EncodePkg(value, size) + rest) == Ok(PkgLength(value, size))
  {
    var bytes := EncodePkg(value, size) + rest;
    var high := value / 16;
    match size {
      case 1 =>
      case 2 => assert bytes[1..2] == [high]; Digits1(high);
      case 3 => assert bytes[1..3] == [high % 256, high / 256]; Digits2(high % 256, high / 256);
      case 4 =>
        assert bytes[1..4] == [high % 256, high / 256 % 256, high / 256 / 256];
        Digits3(high % 256, high / 256 % 256, high / 256 / 256);
    }
  }

  lemma Digits1(a: byte)
    ensures LittleEndian([a]) == a
  {
    assert [a][1..] == [];
  }

  lemma Digits2(a: byte, b: byte)
    ensures LittleEndian([a, b]) == a + 256 * b
  {
    assert [a, b][1..] == [b];
    Digits1(b);
  }

  lemma Digits3(a: byte, b: byte, c: byte)
    ensures LittleEndian([a, b, c]) == a + 256 * (b + 256 * c)
  {
    assert [a, b, c][1..] == [b, c];
    Digits2(b, c);
  }

  // ---- Name lookup through the enclosing scopes ----

  /** The path a name would have in the enclosing scope of depth `k`. */
  function Candidate(scope: Path, k: nat, name: EncodedName): Result<Path>
    requires k <= |scope|
  {
    Resolved(scope[..k], name)
  }

  function LookupFrom(known: set<Path>, scope: Path, name: EncodedName): (r: Result<Path>)
    ensures r != Err(OutOfFuel)
    decreases |scope|
  {
    var candidate :- Resolved(scope, name);
    if candidate in known || scope == [] then Ok(candidate) else LookupFrom(known, Parent(scope), name)
  }

  /** resolve_lookup_path: rooted and caret names resolve once, a local name searches outwards. */
  function Lookup(known: set<Path>, scope: Path, name: EncodedName): (r: Result<Path>)
    ensures r != Err(OutOfFuel)
  {
    if name.anchor == Local then LookupFrom(known, scope, name) else Resolved(scope, name)
  }

  method ResolveLookupPath(known: set<Path>, scope: Path, name: EncodedName) returns (r: Result<Path>)
    ensures r == Lookup(known, scope, name)
  {
    if name.anchor != Local { return Resolved(scope, name); }
    var current := scope;
    while true
      invariant |current| <= |scope|
      invariant LookupFrom(known, current, name) == LookupFrom(known, scope, name)
      decreases |current|
    {
      var candidate :- Resolved(current, name);
      if candidate in known { return Ok(candidate); }
      if current == [] { return Ok(candidate); }
      current := Parent(current);
    }
  }

  /** The search finds the nearest enclosing scope with a record for the name, else the root's
      candidate; and it fails exactly when the name does not fit under the scope it starts from. */
  lemma {:induction false} LookupIsNearest(known: set<Path>, scope: Path, name: EncodedName)
    requires name.anchor == Local
    ensures Lookup(known, scope, name).Ok? <==> name.isNull || |scope| + |name.segments| <= MAX_SEGMENTS
    ensures Lookup(known, scope, name).Ok? ==>
              exists k :: Nearest(known, scope, name, k) && Lookup(known, scope, name) == Candidate(scope, k, name)
    decreases |scope|
  {
    if Resolved(scope, name).Ok? {
      var candidate := Resolved(scope, name).value;
      assert scope[..|scope|] == scope;
      if candidate in known || scope == [] {
        assert Nearest(known, scope, name, |scope|);
      } else {
        LookupIsNearest(known, Parent(scope), name);
        var k :| Nearest(known, Parent(scope), name, k)
                 && Lookup(known, Parent(scope), name) == Candidate(Parent(scope), k, name);
        forall j | 0 <= j < |scope| ensures Candidate(scope, j, name) == Candidate(Parent(scope), j, name) {
          assert scope[..j] == Parent(scope)[..j];
        }
        assert Nearest(known, scope, name, k);
      }
    }
  }

  ghost predicate Nearest(known: set<Path>, scope: Path, name: EncodedName, k: nat) {
    && k <= |scope|
    && Candidate(scope, k, name).Ok?
    && (k == 0 || Candidate(scope, k, name).value in known)
    && forall j :: k < j <= |scope| ==> Candidate(scope, j, name).Ok? && Candidate(scope, j, name).value !in known
  }
}
