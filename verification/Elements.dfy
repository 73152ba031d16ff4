/** Buffers and packages kept in the runtime tables, as values of the AML language: their elements, and how they
    are made and filled. */
module Elements {
  import opened Wrappers
  import opened Bits
  import opened Namespace
  import opened SlotTable
  import opened Values
  import opened RuntimeState

  // ---- Reading and writing one element ----

  /** What a package keeps of a value. */
  function Aggregated(v: Value): (r: Result<Aggregate>)
    ensures r != Err(OutOfFuel)
  {
    match v
    case Integer(n) => Ok(Whole(n))
    case BufferHandle(h) => Ok(BufferRef(h))
    case _ => Err(Unsupported)
  }

  /** Element `k` of a buffer or of a package in the tables. */
  function ElementAt(width: Width, tables: Option<Overlay>, base: Value, k: nat): (r: Result<Value>)
    ensures r != Err(OutOfFuel) && (r.Ok? ==> !r.value.StaticPackage?)
  {
    if k > U8_MAX then Err(Overflow)
    else match base
      case Buffer(bytes) => if k < |bytes| then Ok(Reduced(bytes[k], width)) else Err(InvalidState)
      case BufferHandle(h) =>
        if tables.None? then Err(Unsupported)
        else
          (match BufferAt(tables.value, h)
           case Some(slot) =>
             if k < slot.len && k < |slot.bytes| then Ok(Reduced(slot.bytes[k], width)) else Err(InvalidState)
           case None => Err(InvalidState))
      case PackageHandle(h) =>
        if tables.None? then Err(Unsupported)
        else
          (match PackageAt(tables.value, h)
           case Some(slot) =>
             if k < slot.len && k < |slot.elements| then
               (match slot.elements[k]
                case Whole(n) => Ok(Reduced(n, width))
                case BufferRef(b) => Ok(BufferHandle(b))
                case Vacant => Ok(NoValue))
             else Err(InvalidState)
           case None => Err(InvalidState))
      case _ => Err(Unsupported)
  }

  /** The tables with element `k` of a buffer or package replaced. */
  function PutElement(o: Overlay, base: Value, k: nat, v: Value): (r: Result<Overlay>)
    ensures r != Err(OutOfFuel)
  {
    if k > U8_MAX then Err(Overflow)
    else match base
      case PackageHandle(h) =>
        var element :- Aggregated(v);
        (match PackageAt(o, h)
         case Some(slot) =>
           if k < slot.len && k < |slot.elements| then
             Ok(o.(packages := o.packages[h := Some(slot.(elements := slot.elements[k := element]))]))
           else Err(InvalidState)
         case None => Err(InvalidState))
      case BufferHandle(h) =>
        var n :- AsInteger(v);
        (match BufferAt(o, h)
         case Some(slot) =>
           if k < slot.len && k < |slot.bytes| then
             Ok(o.(buffers := o.buffers[h := Some(slot.(bytes := slot.bytes[k := n % 256]))]))
           else Err(InvalidState)
         case None => Err(InvalidState))
      case _ => Err(Unsupported)
  }

  /** What is read back of a value stored in an element: a package keeps integers cut to the width and buffers
      as they are, a buffer keeps the low byte. */
  function Kept(width: Width, base: Value, v: Value): Value {
    if v.Integer? then Reduced(if base.BufferHandle? then v.value % 256 else v.value, width) else v
  }

  /** Reading an element after a store into it gives the value stored, and any other element of any buffer or
      package reads as before. */
  lemma ReadAfterPut(width: Width, o: Overlay, base: Value, k: nat, v: Value, other: Value, j: nat)
    requires PutElement(o, base, k, v).Ok?
    ensures var o' := PutElement(o, base, k, v).value;
            && ElementAt(width, Some(o'), base, k) == Ok(Kept(width, base, v))
            && (other != base || j != k ==> ElementAt(width, Some(o'), other, j) == ElementAt(width, Some(o), other, j))
  {
  }

  /** An element can be stored exactly when it can be read and the value is of a kind that can be kept. */
  lemma PutIffReadable(width: Width, o: Overlay, base: Value, k: nat, v: Value)
    requires base.BufferHandle? || base.PackageHandle?
    ensures PutElement(o, base, k, v).Ok? <==>
            ElementAt(width, Some(o), base, k).Ok? && (v.Integer? || (base.PackageHandle? && v.BufferHandle?))
  {
  }

  /** It is one call of the tables. */
  lemma PutIsOneCall(o: Overlay, base: Value, k: byte, v: Value)
    requires Sound(o)
    ensures base.PackageHandle? && Aggregated(v).Ok? ==>
              var e := Perform(o, WritePackage(base.handle, k, Aggregated(v).value));
              match PutElement(o, base, k, v)
              case Ok(o') => e.overlay == o' && e.reply == Done
              case Err(x) => e.reply == Failed(x)
    ensures base.BufferHandle? && v.Integer? ==>
              var e := Perform(o, WriteBuffer(base.handle, k, v.value % 256));
              match PutElement(o, base, k, v)
              case Ok(o') => e.overlay == o' && e.reply == Done
              case Err(x) => e.reply == Failed(x)
  {
  }

  // ---- Making and filling ----

  datatype NewObject = New(overlay: Overlay, handle: nat)

  /** A new package with nothing in it. */
  function NewPackage(o: Overlay, count: byte): (r: Result<NewObject>)
    ensures r != Err(OutOfFuel)
  {
    if count > MAX_PACKAGE_ELEMENTS then Err(Overflow)
    else
      var h :- NextHandle(o.packages);
      Ok(New(o.(packages := o.packages[h := Some(PackageSlot(h, count, Vacancies(MAX_PACKAGE_ELEMENTS)))]), h))
  }

  /** A new buffer that holds these bytes, cut or padded with zeros to its length. */
  function NewBuffer(o: Overlay, length: nat, raw: seq<byte>): (r: Result<NewObject>)
    ensures r != Err(OutOfFuel)
  {
    if length > MAX_BUFFER_BYTES then Err(Overflow)
    else
      var h :- NextHandle(o.buffers);
      Ok(New(o.(buffers := o.buffers[h := Some(BufferSlot(h, length, Fitted(raw, length)))]), h))
  }

  /** A new buffer reads as the bytes it was given, then zeros, up to its length and no further; what was there
      before is as it was. */
  lemma NewBufferReads(width: Width, o: Overlay, length: nat, raw: seq<byte>, k: nat, other: Value)
    requires NewBuffer(o, length, raw).Ok?
    ensures var m := NewBuffer(o, length, raw).value;
            && ElementAt(width, Some(m.overlay), BufferHandle(m.handle), k)
               == (if k > U8_MAX then Err(Overflow) else if k >= length then Err(InvalidState)
                   else Ok(Reduced(if k < |raw| then raw[k] else 0, width)))
            && (other != BufferHandle(m.handle) ==>
                  ElementAt(width, Some(m.overlay), other, k) == ElementAt(width, Some(o), other, k))
            && BufferAt(o, m.handle).None?
  {
  }

  /** A new package has as many elements as asked for, none of them set. */
  lemma NewPackageReads(width: Width, o: Overlay, count: byte, k: nat, other: Value)
    requires NewPackage(o, count).Ok?
    ensures var m := NewPackage(o, count).value;
            && ElementAt(width, Some(m.overlay), PackageHandle(m.handle), k)
               == (if k > U8_MAX then Err(Overflow) else if k >= count then Err(InvalidState) else Ok(NoValue))
            && (other != PackageHandle(m.handle) ==>
                  ElementAt(width, Some(m.overlay), other, k) == ElementAt(width, Some(o), other, k))
            && PackageAt(o, m.handle).None?
  {
  }

  /** The bytes a value is made of, wherever they are kept. */
  function BytesOf(blocks: seq<seq<byte>>, o: Overlay, v: Value): (r: Result<seq<byte>>)
    ensures r != Err(OutOfFuel)
  {
    match v
    case Text(bytes) => Ok(bytes)
    case Buffer(bytes) => Ok(bytes)
    case StaticText(location) =>
      (match CodeBytes(blocks, location) case Some(code) => Ok(code) case None => Err(InvalidState))
    case BufferHandle(h) =>
      (match BufferAt(o, h)
       case Some(slot) => if slot.len <= |slot.bytes| then Ok(slot.bytes[..slot.len]) else Err(InvalidState)
       case None => Err(InvalidState))
    case _ => Err(Unsupported)
  }

  /** The tables with a buffer filled from a value: cut, or padded with zeros, to the buffer's length. */
  function FillBuffer(blocks: seq<seq<byte>>, o: Overlay, h: nat, v: Value): (r: Result<Overlay>)
    ensures r != Err(OutOfFuel)
  {
    var bytes :- BytesOf(blocks, o, v);
    match BufferAt(o, h)
    case Some(slot) =>
      if slot.len <= MAX_BUFFER_BYTES then
        Ok(o.(buffers := o.buffers[h := Some(slot.(bytes := Fitted(bytes, slot.len)))]))
      else Err(InvalidState)
    case None => Err(InvalidState)
  }

  /** Each of these is one or two calls of the tables. */
  lemma FillIsOneCall(blocks: seq<seq<byte>>, o: Overlay, h: nat, v: Value)
    requires Sound(o) && BytesOf(blocks, o, v).Ok?
    ensures var e := Perform(o, CopyBytes(h, BytesOf(blocks, o, v).value));
            match FillBuffer(blocks, o, h, v)
            case Ok(o') => e.overlay == o' && e.reply == Done
            case Err(x) => e.reply == Failed(x)
  {
  }

  lemma NewPackageIsOneCall(o: Overlay, count: byte)
    requires Sound(o)
    ensures var e := Perform(o, CreatePackage(count));
            match NewPackage(o, count)
            case Ok(m) => e.overlay == m.overlay && e.reply == Made(m.handle)
            case Err(x) => e.reply == Failed(x)
  {
  }

  lemma NewBufferIsTwoCalls(o: Overlay, length: byte, raw: seq<byte>)
    requires Sound(o)
    ensures var e := Perform(o, CreateBuffer(length));
            match NewBuffer(o, length, raw)
            case Err(x) => e.reply == Failed(x)
            case Ok(m) =>
              && e.reply == Made(m.handle) && Sound(e.overlay)
              && var e' := Perform(e.overlay, CopyBytes(m.handle, raw)); e'.overlay == m.overlay && e'.reply == Done
  {
    PerformKeeps(o, CreateBuffer(length));
  }

  /** A filled buffer reads as the bytes of the value it was filled from, then zeros; others are untouched. */
  lemma FilledReads(width: Width, blocks: seq<seq<byte>>, o: Overlay, h: nat, v: Value, k: nat, other: Value)
    requires FillBuffer(blocks, o, h, v).Ok?
    ensures var o', bytes := FillBuffer(blocks, o, h, v).value, BytesOf(blocks, o, v).value;
            && BufferAt(o, h).Some?
            && ElementAt(width, Some(o'), BufferHandle(h), k)
               == (if k > U8_MAX then Err(Overflow) else if k >= BufferAt(o, h).value.len then Err(InvalidState)
                   else Ok(Reduced(if k < |bytes| then bytes[k] else 0, width)))
            && (other != BufferHandle(h) ==> ElementAt(width, Some(o'), other, k) == ElementAt(width, Some(o), other, k))
  {
  }
}
