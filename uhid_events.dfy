/**
 * The events the server writes to and reads from the Linux user-space HID
 * device (`struct uhid_event` of the kernel header `linux/uhid.h`): a
 * little-endian u32 event type followed by a packed request. The server
 * builds CREATE2 (device creation with name, identifiers and the report
 * descriptor), INPUT2 (one input report) and DESTROY, and it reads back the
 * type word of the events the kernel sends.
 */
module Uhid {
  import opened Wrappers
  import opened Bytes

  /** The event types of `enum uhid_event_type`, in the kernel's order. */
  datatype EventType =
    | LegacyCreate | Destroy | Start | Stop | Open | Close | Output
    | LegacyOutputEv | LegacyInput | GetReport | GetReportReply
    | Create2 | Input2 | SetReport | SetReportReply

  /** The numeric value of an event type on the wire. */
  function Code(t: EventType): (c: int)
    ensures 0 <= c < 15
    ensures FromCode(c) == Some(t)
  {
    match t
    case LegacyCreate => 0
    case Destroy => 1
    case Start => 2
    case Stop => 3
    case Open => 4
    case Close => 5
    case Output => 6
    case LegacyOutputEv => 7
    case LegacyInput => 8
    case GetReport => 9
    case GetReportReply => 10
    case Create2 => 11
    case Input2 => 12
    case SetReport => 13
    case SetReportReply => 14
  }

  /** The event type a numeric value names, if any. */
  function FromCode(c: int): (t: Option<EventType>)
    ensures t.Some? <==> 0 <= c < 15
  {
    if c == 0 then Some(LegacyCreate)
    else if c == 1 then Some(Destroy)
    else if c == 2 then Some(Start)
    else if c == 3 then Some(Stop)
    else if c == 4 then Some(Open)
    else if c == 5 then Some(Close)
    else if c == 6 then Some(Output)
    else if c == 7 then Some(LegacyOutputEv)
    else if c == 8 then Some(LegacyInput)
    else if c == 9 then Some(GetReport)
    else if c == 10 then Some(GetReportReply)
    else if c == 11 then Some(Create2)
    else if c == 12 then Some(Input2)
    else if c == 13 then Some(SetReport)
    else if c == 14 then Some(SetReportReply)
    else None
  }

  /** Every value FromCode accepts is the code of the type it returns. */
  lemma FromCodeInverse(c: int)
    requires FromCode(c).Some?
    ensures Code(FromCode(c).value) == c
  {
  }

  // Layout of `struct uhid_event` with a `struct uhid_create2_req` payload.
  const MaxDescriptorSize: int := 4096
  const NameSize: int := 128
  const PhysSize: int := 64
  const UniqSize: int := 64
  const NameOffset: int := 4
  const PhysOffset: int := 132
  const UniqOffset: int := 196
  const RdSizeOffset: int := 260
  const BusOffset: int := 262
  const VendorOffset: int := 264
  const ProductOffset: int := 268
  const VersionOffset: int := 272
  const CountryOffset: int := 276
  const RdDataOffset: int := 280
  /** type (4) + name (128) + phys (64) + uniq (64) + rd_size (2) + bus (2)
      + vendor (4) + product (4) + version (4) + country (4) + rd_data (4096).
      INPUT2 events are written in a buffer of the same size. */
  const EventSize: int := 4376
  /** Offset of the report bytes in an INPUT2 event (after type and size). */
  const Input2DataOffset: int := 6
  /** `UHID_DATA_MAX`: the largest report an INPUT2 event carries. */
  const DataMax: int := 4096

  // The identity the server gives the virtual device.
  const DeviceName: seq<byte> := Ascii("AGamePad Virtual Controller")
  const Phys: seq<byte> := Ascii("uhid-agamepad")
  const Uniq: seq<byte> := Ascii("agamepad-001")
  const BusUsb: int := 0x03
  const Vendor: int := 0x046d
  const Product: int := 0x0000
  const Version: int := 0x0100
  const Country: int := 0

  datatype CreateError = DescriptorTooLarge(size: nat) | WriteFailed

  /** The CREATE2 event for a report descriptor, field by field in the order
      of `struct uhid_create2_req`. */
  function Create2Event(desc: seq<byte>): (e: seq<byte>)
    requires |desc| <= MaxDescriptorSize
    ensures |e| == EventSize
  {
    Le32(Code(Create2)) + Padded(DeviceName, NameSize) + Padded(Phys, PhysSize)
    + Padded(Uniq, UniqSize) + Le16(|desc|) + Le16(BusUsb) + Le32(Vendor)
    + Le32(Product) + Le32(Version) + Le32(Country) + Padded(desc, MaxDescriptorSize)
  }

  /** The INPUT2 event for a report: the size as a u16 (Go's `uint16(len(data))`
      truncates) and the report bytes, report-id byte included, copied at
      offset 6 of a zero-filled buffer of EventSize bytes. */
  function Input2Event(data: seq<byte>): (e: seq<byte>)
    ensures |e| == EventSize
  {
    Le32(Code(Input2)) + Le16(|data| % U16Limit)
    + Padded(CopiedPart(data, EventSize - Input2DataOffset), EventSize - Input2DataOffset)
  }

  /** The DESTROY event: the type word alone. */
  function DestroyEvent(): (e: seq<byte>)
    ensures |e| == 4
  {
    Le32(Code(Destroy))
  }

  /** The type of an event read from the kernel: the little-endian u32 in its
      first four bytes; reads shorter than four bytes carry no type. */
  function ReadEventType(read: seq<byte>): (t: Option<int>)
    ensures t.Some? <==> |read| >= 4
    ensures t.Some? ==> 0 <= t.value < U32Limit && Le32(t.value) == read[..4]
  {
    if |read| < 4 then None
    else
      Le32Inverse(read[..4]);
      Some(Le32Value(read[..4]))
  }

  /** Reading the type word back from any event that starts with an encoded
      type gives that type. */
  lemma ReadEventTypeOf(c: int, rest: seq<byte>)
    requires 0 <= c < U32Limit
    ensures ReadEventType(Le32(c) + rest) == Some(c)
  {
    assert (Le32(c) + rest)[..4] == Le32(c);
  }

  /** The fields of a CREATE2 request as the kernel reads them. */
  datatype Create2Request = Create2Request(
    name: seq<byte>, phys: seq<byte>, uniq: seq<byte>,
    bus: int, vendor: int, product: int, version: int, country: int,
    descriptor: seq<byte>)

  /** Reads a CREATE2 event by the offsets of `struct uhid_create2_req`: the
      three strings up to their NUL bytes, the numbers little-endian, and
      `rd_size` bytes of descriptor. */
  function DecodeCreate2(e: seq<byte>): Option<Create2Request>
  {
    if |e| < EventSize || ReadEventType(e) != Some(Code(Create2)) then None
    else
      var size := Le16Value(e[RdSizeOffset..BusOffset]);
      if size > MaxDescriptorSize then None
      else Some(Create2Request(
        CString(e[NameOffset..PhysOffset]), CString(e[PhysOffset..UniqOffset]),
        CString(e[UniqOffset..RdSizeOffset]),
        Le16Value(e[BusOffset..VendorOffset]), Le32Value(e[VendorOffset..ProductOffset]),
        Le32Value(e[ProductOffset..VersionOffset]), Le32Value(e[VersionOffset..CountryOffset]),
        Le32Value(e[CountryOffset..RdDataOffset]), e[RdDataOffset..RdDataOffset + size]))
  }

  /** Reads the report carried by an INPUT2 event: `size` bytes at offset 6. */
  function DecodeInput2(e: seq<byte>): Option<seq<byte>>
  {
    if |e| < Input2DataOffset || ReadEventType(e) != Some(Code(Input2)) then None
    else
      var size := Le16Value(e[4..Input2DataOffset]);
      if size > DataMax || Input2DataOffset + size > |e| then None
      else Some(e[Input2DataOffset..Input2DataOffset + size])
  }

  /** The middle part of a three-part concatenation, found by its offsets. */
  lemma SliceOfConcat(p: seq<byte>, x: seq<byte>, q: seq<byte>)
    ensures (p + x + q)[|p|..|p| + |x|] == x
  {
  }

  /** Where each field of a CREATE2 event lies: the type word 11, the three
      zero-padded strings, `rd_size` little-endian, bus USB, the vendor, product,
      version and country words little-endian, then the descriptor verbatim
      and zero bytes up to the end of the event. */
  lemma Create2Layout(desc: seq<byte>)
    requires |desc| <= MaxDescriptorSize
    ensures var e := Create2Event(desc);
      && e[..NameOffset] == [11, 0, 0, 0]
      && e[NameOffset..PhysOffset] == Padded(DeviceName, NameSize)
      && e[PhysOffset..UniqOffset] == Padded(Phys, PhysSize)
      && e[UniqOffset..RdSizeOffset] == Padded(Uniq, UniqSize)
      && e[RdSizeOffset..BusOffset] == [(|desc| % 256) as byte, (|desc| / 256) as byte]
      && e[BusOffset..VendorOffset] == [3, 0]
      && e[VendorOffset..ProductOffset] == [0x6d, 0x04, 0, 0]
      && e[ProductOffset..VersionOffset] == [0, 0, 0, 0]
      && e[VersionOffset..CountryOffset] == [0, 1, 0, 0]
      && e[CountryOffset..RdDataOffset] == [0, 0, 0, 0]
      && e[RdDataOffset..RdDataOffset + |desc|] == desc
      && forall i :: RdDataOffset + |desc| <= i < EventSize ==> e[i] == 0
  {
    var e := Create2Event(desc);
    var f0, f1, f2, f3 := Le32(Code(Create2)), Padded(DeviceName, NameSize), Padded(Phys, PhysSize), Padded(Uniq, UniqSize);
    var f4, f5, f6, f7 := Le16(|desc|), Le16(BusUsb), Le32(Vendor), Le32(Product);
    var f8, f9, f10 := Le32(Version), Le32(Country), Padded(desc, MaxDescriptorSize);
    assert e == f0 + f1 + f2 + f3 + f4 + f5 + f6 + f7 + f8 + f9 + f10;
    SliceOfConcat([], f0, f1 + f2 + f3 + f4 + f5 + f6 + f7 + f8 + f9 + f10);
    SliceOfConcat(f0, f1, f2 + f3 + f4 + f5 + f6 + f7 + f8 + f9 + f10);
    SliceOfConcat(f0 + f1, f2, f3 + f4 + f5 + f6 + f7 + f8 + f9 + f10);
    SliceOfConcat(f0 + f1 + f2, f3, f4 + f5 + f6 + f7 + f8 + f9 + f10);
    SliceOfConcat(f0 + f1 + f2 + f3, f4, f5 + f6 + f7 + f8 + f9 + f10);
    SliceOfConcat(f0 + f1 + f2 + f3 + f4, f5, f6 + f7 + f8 + f9 + f10);
    SliceOfConcat(f0 + f1 + f2 + f3 + f4 + f5, f6, f7 + f8 + f9 + f10);
    SliceOfConcat(f0 + f1 + f2 + f3 + f4 + f5 + f6, f7, f8 + f9 + f10);
    SliceOfConcat(f0 + f1 + f2 + f3 + f4 + f5 + f6 + f7, f8, f9 + f10);
    SliceOfConcat(f0 + f1 + f2 + f3 + f4 + f5 + f6 + f7 + f8, f9, f10);
    var head := f0 + f1 + f2 + f3 + f4 + f5 + f6 + f7 + f8 + f9;
    assert e == head + f10;
    assert e[RdDataOffset..] == f10;
  }

  /** The kernel reads back from a CREATE2 event exactly the identity the
      server put in it and the descriptor it was given. */
  lemma Create2RoundTrip(desc: seq<byte>)
    requires |desc| <= MaxDescriptorSize
    ensures DecodeCreate2(Create2Event(desc))
      == Some(Create2Request(DeviceName, Phys, Uniq, BusUsb, Vendor, Product, Version, Country, desc))
  {
    var e := Create2Event(desc);
    Create2Layout(desc);
    ReadEventTypeOf(Code(Create2), e[4..]);
    assert e == Le32(Code(Create2)) + e[4..];
    assert Le16Value(e[RdSizeOffset..BusOffset]) == |desc|;
    CStringOfPadded(DeviceName, NameSize);
    CStringOfPadded(Phys, PhysSize);
    CStringOfPadded(Uniq, UniqSize);
  }

  /** Where each field of an INPUT2 event lies: the type word 12, the report
      length little-endian, the report verbatim at offset 6 (report-id byte
      first), and zero bytes up to the end of the event. */
  lemma Input2Layout(data: seq<byte>)
    requires |data| <= EventSize - Input2DataOffset
    ensures var e := Input2Event(data);
      && e[..4] == [12, 0, 0, 0]
      && e[4..Input2DataOffset] == [(|data| % 256) as byte, (|data| / 256) as byte]
      && e[Input2DataOffset..Input2DataOffset + |data|] == data
      && forall i :: Input2DataOffset + |data| <= i < EventSize ==> e[i] == 0
  {
    var e := Input2Event(data);
    var f0, f1, f2 := Le32(Code(Input2)), Le16(|data| % U16Limit), Padded(data, EventSize - Input2DataOffset);
    assert e == f0 + f1 + f2;
    SliceOfConcat([], f0, f1 + f2);
    SliceOfConcat(f0, f1, f2);
    assert e[Input2DataOffset..] == f2;
  }

  /** The kernel reads back from an INPUT2 event exactly the report it
      carries, for every report up to UHID_DATA_MAX bytes. */
  lemma Input2RoundTrip(data: seq<byte>)
    requires |data| <= DataMax
    ensures DecodeInput2(Input2Event(data)) == Some(data)
  {
    var e := Input2Event(data);
    Input2Layout(data);
    ReadEventTypeOf(Code(Input2), e[4..]);
    assert e == Le32(Code(Input2)) + e[4..];
  }

  /** Go's `copy(dst[off:], src)` for a source that fits: the bytes of `src`
      replace those at `off`, the rest of the array is unchanged. */
  method WriteBytes(a: array<byte>, off: nat, src: seq<byte>)
    requires off + |src| <= a.Length
    modifies a
    ensures a[..] == old(a[..])[..off] + src + old(a[..])[off + |src|..]
  {
    var i := 0;
    while i < |src|
      invariant 0 <= i <= |src|
      invariant forall k :: 0 <= k < a.Length ==>
        a[k] == if off <= k < off + i then src[k - off] else old(a[k])
    {
      a[off + i] := src[i];
      i := i + 1;
    }
    assert a[..] == old(a[..])[..off] + src + old(a[..])[off + |src|..];
  }

  /** Writing `src` at the end of what is already written into a zero-filled
      remainder of `n` bytes leaves the rest zero. */
  lemma WriteAtFrontier(p: seq<byte>, src: seq<byte>, n: nat)
    requires |src| <= n
    ensures (p + Zeros(n))[..|p|] + src + (p + Zeros(n))[|p| + |src|..]
      == p + src + Zeros(n - |src|)
  {
    assert (p + Zeros(n))[..|p|] == p;
    assert (p + Zeros(n))[|p| + |src|..] == Zeros(n - |src|);
  }

  /** A string written at the frontier and the zeros after it, seen as a
      padded field of width `w`. */
  lemma FieldAtFrontier(p: seq<byte>, s: seq<byte>, w: nat, n: nat)
    requires |s| <= w <= n
    ensures p + s + Zeros(n - |s|) == p + Padded(s, w) + Zeros(n - w)
  {
    ZerosSplit(w - |s|, n - w);
  }

  /** `copy(a[off:off+width], src)` into the zero-filled part of a buffer whose
      first `off` bytes are `done`: the field holds `src` padded with zeros. */
  method WriteField(a: array<byte>, off: nat, ghost done: seq<byte>, src: seq<byte>, width: nat)
    requires |src| <= width && off + width <= a.Length
    requires |done| == off && a[..] == done + Zeros(a.Length - off)
    modifies a
    ensures a[..] == done + Padded(src, width) + Zeros(a.Length - |done| - width)
  {
    WriteBytes(a, off, src);
    WriteAtFrontier(done, src, a.Length - |done|);
    FieldAtFrontier(done, src, width, a.Length - |done|);
  }

  /** The single-byte stores of a little-endian number (`a[off] = byte(v & 0xFF)`,
      ...) into the zero-filled part of a buffer whose first `off` bytes are `done`. */
  method WriteWord(a: array<byte>, off: nat, ghost done: seq<byte>, src: seq<byte>)
    requires off + |src| <= a.Length
    requires |done| == off && a[..] == done + Zeros(a.Length - off)
    modifies a
    ensures a[..] == done + src + Zeros(a.Length - off - |src|)
  {
    WriteBytes(a, off, src);
    WriteAtFrontier(done, src, a.Length - off);
  }

  /** The name, phys and uniq fields of a CREATE2 event. */
  function IdentityFields(): seq<byte>
  {
    Padded(DeviceName, NameSize) + Padded(Phys, PhysSize) + Padded(Uniq, UniqSize)
  }

  /** The `rd_size`, bus, vendor, product, version and country fields of a
      CREATE2 event. */
  function DeviceNumbers(size: int): seq<byte>
    requires 0 <= size <= MaxDescriptorSize
  {
    Le16(size) + Le16(BusUsb) + Le32(Vendor) + Le32(Product) + Le32(Version) + Le32(Country)
  }

  /** A CREATE2 event in the four groups its encoder writes. */
  lemma Create2Fields(desc: seq<byte>)
    requires |desc| <= MaxDescriptorSize
    ensures Create2Event(desc) == Le32(Code(Create2)) + IdentityFields()
      + DeviceNumbers(|desc|) + Padded(desc, MaxDescriptorSize)
  {
  }

  /** The three `copy` calls of `createUHIDDeviceWithDescriptor` that fill
      the name, phys and uniq fields after the type word. */
  method WriteIdentityStrings(a: array<byte>, ghost done: seq<byte>)
    requires a.Length == EventSize && |done| == NameOffset
    requires a[..] == done + Zeros(EventSize - NameOffset)
    modifies a
    ensures a[..] == done + IdentityFields() + Zeros(EventSize - RdSizeOffset)
  {
    ghost var d := done;
    WriteField(a, NameOffset, d, DeviceName, NameSize);
    d := d + Padded(DeviceName, NameSize);
    WriteField(a, PhysOffset, d, Phys, PhysSize);
    d := d + Padded(Phys, PhysSize);
    WriteField(a, UniqOffset, d, Uniq, UniqSize);
    assert d + Padded(Uniq, UniqSize) == done + IdentityFields();
  }

  /** The byte stores of `createUHIDDeviceWithDescriptor` that fill `rd_size`,
      bus, vendor, product, version and country. */
  method WriteDeviceNumbers(a: array<byte>, ghost done: seq<byte>, size: int)
    requires 0 <= size <= MaxDescriptorSize
    requires a.Length == EventSize && |done| == RdSizeOffset
    requires a[..] == done + Zeros(EventSize - RdSizeOffset)
    modifies a
    ensures a[..] == done + DeviceNumbers(size) + Zeros(EventSize - RdDataOffset)
  {
    ghost var d := done;
    WriteWord(a, RdSizeOffset, d, Le16(size));
    d := d + Le16(size);
    WriteWord(a, BusOffset, d, Le16(BusUsb));
    d := d + Le16(BusUsb);
    WriteWord(a, VendorOffset, d, Le32(Vendor));
    d := d + Le32(Vendor);
    WriteWord(a, ProductOffset, d, Le32(Product));
    d := d + Le32(Product);
    WriteWord(a, VersionOffset, d, Le32(Version));
    d := d + Le32(Version);
    WriteWord(a, CountryOffset, d, Le32(Country));
    assert d + Le32(Country) == done + DeviceNumbers(size);
  }

  /** `createUHIDDeviceWithDescriptor` up to the write: refuses a descriptor
      longer than 4096 bytes, otherwise fills a zero buffer of EventSize bytes
      field by field. */
  method EncodeCreate2(desc: seq<byte>) returns (r: Result<array<byte>, CreateError>)
    ensures r.Failure? <==> |desc| > MaxDescriptorSize
    ensures r.Failure? ==> r.error == DescriptorTooLarge(|desc|)
    ensures r.Success? ==> r.value[..] == Create2Event(desc)
  {
    if |desc| > MaxDescriptorSize {
      return Failure(DescriptorTooLarge(|desc|));
    }
    var event := new byte[EventSize](_ => 0);
    assert event[..] == [] + Zeros(EventSize);
    WriteWord(event, 0, [], Le32(Code(Create2)));
    ghost var done := Le32(Code(Create2));
    WriteIdentityStrings(event, done);
    done := done + IdentityFields();
    WriteDeviceNumbers(event, done, |desc|);
    done := done + DeviceNumbers(|desc|);
    WriteField(event, RdDataOffset, done, desc, MaxDescriptorSize);
    assert event[..] == done + Padded(desc, MaxDescriptorSize) + [];
    Create2Fields(desc);
    return Success(event);
  }

  /** The INPUT2 block of `processGamepadInput`: type and size words, then
      `copy(event[6:], data)` into a zero buffer of EventSize bytes. */
  method EncodeInput2(data: seq<byte>) returns (event: array<byte>)
    ensures event[..] == Input2Event(data)
  {
    event := new byte[EventSize](_ => 0);
    ghost var done: seq<byte> := [];
    assert event[..] == done + Zeros(EventSize);
    WriteWord(event, 0, done, Le32(Code(Input2)));
    done := done + Le32(Code(Input2));
    WriteWord(event, 4, done, Le16(|data| % U16Limit));
    done := done + Le16(|data| % U16Limit);
    var copied := CopiedPart(data, EventSize - Input2DataOffset);
    WriteField(event, Input2DataOffset, done, copied, EventSize - Input2DataOffset);
    done := done + Padded(copied, EventSize - Input2DataOffset);
    assert event[..] == done + [];
  }

  /** `destroyUHIDDevice` up to the write: a four-byte event holding the
      DESTROY type word. */
  method EncodeDestroy() returns (event: array<byte>)
    ensures event[..] == DestroyEvent() == [1, 0, 0, 0]
  {
    event := new byte[4];
    event[0], event[1], event[2], event[3] := Code(Destroy) as byte, 0, 0, 0;
  }

  /** Each event the server builds carries its own type word. */
  lemma EventTypeWords(desc: seq<byte>, data: seq<byte>)
    requires |desc| <= MaxDescriptorSize
    ensures ReadEventType(Create2Event(desc)) == Some(Code(Create2))
    ensures ReadEventType(Input2Event(data)) == Some(Code(Input2))
    ensures ReadEventType(DestroyEvent()) == Some(Code(Destroy))
  {
    var c := Create2Event(desc);
    var i := Input2Event(data);
    assert c == Le32(Code(Create2)) + c[4..];
    assert i == Le32(Code(Input2)) + i[4..];
    ReadEventTypeOf(Code(Create2), c[4..]);
    ReadEventTypeOf(Code(Input2), i[4..]);
    ReadEventTypeOf(Code(Destroy), []);
    assert DestroyEvent() == Le32(Code(Destroy)) + [];
  }

  /** The kernel notification a read carries, by the numbering of
      `enum uhid_event_type`; None for reads shorter than four bytes and for
      unknown type words. */
  function Notification(read: seq<byte>): (n: Option<EventType>)
    ensures n.Some? ==> ReadEventType(read) == Some(Code(n.value))
  {
    match ReadEventType(read)
    case None => None
    case Some(t) => FromCode(t)
  }

  /** Every event is recognised by its own type word, whatever follows it. */
  lemma NotificationOfEvent(t: EventType, rest: seq<byte>)
    ensures Notification(Le32(Code(t)) + rest) == Some(t)
  {
    ReadEventTypeOf(Code(t), rest);
  }

  /** The event type `readUHIDEvents` names, in its switch, for a type word. */
  function NotificationAsWritten(t: int): Option<EventType>
  {
    if t == 0 then Some(Start)
    else if t == 1 then Some(Stop)
    else if t == 5 then Some(Open)
    else if t == 6 then Some(Close)
    else if t == 7 then Some(Output)
    else if t == 8 then Some(GetReport)
    else if t == 9 then Some(SetReport)
    else None
  }

  /** The switch's labels are shifted against the kernel's numbering: START (2),
      STOP (3) and OPEN (4) go unreported, CLOSE (5) is reported as an open,
      OUTPUT (6) as a close, GET_REPORT (9) as SET_REPORT, SET_REPORT (13) not
      at all, and the value 1 it calls STOP is DESTROY, which the kernel never
      sends. */
  lemma NotificationLabelsShifted()
    ensures NotificationAsWritten(Code(Start)) == None
    ensures NotificationAsWritten(Code(Stop)) == None
    ensures NotificationAsWritten(Code(Open)) == None
    ensures NotificationAsWritten(Code(Close)) == Some(Open)
    ensures NotificationAsWritten(Code(Output)) == Some(Close)
    ensures NotificationAsWritten(Code(GetReport)) == Some(SetReport)
    ensures NotificationAsWritten(Code(SetReport)) == None
    ensures NotificationAsWritten(Code(Destroy)) == Some(Stop)
  {
  }
}
