/**
 * The ReadForward host script: decodes multi-hop telemetry packets, converts every hop's raw
 * sample with the calibration for the packet's reading type and posts one record per hop.
 */
module ReadForward {
  import opened Wrappers
  import opened Bytes
  import opened Layout
  import Calibration

  /** Active-message type of ReadForward packets. */
  const AmReadForward: nat := 0x93

  /** Sensor-id slots in a packet (`NREADINGS`). */
  const IdSlots: nat := 5

  /** Raw-sample bytes in a packet (`2 * NREADINGS`). */
  const ReadingBytes: nat := 10

  /** Wire length of a ReadForward message. */
  const MsgLength: nat := 18

  /** The field list `ReadForwardMsg` declares, in wire order. */
  const MsgLayout: seq<Field> := [
    Field("rtype", 1), Field("group", 1), Field("hops", 1),
    Field("id", IdSlots), Field("readings", ReadingBytes)]

  /** Reading types and their wire values 0..4. */
  datatype RType = Temperature | Humidity | Visible | Infrared | Voltage

  function RTypeValue(t: RType): byte {
    match t
    case Temperature => 0
    case Humidity => 1
    case Visible => 2
    case Infrared => 3
    case Voltage => 4
  }

  /** `RType(v)`: the reading type with wire value `v`, if any. */
  function RTypeOf(v: int): (t: Option<RType>)
    ensures t.Some? <==> 0 <= v <= 4
    ensures t.Some? ==> RTypeValue(t.value) == v
  {
    if v == 0 then Some(Temperature)
    else if v == 1 then Some(Humidity)
    else if v == 2 then Some(Visible)
    else if v == 3 then Some(Infrared)
    else if v == 4 then Some(Voltage)
    else None
  }

  /** Every reading type is found again from its wire value. */
  lemma RTypeRoundTrip(t: RType)
    ensures RTypeOf(RTypeValue(t)) == Some(t)
  {
  }

  /** The fields of a decoded `ReadForwardMsg`, looked up by name in the script. */
  datatype ReadForwardMsg = ReadForwardMsg(
    rtype: byte, group: byte, hops: byte, id: seq<byte>, readings: seq<byte>)

  /** The blobs have the widths the layout declares. */
  predicate WellFormed(m: ReadForwardMsg) {
    |m.id| == IdSlots && |m.readings| == ReadingBytes
  }

  /** The declared layout puts the fields at bytes 0, 1, 2, 3..7 and 8..17: 18 bytes in all. */
  lemma MsgLayoutOffsets()
    ensures Offset(MsgLayout, 0) == 0 && Offset(MsgLayout, 1) == 1 && Offset(MsgLayout, 2) == 2
    ensures Offset(MsgLayout, 3) == 3 && Offset(MsgLayout, 4) == 8
    ensures Size(MsgLayout) == MsgLength
  {
  }

  /** `ReadForwardMsg(p.data)`: every field sliced out of the buffer by the declared layout. */
  function Decode(data: seq<byte>): (m: ReadForwardMsg)
    requires |data| == MsgLength
    ensures WellFormed(m)
  {
    MsgLayoutOffsets();
    ReadForwardMsg(
      IntValue(FieldBytes(MsgLayout, data, 0)),
      IntValue(FieldBytes(MsgLayout, data, 1)),
      IntValue(FieldBytes(MsgLayout, data, 2)),
      FieldBytes(MsgLayout, data, 3),
      FieldBytes(MsgLayout, data, 4))
  }

  /** The wire form of a message: its fields back to back in declared order. */
  function Encode(m: ReadForwardMsg): (data: seq<byte>)
    requires WellFormed(m)
    ensures |data| == MsgLength
  {
    [m.rtype, m.group, m.hops] + m.id + m.readings
  }

  /** Decoding reads each field at the offset the layout gives it. */
  lemma DecodeFields(data: seq<byte>)
    requires |data| == MsgLength
    ensures Decode(data) == ReadForwardMsg(data[0], data[1], data[2], data[3..8], data[8..18])
  {
  }

  /** Decoding an encoded message gives the message back. */
  lemma DecodeEncode(m: ReadForwardMsg)
    requires WellFormed(m)
    ensures Decode(Encode(m)) == m
  {
  }

  /** Encoding a decoded buffer gives the buffer back: no byte is dropped or moved. */
  lemma EncodeDecode(data: seq<byte>)
    requires |data| == MsgLength
    ensures Encode(Decode(data)) == data
  {
  }

  /** The `Telosb` converters `package` can hand to `get_readings`. */
  datatype Converter = GetTemperature | GetHumidity | GetVisibleLight | GetInfraredLight | GetVoltage

  /**
   * A converter applied to a two-byte reading. `get_voltage` has no body, so it yields `None`;
   * the others combine the bytes with `bytes_to_int` and calibrate.
   */
  function Convert(c: Converter, reading: seq<byte>): (v: Option<real>)
    requires |reading| == 2
    ensures v.None? <==> c == GetVoltage
  {
    match c
    case GetTemperature => Some(Calibration.Temperature(BytesToInt(reading)))
    case GetHumidity => Some(Calibration.Humidity(BytesToInt(reading)))
    case GetVisibleLight => Some(Calibration.VisibleLight(BytesToInt(reading)))
    case GetInfraredLight => Some(Calibration.InfraredLight(BytesToInt(reading)))
    case GetVoltage => None
  }

  /** The converter meant for each reading type: the reference dispatch table. */
  function KindConverter(t: RType): Converter {
    match t
    case Temperature => GetTemperature
    case Humidity => GetHumidity
    case Visible => GetVisibleLight
    case Infrared => GetInfraredLight
    case Voltage => GetVoltage
  }

  /** `package`'s if/elif chain comparing `rtype` with each `RType` value in turn. */
  function ConverterFor(rtype: byte): Option<Converter> {
    if rtype == RTypeValue(Temperature) then Some(GetTemperature)
    else if rtype == RTypeValue(Humidity) then Some(GetHumidity)
    else if rtype == RTypeValue(Visible) then Some(GetVisibleLight)
    else if rtype == RTypeValue(Infrared) then Some(GetInfraredLight)
    else if rtype == RTypeValue(Voltage) then Some(GetVoltage)
    else None
  }

  /** The if/elif chain selects exactly what the dispatch table does, and nothing for other types. */
  lemma ConverterForMatchesTable(rtype: byte)
    ensures ConverterFor(rtype).None? <==> RTypeOf(rtype).None?
    ensures RTypeOf(rtype).Some? ==> ConverterFor(rtype) == Some(KindConverter(RTypeOf(rtype).value))
  {
  }

  /** What `get_readings` and `main` raise: `IndexError` and `TypeError`. */
  datatype Error = IndexError | TypeError

  /** One posted reading: the dict built for each hop. */
  datatype Record = Record(sensorid: byte, groupid: byte, rtypeid: byte, ts: real, val: Option<real>)

  /** Hop `i`'s two-byte window: `[readings[i], readings[i+1]]`, one byte past the previous one. */
  function Window(m: ReadForwardMsg, i: nat): (w: seq<byte>)
    requires WellFormed(m) && i < IdSlots
    ensures |w| == 2
  {
    [m.readings[i], m.readings[i + 1]]
  }

  /** Consecutive hops share a byte: the windows overlap rather than tile the readings blob. */
  lemma WindowsOverlap(m: ReadForwardMsg, i: nat)
    requires WellFormed(m) && i + 1 < IdSlots
    ensures Window(m, i)[1] == Window(m, i + 1)[0] == m.readings[i + 1]
  {
  }

  /** The record `get_readings` builds for hop `i`; `clock(n)` is the `n`-th `time.time()` reading. */
  function HopRecord(m: ReadForwardMsg, c: Converter, clock: nat -> real, base: nat, i: nat): Record
    requires WellFormed(m) && i < IdSlots
  {
    Record(m.id[i], m.group, m.rtype, clock(base + i), Convert(c, Window(m, i)))
  }

  /**
   * `get_readings(packet, converter)` as a value: one record per hop in hop order, or the
   * `IndexError` that `id[5]` raises when the packet claims more hops than it has id slots.
   */
  function Readings(m: ReadForwardMsg, c: Converter, clock: nat -> real, base: nat): Result<seq<Record>, Error>
    requires WellFormed(m)
  {
    if m.hops <= IdSlots then
      Ok(seq(m.hops, i requires 0 <= i < m.hops => HopRecord(m, c, clock, base, i)))
    else
      Err(IndexError)
  }

  /** `get_readings`: the `for i in range(hops)` loop appending one dict per hop. */
  method GetReadings(m: ReadForwardMsg, c: Converter, clock: nat -> real, base: nat)
    returns (r: Result<seq<Record>, Error>)
    requires WellFormed(m)
    ensures r.Ok? <==> m.hops <= IdSlots
    ensures r.Err? ==> r.error == IndexError
    ensures r.Ok? ==> |r.value| == m.hops
    ensures r.Ok? ==> forall i :: 0 <= i < |r.value| ==>
      && r.value[i].sensorid == m.id[i]
      && r.value[i].groupid == m.group
      && r.value[i].rtypeid == m.rtype
      && r.value[i].ts == clock(base + i)
      && r.value[i].val == Convert(c, [m.readings[i], m.readings[i + 1]])
    ensures r == Readings(m, c, clock, base)
  {
    var readings: seq<Record> := [];
    for i := 0 to m.hops
      invariant |readings| == i <= IdSlots
      invariant forall k :: 0 <= k < i ==> readings[k] == HopRecord(m, c, clock, base, k)
    {
      if i >= |m.id| {
        return Err(IndexError);
      }
      var reading := Record(m.id[i], m.group, m.rtype, clock(base + i),
                            Convert(c, [m.readings[i], m.readings[i + 1]]));
      readings := readings + [reading];
    }
    assert readings == seq(m.hops, i requires 0 <= i < m.hops => HopRecord(m, c, clock, base, i));
    return Ok(readings);
  }

  /**
   * `package(msg)`: `Ok(None)` for an unknown reading type, the records of `get_readings` with
   * the type's converter otherwise, or the `IndexError` it raised.
   */
  function Package(m: ReadForwardMsg, clock: nat -> real, base: nat): (r: Result<Option<seq<Record>>, Error>)
    requires WellFormed(m)
  {
    match ConverterFor(m.rtype)
    case None => Ok(None)
    case Some(c) =>
      match Readings(m, c, clock, base)
      case Ok(rs) => Ok(Some(rs))
      case Err(e) => Err(e)
  }

  /**
   * What `package` yields, by reading type and hop count: `None` exactly for types outside 0..4,
   * `IndexError` exactly for known types with more than five hops, and otherwise one record per
   * hop, converted with the type's converter from its window; VOLTAGE values are `None`.
   */
  lemma PackageOutcome(m: ReadForwardMsg, clock: nat -> real, base: nat)
    requires WellFormed(m)
    ensures Package(m, clock, base) == Ok(None) <==> m.rtype > 4
    ensures Package(m, clock, base).Err? <==> m.rtype <= 4 && m.hops > IdSlots
    ensures Package(m, clock, base).Err? ==> Package(m, clock, base).error == IndexError
    ensures match Package(m, clock, base)
      case Ok(Some(rs)) =>
        && RTypeOf(m.rtype).Some?
        && |rs| == m.hops
        && forall i :: 0 <= i < |rs| ==>
             && rs[i].sensorid == m.id[i] && rs[i].groupid == m.group && rs[i].rtypeid == m.rtype
             && rs[i].val == Convert(KindConverter(RTypeOf(m.rtype).value), Window(m, i))
             && (rs[i].val.None? <==> m.rtype == RTypeValue(Voltage))
      case _ => true
  {
  }

  /** `p and p.type == AM_READFORWARD`. */
  predicate Matches(p: Option<RawPacket>) {
    p.Some? && p.value.amType == AmReadForward
  }

  /** Every ReadForward packet in the stream carries a full 18-byte message. */
  predicate Framed(arrivals: seq<Option<RawPacket>>) {
    forall k :: 0 <= k < |arrivals| && Matches(arrivals[k]) ==> |arrivals[k].value.data| == MsgLength
  }

  /** The body of the `if` in `main` for one ReadForward packet: the records it posts, or why it stops `main`. */
  function Forward(data: seq<byte>, clock: nat -> real, base: nat): Result<seq<Record>, Error>
    requires |data| == MsgLength
  {
    match Package(Decode(data), clock, base)
    case Err(e) => Err(e)
    case Ok(None) => Err(TypeError)  // `for reading in None`
    case Ok(Some(rs)) => Ok(rs)
  }

  /** A ReadForward payload that ends `main` with an exception. */
  predicate Crashes(data: seq<byte>)
    requires |data| == MsgLength
  {
    data[0] > 4 || data[2] > IdSlots
  }

  /** Forwarding fails exactly on crashing payloads, with `TypeError` for an unknown type. */
  lemma ForwardFails(data: seq<byte>, clock: nat -> real, base: nat)
    requires |data| == MsgLength
    ensures Forward(data, clock, base).Err? <==> Crashes(data)
    ensures Forward(data, clock, base).Err? ==>
      Forward(data, clock, base).error == if data[0] > 4 then TypeError else IndexError
  {
  }

  /**
   * What a ReadForward packet that does not crash posts: one record per hop, stamped with the
   * clock readings that follow `base`, tagged with the packet's known type, and carrying a value
   * unless the type is VOLTAGE.
   */
  lemma ForwardRecords(data: seq<byte>, clock: nat -> real, base: nat)
    requires |data| == MsgLength && !Crashes(data)
    ensures Forward(data, clock, base).Ok?
    ensures |Forward(data, clock, base).value| == data[2]
    ensures forall i :: 0 <= i < |Forward(data, clock, base).value| ==>
      var rec := Forward(data, clock, base).value[i];
      && rec.sensorid == data[3 + i] && rec.groupid == data[1] && rec.rtypeid == data[0] <= 4
      && rec.ts == clock(base + i)
      && (rec.val.None? <==> rec.rtypeid == RTypeValue(Voltage))
  {
  }

  /** A one-hop TEMPERATURE packet from sensor 7 in group 3 with sample 2000 posts exactly one record. */
  lemma SingleHopTemperature(clock: nat -> real, base: nat)
    ensures Forward([0, 3, 1, 7, 0, 0, 0, 0, 0x07, 0xD0, 0, 0, 0, 0, 0, 0, 0, 0], clock, base)
         == Ok([Record(7, 3, 0, clock(base), Some(Calibration.Temperature(2000)))])
  {
    var data: seq<byte> := [0, 3, 1, 7, 0, 0, 0, 0, 0x07, 0xD0, 0, 0, 0, 0, 0, 0, 0, 0];
    DecodeFields(data);
    var m := Decode(data);
    assert m.rtype == 0 && m.hops == 1 && m.id[0] == 7 && Window(m, 0) == [0x07, 0xD0];
    assert BytesToInt([0x07, 0xD0]) == 2000;
    var rs := Readings(m, GetTemperature, clock, base).value;
    assert rs == [Record(7, 3, 0, clock(base), Some(Calibration.Temperature(2000)))] by {
      assert |rs| == 1 && rs[0] == HopRecord(m, GetTemperature, clock, base, 0);
    }
  }

  /**
   * Two hops whose samples go out as 2000 and 3000 (bytes 07 D0 0B B8): the second hop is read
   * from bytes D0 0B, the low byte of the first sample and the high byte of the second.
   */
  lemma TwoHopOverlap(clock: nat -> real, base: nat)
    ensures Forward([0, 3, 2, 7, 8, 0, 0, 0, 0x07, 0xD0, 0x0B, 0xB8, 0, 0, 0, 0, 0, 0], clock, base)
         == Ok([Record(7, 3, 0, clock(base), Some(Calibration.Temperature(2000))),
                Record(8, 3, 0, clock(base + 1), Some(Calibration.Temperature(0xD00B)))])
  {
    var data: seq<byte> := [0, 3, 2, 7, 8, 0, 0, 0, 0x07, 0xD0, 0x0B, 0xB8, 0, 0, 0, 0, 0, 0];
    DecodeFields(data);
    var m := Decode(data);
    assert m.rtype == 0 && m.hops == 2 && m.id[0] == 7 && m.id[1] == 8;
    assert Window(m, 0) == [0x07, 0xD0] && Window(m, 1) == [0xD0, 0x0B];
    assert BytesToInt([0x07, 0xD0]) == 2000 && BytesToInt([0xD0, 0x0B]) == 0xD00B;
    var rs := Readings(m, GetTemperature, clock, base).value;
    assert rs == [Record(7, 3, 0, clock(base), Some(Calibration.Temperature(2000))),
                  Record(8, 3, 0, clock(base + 1), Some(Calibration.Temperature(0xD00B)))] by {
      assert |rs| == 2;
      assert rs[0] == HopRecord(m, GetTemperature, clock, base, 0);
      assert rs[1] == HopRecord(m, GetTemperature, clock, base, 1);
    }
  }

  /** How `main`'s loop ended: the budget was met, an exception escaped, or the arrivals ran out. */
  datatype Status = Done | Crashed(error: Error) | Listening

  /** ReadForward packets among `arrivals`. */
  function CountMatching(arrivals: seq<Option<RawPacket>>): nat {
    if arrivals == [] then 0
    else CountMatching(arrivals[..|arrivals| - 1]) + if Matches(arrivals[|arrivals| - 1]) then 1 else 0
  }

  /** Messages posted by the loop for `arrivals`, in order; crashing packets post nothing. */
  function Posted(arrivals: seq<Option<RawPacket>>, clock: nat -> real): seq<Record>
    requires Framed(arrivals)
  {
    if arrivals == [] then []
    else
      var prev := Posted(arrivals[..|arrivals| - 1], clock);
      var p := arrivals[|arrivals| - 1];
      if Matches(p) then
        match Forward(p.value.data, clock, |prev|)
        case Ok(rs) => prev + rs
        case Err(_) => prev
      else prev
  }

  /**
   * `main`'s `while sent < packets` loop over the packets `am.read()` returns (`None` when nothing
   * arrived). `sent` counts the ReadForward packets handled, whatever their hop count; every
   * record they yield is posted, in order; the loop stops as soon as `sent` reaches `packets`,
   * or when an exception escapes from handling a packet.
   */
  method Run(arrivals: seq<Option<RawPacket>>, packets: int, clock: nat -> real)
    returns (posted: seq<Record>, sent: nat, consumed: nat, status: Status)
    requires Framed(arrivals)
    ensures consumed <= |arrivals|
    ensures sent == CountMatching(arrivals[..consumed])
    ensures posted == Posted(arrivals[..consumed], clock)
    ensures forall k :: 0 <= k < consumed && Matches(arrivals[k]) ==> !Crashes(arrivals[k].value.data)
    ensures status.Done? <==> sent >= packets
    ensures status.Done? ==> sent == if packets <= 0 then 0 else packets
    ensures status.Done? && consumed > 0 ==> Matches(arrivals[consumed - 1])
    ensures status.Crashed? ==>
      && consumed < |arrivals| && Matches(arrivals[consumed]) && Crashes(arrivals[consumed].value.data)
      && status.error == if arrivals[consumed].value.data[0] > 4 then TypeError else IndexError
    ensures status.Listening? ==> consumed == |arrivals|
  {
    posted, sent, consumed := [], 0, 0;
    while sent < packets && consumed < |arrivals|
      invariant consumed <= |arrivals|
      invariant sent == CountMatching(arrivals[..consumed])
      invariant posted == Posted(arrivals[..consumed], clock)
      invariant forall k :: 0 <= k < consumed && Matches(arrivals[k]) ==> !Crashes(arrivals[k].value.data)
      invariant sent == 0 || sent <= packets
      invariant consumed > 0 && sent >= packets ==> Matches(arrivals[consumed - 1])
    {
      var p := arrivals[consumed];
      assert arrivals[..consumed + 1][..consumed] == arrivals[..consumed];
      assert arrivals[..consumed + 1][consumed] == p;
      if p.Some? && p.value.amType == AmReadForward {
        var msg := Decode(p.value.data);
        ForwardFails(p.value.data, clock, |posted|);
        var pkg := Package(msg, clock, |posted|);
        if pkg.Err? {
          return posted, sent, consumed, Crashed(pkg.error);
        }
        if pkg.value.None? {
          return posted, sent, consumed, Crashed(TypeError);
        }
        var recs := pkg.value.value;
        ghost var before := posted;
        for j := 0 to |recs|
          invariant posted == before + recs[..j]
        {
          posted := posted + [recs[j]];
        }
        assert recs[..|recs|] == recs;
        sent := sent + 1;
      }
      consumed := consumed + 1;
    }
    status := if sent >= packets then Done else Listening;
  }

  /** Counting distributes over concatenation of the packet stream. */
  lemma {:induction false} CountMatchingAppend(a: seq<Option<RawPacket>>, b: seq<Option<RawPacket>>)
    ensures CountMatching(a + b) == CountMatching(a) + CountMatching(b)
    decreases |b|
  {
    if b != [] {
      var b' := b[..|b| - 1];
      assert (a + b)[..|a + b| - 1] == a + b';
      CountMatchingAppend(a, b');
    } else {
      assert a + b == a;
    }
  }

  /** Packets of other types, and empty reads, do not count: only ReadForward packets do. */
  lemma {:induction false} CountMatchingIgnoresOthers(arrivals: seq<Option<RawPacket>>, p: Option<RawPacket>)
    ensures CountMatching([p] + arrivals) == CountMatching(arrivals) + if Matches(p) then 1 else 0
  {
    CountMatchingAppend([p], arrivals);
    assert [p][..0] == [];
  }

  /** Later packets only add messages: what was posted for a prefix stays a prefix of the posts. */
  lemma {:induction false} PostedPrefix(a: seq<Option<RawPacket>>, b: seq<Option<RawPacket>>, clock: nat -> real)
    requires Framed(a + b)
    ensures Framed(a) && Posted(a, clock) <= Posted(a + b, clock)
    decreases |b|
  {
    assert forall k :: 0 <= k < |a| ==> a[k] == (a + b)[k];
    if b == [] {
      assert a + b == a;
    } else {
      var b' := b[..|b| - 1];
      assert (a + b)[..|a + b| - 1] == a + b';
      assert forall k :: 0 <= k < |a + b'| ==> (a + b')[k] == (a + b)[k];
      PostedPrefix(a, b', clock);
    }
  }

  /** The `j`-th posted message carries the `j`-th clock reading: stamps follow posting order. */
  lemma {:induction false} PostedTimestamps(arrivals: seq<Option<RawPacket>>, clock: nat -> real)
    requires Framed(arrivals)
    ensures forall j :: 0 <= j < |Posted(arrivals, clock)| ==> Posted(arrivals, clock)[j].ts == clock(j)
  {
    if arrivals != [] {
      var init := arrivals[..|arrivals| - 1];
      var p := arrivals[|arrivals| - 1];
      assert Framed(init) by {
        assert forall k :: 0 <= k < |init| ==> init[k] == arrivals[k];
      }
      PostedTimestamps(init, clock);
      var prev := Posted(init, clock);
      if Matches(p) && !Crashes(p.value.data) {
        ForwardRecords(p.value.data, clock, |prev|);
        var rs: seq<Record> := Forward(p.value.data, clock, |prev|).value;
        assert Posted(arrivals, clock) == prev + rs;
        forall j | |prev| <= j < |prev| + |rs|
          ensures (prev + rs)[j].ts == clock(j)
        {
          assert (prev + rs)[j] == rs[j - |prev|];
        }
      } else if Matches(p) {
        ForwardFails(p.value.data, clock, |prev|);
        assert Posted(arrivals, clock) == prev;
      } else {
        assert Posted(arrivals, clock) == prev;
      }
    }
  }

  /**
   * Every posted message has a known reading type, and its value is `None` exactly when that
   * type is VOLTAGE.
   */
  lemma {:induction false} PostedKinds(arrivals: seq<Option<RawPacket>>, clock: nat -> real)
    requires Framed(arrivals)
    ensures forall rec :: rec in Posted(arrivals, clock) ==>
      rec.rtypeid <= 4 && (rec.val.None? <==> rec.rtypeid == RTypeValue(Voltage))
  {
    if arrivals != [] {
      var init := arrivals[..|arrivals| - 1];
      var p := arrivals[|arrivals| - 1];
      assert Framed(init) by {
        assert forall k :: 0 <= k < |init| ==> init[k] == arrivals[k];
      }
      PostedKinds(init, clock);
      var prev := Posted(init, clock);
      if Matches(p) && !Crashes(p.value.data) {
        ForwardRecords(p.value.data, clock, |prev|);
      } else if Matches(p) {
        ForwardFails(p.value.data, clock, |prev|);
      }
    }
  }

  /**
   * An empty (zero-hop) ReadForward packet of a known type still counts once towards the budget
   * but posts nothing.
   */
  lemma EmptyPacketCounts(arrivals: seq<Option<RawPacket>>, p: RawPacket, clock: nat -> real)
    requires Framed(arrivals + [Some(p)])
    requires p.amType == AmReadForward && |p.data| == MsgLength && p.data[0] <= 4 && p.data[2] == 0
    ensures CountMatching(arrivals + [Some(p)]) == CountMatching(arrivals) + 1
    ensures Posted(arrivals + [Some(p)], clock) == Posted(arrivals, clock)
  {
  }
}
