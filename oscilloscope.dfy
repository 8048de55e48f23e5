/**
 * The Oscilloscope host script: decodes oscilloscope packets, splits their readings blob into
 * two-byte samples and prints each as numbered visible-light lux.
 */
module Oscilloscope {
  import opened Wrappers
  import opened Bytes
  import opened Layout
  import Calibration

  /** Active-message type of oscilloscope packets. */
  const AmOscilloscope: nat := 0x93

  /** Bytes before the readings blob. */
  const HeaderLength: nat := 8

  /** The fixed-width fields `OscilloscopeMsg` declares; the `readings` blob takes the rest. */
  const HeaderLayout: seq<Field> := [
    Field("version", 2), Field("interval", 2), Field("id", 2), Field("count", 2)]

  /** A decoded `OscilloscopeMsg`. */
  datatype OscilloscopeMsg = OscilloscopeMsg(
    version: nat, interval: nat, id: nat, count: nat, readings: seq<byte>)

  /** The four 2-byte header fields sit at bytes 0, 2, 4 and 6, so the readings start at byte 8. */
  lemma HeaderLayoutOffsets()
    ensures Offset(HeaderLayout, 0) == 0 && Offset(HeaderLayout, 1) == 2
    ensures Offset(HeaderLayout, 2) == 4 && Offset(HeaderLayout, 3) == 6
    ensures Size(HeaderLayout) == HeaderLength
  {
  }

  /** `OscilloscopeMsg(p.data)`: the header fields by the declared layout, then the rest as readings. */
  function Decode(data: seq<byte>): (m: OscilloscopeMsg)
    requires |data| >= HeaderLength
    ensures |m.readings| == |data| - HeaderLength
  {
    HeaderLayoutOffsets();
    OscilloscopeMsg(
      IntValue(FieldBytes(HeaderLayout, data, 0)),
      IntValue(FieldBytes(HeaderLayout, data, 1)),
      IntValue(FieldBytes(HeaderLayout, data, 2)),
      IntValue(FieldBytes(HeaderLayout, data, 3)),
      data[Size(HeaderLayout)..])
  }

  /** Each header field is the big-endian pair at its offset, and the readings are bytes 8 onwards. */
  lemma DecodeFields(data: seq<byte>)
    requires |data| >= HeaderLength
    ensures Decode(data) == OscilloscopeMsg(
      BytesToInt(data[0..2]), BytesToInt(data[2..4]), BytesToInt(data[4..6]), BytesToInt(data[6..8]),
      data[8..])
  {
  }

  /**
   * The comprehension `[[r[j-1], r[j]] for j in range(1, len(r), 2)]`: `j` runs over the odd
   * indices below `len(r)`, so pair `k` is taken at `j = 2k + 1`.
   */
  function Pairs(r: seq<byte>): (ps: seq<seq<byte>>)
    ensures |ps| == |r| / 2
  {
    seq(|r| / 2, k requires 0 <= k < |r| / 2 => var j := 2 * k + 1; [r[j - 1], r[j]])
  }

  /** The bytes of a list of pairs, concatenated in order. */
  function Flatten(ps: seq<seq<byte>>): seq<byte> {
    if ps == [] then [] else Flatten(ps[..|ps| - 1]) + ps[|ps| - 1]
  }

  /** The first `n` pairs are exactly the first `2n` bytes, in order. */
  lemma {:induction false} FlattenPairsPrefix(r: seq<byte>, n: nat)
    requires n <= |r| / 2
    ensures Flatten(Pairs(r)[..n]) == r[..2 * n]
  {
    if n > 0 {
      var ps := Pairs(r)[..n];
      assert ps[..n - 1] == Pairs(r)[..n - 1];
      FlattenPairsPrefix(r, n - 1);
      assert ps[n - 1] == r[2 * n - 2..2 * n];
      assert r[..2 * n] == r[..2 * n - 2] + r[2 * n - 2..2 * n];
    }
  }

  /**
   * The pairs put back together give the readings blob: all of it when its length is even, all
   * but its last byte when odd.
   */
  lemma PairsReassemble(r: seq<byte>)
    ensures Flatten(Pairs(r)) == if |r| % 2 == 0 then r else r[..|r| - 1]
  {
    FlattenPairsPrefix(r, |r| / 2);
    assert Pairs(r)[..|r| / 2] == Pairs(r);
  }

  /**
   * Pairs do not overlap: byte `b` of the paired part of the blob is in pair `b / 2` only, at
   * position `b % 2`, and pair `k` is bytes `2k` and `2k + 1`.
   */
  lemma PairsPartition(r: seq<byte>)
    ensures forall k :: 0 <= k < |r| / 2 ==> Pairs(r)[k] == r[2 * k..2 * k + 2]
    ensures forall b :: 0 <= b < 2 * (|r| / 2) ==> Pairs(r)[b / 2][b % 2] == r[b]
  {
    forall k | 0 <= k < |r| / 2
      ensures Pairs(r)[k] == r[2 * k..2 * k + 2]
    {
      assert Pairs(r)[k] == [r[2 * k], r[2 * k + 1]];
    }
    forall b | 0 <= b < 2 * (|r| / 2)
      ensures Pairs(r)[b / 2][b % 2] == r[b]
    {
      var k, t := b / 2, b % 2;
      assert b == 2 * k + t && 0 <= t < 2;
      assert k < |r| / 2;
      assert Pairs(r)[k] == [r[2 * k], r[2 * k + 1]];
    }
  }

  /** One printed line: `Reading i: v LUX`, or the blank line after each packet. */
  datatype Line = ReadingLine(index: nat, lux: real) | Blank

  /** `Telosb.get_visible_light(reading)` on one pair. */
  function Lux(pair: seq<byte>): real
    requires |pair| == 2
  {
    Calibration.VisibleLight(BytesToInt(pair))
  }

  /** The readings of one packet, numbered from 1 in pair order. */
  function NumberedLines(pairs: seq<seq<byte>>): (lines: seq<Line>)
    requires forall k :: 0 <= k < |pairs| ==> |pairs[k]| == 2
  {
    seq(|pairs|, k requires 0 <= k < |pairs| => ReadingLine(k + 1, Lux(pairs[k])))
  }

  /** The `for reading in readings` loop that prints each pair with the counter `i`, from 1. */
  method NumberReadings(pairs: seq<seq<byte>>) returns (lines: seq<Line>)
    requires forall k :: 0 <= k < |pairs| ==> |pairs[k]| == 2
    ensures |lines| == |pairs|
    ensures forall k :: 0 <= k < |lines| ==> lines[k] == ReadingLine(k + 1, Lux(pairs[k]))
  {
    lines := [];
    var i := 1;
    for n := 0 to |pairs|
      invariant i == n + 1 && |lines| == n
      invariant forall k :: 0 <= k < n ==> lines[k] == ReadingLine(k + 1, Lux(pairs[k]))
    {
      lines := lines + [ReadingLine(i, Lux(pairs[n]))];
      i := i + 1;
    }
  }

  /** `p and p.type == AM_OSCILLOSCOPE`. */
  predicate Matches(p: Option<RawPacket>) {
    p.Some? && p.value.amType == AmOscilloscope
  }

  /** Every oscilloscope packet in the stream carries at least its header. */
  predicate Framed(arrivals: seq<Option<RawPacket>>) {
    forall k :: 0 <= k < |arrivals| && Matches(arrivals[k]) ==> |arrivals[k].value.data| >= HeaderLength
  }

  /** What one oscilloscope packet prints: its numbered readings and a blank line. */
  function PacketLines(data: seq<byte>): seq<Line>
    requires |data| >= HeaderLength
  {
    NumberedLines(Pairs(Decode(data).readings)) + [Blank]
  }

  /** Everything printed for a stream of reads; other packets and empty reads print nothing. */
  function Output(arrivals: seq<Option<RawPacket>>): seq<Line>
    requires Framed(arrivals)
  {
    if arrivals == [] then []
    else
      var p := arrivals[|arrivals| - 1];
      Output(arrivals[..|arrivals| - 1]) + if Matches(p) then PacketLines(p.value.data) else []
  }

  /** The oscilloscope packets of a stream, in arrival order. */
  function OnlyMatching(arrivals: seq<Option<RawPacket>>): (r: seq<Option<RawPacket>>)
    ensures forall k :: 0 <= k < |r| ==> Matches(r[k]) && r[k] in arrivals
    ensures forall k :: 0 <= k < |arrivals| && Matches(arrivals[k]) ==> arrivals[k] in r
  {
    if arrivals == [] then []
    else
      var p := arrivals[|arrivals| - 1];
      OnlyMatching(arrivals[..|arrivals| - 1]) + if Matches(p) then [p] else []
  }

  /** Filtering keeps arrival order: the filter of a concatenation is the concatenation of the filters. */
  lemma {:induction false} OnlyMatchingAppend(a: seq<Option<RawPacket>>, b: seq<Option<RawPacket>>)
    ensures OnlyMatching(a + b) == OnlyMatching(a) + OnlyMatching(b)
    decreases |b|
  {
    if b == [] {
      assert a + b == a;
    } else {
      var b' := b[..|b| - 1];
      assert (a + b)[..|a + b| - 1] == a + b';
      OnlyMatchingAppend(a, b');
    }
  }

  /** Only oscilloscope packets are decoded and printed: dropping every other read changes nothing. */
  lemma {:induction false} OutputIgnoresOthers(arrivals: seq<Option<RawPacket>>)
    requires Framed(arrivals)
    ensures Framed(OnlyMatching(arrivals))
    ensures Output(arrivals) == Output(OnlyMatching(arrivals))
  {
    if arrivals != [] {
      var init := arrivals[..|arrivals| - 1];
      var p := arrivals[|arrivals| - 1];
      assert Framed(init) by {
        assert forall k :: 0 <= k < |init| ==> init[k] == arrivals[k];
      }
      OutputIgnoresOthers(init);
      var f := OnlyMatching(arrivals);
      if Matches(p) {
        assert f[..|f| - 1] == OnlyMatching(init);
      } else {
        assert f == OnlyMatching(init);
      }
    }
  }

  /**
   * The script's `while True` loop over the packets `am.read()` returns (`None` when nothing
   * arrived): every oscilloscope packet is decoded, its readings paired and printed, then a
   * blank line.
   */
  method Listen(arrivals: seq<Option<RawPacket>>) returns (lines: seq<Line>)
    requires Framed(arrivals)
    ensures lines == Output(arrivals)
  {
    lines := [];
    for n := 0 to |arrivals|
      invariant lines == Output(arrivals[..n])
    {
      var p := arrivals[n];
      assert arrivals[..n + 1][..n] == arrivals[..n];
      if p.Some? && p.value.amType == AmOscilloscope {
        var msg := Decode(p.value.data);
        var readings := Pairs(msg.readings);
        var printed := NumberReadings(readings);
        assert printed == NumberedLines(readings);
        lines := lines + printed + [Blank];
      }
    }
    assert arrivals[..|arrivals|] == arrivals;
  }
}
