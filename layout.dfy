/**
 * Packets as the serial transport delivers them, and the declared field lists the host scripts
 * hand to `tos.Packet` to decode them: each field is a name and a byte width, laid out back to
 * back in declaration order. `int` fields are read big-endian.
 */
module Layout {
  import opened Bytes

  /** A packet as `am.read()` returns it: its active-message type and payload. */
  datatype RawPacket = RawPacket(amType: nat, data: seq<byte>)

  /** One declared field: its name and how many bytes it takes on the wire. */
  datatype Field = Field(name: string, width: nat)

  /** Byte offset of field `k`: the widths of all fields declared before it. */
  function Offset(fields: seq<Field>, k: nat): nat
    requires k <= |fields|
  {
    if k == 0 then 0 else Offset(fields, k - 1) + fields[k - 1].width
  }

  /** Bytes taken by the whole field list. */
  function Size(fields: seq<Field>): nat {
    Offset(fields, |fields|)
  }

  /** Field `k` ends no later than the field list does. */
  lemma {:induction false} OffsetBound(fields: seq<Field>, k: nat, j: nat)
    requires k <= j <= |fields|
    ensures Offset(fields, k) <= Offset(fields, j)
    decreases j - k
  {
    if k < j {
      OffsetBound(fields, k, j - 1);
    }
  }

  /** The bytes of field `k` in a buffer at least as long as the layout. */
  function FieldBytes(fields: seq<Field>, data: seq<byte>, k: nat): (s: seq<byte>)
    requires k < |fields| && Size(fields) <= |data|
    ensures |s| == fields[k].width
  {
    OffsetBound(fields, k + 1, |fields|);
    data[Offset(fields, k)..Offset(fields, k) + fields[k].width]
  }

  /** A 1- or 2-byte `int` field, big-endian: the only integer widths the scripts declare. */
  function IntValue(s: seq<byte>): (r: nat)
    requires 1 <= |s| <= 2
    ensures |s| == 1 ==> r < 256
    ensures r < Uint16Limit
  {
    if |s| == 1 then s[0] else BytesToInt(s)
  }
}
