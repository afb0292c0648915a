/**
 * The data port's datagrams: a descriptor handshake (the magic "DESC" and
 * the report descriptor), a gamepad report of 8 or 10 bytes, or anything
 * else, which is dropped.
 */
module Datagram {
  import opened Bytes

  /** "DESC", the magic that opens a descriptor handshake. */
  const Magic: seq<byte> := Ascii("DESC")
  /** "DESC_OK", the acknowledgment of a handshake. */
  const DescOk: seq<byte> := Ascii("DESC_OK")
  /** The size of the read buffer of the data port. */
  const ReadBufferSize: int := 2048

  datatype Packet =
    | Handshake(descriptor: seq<byte>)
    | Report(report: seq<byte>)
    | Dropped(size: nat)

  /** The dispatch of `handleUDPMessages`: the magic test comes first, then
      the report lengths. */
  function Classify(data: seq<byte>): (p: Packet)
    ensures p.Handshake? ==> data == Magic + p.descriptor && p.descriptor != []
    ensures p.Report? ==> p.report == data && (|data| == 8 || |data| == 10)
    ensures p.Dropped? ==> p.size == |data| && |data| != 8 && |data| != 10
  {
    if |data| > 4 && data[..4] == Magic then Handshake(data[4..])
    else if |data| == 8 || |data| == 10 then Report(data)
    else Dropped(|data|)
  }

  /** The handshake datagram a client sends for a descriptor. */
  function HandshakePacket(desc: seq<byte>): (d: seq<byte>)
    ensures |d| == |desc| + 4
  {
    Magic + desc
  }

  /** A client's handshake is recognised and yields its descriptor intact,
      whatever its length, including 4 and 6 (which make packets of 8 and 10
      bytes): the magic test takes precedence over the report lengths. */
  lemma HandshakeRoundTrip(desc: seq<byte>)
    requires desc != []
    ensures Classify(HandshakePacket(desc)) == Handshake(desc)
  {
    assert HandshakePacket(desc)[..4] == Magic;
  }

  /** An 8- or 10-byte datagram is a report unless it begins with the magic;
      in particular every report that starts with a report-id byte other
      than 'D' is forwarded as a report. */
  lemma ReportRecognised(data: seq<byte>)
    requires |data| == 8 || |data| == 10
    ensures Classify(data) == Report(data) <==> data[..4] != Magic
    ensures data[0] != 'D' as int as byte ==> Classify(data) == Report(data)
  {
  }

  /** A datagram of 4 bytes or fewer is never a handshake, even "DESC" itself. */
  lemma ShortIsDropped(data: seq<byte>)
    requires |data| <= 4
    ensures Classify(data) == Dropped(|data|)
  {
  }

  /** A handshake read through the data port's buffer carries at most 2044
      descriptor bytes, well under the 4096 a CREATE2 event holds. */
  lemma HandshakeFitsBuffer(data: seq<byte>)
    requires |data| <= ReadBufferSize && Classify(data).Handshake?
    ensures |Classify(data).descriptor| <= ReadBufferSize - 4
  {
  }
}
