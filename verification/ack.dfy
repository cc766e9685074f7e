/** The release packet sent back to the mote after every datagram (main.go:265-274). */
module Ack {
  import opened Bytes

  /** Bytes in a release packet: three of read pointer, four of observer time. */
  const ACK_SIZE: nat := 7

  /** The release packet for `readPtr`: the pointer in three bytes, least
      significant first, then the observer's Unix seconds in four bytes, least
      significant first. Each byte is Go's `uint8` of a right shift, so the
      pointer is truncated to 24 bits and the time to 32. */
  function AckPacket(readPtr: int, nowSecs: int64): (pkt: seq<byte>)
    ensures |pkt| == ACK_SIZE
    ensures Le24(pkt[0], pkt[1], pkt[2]) == readPtr % TWO_24
    ensures Le32(pkt[3..7]) == nowSecs % TWO_32
  {
    Le24OfLowBytes(readPtr);
    Le32OfLowBytes(nowSecs);
    var pkt := [Low8(readPtr), Low8(readPtr / TWO_8), Low8(readPtr / TWO_16),
                Low8(nowSecs), Low8(nowSecs / TWO_8), Low8(nowSecs / TWO_16), Low8(nowSecs / TWO_24)];
    assert pkt[3..7] == [Low8(nowSecs), Low8(nowSecs / TWO_8), Low8(nowSecs / TWO_16), Low8(nowSecs / TWO_24)];
    pkt
  }

  /** Re-encoding a pointer read from three header bytes gives back those bytes. */
  lemma {:induction false} AckEchoesHeader(b0: byte, b1: byte, b2: byte, nowSecs: int64)
    ensures AckPacket(Le24(b0, b1, b2), nowSecs)[..3] == [b0, b1, b2]
  {
    var pkt := AckPacket(Le24(b0, b1, b2), nowSecs);
    var n := Le24(b0, b1, b2);
    assert Le24(pkt[0], pkt[1], pkt[2]) == n;
    assert pkt[0] == Low8(n) == b0;
    assert pkt[1] == Low8(n / TWO_8) == b1;
    assert pkt[2] == Low8(n / TWO_16) == b2;
  }
}
