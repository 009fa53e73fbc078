/**
 * Value types shared by the whole shim: C integer widths, the NULL-able
 * pointer, the RMW return codes, RTPS GUIDs and sequence numbers, and the
 * 4-byte encapsulation header that every outgoing frame starts with.
 */
module Common {

  type byte = x: int | 0 <= x < 0x100
  type int32 = x: int | -0x8000_0000 <= x < 0x8000_0000
  type uint32 = x: int | 0 <= x < 0x1_0000_0000
  type int64 = x: int | -0x8000_0000_0000_0000 <= x < 0x8000_0000_0000_0000
  type size_t = x: int | 0 <= x < 0x1_0000_0000_0000_0000

  /** A block of bytes in memory: its length fits in a `size_t`. */
  type Bytes = s: seq<byte> | |s| < 0x1_0000_0000_0000_0000

  const TwoTo32: int := 0x1_0000_0000
  const TwoTo64: int := 0x1_0000_0000_0000_0000

  datatype Option<T> = None | Some(value: T)

  /** The subset of `rmw_ret_t` that the core returns. */
  datatype Ret = Ok | Error | Timeout | IncorrectRmwImplementation

  /** `static_cast<int32_t>` of an unsigned value: its low 32 bits in two's complement. */
  function ToInt32(x: nat): (r: int32)
    ensures x < 0x8000_0000 ==> r == x
    ensures (x - r) % TwoTo32 == 0
  {
    var m := x % TwoTo32;
    if m < 0x8000_0000 then m else m - TwoTo32
  }

  /** `size_t` arithmetic: a subtraction wraps modulo 2^64. */
  function SizeSub(a: nat, b: nat): (r: nat)
    requires a < TwoTo64
    ensures r < TwoTo64
    ensures b <= a ==> r == a - b
    ensures a < b <= TwoTo64 ==> r == TwoTo64 - (b - a)
  {
    (a - b) % TwoTo64
  }

  /**
   * An RTPS GUID: a 12-byte prefix followed in memory by a 4-byte entity id.
   * The shim copies 16 bytes starting at the prefix, so it reads and writes
   * both parts as one 16-byte block.
   */
  datatype GuidParts = GuidParts(prefix: seq<byte>, entityId: seq<byte>)

  /** `rtps::Guid_t`, whose two parts are fixed-size arrays. */
  type Guid = g: GuidParts | |g.prefix| == 12 && |g.entityId| == 4
    witness GuidParts(seq(12, _ => 0), seq(4, _ => 0))

  /** The 16 bytes of a GUID as they lie in memory. */
  function GuidBytes(g: Guid): (r: seq<byte>)
    ensures |r| == 16
    ensures forall k | 0 <= k < 12 :: r[k] == g.prefix[k]
    ensures forall k | 12 <= k < 16 :: r[k] == g.entityId[k - 12]
  {
    g.prefix + g.entityId
  }

  /** The GUID whose 16 in-memory bytes are `b`. */
  function GuidOfBytes(b: seq<byte>): (g: Guid)
    requires |b| == 16
    ensures g.prefix == b[..12] && g.entityId == b[12..]
  {
    GuidParts(b[..12], b[12..])
  }

  /** Reading a GUID's bytes back gives the GUID, and the other way round. */
  lemma GuidBytesRoundTrip(g: Guid, b: seq<byte>)
    requires |b| == 16
    ensures GuidOfBytes(GuidBytes(g)) == g
    ensures GuidBytes(GuidOfBytes(b)) == b
  {
    assert GuidBytes(g)[..12] == g.prefix;
    assert GuidBytes(g)[12..] == g.entityId;
    assert b[..12] + b[12..] == b;
  }

  /** `rtps::SequenceNumber_t`: a signed high word and an unsigned low word. */
  datatype SequenceNumber = SequenceNumber(high: int32, low: uint32)

  /**
   * `(int64_t) high << 32 | low`: the shift clears the low 32 bits, so the
   * bitwise OR with a 32-bit unsigned value is an addition. For a negative
   * `high` the two's complement value of the shifted word is `high * 2^32`.
   */
  function JoinSequenceNumber(sn: SequenceNumber): (r: int64)
    ensures r % TwoTo32 == sn.low
    ensures r / TwoTo32 == sn.high
    ensures r < 0 <==> sn.high < 0
  {
    DivModUnique(sn.high * TwoTo32 + sn.low, sn.high, sn.low);
    sn.high * TwoTo32 + sn.low
  }

  /**
   * `high = seq >> 32` (an arithmetic shift: floor division by 2^32) and
   * `low = seq & 0xFFFFFFFF` (the low 32 bits: the remainder modulo 2^32).
   */
  function SplitSequenceNumber(s: int64): (sn: SequenceNumber)
    ensures sn.high * TwoTo32 + sn.low == s
    ensures 0 <= s <==> 0 <= sn.high
  {
    SequenceNumber(s / TwoTo32, s % TwoTo32)
  }

  /** Splitting and joining again gives back every 64-bit sequence id. */
  lemma JoinSplit(s: int64)
    ensures JoinSequenceNumber(SplitSequenceNumber(s)) == s
  {
  }

  /** Joining and splitting again gives back every sequence number. */
  lemma SplitJoin(sn: SequenceNumber)
    ensures SplitSequenceNumber(JoinSequenceNumber(sn)) == sn
  {
    var s := JoinSequenceNumber(sn);
    DivModUnique(s, sn.high, sn.low);
  }

  lemma DivModUnique(s: int, q: int, r: int)
    requires 0 <= r < TwoTo32 && s == q * TwoTo32 + r
    ensures s / TwoTo32 == q && s % TwoTo32 == r
  {
  }

  /**
   * What a writer's `newChange` is handed: the bytes of the frame and, for
   * a response, the GUID and sequence number of the request it answers.
   */
  datatype Outgoing = Outgoing(data: seq<byte>, relatedGuid: Option<Guid>, relatedSn: Option<SequenceNumber>)

  /** The CDR encapsulation header written in front of every outgoing payload. */
  const EncapsulationHeader: seq<byte> := [0, 1, 0, 0]

  /** The four writes of the encapsulation header in front of the codec's output. */
  method WriteHeader(buffer: array<byte>)
    requires 4 <= buffer.Length
    modifies buffer
    ensures buffer[..4] == EncapsulationHeader
    ensures buffer[4..] == old(buffer[4..])
  {
    buffer[0] := 0;
    buffer[1] := 1;
    buffer[2] := 0;
    buffer[3] := 0;
  }

  /**
   * The codec's output `payload` placed behind the header, and the size
   * handed to the writer: the serialized length plus 4.
   */
  method WritePayload(buffer: array<byte>, payload: seq<byte>) returns (size: nat)
    requires |payload| + 4 <= buffer.Length
    modifies buffer
    ensures size == |payload| + 4
    ensures buffer[..4] == old(buffer[..4]) && buffer[4..size] == payload
    ensures buffer[size..] == old(buffer[size..])
  {
    var i := 0;
    while i < |payload|
      invariant 0 <= i <= |payload|
      invariant buffer[..4] == old(buffer[..4])
      invariant buffer[4..4 + i] == payload[..i]
      invariant buffer[4 + |payload|..] == old(buffer[4 + |payload|..])
    {
      buffer[4 + i] := payload[i];
      i := i + 1;
    }
    size := |payload| + 4;
  }

  /**
   * The framing shared by every outgoing message: the header, then, if the
   * codec succeeded (`serialized` is its output), the payload. Returns the
   * size handed to `newChange`, or None when the codec failed.
   */
  method WriteFrame(buffer: array<byte>, serialized: Option<seq<byte>>) returns (size: Option<nat>)
    requires serialized.Some? ==> |serialized.value| + 4 <= buffer.Length
    requires 4 <= buffer.Length
    modifies buffer
    ensures size.Some? <==> serialized.Some?
    ensures buffer[..4] == EncapsulationHeader
    ensures serialized.Some? ==>
      && size.value == |serialized.value| + 4
      && buffer[..size.value] == EncapsulationHeader + serialized.value
      && buffer[size.value..] == old(buffer[size.value..])
    ensures serialized.None? ==> buffer[4..] == old(buffer[4..])
  {
    WriteHeader(buffer);
    size := None;
    if serialized.Some? {
      var n := WritePayload(buffer, serialized.value);
      size := Some(n);
      assert buffer[..n] == buffer[..4] + buffer[4..n];
    }
  }

  /**
   * `std::copy(src + from, src + to, dst + at)`: copies `src[from..to]` into
   * `dst[at..]`, leaving every other element of `dst` as it was.
   */
  method CopyRange(src: seq<byte>, from: nat, to: nat, dst: array<byte>, at: nat)
    requires from <= to <= |src| && at + (to - from) <= dst.Length
    modifies dst
    ensures dst[at..at + (to - from)] == src[from..to]
    ensures forall k | 0 <= k < dst.Length && !(at <= k < at + (to - from)) :: dst[k] == old(dst[k])
  {
    var i := 0;
    while i < to - from
      invariant 0 <= i <= to - from
      invariant dst[at..at + i] == src[from..from + i]
      invariant forall k | 0 <= k < dst.Length && !(at <= k < at + i) :: dst[k] == old(dst[k])
    {
      dst[at + i] := src[from + i];
      i := i + 1;
    }
  }

  /**
   * The three `std::copy` calls the shim uses to move a 16-byte GUID:
   * bytes 0..12, then 12..15, then 15..16.
   */
  method CopyGuid(src: seq<byte>, dst: array<byte>)
    requires |src| == 16 && dst.Length >= 16
    modifies dst
    ensures dst[..16] == src
    ensures dst[16..] == old(dst[16..])
  {
    CopyRange(src, 0, 12, dst, 0);
    CopyRange(src, 12, 15, dst, 12);
    CopyRange(src, 15, 16, dst, 15);
    assert dst[..16] == dst[0..12] + dst[12..15] + dst[15..16];
    assert src == src[0..12] + src[12..15] + src[15..16];
  }
}
