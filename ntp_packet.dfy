/**
 * The NTP datagrams of both time clients (RFC 5905, section 7.3): the fixed
 * 48-byte client request, and the decoding of the transmit timestamp's
 * seconds from bytes 40 to 43 of a reply, followed by the shift from the NTP
 * era (1900) to the Unix epoch (1970) on 32-bit `unsigned long`.
 */
module NtpPacket {
  import opened Arduino

  newtype byte = x: int | 0 <= x < 256

  const PacketSize: nat := 48

  /** Seconds from 1900-01-01 to 1970-01-01. */
  const SeventyYears: nat := 2208988800

  /**
   * `timePacket`: LI/VN/Mode byte 0b11100011, stratum 0, poll 6, precision
   * 0xEC, eight zero bytes of root delay and dispersion, the reference
   * identifier `31 4E 31 34`, and zeros for the four 64-bit timestamps.
   */
  function RequestPacket(): (p: seq<byte>)
    ensures |p| == PacketSize
  {
    [0xE3, 0, 6, 0xEC, 0, 0, 0, 0, 0, 0, 0, 0, 49, 0x4E, 49, 52] + seq(32, _ => 0)
  }

  /** The first byte of the request holds leap indicator 3, version 4 and mode 3 (client). */
  lemma RequestHeaderFields()
    ensures var b := RequestPacket()[0] as int;
      b / 64 == 3 && b / 8 % 8 == 4 && b % 8 == 3
  {
  }

  /** The request is `E3 00 06 EC`, eight zero bytes, `31 4E 31 34`, then zeros to 48 bytes. */
  lemma RequestLayout()
    ensures var p := RequestPacket();
      && p[..4] == [0xE3, 0, 6, 0xEC]
      && (forall k :: 4 <= k < 12 ==> p[k] == 0)
      && p[12..16] == [0x31, 0x4E, 0x31, 0x34]
      && (forall k :: 16 <= k < PacketSize ==> p[k] == 0)
  {
  }

  /**
   * Arduino's `word(high, low)`, `(high << 8) | low`: as `low` is below 256
   * the bitwise or adds it.
   */
  function Word(high: byte, low: byte): (w: nat)
    ensures w < 0x1_0000
  {
    high as nat * 256 + low as nat
  }

  /**
   * `highWord << 16 | lowWord` with `highWord = word(p[40], p[41])` and
   * `lowWord = word(p[42], p[43])`, on 32-bit `unsigned long` (the low word
   * is below 2^16, so the or adds it).  Nothing else of the reply (leap
   * indicator, stratum, origin timestamp) is looked at.
   */
  function SecondsSince1900(p: seq<byte>): (secs: nat)
    requires |p| >= 44
    ensures secs < Uint32Modulus
  {
    Word(p[40], p[41]) * 0x1_0000 + Word(p[42], p[43])
  }

  /** The timestamp is the big-endian number b40·2^24 + b41·2^16 + b42·2^8 + b43. */
  lemma SecondsSince1900BigEndian(p: seq<byte>)
    requires |p| >= 44
    ensures SecondsSince1900(p)
      == p[40] as nat * 0x100_0000 + p[41] as nat * 0x1_0000 + p[42] as nat * 0x100 + p[43] as nat
  {
  }

  /** The four bytes a server puts at offsets 40 to 43 for `secs` (network byte order). */
  function TimestampBytes(secs: nat): (b: seq<byte>)
    requires secs < Uint32Modulus
    ensures |b| == 4
  {
    [(secs / 0x100_0000) as byte, (secs / 0x1_0000 % 256) as byte,
     (secs / 0x100 % 256) as byte, (secs % 256) as byte]
  }

  /** The four bytes, read back big-endian, give the number. */
  lemma TimestampBytesValue(secs: nat)
    requires secs < Uint32Modulus
    ensures var b := TimestampBytes(secs);
      b[0] as nat * 0x100_0000 + b[1] as nat * 0x1_0000 + b[2] as nat * 0x100 + b[3] as nat == secs
  {
    var q1, r1 := secs / 0x100, secs % 0x100;
    var q2, r2 := q1 / 0x100, q1 % 0x100;
    var q3, r3 := q2 / 0x100, q2 % 0x100;
    assert secs / 0x1_0000 == q2 && secs / 0x100_0000 == q3;
    assert secs == ((q3 * 0x100 + r3) * 0x100 + r2) * 0x100 + r1;
  }

  /** Decoding a reply whose transmit seconds are `TimestampBytes(secs)` gives back `secs`. */
  lemma DecodeTimestampBytes(prefix: seq<byte>, secs: nat, suffix: seq<byte>)
    requires |prefix| == 40 && secs < Uint32Modulus
    ensures SecondsSince1900(prefix + TimestampBytes(secs) + suffix) == secs
  {
    var p := prefix + TimestampBytes(secs) + suffix;
    SecondsSince1900BigEndian(p);
    assert p[40..44] == TimestampBytes(secs);
    TimestampBytesValue(secs);
  }

  /** `secsSince1900 - seventyYears` on 32-bit `unsigned long`. */
  function UnixEpoch(secs: nat): (epoch: nat)
    ensures epoch < Uint32Modulus
  {
    (secs - SeventyYears) % Uint32Modulus
  }

  /** From 1970 until the NTP era rolls over in 2036 the subtraction is exact. */
  lemma UnixEpochExact(secs: nat)
    requires SeventyYears <= secs < Uint32Modulus
    ensures UnixEpoch(secs) == secs - SeventyYears
  {
  }

  /** A timestamp before 1970 wraps around to a time after 2106. */
  lemma UnixEpochWraps(secs: nat)
    requires secs < SeventyYears
    ensures UnixEpoch(secs) == secs + Uint32Modulus - SeventyYears
    ensures UnixEpoch(secs) > Uint32Modulus - SeventyYears - 1
  {
  }

  /**
   * The reply with `83 AA 00 00` at bytes 40 to 43 decodes to 0x83AA0000
   * seconds since 1900; as that lies 32384 seconds before 1970, the epoch
   * wraps around to 2^32 - 32384.
   */
  lemma SampleReply(p: seq<byte>)
    requires |p| == PacketSize && p[40..44] == [0x83, 0xAA, 0x00, 0x00]
    ensures SecondsSince1900(p) == 0x83AA0000
    ensures UnixEpoch(SecondsSince1900(p)) == 4294934912
  {
    SecondsSince1900BigEndian(p);
    assert p[40] == 0x83 && p[41] == 0xAA && p[42] == 0 && p[43] == 0;
  }
}
