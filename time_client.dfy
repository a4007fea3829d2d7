/**
 * `TimeClient` (src/time/time_client.cpp): the older, synchronous NTP
 * client.  `update` sends the request, polls for the reply against a
 * deadline of its own, reads the reply into a zeroed 48-byte buffer and
 * decodes it whatever the read returned.  The formatters have no
 * synchronisation check.
 *
 * The UDP socket is a parameter: the `beginPacket` result, the sequence of
 * polls the loop makes (what `parsePacket` and `millis` answered) and the
 * bytes `read` delivers.  TimeLib's clock and the time zone conversion are
 * parameters as in the asynchronous client.
 */
module LegacyTime {
  import opened Arduino
  import opened Clock
  import opened NtpPacket
  import TimeFormat

  /** The reply wait gives up after this many milliseconds, whatever the configured timeout. */
  const ReplyTimeout: nat := 5000

  /** One turn of the wait loop: what `parsePacket()` answered and, if nothing, what `millis()` read. */
  datatype Poll = Poll(available: nat, now: Millis)

  /** The wait loop ends in these polls: some poll sees a packet or passes the deadline. */
  predicate Decides(polls: seq<Poll>, start: Millis)
  {
    exists k :: 0 <= k < |polls| && (polls[k].available != 0 || Expired(polls[k].now, start, ReplyTimeout))
  }

  /** Whether a packet is seen before the deadline passes. */
  function Arrives(polls: seq<Poll>, start: Millis): bool
  {
    if |polls| == 0 then false
    else if polls[0].available != 0 then true
    else if Expired(polls[0].now, start, ReplyTimeout) then false
    else Arrives(polls[1..], start)
  }

  /**
   * The loop's outcome: a packet arrives exactly when some poll sees one
   * and every poll before it is still within the deadline.
   */
  lemma {:induction false} ArrivesIff(polls: seq<Poll>, start: Millis)
    ensures Arrives(polls, start) <==>
      exists k :: 0 <= k < |polls| && polls[k].available != 0
        && forall j :: 0 <= j < k ==> polls[j].available == 0 && !Expired(polls[j].now, start, ReplyTimeout)
  {
    if |polls| > 0 {
      ArrivesIff(polls[1..], start);
      if Arrives(polls, start) && polls[0].available == 0 {
        var k :| 0 <= k < |polls[1..]| && polls[1..][k].available != 0
          && forall j :: 0 <= j < k ==> polls[1..][j].available == 0 && !Expired(polls[1..][j].now, start, ReplyTimeout);
        assert polls[k + 1].available != 0;
        forall j | 0 <= j < k + 1
          ensures polls[j].available == 0 && !Expired(polls[j].now, start, ReplyTimeout)
        {
          if j > 0 {
            assert polls[j] == polls[1..][j - 1];
          }
        }
      }
      if !Arrives(polls, start) {
        forall k | 0 <= k < |polls| && polls[k].available != 0
          ensures exists j :: 0 <= j < k && !(polls[j].available == 0 && !Expired(polls[j].now, start, ReplyTimeout))
        {
          if k > 0 && polls[0].available == 0 && !Expired(polls[0].now, start, ReplyTimeout) {
            assert polls[1..][k - 1] == polls[k];
            var j :| 0 <= j < k - 1 && !(polls[1..][j].available == 0 && !Expired(polls[1..][j].now, start, ReplyTimeout));
            assert polls[j + 1] == polls[1..][j];
          }
        }
      }
    }
  }

  /** The reply as `read` leaves it in the zeroed buffer: at most 48 bytes, then zeros. */
  function ReadBuffer(reply: seq<byte>): (b: seq<byte>)
    ensures |b| == PacketSize
    ensures forall k :: 0 <= k < |reply| && k < PacketSize ==> b[k] == reply[k]
    ensures forall k :: |reply| <= k < PacketSize ==> b[k] == 0
  {
    if |reply| >= PacketSize then reply[..PacketSize] else reply + seq(PacketSize - |reply|, _ => 0)
  }

  /** A read that stops before byte 40 leaves the timestamp zero: the time decodes as 2^32 - 2208988800. */
  lemma ShortReadDecodesZero(reply: seq<byte>)
    requires |reply| <= 40
    ensures SecondsSince1900(ReadBuffer(reply)) == 0
    ensures UnixEpoch(SecondsSince1900(ReadBuffer(reply))) == Uint32Modulus - SeventyYears
  {
    var b := ReadBuffer(reply);
    assert b[40] == 0 && b[41] == 0 && b[42] == 0 && b[43] == 0;
  }

  /** The wait loop of `update`: polls until a packet is there or the deadline has passed. */
  method Wait(start: Millis, polls: seq<Poll>) returns (arrived: bool)
    requires Decides(polls, start)
    ensures arrived == Arrives(polls, start)
  {
    var k := 0;
    while polls[k].available == 0
      invariant 0 <= k < |polls| && Decides(polls[k..], start)
      invariant Arrives(polls, start) == Arrives(polls[k..], start)
      decreases |polls| - k
    {
      if Expired(polls[k].now, start, ReplyTimeout) {
        return false;
      }
      ghost var j :| 0 <= j < |polls[k..]|
        && (polls[k..][j].available != 0 || Expired(polls[k..][j].now, start, ReplyTimeout));
      assert j != 0;
      assert polls[k + 1..][j - 1] == polls[k..][j];
      assert polls[k..][1..] == polls[k + 1..];
      k := k + 1;
    }
    return true;
  }

  /** `udp.read(packetBuffer, 48)` into the zero-initialised buffer. */
  method Read(reply: seq<byte>) returns (packetBuffer: array<byte>)
    ensures fresh(packetBuffer) && packetBuffer[..] == ReadBuffer(reply)
  {
    packetBuffer := new byte[PacketSize](_ => 0);
    var count := if |reply| < PacketSize then |reply| else PacketSize;
    for i := 0 to count
      invariant forall j :: 0 <= j < i ==> packetBuffer[j] == reply[j]
      invariant forall j :: i <= j < PacketSize ==> packetBuffer[j] == 0
    {
      packetBuffer[i] := reply[i];
    }
  }

  class TimeClient {
    var unixTime: nat
    /** The local time handed to TimeLib's `setTime`. */
    var systemTime: int
    var ntpServer: string
    var ntpServerPort: nat
    /** Stored by `setup`, never read. */
    var ntpServerTimeout: int
    ghost var sent: seq<seq<byte>>

    constructor ()
      ensures sent == [] && unixTime == 0
    {
      unixTime, systemTime := 0, 0;
      ntpServer, ntpServerPort, ntpServerTimeout := "", 123, 2000;
      sent := [];
    }

    method Setup(server: string, port: nat, timeout: int)
      modifies this`ntpServer, this`ntpServerPort, this`ntpServerTimeout
      ensures ntpServer == server && ntpServerPort == port && ntpServerTimeout == timeout
    {
      ntpServer, ntpServerPort, ntpServerTimeout := server, port, timeout;
    }

    /** `getFormattedTime(time)`: formats TimeLib's clock, set or not. */
    method GetFormattedTime(hour: nat, minute: nat, second: nat) returns (time: string)
      ensures hour < 24 && minute < 60 && second < 60 ==>
        && |time| == 8 && time[2] == ':' && time[5] == ':'
        && AllDigits(time[0..2]) && AllDigits(time[3..5]) && AllDigits(time[6..8])
        && DigitsValue(time[0..2]) == hour && DigitsValue(time[3..5]) == minute && DigitsValue(time[6..8]) == second
    {
      time := TimeFormat.FormatTime(hour, minute, second);
      if hour < 24 && minute < 60 && second < 60 {
        TimeFormat.FormatTimeLayout(hour, minute, second);
      }
    }

    /** `getFormattedDate(date)`, with no synchronisation check either. */
    method GetFormattedDate(dayName: string, day: nat, monthName: string, year: nat) returns (date: string)
      ensures 1 <= day <= 31 ==>
        && |date| > |dayName| + 4 && date[..|dayName| + 2] == dayName + ", " && AllDigits(date[|dayName| + 2..|dayName| + 4])
        && DigitsValue(date[|dayName| + 2..|dayName| + 4]) == day
    {
      date := TimeFormat.FormatDate(dayName, day, monthName, year);
      if 1 <= day <= 31 {
        TimeFormat.FormatDateDay(dayName, day, monthName, year);
      }
    }

    /** `getUnixTime(unixTime)`: TimeLib's `now()`, whether a reply was ever decoded or not. */
    method GetUnixTime(now: int) returns (result: int)
      ensures result == now
    {
      result := now;
    }

    /**
     * `update()`.  A `beginPacket` result below 1 fails before anything is
     * sent.  Otherwise the request is sent and the loop polls until a packet
     * is there or more than 5000 ms have passed since `start`; a timeout
     * fails.  The reply is read into a zeroed buffer of 48 bytes (a short
     * read is only logged) and decoded, and the update succeeds.
     */
    method Update(begin: int, start: Millis, polls: seq<Poll>, reply: seq<byte>, toLocal: nat -> int)
      returns (ok: bool)
      requires Decides(polls, start)
      modifies this`sent, this`unixTime, this`systemTime
      ensures ok == (begin >= 1 && Arrives(polls, start))
      ensures sent == old(sent) + if begin >= 1 then [RequestPacket()] else []
      ensures ok ==> unixTime == UnixEpoch(SecondsSince1900(ReadBuffer(reply))) && systemTime == toLocal(unixTime)
      ensures !ok ==> unixTime == old(unixTime) && systemTime == old(systemTime)
    {
      if begin < 1 {
        return false;
      }
      sent := sent + [RequestPacket()];
      var arrived := Wait(start, polls);
      if !arrived {
        return false;
      }
      var packetBuffer := Read(reply);
      unixTime := UnixEpoch(SecondsSince1900(packetBuffer[..]));
      systemTime := toLocal(unixTime);
      ok := true;
    }
  }
}
