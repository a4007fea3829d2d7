/**
 * `Ntp::Client` (src/ntp/ntp_client.cpp): the asynchronous NTP client.
 * `update` starts a DNS lookup of the server; the address reaches `connect`
 * either at once or through the lookup callback and the UDP task's queue;
 * `connect` sends the request packet, and the reply handler decodes the
 * transmit timestamp.  Every path that ends an update goes through
 * `doCallback`, which clears the busy flag `isUpdatingTime`.
 *
 * The network, the FreeRTOS queue and TimeLib are parameters: the DNS
 * answer, whether the UDP connect and the queue send succeed, the reply's
 * bytes, the time zone conversion `toLocal`, and TimeLib's clock fields.
 * The ghost fields record the callback invocations and the datagrams sent.
 */
module Ntp {
  import opened Arduino
  import opened NtpPacket
  import TimeFormat

  /** What `dns_gethostbyname` answers at once. */
  datatype DnsAnswer = Resolved | InProgress | DnsError

  /** One invocation of an update's callback: which `update` it answers and its `bool`. */
  datatype Call = Call(id: nat, success: bool)

  class Client {
    var didSynchronizeTime: bool
    var isUpdatingTime: bool
    var unixTime: nat
    /** The local time handed to TimeLib's `setTime`. */
    var systemTime: int
    var ntpServer: string
    var ntpServerPort: nat
    /** Whether `callback` holds a function; it is never cleared once set. */
    var hasCallback: bool
    ghost var current: nat
    ghost var nextId: nat
    ghost var calls: seq<Call>
    ghost var sent: seq<seq<byte>>

    ghost predicate Valid()
      reads this
    {
      && unixTime < Uint32Modulus
      && current < nextId
      && (forall j :: 0 <= j < |calls| ==> calls[j].id < nextId)
    }

    constructor ()
      ensures Valid()
      ensures !didSynchronizeTime && !isUpdatingTime && !hasCallback
      ensures calls == [] && sent == []
    {
      didSynchronizeTime, isUpdatingTime := false, false;
      unixTime, systemTime := 0, 0;
      ntpServer, ntpServerPort := "", 123;
      hasCallback := false;
      current, nextId := 0, 1;
      calls, sent := [], [];
    }

    /** `setup(ntpServer, port)`: only the server and port are stored. */
    method Setup(server: string, port: nat)
      requires Valid()
      modifies this`ntpServer, this`ntpServerPort
      ensures Valid()
      ensures ntpServer == server && ntpServerPort == port
    {
      ntpServer, ntpServerPort := server, port;
    }

    /**
     * `getFormattedTime(time)`: `false`, with `time` as it was, until a reply
     * has been decoded; otherwise `HH:MM:SS` of TimeLib's clock fields.
     */
    method GetFormattedTime(time: string, hour: nat, minute: nat, second: nat) returns (ok: bool, result: string)
      ensures ok == didSynchronizeTime
      ensures result == if ok then TimeFormat.FormatTime(hour, minute, second) else time
    {
      if !didSynchronizeTime {
        return false, time;
      }
      return true, TimeFormat.FormatTime(hour, minute, second);
    }

    /** `getFormattedDate(date)`, guarded like `getFormattedTime`. */
    method GetFormattedDate(date: string, dayName: string, day: nat, monthName: string, year: nat)
      returns (ok: bool, result: string)
      ensures ok == didSynchronizeTime
      ensures result == if ok then TimeFormat.FormatDate(dayName, day, monthName, year) else date
    {
      if !didSynchronizeTime {
        return false, date;
      }
      return true, TimeFormat.FormatDate(dayName, day, monthName, year);
    }

    /** `getUnixTime(unixTime)`: TimeLib's `now()`, guarded like `getFormattedTime`. */
    method GetUnixTime(previous: int, now: int) returns (ok: bool, result: int)
      ensures ok == didSynchronizeTime
      ensures result == if ok then now else previous
    {
      if !didSynchronizeTime {
        return false, previous;
      }
      return true, now;
    }

    /** `doCallback(success)`: the stored callback, if any, gets `success`; the client is idle afterwards. */
    method DoCallback(success: bool)
      requires Valid()
      modifies this`calls, this`isUpdatingTime
      ensures Valid()
      ensures !isUpdatingTime
      ensures calls == old(calls) + if hasCallback then [Call(current, success)] else []
    {
      if hasCallback {
        calls := calls + [Call(current, success)];
      }
      isUpdatingTime := false;
    }

    /**
     * `connect(ipAddress)`, reached from `update` or from the UDP task: the
     * request goes out when the UDP connect succeeds, otherwise the update
     * ends with `doCallback(false)`.
     */
    method Connect(connected: bool) returns (ok: bool)
      requires Valid()
      modifies this`calls, this`isUpdatingTime, this`sent
      ensures Valid()
      ensures ok == connected
      ensures connected ==>
        sent == old(sent) + [RequestPacket()] && calls == old(calls) && isUpdatingTime == old(isUpdatingTime)
      ensures !connected ==>
        && sent == old(sent) && !isUpdatingTime
        && calls == old(calls) + if hasCallback then [Call(current, false)] else []
    {
      if connected {
        sent := sent + [RequestPacket()];
        return true;
      }
      DoCallback(false);
      return false;
    }

    /**
     * `update(callback)`.  A busy client answers the new callback `false` and
     * changes nothing else.  Otherwise the client becomes busy with the new
     * callback and the DNS answer decides: an address at once is connected to,
     * a lookup in progress is reported as success, and any other answer is
     * reported as failure while the client stays busy with no callback
     * pending, so every later update is refused.
     */
    method Update(dns: DnsAnswer, connected: bool) returns (ok: bool)
      requires Valid()
      modifies this
      ensures Valid()
      ensures nextId == old(nextId) + 1
      ensures old(isUpdatingTime) ==>
        && !ok && isUpdatingTime && calls == old(calls) + [Call(old(nextId), false)]
        && current == old(current) && hasCallback == old(hasCallback) && sent == old(sent)
      ensures !old(isUpdatingTime) ==> current == old(nextId) && hasCallback
      ensures !old(isUpdatingTime) && dns == Resolved ==>
        && ok == connected
        && (connected ==> isUpdatingTime && sent == old(sent) + [RequestPacket()] && calls == old(calls))
        && (!connected ==> !isUpdatingTime && sent == old(sent) && calls == old(calls) + [Call(current, false)])
      ensures !old(isUpdatingTime) && dns == InProgress ==>
        ok && isUpdatingTime && sent == old(sent) && calls == old(calls)
      ensures !old(isUpdatingTime) && dns == DnsError ==>
        !ok && isUpdatingTime && sent == old(sent) && calls == old(calls)
      ensures didSynchronizeTime == old(didSynchronizeTime) && unixTime == old(unixTime)
      ensures systemTime == old(systemTime)
      ensures ntpServer == old(ntpServer) && ntpServerPort == old(ntpServerPort)
    {
      var id := nextId;
      nextId := nextId + 1;
      if isUpdatingTime {
        calls := calls + [Call(id, false)];
        return false;
      }
      isUpdatingTime := true;
      current, hasCallback := id, true;
      ok := false;
      if dns == Resolved {
        ok := Connect(connected);
      } else if dns == InProgress {
        ok := true;
      }
    }

    /**
     * `dnsFoundCallback(name, ipAddress)`: a missing address, or an address
     * the queue refuses, ends the update with `doCallback(false)`; a queued
     * address is later passed to `Connect` by the UDP task.
     */
    method DnsFound(resolved: bool, queued: bool)
      requires Valid()
      modifies this`calls, this`isUpdatingTime
      ensures Valid()
      ensures resolved && queued ==> calls == old(calls) && isUpdatingTime == old(isUpdatingTime)
      ensures !(resolved && queued) ==>
        !isUpdatingTime && calls == old(calls) + if hasCallback then [Call(current, false)] else []
    {
      if resolved {
        if !queued {
          DoCallback(false);
        }
      } else {
        DoCallback(false);
      }
    }

    /**
     * The reply handler: the transmit timestamp's seconds become the Unix
     * time, its local time (by `toLocal`) is handed to TimeLib, the client is
     * synchronised and the update ends with `doCallback(true)`.  Any reply
     * is taken, asked for or not.
     */
    method OnPacket(packet: seq<byte>, toLocal: nat -> int)
      requires Valid() && |packet| >= 44
      modifies this`unixTime, this`systemTime, this`didSynchronizeTime, this`calls, this`isUpdatingTime
      ensures Valid()
      ensures unixTime == UnixEpoch(SecondsSince1900(packet)) && systemTime == toLocal(unixTime)
      ensures didSynchronizeTime && !isUpdatingTime
      ensures calls == old(calls) + if hasCallback then [Call(current, true)] else []
    {
      unixTime := UnixEpoch(SecondsSince1900(packet));
      systemTime := toLocal(unixTime);
      didSynchronizeTime := true;
      DoCallback(true);
    }
  }
}
