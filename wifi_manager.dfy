/**
 * `WiFiManager` (src/wireless/wifi_manager.cpp): the connection state
 * machine.  `connect` starts joining the network; `loop` notices the link
 * coming up and runs the registered handlers, gives up after 15 s and
 * sleeps, wakes after 60 s to try again, and retries when the event handler
 * has reported a lost connection.  Link status, `millis()` and the RSSI are
 * parameters; the binary semaphore the event handler gives is the boolean
 * `retryToken`.  Handlers are identified by numbers; the ghost field `fired`
 * lists the handler invocations in order and `joins` counts `WiFi.begin`.
 */
module Wireless {
  import opened Clock

  const ConnectTimeout: nat := 15000
  const SleepTimeout: nat := 60000

  /** `GetWifiQuality(quality)`: 0 without a link, otherwise the RSSI mapped linearly from -100..-50 dBm to 0..100. */
  function Quality(connected: bool, dbm: int): (q: int)
    ensures 0 <= q <= 100
    ensures !connected || dbm <= -100 ==> q == 0
    ensures connected && dbm >= -50 ==> q == 100
    ensures connected && -100 < dbm < -50 ==> q == 2 * (dbm + 100)
  {
    if !connected then 0
    else if dbm <= -100 then 0
    else if dbm >= -50 then 100
    else 2 * (dbm + 100)
  }

  /** A stronger signal never gives a lower quality. */
  lemma QualityMonotone(connected: bool, weaker: int, stronger: int)
    requires weaker <= stronger
    ensures Quality(connected, weaker) <= Quality(connected, stronger)
  {
  }

  /** The branch of `loop`'s else-if chain that runs. */
  datatype Branch = LinkUp | GiveUp | WakeUp | Retry | NoBranch

  /** The first test of the chain that holds, or none. */
  function LoopBranch(connecting: bool, sleeping: bool, link: bool, now: Millis,
                      connectStart: Millis, sleepStart: Millis, shouldRetry: bool): Branch
  {
    if connecting && link then LinkUp
    else if connecting && Expired(now, connectStart, ConnectTimeout) then GiveUp
    else if sleeping && Expired(now, sleepStart, SleepTimeout) then WakeUp
    else if !connecting && !sleeping && shouldRetry then Retry
    else NoBranch
  }

  /** A lost connection is retried only by an idle manager, and handlers run only while connecting. */
  lemma LoopBranchGuards(connecting: bool, sleeping: bool, link: bool, now: Millis,
                         connectStart: Millis, sleepStart: Millis, shouldRetry: bool)
    requires !(connecting && sleeping)
    ensures var b := LoopBranch(connecting, sleeping, link, now, connectStart, sleepStart, shouldRetry);
      && (b == LinkUp <==> connecting && link)
      && (b == Retry <==> !connecting && !sleeping && shouldRetry)
      && (b == GiveUp <==> connecting && !link && Expired(now, connectStart, ConnectTimeout))
      && (b == WakeUp <==> !connecting && sleeping && Expired(now, sleepStart, SleepTimeout))
  {
  }

  /** `OnWiFiEvent`'s cases that matter here. */
  datatype Event = GotIp | Disconnected | OtherEvent

  class Manager {
    var ssid: string
    var password: string
    var isConnecting: bool
    var isSleeping: bool
    var connectTimeout: Millis
    var sleepTimeout: Millis
    var retryToken: bool
    var handlers: seq<nat>
    ghost var fired: seq<nat>
    ghost var joins: nat

    ghost predicate Valid()
      reads this
    {
      !(isConnecting && isSleeping)
    }

    constructor ()
      ensures Valid()
      ensures !isConnecting && !isSleeping && !retryToken && handlers == [] && fired == [] && joins == 0
    {
      ssid, password := "", "";
      isConnecting, isSleeping := false, false;
      connectTimeout, sleepTimeout := 0, 0;
      retryToken := false;
      handlers, fired, joins := [], [], 0;
    }

    /** `setup(ssid, password)`: stores the credentials and connects. */
    method Setup(name: string, secret: string, now: Millis)
      modifies this
      ensures Valid()
      ensures ssid == name && password == secret
      ensures isConnecting && !isSleeping && connectTimeout == now && joins == old(joins) + 1
      ensures sleepTimeout == old(sleepTimeout) && retryToken == old(retryToken)
      ensures handlers == old(handlers) && fired == old(fired)
    {
      ssid, password := name, secret;
      Connect(now);
    }

    /** `connect()`: connecting, not sleeping, with the connect time stamped. */
    method Connect(now: Millis)
      modifies this`isSleeping, this`isConnecting, this`connectTimeout, this`joins
      ensures Valid()
      ensures isConnecting && !isSleeping && connectTimeout == now && joins == old(joins) + 1
    {
      isSleeping := false;
      isConnecting := true;
      connectTimeout := now;
      joins := joins + 1;
    }

    /** `onConnected(callback)`: handlers are kept in registration order. */
    method OnConnected(handler: nat)
      modifies this`handlers
      ensures handlers == old(handlers) + [handler]
    {
      handlers := handlers + [handler];
    }

    /** The event handler: a lost connection gives the retry token. */
    method OnEvent(event: Event)
      modifies this`retryToken
      ensures retryToken == (old(retryToken) || event == Disconnected)
    {
      if event == Disconnected {
        retryToken := true;
      }
    }

    /** Runs every handler once, in registration order. */
    method FireHandlers()
      modifies this`fired
      ensures fired == old(fired) + handlers
    {
      for i := 0 to |handlers|
        invariant fired == old(fired) + handlers[..i]
      {
        fired := fired + [handlers[i]];
      }
    }

    /**
     * `loop()`: the retry token is taken on every call, and exactly the
     * branch `LoopBranch` names runs.
     */
    method Loop(link: bool, now: Millis)
      requires Valid()
      modifies this
      ensures Valid()
      ensures !retryToken
      ensures var b := LoopBranch(old(isConnecting), old(isSleeping), link, now,
                                  old(connectTimeout), old(sleepTimeout), old(retryToken));
        && (b == LinkUp ==>
              && !isConnecting && !isSleeping && fired == old(fired) + handlers
              && connectTimeout == old(connectTimeout) && sleepTimeout == old(sleepTimeout) && joins == old(joins))
        && (b == GiveUp ==>
              && !isConnecting && isSleeping && sleepTimeout == now && fired == old(fired)
              && connectTimeout == old(connectTimeout) && joins == old(joins))
        && (b == WakeUp || b == Retry ==>
              && isConnecting && !isSleeping && connectTimeout == now && joins == old(joins) + 1
              && sleepTimeout == old(sleepTimeout) && fired == old(fired))
        && (b == NoBranch ==>
              && isConnecting == old(isConnecting) && isSleeping == old(isSleeping)
              && connectTimeout == old(connectTimeout) && sleepTimeout == old(sleepTimeout)
              && fired == old(fired) && joins == old(joins))
      ensures handlers == old(handlers) && ssid == old(ssid) && password == old(password)
    {
      var shouldRetry := retryToken;
      retryToken := false;
      if isConnecting && link {
        isConnecting := false;
        isSleeping := false;
        FireHandlers();
      } else if isConnecting && Expired(now, connectTimeout, ConnectTimeout) {
        isConnecting := false;
        isSleeping := true;
        sleepTimeout := now;
      } else if isSleeping && Expired(now, sleepTimeout, SleepTimeout) {
        Connect(now);
      } else if !isConnecting && !isSleeping && shouldRetry {
        Connect(now);
      }
    }
  }
}
