/**
 * `Mqtt::Publisher` (src/publisher/publisher.cpp): one publish at a time.
 * `publish` takes the message and the callback; each `loop` publishes it
 * retained (MQTT 3.1.1, section 3.3.1.3) once the broker is connected,
 * gives up after 5000 ms, and otherwise reconnects at most every 5000 ms,
 * failing once the reconnect counter has passed 4.  `fireCallback` ends the
 * operation.
 *
 * The broker connection is a parameter (`connected`, the publish result,
 * `millis()`); the ghost fields record the callback invocations, the
 * messages published, the `reconnect()` calls and the disconnects.
 */
module Mqtt {
  import opened Arduino
  import opened Clock

  const PublishTimeout: nat := 5000
  const ReconnectInterval: nat := 5000
  const MaxReconnects: nat := 4

  /** One invocation of a publish's callback: which `publish` it answers and its `bool`. */
  datatype Call = Call(id: nat, success: bool)

  datatype Message = Message(topic: string, payload: string, retained: bool)

  class Publisher {
    var broker: string
    var port: nat
    var username: string
    var password: string
    var isPublishing: bool
    var lastReconnect: Millis
    /** `uint8_t reconnects`. */
    var reconnects: nat
    var publishTimer: Millis
    var topic: string
    var payload: string
    /** Whether `context.callback` holds a function. */
    var hasCallback: bool
    ghost var current: nat
    ghost var nextId: nat
    ghost var calls: seq<Call>
    ghost var published: seq<Message>
    /** `reconnect()` calls since the current publish began. */
    ghost var attempts: nat
    ghost var disconnects: nat

    /**
     * While a publish is under way the counter equals the number of
     * `reconnect()` calls made for it, and that is at most 5.
     */
    ghost predicate Valid()
      reads this
    {
      && Answered()
      && (isPublishing ==> attempts == reconnects <= MaxReconnects + 1)
    }

    /** Every callback invocation answers a `publish` that was made. */
    ghost predicate Answered()
      reads this
    {
      && reconnects < 256
      && current < nextId
      && (forall j :: 0 <= j < |calls| ==> calls[j].id < nextId)
    }

    constructor ()
      ensures Valid() && !isPublishing && calls == [] && published == []
    {
      broker, port, username, password := "", 0, "", "";
      isPublishing, lastReconnect, reconnects, publishTimer := false, 0, 0, 0;
      topic, payload, hasCallback := "", "", false;
      current, nextId, calls, published, attempts, disconnects := 0, 1, [], [], 0, 0;
    }

    /** `setup(broker, port, username, password)`: stores the settings and resets the operation. */
    method Setup(b: string, p: nat, user: string, secret: string)
      requires Valid()
      modifies this
      ensures Valid()
      ensures broker == b && port == p && username == user && password == secret
      ensures !isPublishing && lastReconnect == 0 && reconnects == 0
      ensures calls == old(calls) && published == old(published) && nextId == old(nextId)
    {
      broker, port, username, password := b, p, user, secret;
      isPublishing, lastReconnect, reconnects := false, 0, 0;
    }

    /**
     * `publish(topic, payload, callback)`: a busy publisher answers the new
     * callback, if there is one, with `false` and changes nothing else;
     * otherwise the operation starts at `now` with no reconnects.
     */
    method Publish(t: string, p: string, callbackSet: bool, now: Millis) returns (ok: bool)
      requires Valid()
      modifies this
      ensures Valid()
      ensures ok == !old(isPublishing) && isPublishing && nextId == old(nextId) + 1
      ensures old(isPublishing) ==>
        && calls == old(calls) + (if callbackSet then [Call(old(nextId), false)] else [])
        && topic == old(topic) && payload == old(payload) && hasCallback == old(hasCallback)
        && current == old(current) && publishTimer == old(publishTimer)
        && reconnects == old(reconnects) && attempts == old(attempts)
      ensures !old(isPublishing) ==>
        && calls == old(calls) && topic == t && payload == p && hasCallback == callbackSet
        && current == old(nextId) && publishTimer == now && reconnects == 0 && attempts == 0
      ensures lastReconnect == old(lastReconnect) && published == old(published) && disconnects == old(disconnects)
    {
      var id := nextId;
      nextId := nextId + 1;
      if isPublishing {
        if callbackSet {
          calls := calls + [Call(id, false)];
        }
        return false;
      }
      isPublishing := true;
      publishTimer := now;
      reconnects, attempts := 0, 0;
      hasCallback, current := callbackSet, id;
      topic, payload := t, p;
      ok := true;
    }

    /** `fireCallback(success)`: the callback, if any, gets `success`, and the operation ends. */
    method FireCallback(success: bool)
      requires Answered()
      modifies this`calls, this`isPublishing
      ensures Valid() && !isPublishing
      ensures calls == old(calls) + if hasCallback then [Call(current, success)] else []
    {
      if hasCallback {
        calls := calls + [Call(current, success)];
      }
      isPublishing := false;
    }

    /**
     * `loop()`.  Idle, nothing happens.  Connected, the message is published
     * retained, the callback gets the publish result and the client
     * disconnects.  Otherwise `lastReconnect` is reset to 0; past the
     * publish timeout the callback gets `false`; else, once more than 5000 ms
     * have passed since `lastReconnect` (that is, since 0), the counter is
     * checked and incremented: above 4 the callback gets `false`, otherwise
     * `reconnect()` is called.
     */
    method Loop(connected: bool, publishResult: bool, now: Millis)
      requires Valid()
      modifies this
      ensures Valid()
      ensures !old(isPublishing) ==>
        && !isPublishing && calls == old(calls) && published == old(published)
        && lastReconnect == old(lastReconnect) && reconnects == old(reconnects) && attempts == old(attempts)
      ensures old(isPublishing) && connected ==>
        && !isPublishing && published == old(published) + [Message(topic, payload, true)]
        && calls == old(calls) + (if hasCallback then [Call(current, publishResult)] else [])
        && disconnects == old(disconnects) + 1
        && lastReconnect == old(lastReconnect) && reconnects == old(reconnects) && attempts == old(attempts)
      ensures old(isPublishing) && !connected && Expired(now, publishTimer, PublishTimeout) ==>
        && !isPublishing && published == old(published)
        && calls == old(calls) + (if hasCallback then [Call(current, false)] else [])
        && lastReconnect == 0 && reconnects == old(reconnects) && attempts == old(attempts)
      ensures old(isPublishing) && !connected && !Expired(now, publishTimer, PublishTimeout) ==>
        && published == old(published)
        && (Expired(now, 0, ReconnectInterval) ==>
              && lastReconnect == now && reconnects == old(reconnects) + 1
              && (old(reconnects) > MaxReconnects ==>
                    && !isPublishing && attempts == old(attempts)
                    && calls == old(calls) + (if hasCallback then [Call(current, false)] else []))
              && (old(reconnects) <= MaxReconnects ==>
                    isPublishing && attempts == old(attempts) + 1 && calls == old(calls)))
        && (!Expired(now, 0, ReconnectInterval) ==>
              && isPublishing && lastReconnect == 0 && reconnects == old(reconnects)
              && attempts == old(attempts) && calls == old(calls))
      ensures old(isPublishing) ==> disconnects == old(disconnects) + (if connected then 1 else 0)
      ensures topic == old(topic) && payload == old(payload) && hasCallback == old(hasCallback)
      ensures current == old(current) && nextId == old(nextId) && publishTimer == old(publishTimer)
    {
      if !isPublishing {
        return;
      }
      if connected {
        published := published + [Message(topic, payload, true)];
        FireCallback(publishResult);
        disconnects := disconnects + 1;
        return;
      }
      lastReconnect := 0;
      if Expired(now, publishTimer, PublishTimeout) {
        FireCallback(false);
        return;
      }
      if Expired(now, lastReconnect, ReconnectInterval) {
        lastReconnect := now;
        var count := reconnects;
        reconnects := (reconnects + 1) % 256;
        if count > MaxReconnects {
          FireCallback(false);
        } else {
          attempts := attempts + 1;
        }
      }
    }
  }
}
