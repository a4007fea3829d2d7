/**
 * `Http::Client` (src/http/http_client.cpp): the in-place response parser
 * over the received chunk, the GET request it sends, and the client object
 * whose connection callbacks collect a response and report it through the
 * caller's callback.  The TCP connection is not modelled: what the socket
 * reports (connect result, free send space, received chunks) comes in as
 * parameters, and the requests written and the callback invocations are
 * recorded in fields.
 */
module Http {
  import opened Arduino
  import opened HttpResponse
  import opened Wrappers
  import Uri

  // ---------------------------------------------------------------------------
  // The line parsers

  /**
   * `ParseResponseStatusLine(line, lineLength, response)` on the line at the
   * start of the chunk, whose CR the caller has overwritten.
   */
  method ParseResponseStatusLine(a: array<char>, lineLength: nat, res: Response) returns (ok: bool, r: Response)
    requires lineLength < a.Length && a[lineLength] == '\0'
    modifies a
    ensures Parsed(ok, a[..], r) == StatusLineStep(old(a[..]), lineLength, res)
  {
    if lineLength < |StatusLinePrefix| {
      return false, res;
    }
    if a[..|StatusLinePrefix|] != StatusLinePrefix {
      return false, res;
    }
    var end := Strcspn(a[..], |StatusLinePrefix|, ' ');
    if |StatusLinePrefix| + end >= lineLength {
      return false, res;
    }
    a[|StatusLinePrefix| + end] := '\0';
    r := res.(statusCode := Uint16(Atol(CString(a[..], |StatusLinePrefix|))));
    r := r.(reasonMessage := CString(a[..], |StatusLinePrefix| + end + 1));
    ok := true;
  }

  /**
   * `ParseResponseHeaderField(line, lineLength, response)`: `line` is the
   * offset of the line in the chunk and `lineLength` the offset of its CR,
   * which the caller has overwritten.
   */
  method ParseResponseHeaderField(a: array<char>, line: nat, lineLength: nat, res: Response) returns (ok: bool, r: Response)
    requires line <= lineLength < a.Length && a[lineLength] == '\0'
    modifies a
    ensures Parsed(ok, a[..], r) == HeaderFieldStep(old(a[..]), line, lineLength, res)
  {
    var keyPosition := Strcspn(a[..], line, ':');
    a[line + keyPosition] := '\0';
    if keyPosition + 2 < lineLength {
      r := res.(headers := Insert(res.headers, CString(a[..], line), CString(a[..], line + keyPosition + 2)));
      ok := true;
    } else {
      r := res;
      ok := false;
    }
  }

  // ---------------------------------------------------------------------------
  // The scan

  lemma RunAtStatusLine(s: Scan, bound: nat)
    requires bound <= ScanBound(|s.buf|) && !s.stop && s.i < bound && AtLineEnd(s) && s.first
    ensures Run(s, bound) == AfterLine(s, StatusLineStep(s.buf[s.i := '\0'], s.i, s.res), bound)
  {
    assert Run(s, bound) == Pass(s, bound) == AfterStatusLine(s, bound);
  }

  lemma RunAtFieldLine(s: Scan, bound: nat)
    requires bound <= ScanBound(|s.buf|) && !s.stop && s.i < bound && AtLineEnd(s) && !s.first && s.line <= s.i
    ensures Run(s, bound) == AfterLine(s, HeaderFieldStep(s.buf[s.i := '\0'], s.line, s.i, s.res), bound)
  {
    assert Run(s, bound) == Pass(s, bound) == AfterFieldLine(s, bound);
  }

  /** The line parsers write only inside the line, before its CR. */
  lemma StatusLineStepKeepsRest(buf: seq<char>, lineLength: nat, res: Response)
    requires lineLength < |buf| && buf[lineLength] == '\0'
    ensures forall k :: lineLength <= k < |buf| ==> StatusLineStep(buf, lineLength, res).buf[k] == buf[k]
  {
  }

  lemma HeaderFieldStepKeepsRest(buf: seq<char>, line: nat, lineLength: nat, res: Response)
    requires line <= lineLength < |buf| && buf[lineLength] == '\0'
    ensures forall k :: lineLength < k < |buf| ==> HeaderFieldStep(buf, line, lineLength, res).buf[k] == buf[k]
  {
  }

  /** The ways a pass ends after its line has been parsed into `p`. */
  lemma LineDone(s: Scan, p: Parsed, bound: nat)
    requires bound <= ScanBound(|s.buf|) && s.i < bound && |p.buf| == |s.buf|
    ensures !p.ok ==> AfterLine(s, p, bound) == Scan(p.buf, s.i, s.line, false, p.res, false, true)
    ensures p.ok && s.i + 4 < |p.buf| && p.buf[s.i + 2] == '\r' && p.buf[s.i + 3] == '\n'
            ==> AfterLine(s, p, bound) == Scan(p.buf, s.i, s.i + 4, false, p.res, true, true)
    ensures p.ok && !(s.i + 4 < |p.buf| && p.buf[s.i + 2] == '\r' && p.buf[s.i + 3] == '\n') && s.i + 2 < |p.buf|
            ==> AfterLine(s, p, bound) == Run(Scan(p.buf, s.i + 1, s.i + 2, false, p.res, true, false), bound)
    ensures p.ok && !(s.i + 4 < |p.buf| && p.buf[s.i + 2] == '\r' && p.buf[s.i + 3] == '\n') && s.i + 2 >= |p.buf|
            ==> AfterLine(s, p, bound) == Scan(p.buf, s.i, s.line, false, p.res, false, true)
  {
  }

  /** The loop has reached its bound. */
  lemma RunAtBound(s: Scan, bound: nat)
    requires bound <= ScanBound(|s.buf|) && s.i >= bound
    ensures Run(s, bound) == s
  {
  }

  /** The result of `ParseResponse` from the state the loop ends in. */
  lemma ParseResult(buf: seq<char>, res: Response, t: Scan)
    requires RunToBound(Start(buf, res)) == t
    ensures ParseResponseSpec(buf, res)
         == Parsed(true, t.buf, t.res.(body := if t.success && t.i + 4 < |buf| then CString(t.buf, t.line) else ""))
  {
  }

  /**
   * The body of `ParseResponse`'s loop at a CR LF at `i`: the CR becomes
   * `'\0'`, the line is parsed, and the loop either breaks (`stop`) or goes on
   * with the next line at `i + 2`.
   */
  method LineEnd(a: array<char>, i: nat, line: nat, isFirstline: bool, res: Response, ghost bound: nat)
    returns (nextLine: nat, success: bool, stop: bool, r: Response)
    requires bound == ScanBound(a.Length) && i < bound && a[i] == '\r' && a[i + 1] == '\n'
    requires line <= i || (line == i + 1 && a[i] == '\n')
    modifies a
    ensures var t := Scan(a[..], i, nextLine, false, r, success, stop);
      Run(Scan(old(a[..]), i, line, isFirstline, res, true, false), bound)
      == if stop then t else Run(t.(i := i + 1), bound)
    ensures !stop ==> success && nextLine == i + 2 && a[i + 1] == '\n'
  {
    ghost var s := Scan(a[..], i, line, isFirstline, res, true, false);
    a[i] := '\0';
    var parsed: bool;
    if isFirstline {
      RunAtStatusLine(s, bound);
      StatusLineStepKeepsRest(s.buf[i := '\0'], i, res);
      parsed, r := ParseResponseStatusLine(a, i, res);
    } else {
      RunAtFieldLine(s, bound);
      HeaderFieldStepKeepsRest(s.buf[i := '\0'], line, i, res);
      parsed, r := ParseResponseHeaderField(a, line, i, res);
    }
    nextLine, success, stop := line, true, false;
    if !parsed {
      success, stop := false, true;
    } else if i + 4 < a.Length && a[i + 2] == '\r' && a[i + 3] == '\n' {
      nextLine, stop := i + 4, true;
    } else if i + 2 < a.Length {
      nextLine := i + 2;
    } else {
      success, stop := false, true;
    }
    LineEndRun(s, Parsed(parsed, a[..], r), bound, nextLine, success, stop);
  }

  /** `LineEnd`'s decision, stated on the scan. */
  lemma LineEndRun(s: Scan, p: Parsed, bound: nat, nextLine: nat, success: bool, stop: bool)
    requires bound <= ScanBound(|s.buf|) && s.i < bound && |p.buf| == |s.buf|
    requires Run(s, bound) == AfterLine(s, p, bound)
    requires (nextLine, success, stop) ==
      if !p.ok then (s.line, false, true)
      else if s.i + 4 < |p.buf| && p.buf[s.i + 2] == '\r' && p.buf[s.i + 3] == '\n' then (s.i + 4, true, true)
      else if s.i + 2 < |p.buf| then (s.i + 2, true, false)
      else (s.line, false, true)
    ensures var t := Scan(p.buf, s.i, nextLine, false, p.res, success, stop);
      Run(s, bound) == if stop then t else Run(t.(i := s.i + 1), bound)
  {
    LineDone(s, p, bound);
  }

  /**
   * `Client::ParseResponse(rawData, len, res)`: the loop over the chunk,
   * overwriting line ends in place, then the body.  It always reports success.
   */
  method ParseResponse(a: array<char>, res: Response) returns (ok: bool, r: Response)
    modifies a
    ensures ok
    ensures Parsed(ok, a[..], r) == ParseResponseSpec(old(a[..]), res)
  {
    ghost var buf0 := a[..];
    ghost var target := RunToBound(Start(a[..], res));
    var len := a.Length;
    var bound := if len >= 4 then len - 4 else 0;
    var i: nat := 0;
    var line: nat := 0;
    var isFirstline := true;
    var success := true;
    r := res;
    var stop := false;
    while i < bound
      invariant i <= bound && bound == ScanBound(a.Length)
      invariant line <= i || (line == i + 1 && i < a.Length && a[i] == '\n')
      invariant !stop && success
      invariant Run(Scan(a[..], i, line, isFirstline, r, true, false), bound) == target
      decreases bound - i
    {
      if a[i] == '\r' && a[i + 1] == '\n' {
        line, success, stop, r := LineEnd(a, i, line, isFirstline, r, bound);
        isFirstline := false;
        if stop {
          break;
        }
      } else {
        RunPastChar(Scan(a[..], i, line, isFirstline, r, true, false), bound);
      }
      i := i + 1;
    }
    ghost var t := Scan(a[..], i, line, isFirstline, r, success, stop);
    if !stop {
      RunAtBound(t, bound);
    }
    ParseResult(buf0, res, t);
    if success && i + 4 < len {
      r := r.(body := CString(a[..], line));
    } else {
      r := r.(body := "");
    }
    ok := true;
  }

  // ---------------------------------------------------------------------------
  // The request

  /** The text `SendRequest` writes: a request line and a `Host` field, then an empty line. */
  function RequestLine(u: Uri.Uri): string
  {
    "GET " + u.path + " HTTP/1.1\r\nHost: " + u.domain + "\r\n\r\n"
  }

  /**
   * A server reads the request back: the request target is the text between
   * `"GET "` and the next space, and the host the text after `"Host: "` up to
   * the next CR, as long as the path holds no space and the domain no CR.
   */
  lemma RequestLineFields(u: Uri.Uri)
    requires NoChar(u.path, ' ') && NoChar(u.domain, '\r')
    ensures var r := RequestLine(u); var p := 4 + |u.path|; var h := p + 17;
      && |r| == h + |u.domain| + 4
      && r[..4] == "GET "
      && IndexOfFrom(r, " ", 4) == p && r[4..p] == u.path
      && r[p..h] == " HTTP/1.1\r\nHost: "
      && IndexOfFrom(r, "\r", h) == h + |u.domain| && r[h..h + |u.domain|] == u.domain
      && r[h + |u.domain|..] == "\r\n\r\n"
  {
    var r := RequestLine(u);
    var p := 4 + |u.path|;
    var h := p + 17;
    RequestLineLayout(u.path, u.domain, r);
    IndexOfCharAt(r, ' ', 4, p);
    IndexOfCharAt(r, '\r', h, h + |u.domain|);
  }

  /** Where the pieces of a request sit. */
  lemma RequestLineLayout(path: string, domain: string, r: string)
    requires r == "GET " + path + " HTTP/1.1\r\nHost: " + domain + "\r\n\r\n"
    ensures var p := 4 + |path|; var h := p + 17;
      && |r| == h + |domain| + 4
      && r[..4] == "GET " && r[4..p] == path && r[p] == ' '
      && r[p..h] == " HTTP/1.1\r\nHost: "
      && r[h..h + |domain|] == domain && r[h + |domain|] == '\r'
      && r[h + |domain|..] == "\r\n\r\n"
  {
    var p := 4 + |path|;
    var h := p + 17;
    var head := "GET " + path;
    var tail := " HTTP/1.1\r\nHost: " + domain + "\r\n\r\n";
    assert r == head + tail;
    assert r[..p] == head && r[p..] == tail;
    assert r[4..p] == head[4..] == path;
    assert r[h..] == tail[17..] == domain + "\r\n\r\n";
    assert r[h..h + |domain|] == r[h..][..|domain|];
    assert r[h + |domain|..] == r[h..][|domain|..];
    assert r[h + |domain|] == r[h..][|domain|];
    assert r[p..h] == tail[..17];
  }

  /** Different paths or domains give different requests. */
  lemma RequestLineInjective(u: Uri.Uri, v: Uri.Uri)
    requires NoChar(u.path, ' ') && NoChar(u.domain, '\r')
    requires NoChar(v.path, ' ') && NoChar(v.domain, '\r')
    requires RequestLine(u) == RequestLine(v)
    ensures u.path == v.path && u.domain == v.domain
  {
    RequestLineFields(u);
    RequestLineFields(v);
  }

  // ---------------------------------------------------------------------------
  // The client

  const BufferSize: nat := 4096

  /** One invocation of a caller's callback: which `get` it answers, its `bool` and the response passed. */
  datatype Call = Call(id: nat, success: bool, response: Response)

  /** No answer follows a successful one for the same request. */
  ghost predicate SuccessIsFinal(calls: seq<Call>)
  {
    forall j, k :: 0 <= j < k < |calls| && calls[j].id == calls[k].id ==> !calls[j].success
  }

  /**
   * `Http::Client`.  The callback the last valid `get` installed is request
   * `current`; `hasCallback` is false once `onData` has cleared it.  The ghost
   * fields record what the connection was asked to do: the requests sent,
   * the number of times it was stopped, the callback invocations, and whether
   * an empty `std::function` was invoked (which throws in C++).
   */
  class Client {
    var response: Response
    var contentReceivedLength: nat
    var contentLength: nat
    var hasCallback: bool
    var target: Option<Uri.Uri>
    const buffer: array<char>
    ghost var calls: seq<Call>
    ghost var nextId: nat
    ghost var current: nat
    ghost var sent: seq<string>
    ghost var stops: nat
    ghost var faulted: bool

    ghost predicate Valid()
      reads this
    {
      && buffer.Length == BufferSize
      && contentReceivedLength < Uint32Modulus && contentLength < Uint32Modulus
      && current < nextId
      && (forall j :: 0 <= j < |calls| ==> calls[j].id < nextId)
      && (hasCallback ==> forall j :: 0 <= j < |calls| && calls[j].id == current ==> !calls[j].success)
      && SuccessIsFinal(calls)
    }

    /** A client that has not made a request; the response starts zeroed. */
    constructor ()
      ensures Valid()
      ensures response == Response(map[], "", 0, "")
      ensures contentReceivedLength == 0 && contentLength == 0 && !hasCallback && target == None
      ensures calls == [] && sent == [] && stops == 0 && !faulted
    {
      response := Response(map[], "", 0, "");
      contentReceivedLength, contentLength := 0, 0;
      hasCallback, target := false, None;
      buffer := new char[BufferSize];
      calls, nextId, current := [], 1, 0;
      sent, stops, faulted := [], 0, false;
    }

    /** `this->callback(success, this->response)`, guarded or not by the caller. */
    method Invoke(success: bool)
      modifies this`calls, this`faulted
      ensures hasCallback ==> calls == old(calls) + [Call(current, success, response)] && faulted == old(faulted)
      ensures !hasCallback ==> calls == old(calls) && faulted
    {
      if hasCallback {
        calls := calls + [Call(current, success, response)];
      } else {
        faulted := true;
      }
    }

    /**
     * `get(uri, callback)`: an invalid URI is answered at once with `false`
     * and the current response; otherwise the status code is cleared, the
     * callback installed, and the result is that of starting the connection,
     * `connected`.  Headers, body and byte counts stay as they were.
     */
    method Get(uri: string, connected: bool) returns (ok: bool)
      requires Valid()
      modifies this
      ensures Valid()
      ensures Uri.Parse(uri).None? ==>
        && !ok && response == old(response) && hasCallback == old(hasCallback)
        && current == old(current) && target == old(target)
        && calls == old(calls) + [Call(old(nextId), false, old(response))]
      ensures Uri.Parse(uri).Some? ==>
        && ok == connected && response == old(response).(statusCode := 0) && hasCallback
        && current == old(nextId) && target == Uri.Parse(uri) && calls == old(calls)
      ensures nextId == old(nextId) + 1
      ensures contentReceivedLength == old(contentReceivedLength) && contentLength == old(contentLength)
      ensures sent == old(sent) && stops == old(stops) && faulted == old(faulted)
    {
      ok := Install(Uri.Parse(uri), connected);
    }

    /** `get` once the URI has been parsed into `u`. */
    method Install(u: Option<Uri.Uri>, connected: bool) returns (ok: bool)
      requires Valid()
      modifies this
      ensures Valid()
      ensures u.None? ==>
        && !ok && response == old(response) && hasCallback == old(hasCallback)
        && current == old(current) && target == old(target)
        && calls == old(calls) + [Call(old(nextId), false, old(response))]
      ensures u.Some? ==>
        && ok == connected && response == old(response).(statusCode := 0) && hasCallback
        && current == old(nextId) && target == u && calls == old(calls)
      ensures nextId == old(nextId) + 1
      ensures contentReceivedLength == old(contentReceivedLength) && contentLength == old(contentLength)
      ensures sent == old(sent) && stops == old(stops) && faulted == old(faulted)
    {
      var id := nextId;
      nextId := nextId + 1;
      if u.None? {
        calls := calls + [Call(id, false, response)];
        return false;
      }
      response := response.(statusCode := 0);
      current := id;
      hasCallback := true;
      target := u;
      ok := connected;
    }

    /** `SendRequest(u, c)`: the request goes out when it fits in the send space and the connection can send. */
    method SendRequest(u: Uri.Uri, space: nat, canSend: bool) returns (ok: bool)
      modifies this`sent
      ensures ok == (space > |RequestLine(u)| && canSend)
      ensures sent == old(sent) + if ok then [RequestLine(u)] else []
    {
      var requestLine := RequestLine(u);
      if space > |requestLine| && canSend {
        sent := sent + [requestLine];
        return true;
      }
      return false;
    }

    /** The connect handler: a request that cannot be sent is answered with `false`, unguarded. */
    method OnConnect(space: nat, canSend: bool)
      requires Valid() && target.Some?
      modifies this
      ensures Valid()
      ensures var line := RequestLine(old(target).value);
        if space > |line| && canSend then
          sent == old(sent) + [line] && calls == old(calls) && faulted == old(faulted)
        else
          && sent == old(sent)
          && (hasCallback ==> calls == old(calls) + [Call(current, false, response)] && faulted == old(faulted))
          && (!hasCallback ==> calls == old(calls) && faulted)
      ensures response == old(response) && hasCallback == old(hasCallback) && target == old(target)
      ensures contentReceivedLength == old(contentReceivedLength) && contentLength == old(contentLength)
      ensures current == old(current) && nextId == old(nextId) && stops == old(stops)
    {
      var ok := SendRequest(target.value, space, canSend);
      if !ok {
        Invoke(false);
      }
    }

    /** The disconnect handler answers `false` if a callback is still installed. */
    method OnDisconnect()
      requires Valid()
      modifies this
      ensures Valid()
      ensures calls == old(calls) + if hasCallback then [Call(current, false, response)] else []
      ensures response == old(response) && hasCallback == old(hasCallback) && target == old(target)
      ensures contentReceivedLength == old(contentReceivedLength) && contentLength == old(contentLength)
      ensures current == old(current) && nextId == old(nextId) && sent == old(sent)
      ensures stops == old(stops) && faulted == old(faulted)
    {
      if hasCallback {
        Invoke(false);
      }
    }

    /** The timeout handler answers `false`, unguarded. */
    method OnTimeout()
      requires Valid()
      modifies this
      ensures Valid()
      ensures hasCallback ==> calls == old(calls) + [Call(current, false, response)] && faulted == old(faulted)
      ensures !hasCallback ==> calls == old(calls) && faulted
      ensures response == old(response) && hasCallback == old(hasCallback) && target == old(target)
      ensures contentReceivedLength == old(contentReceivedLength) && contentLength == old(contentLength)
      ensures current == old(current) && nextId == old(nextId) && sent == old(sent) && stops == old(stops)
    {
      Invoke(false);
    }

    /**
     * `onData(c, data, len)`.  While the status code is 0 the chunk is parsed
     * as the start of a response (in place, in a copy of the chunk here) and
     * the expected length read from `Content-Length`, which `operator[]`
     * inserts with an empty value, read as 0, when the field is missing.
     * Later chunks are copied to the buffer and appended up to their first
     * `'\0'`.  Once the byte count reaches the expected length the
     * connection is stopped and the callback answers `true`, once.
     */
    method OnData(data: seq<char>)
      requires Valid()
      requires response.statusCode != 0 ==> |data| < BufferSize
      modifies this, buffer
      ensures Valid()
      ensures old(response.statusCode) == 0 ==>
        var p := ParseResponseSpec(data, old(response)).res;
        && response == p.(headers := WithContentLength(p.headers))
        && contentReceivedLength == Unsigned(|p.body|)
        && contentLength == Unsigned(Atol(response.headers["Content-Length"]))
        && unchanged(buffer)
      ensures old(response.statusCode) != 0 ==>
        && response == old(response).(body := old(response.body) + CString(data, 0))
        && contentReceivedLength == Unsigned(old(contentReceivedLength) + |data|)
        && contentLength == old(contentLength)
        && buffer[..|data| + 1] == data + ['\0']
      ensures var done := old(hasCallback) && contentReceivedLength >= contentLength;
        && calls == old(calls) + (if done then [Call(current, true, response)] else [])
        && hasCallback == (old(hasCallback) && !done)
        && stops == old(stops) + (if done then 1 else 0)
      ensures target == old(target) && current == old(current) && nextId == old(nextId)
      ensures sent == old(sent) && faulted == old(faulted)
    {
      if response.statusCode == 0 {
        response, contentReceivedLength, contentLength := FirstChunk(data, response);
      } else {
        contentReceivedLength := Unsigned(contentReceivedLength + |data|);
        var text := CopyChunk(data);
        response := response.(body := response.body + text);
      }
      if contentReceivedLength >= contentLength && hasCallback {
        Complete();
      }
    }

    /** `memcpy` of the chunk into the buffer, a terminating `'\0'`, and the C string the buffer then holds. */
    method CopyChunk(data: seq<char>) returns (text: string)
      requires buffer.Length == BufferSize && |data| < BufferSize
      modifies buffer
      ensures buffer[..|data| + 1] == data + ['\0']
      ensures text == CString(buffer[..], 0) == CString(data, 0)
    {
      forall k | 0 <= k < |data| {
        buffer[k] := data[k];
      }
      buffer[|data|] := '\0';
      assert buffer[..|data|] == data;
      CStringOfTerminated(buffer[..], data, 0);
      text := CString(buffer[..], 0);
    }

    /** The connection is stopped and the installed callback answers `true`, then is cleared. */
    method Complete()
      requires Valid() && hasCallback
      modifies this
      ensures Valid()
      ensures calls == old(calls) + [Call(current, true, response)] && !hasCallback && stops == old(stops) + 1
      ensures response == old(response) && target == old(target) && current == old(current) && nextId == old(nextId)
      ensures contentReceivedLength == old(contentReceivedLength) && contentLength == old(contentLength)
      ensures sent == old(sent) && faulted == old(faulted)
    {
      stops := stops + 1;
      Invoke(true);
      hasCallback := false;
    }
  }

  /** `headers["Content-Length"]`: `operator[]` inserts the key with an empty value when it is missing. */
  function WithContentLength(headers: map<string, string>): (h: map<string, string>)
    ensures "Content-Length" in h && h.Keys == headers.Keys + {"Content-Length"}
    ensures forall k :: k in headers ==> h[k] == headers[k]
    ensures "Content-Length" !in headers ==> h["Content-Length"] == ""
  {
    if "Content-Length" in headers then headers else headers["Content-Length" := ""]
  }

  /**
   * The first branch of `onData`: the chunk is parsed (in a copy of it) as the
   * start of a response, and the byte count and expected length are read off.
   * `ParseResponse` always succeeds, so the source's failure branch is never
   * taken.
   */
  method FirstChunk(data: seq<char>, res: Response) returns (r: Response, received: nat, expected: nat)
    ensures var p := ParseResponseSpec(data, res).res;
      && r == p.(headers := WithContentLength(p.headers))
      && received == Unsigned(|p.body|)
      && expected == Unsigned(Atol(r.headers["Content-Length"]))
  {
    var chunk := new char[|data|](k requires 0 <= k < |data| => data[k]);
    assert chunk[..] == data;
    var ok, parsed := ParseResponse(chunk, res);
    r := parsed.(headers := WithContentLength(parsed.headers));
    received := Unsigned(|parsed.body|);
    expected := Unsigned(Atol(r.headers["Content-Length"]));
  }

  /**
   * Once a `Content-Length` is stored, parsing later chunks never replaces
   * it: a client whose status code stays 0 keeps the first expected length.
   */
  lemma StaleContentLength(data: seq<char>, res: Response)
    requires "Content-Length" in res.headers
    ensures var h := ParseResponseSpec(data, res).res.headers;
      "Content-Length" in h && h["Content-Length"] == res.headers["Content-Length"]
  {
    ParseKeepsHeaders(data, res);
  }
}
