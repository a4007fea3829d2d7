/**
 * `Http::Client::ParseResponse` and its two line parsers
 * (src/http/http_client.cpp): the first chunk of an HTTP/1.1 response is
 * scanned for CR LF pairs; the first line is the status line (RFC 9112,
 * section 4), every further line a `key: value` header field (RFC 9112,
 * section 5), up to the CR LF CR LF that ends the header section; what
 * follows is the start of the body.  The scan works in place: every CR that
 * ends a line, the space after the status code and the `':'` of a field are
 * overwritten with `'\0'` so that the parts can be read as C strings.
 *
 * The scan is specified here as a state machine on the buffer (`Scan`,
 * `Run`, `Pass`); the imperative loop in module `Http` is proved to follow
 * it.  `Render` writes a response out as text, and `ParseRender` proves that
 * the scan reads the status code, the reason, the header fields and the body
 * back from it.
 */
module HttpResponse {
  import opened Arduino

  /** `Http::Response`; `statusCode` is a `uint16_t`. */
  datatype Response = Response(headers: map<string, string>, body: string, statusCode: nat, reasonMessage: string)

  /** An `int` stored into a `uint16_t`. */
  function Uint16(x: int): (u: nat)
    ensures u < 0x1_0000
    ensures 0 <= x < 0x1_0000 ==> u == x
  {
    x % 0x1_0000
  }

  const StatusLinePrefix: string := "HTTP/1.1 "

  /** `std::map::insert`: a key that is already present keeps its value. */
  function Insert(headers: map<string, string>, key: string, value: string): map<string, string>
  {
    if key in headers then headers else headers[key := value]
  }

  /** The first value stored under a key wins; other keys are untouched. */
  lemma InsertKeepsFirst(headers: map<string, string>, key: string, value: string)
    ensures var h := Insert(headers, key, value);
      && key in h && h[key] == (if key in headers then headers[key] else value)
      && (forall k :: k != key ==> (k in h <==> k in headers))
      && (forall k :: k != key && k in headers ==> h[k] == headers[k])
  {
  }

  /** What a line parser reports: its verdict, the buffer it wrote into and the response it filled. */
  datatype Parsed = Parsed(ok: bool, buf: seq<char>, res: Response)

  /**
   * `ParseResponseStatusLine(line, lineLength, res)` with the line at the start
   * of the buffer and its CR already overwritten by `'\0'`: at least nine
   * characters starting with `"HTTP/1.1 "`, then the code up to the first
   * space, which must lie inside the line; the code is `atoi` of that field
   * and the reason the rest of the line.  (The source's second check of the
   * same condition, before the reason is read, can never fail.)
   */
  function StatusLineStep(buf: seq<char>, lineLength: nat, res: Response): (p: Parsed)
    requires lineLength < |buf| && buf[lineLength] == '\0'
    ensures |p.buf| == |buf|
    ensures !p.ok ==> p.res == res
  {
    if lineLength < |StatusLinePrefix| then Parsed(false, buf, res)
    else if buf[..|StatusLinePrefix|] != StatusLinePrefix then Parsed(false, buf, res)
    else
      var end := Strcspn(buf, |StatusLinePrefix|, ' ');
      if |StatusLinePrefix| + end >= lineLength then Parsed(false, buf, res)
      else
        var b := buf[|StatusLinePrefix| + end := '\0'];
        Parsed(true, b, res.(statusCode := Uint16(Atol(CString(b, |StatusLinePrefix|))),
                             reasonMessage := CString(b, |StatusLinePrefix| + end + 1)))
  }

  /**
   * `ParseResponseHeaderField(line, lineLength, res)`: the key runs up to the
   * first `':'` (or the end of the line), which is overwritten by `'\0'`; the
   * value starts two characters after it.  The guard compares the key length
   * with `lineLength`, and the caller passes the line's END OFFSET in the
   * buffer there, not its length.
   */
  function HeaderFieldStep(buf: seq<char>, line: nat, lineLength: nat, res: Response): (p: Parsed)
    requires line <= lineLength < |buf| && buf[lineLength] == '\0'
    ensures |p.buf| == |buf|
    ensures !p.ok ==> p.res == res
  {
    var keyPosition := Strcspn(buf, line, ':');
    assert line + keyPosition <= lineLength;
    var b := buf[line + keyPosition := '\0'];
    if keyPosition + 2 < lineLength then
      Parsed(true, b, res.(headers := Insert(res.headers, CString(b, line), CString(b, line + keyPosition + 2))))
    else
      Parsed(false, b, res)
  }

  /** The scan's variables: the buffer, `i`, the `line` cursor, `isFirstline`, the response, `success`, and whether the loop broke. */
  datatype Scan = Scan(buf: seq<char>, i: nat, line: nat, first: bool, res: Response, success: bool, stop: bool)

  /** `rawData[i] == '\r' && rawData[i + 1] == '\n'`. */
  predicate AtLineEnd(s: Scan)
    requires s.i + 1 < |s.buf|
  {
    s.buf[s.i] == '\r' && s.buf[s.i + 1] == '\n'
  }

  /**
   * The rest of the loop body once the line ending at the CR at `i` has been
   * parsed into `b` and `res`: break at CR LF CR LF with the body at `i + 4`,
   * else go on with the next line at `i + 2`.
   */
  function Continue(s: Scan, b: seq<char>, res: Response): (t: Scan)
  {
    if s.i + 4 < |b| && b[s.i + 2] == '\r' && b[s.i + 3] == '\n' then Scan(b, s.i, s.i + 4, false, res, true, true)
    else if s.i + 2 < |b| then Scan(b, s.i + 1, s.i + 2, false, res, true, false)
    else Scan(b, s.i, s.line, false, res, false, true)
  }

  /**
   * The loop bound `len - 4`, taken as 0 for chunks shorter than four
   * characters (see `ScanBoundAsWritten` for the source's `size_t`
   * arithmetic).
   */
  function ScanBound(len: nat): (b: nat)
    ensures len < 4 ==> b == 0
    ensures len >= 4 ==> b + 4 == len
  {
    if len >= 4 then len - 4 else 0
  }

  /** The source's bound: `len - 4` on a 32-bit `size_t`. */
  function ScanBoundAsWritten(len: nat): nat
  {
    Unsigned(len - 4)
  }

  /** Below four characters the source's bound lets `i` run past the chunk, where `rawData[i]` is read. */
  lemma ScanBoundAsWrittenOverruns(len: nat)
    requires len < 4
    ensures ScanBoundAsWritten(len) > len
    ensures ScanBoundAsWritten(len) == Uint32Modulus + len - 4
  {
  }

  /** For chunks of four characters or more the two bounds agree. */
  lemma ScanBoundAgrees(len: nat)
    requires 4 <= len < Uint32Modulus
    ensures ScanBoundAsWritten(len) == ScanBound(len)
  {
  }

  /** The `for` loop from index `i`: its test, then the body, until a break or the bound. */
  function Run(s: Scan, bound: nat): (t: Scan)
    requires bound <= ScanBound(|s.buf|)
    ensures |t.buf| == |s.buf|
    decreases bound - s.i, if s.stop then 0 else 4
  {
    if s.stop || s.i >= bound then s else Pass(s, bound)
  }

  /**
   * One pass of the loop body: at a CR LF the CR becomes `'\0'` and the line
   * is parsed, as the status line while `isFirstline` holds and as a header
   * field after that; any other character is skipped.  A header line always
   * ends at or after its start, since the LF before it is no CR; the last
   * branch, which would fail the scan otherwise, is never taken.
   */
  function Pass(s: Scan, bound: nat): (t: Scan)
    requires bound <= ScanBound(|s.buf|) && !s.stop && s.i < bound
    ensures |t.buf| == |s.buf|
    decreases bound - s.i, 3
  {
    if !AtLineEnd(s) then Run(s.(i := s.i + 1), bound)
    else if s.first then AfterStatusLine(s, bound)
    else if s.line <= s.i then AfterFieldLine(s, bound)
    else s.(success := false, stop := true)
  }

  function AfterStatusLine(s: Scan, bound: nat): (t: Scan)
    requires bound <= ScanBound(|s.buf|) && !s.stop && s.i < bound && AtLineEnd(s)
    ensures |t.buf| == |s.buf|
    decreases bound - s.i, 2
  {
    AfterLine(s, StatusLineStep(s.buf[s.i := '\0'], s.i, s.res), bound)
  }

  function AfterFieldLine(s: Scan, bound: nat): (t: Scan)
    requires bound <= ScanBound(|s.buf|) && !s.stop && s.i < bound && AtLineEnd(s) && s.line <= s.i
    ensures |t.buf| == |s.buf|
    decreases bound - s.i, 2
  {
    AfterLine(s, HeaderFieldStep(s.buf[s.i := '\0'], s.line, s.i, s.res), bound)
  }

  /** The rest of the body once the line is parsed: a failed line breaks the loop, else `Continue` decides. */
  function AfterLine(s: Scan, p: Parsed, bound: nat): (t: Scan)
    requires bound <= ScanBound(|s.buf|) && s.i < bound && |p.buf| == |s.buf|
    ensures |t.buf| == |s.buf|
    decreases bound - s.i, 1
  {
    if !p.ok then Scan(p.buf, s.i, s.line, false, p.res, false, true)
    else
      var t := Continue(s, p.buf, p.res);
      if t.stop then t else Run(t, bound)
  }

  /** The loop from `s` to its bound `len - 4`. */
  function RunToBound(s: Scan): (t: Scan)
    ensures |t.buf| == |s.buf|
  {
    Run(s, ScanBound(|s.buf|))
  }

  /** The state before the first pass. */
  function Start(buf: seq<char>, res: Response): Scan
  {
    Scan(buf, 0, 0, true, res, true, false)
  }

  /**
   * The whole of `ParseResponse`: run the scan, then take as body the C
   * string at `line` when no line failed and the header terminator was found
   * (`i + 4 < len`), else the empty string.  The verdict is always true.
   */
  function ParseResponseSpec(buf: seq<char>, res: Response): (p: Parsed)
    ensures p.ok && |p.buf| == |buf|
  {
    var s := RunToBound(Start(buf, res));
    var body := if s.success && s.i + 4 < |buf| then CString(s.buf, s.line) else "";
    Parsed(true, s.buf, s.res.(body := body))
  }

  /**
   * `ParseResponse` as written.  The chunk AsyncTCP hands to `onData` is not
   * NUL-terminated, yet `res.body = String(line)` reads a C string out of
   * it, so the body runs on into `after`, whatever memory follows the chunk,
   * up to its first `'\0'`.  `ParseResponseSpec` is the intended parse that
   * stops at the end of the chunk.
   */
  function ParseResponseAsWritten(buf: seq<char>, after: seq<char>, res: Response): (p: Parsed)
    ensures p.ok && |p.buf| == |buf|
  {
    var s := RunToBound(Start(buf, res));
    var body := if s.success && s.i + 4 < |buf| then CString(s.buf + after, s.line) else "";
    Parsed(true, s.buf, s.res.(body := body))
  }

  /** The scan found the empty line and the body it takes runs, unterminated, to the end of the chunk. */
  predicate BodyReachesEnd(buf: seq<char>, res: Response)
  {
    var s := RunToBound(Start(buf, res));
    s.success && s.i + 4 < |buf| && s.line <= |buf| && s.line + |CString(s.buf, s.line)| == |buf|
  }

  /**
   * The two parses differ in the body only; where the body reaches the end
   * of the chunk, the parse as written appends the C string that follows
   * the chunk in memory.
   */
  lemma ParseResponseAsWrittenBody(buf: seq<char>, after: seq<char>, res: Response)
    ensures ParseResponseAsWritten(buf, after, res).buf == ParseResponseSpec(buf, res).buf
    ensures ParseResponseAsWritten(buf, after, res).res.(body := ParseResponseSpec(buf, res).res.body)
         == ParseResponseSpec(buf, res).res
    ensures BodyReachesEnd(buf, res) ==>
      ParseResponseAsWritten(buf, after, res).res.body == ParseResponseSpec(buf, res).res.body + CString(after, 0)
  {
    var s := RunToBound(Start(buf, res));
    if BodyReachesEnd(buf, res) {
      CStringRunsOn(s.buf, after, s.line);
    }
  }

  // ---------------------------------------------------------------------------
  // Single passes of the loop

  lemma RunPastChar(s: Scan, bound: nat)
    requires bound <= ScanBound(|s.buf|) && !s.stop && s.i < bound && !AtLineEnd(s)
    ensures Run(s, bound) == Run(s.(i := s.i + 1), bound)
  {
  }

  lemma {:induction false} RunSkip(s: Scan, bound: nat, k: nat)
    requires bound <= ScanBound(|s.buf|) && !s.stop
    requires s.i <= k <= bound
    requires forall j :: s.i <= j < k ==> s.buf[j] != '\r'
    ensures Run(s, bound) == Run(s.(i := k), bound)
    decreases k - s.i
  {
    if s.i < k {
      RunPastChar(s, bound);
      RunSkip(s.(i := s.i + 1), bound, k);
    }
  }

  /** A run that has not broken off by the bound ends there, without a body. */
  lemma NoTerminatorNoBody(buf: seq<char>, res: Response)
    requires forall j :: 0 <= j < ScanBound(|buf|) ==> buf[j] != '\r'
    ensures ParseResponseSpec(buf, res) == Parsed(true, buf, res.(body := ""))
  {
    var s := Start(buf, res);
    var bound := ScanBound(|buf|);
    RunSkip(s, bound, bound);
  }

  /** A chunk of fewer than four characters is never scanned: the response only loses its body. */
  lemma ShortChunkNoBody(buf: seq<char>, res: Response)
    requires |buf| < 4
    ensures ParseResponseSpec(buf, res) == Parsed(true, buf, res.(body := ""))
  {
    NoTerminatorNoBody(buf, res);
  }

  // ---------------------------------------------------------------------------
  // Responses as a server sends them

  /** Text free of the characters that end a line or a C string. */
  predicate Plain(s: string)
  {
    NoChar(s, '\r') && NoChar(s, '\0')
  }

  /** A response: status code, reason phrase, header fields in order and the body. */
  datatype Message = Message(statusCode: nat, reason: string, fields: seq<(string, string)>, body: string)

  function StatusLine(code: nat, reason: string): string
  {
    StatusLinePrefix + Decimal(code) + " " + reason
  }

  function FieldText(f: (string, string)): string
  {
    f.0 + ": " + f.1
  }

  function RenderFields(fields: seq<(string, string)>): string
  {
    if fields == [] then "" else FieldText(fields[0]) + "\r\n" + RenderFields(fields[1..])
  }

  /** The status line, the header fields, the empty line and the body, each line ended by CR LF. */
  function Render(m: Message): string
  {
    StatusLine(m.statusCode, m.reason) + "\r\n" + RenderFields(m.fields) + "\r\n" + m.body
  }

  /** The fields inserted into the header map one after another, as the scan does. */
  function InsertAll(headers: map<string, string>, fields: seq<(string, string)>): map<string, string>
    decreases |fields|
  {
    if fields == [] then headers else InsertAll(Insert(headers, fields[0].0, fields[0].1), fields[1..])
  }

  /** A field line the parser splits as intended: no `':'` in the key, no CR or `'\0'` anywhere. */
  predicate FieldOk(f: (string, string))
  {
    NoChar(f.0, ':') && Plain(f.0) && Plain(f.1)
  }

  predicate FieldsOk(fields: seq<(string, string)>)
  {
    forall j :: 0 <= j < |fields| ==> FieldOk(fields[j])
  }

  predicate WellFormed(m: Message)
  {
    m.statusCode < 0x1_0000 && Plain(m.reason) && FieldsOk(m.fields) && NoChar(m.body, '\0')
  }

  // ---------------------------------------------------------------------------
  // What the line parsers read off a rendered response

  /**
   * The buffer holds, from `i`, a header line that ends in CR LF and that the
   * field parser splits into `key` and `value`: no CR before the line end,
   * the key runs to the first `':'`, and key and value read back as C strings
   * once the CR and the `':'` are overwritten.
   */
  predicate FieldAt(buf: seq<char>, i: nat, key: string, value: string)
  {
    var c := i + |key| + 2 + |value|;
    && c + 1 < |buf| && buf[c] == '\r' && buf[c + 1] == '\n'
    && (forall j :: i <= j < c ==> buf[j] != '\r')
    && Strcspn(buf[c := '\0'], i, ':') == |key|
    && CString(buf[c := '\0'][i + |key| := '\0'], i) == key
    && CString(buf[c := '\0'][i + |key| := '\0'], i + |key| + 2) == value
  }

  /** The same for the status line at the start of the buffer. */
  predicate StatusAt(buf: seq<char>, code: nat, reason: string)
  {
    var p := |StatusLinePrefix|;
    var d := |Decimal(code)|;
    var c := |StatusLine(code, reason)|;
    && c + 1 < |buf| && buf[c] == '\r' && buf[c + 1] == '\n'
    && (forall j :: 0 <= j < c ==> buf[j] != '\r')
    && buf[..p] == StatusLinePrefix
    && Strcspn(buf[c := '\0'], p, ' ') == d
    && Uint16(Atol(CString(buf[c := '\0'][p + d := '\0'], p))) == code
    && CString(buf[c := '\0'][p + d := '\0'], p + d + 1) == reason
  }

  /** The header lines from `i`, then the empty line and the body up to the end of the buffer. */
  predicate Lines(buf: seq<char>, i: nat, fields: seq<(string, string)>, body: string)
    decreases |fields|, 1
  {
    if fields == [] then
      && i + 2 + |body| == |buf| && buf[i] == '\r' && buf[i + 1] == '\n' && CString(buf, i + 2) == body
    else
      LinesFrom(buf, i, fields, body)
  }

  /** The first header line at `i`, then the rest. */
  predicate LinesFrom(buf: seq<char>, i: nat, fields: seq<(string, string)>, body: string)
    requires fields != []
    decreases |fields|, 0
  {
    && FieldAt(buf, i, fields[0].0, fields[0].1)
    && Lines(buf, i + |FieldText(fields[0])| + 2, fields[1..], body)
  }

  /** Writing before `i` does not disturb the lines from `i`. */
  lemma {:induction false} FieldAtFrame(a: seq<char>, b: seq<char>, i: nat, key: string, value: string)
    requires |a| == |b| && forall j :: i <= j < |a| ==> a[j] == b[j]
    requires FieldAt(a, i, key, value)
    ensures FieldAt(b, i, key, value)
  {
    var c := i + |key| + 2 + |value|;
    StrcspnFrame(a[c := '\0'], b[c := '\0'], i, ':');
    CStringFrame(a[c := '\0'][i + |key| := '\0'], b[c := '\0'][i + |key| := '\0'], i);
    CStringFrame(a[c := '\0'][i + |key| := '\0'], b[c := '\0'][i + |key| := '\0'], i + |key| + 2);
  }

  lemma {:induction false} LinesFrame(a: seq<char>, b: seq<char>, i: nat, fields: seq<(string, string)>, body: string)
    requires |a| == |b| && forall j :: i <= j < |a| ==> a[j] == b[j]
    requires Lines(a, i, fields, body)
    ensures Lines(b, i, fields, body)
    decreases |fields|
  {
    if fields == [] {
      CStringFrame(a, b, i + 2);
    } else {
      assert LinesFrom(a, i, fields, body);
      FieldAtFrame(a, b, i, fields[0].0, fields[0].1);
      LinesFrame(a, b, i + |FieldText(fields[0])| + 2, fields[1..], body);
      assert LinesFrom(b, i, fields, body);
    }
  }

  lemma SplitAt(buf: seq<char>, i: nat, a: string, b: string)
    requires i <= |buf| && buf[i..] == a + b
    ensures i + |a| <= |buf| && buf[i..i + |a|] == a && buf[i + |a|..] == b
  {
    assert buf[i..i + |a|] == buf[i..][..|a|];
    assert buf[i + |a|..] == buf[i..][|a|..];
  }

  lemma PlainSpan(buf: seq<char>, i: nat, c: nat, text: string)
    requires i <= c <= |buf| && buf[i..c] == text && NoChar(text, '\r')
    ensures forall j :: i <= j < c ==> buf[j] != '\r'
  {
    forall j | i <= j < c
      ensures buf[j] != '\r'
    {
      assert buf[j] == text[j - i];
    }
  }

  /** A line `text` at `i`, then CR LF, then `rest`. */
  lemma LineLayout(buf: seq<char>, i: nat, text: string, rest: string)
    requires i <= |buf| && buf[i..] == text + "\r\n" + rest
    ensures var c := i + |text|;
      && c + 2 <= |buf| && buf[i..c] == text && buf[c] == '\r' && buf[c + 1] == '\n' && buf[c + 2..] == rest
  {
    assert text + "\r\n" + rest == text + ("\r\n" + rest);
    SplitAt(buf, i, text, "\r\n" + rest);
    SplitAt(buf, i + |text|, "\r\n", rest);
    assert buf[i + |text|..i + |text| + 2] == "\r\n";
    assert buf[i + |text|] == buf[i + |text|..i + |text| + 2][0];
    assert buf[i + |text| + 1] == buf[i + |text|..i + |text| + 2][1];
  }

  /** Writing at `c` leaves the slices before `c` alone. */
  lemma SliceBeforeUpdate(buf: seq<char>, c: nat, x: char, i: nat, j: nat)
    requires i <= j <= c < |buf|
    ensures buf[c := x][i..j] == buf[i..j]
  {
  }

  /** The parts of a header line. */
  lemma FieldTextParts(key: string, value: string)
    ensures var text := FieldText((key, value));
      && |text| == |key| + 2 + |value|
      && text[..|key|] == key && text[|key|] == ':' && text[|key| + 2..] == value
  {
  }

  /** The key of a rendered header line runs to its first `':'`. */
  lemma FieldKeyLength(b: seq<char>, i: nat, key: string, value: string)
    requires NoChar(key, ':') && NoChar(key, '\0')
    requires i + |key| + 2 + |value| <= |b| && b[i..i + |key| + 2 + |value|] == FieldText((key, value))
    ensures Strcspn(b, i, ':') == |key|
  {
    var c := i + |key| + 2 + |value|;
    FieldTextParts(key, value);
    assert b[i..i + |key|] == b[i..c][..|key|];
    assert b[i + |key|] == b[i..c][|key|];
    StrcspnAt(b, i, key, ':');
  }

  /** With the `':'` overwritten, the key reads back as a C string. */
  lemma FieldKeyString(b: seq<char>, i: nat, key: string, value: string)
    requires NoChar(key, '\0')
    requires i + |key| + 2 + |value| <= |b| && b[i..i + |key| + 2 + |value|] == FieldText((key, value))
    ensures CString(b[i + |key| := '\0'], i) == key
  {
    var c := i + |key| + 2 + |value|;
    FieldTextParts(key, value);
    var b2 := b[i + |key| := '\0'];
    assert b2[i..i + |key|] == b[i..c][..|key|];
    CStringAt(b2, i, key);
  }

  /** With the CR overwritten as well, the value reads back as a C string. */
  lemma FieldValueString(b: seq<char>, i: nat, key: string, value: string)
    requires NoChar(value, '\0')
    requires var c := i + |key| + 2 + |value|;
      c < |b| && b[c] == '\0' && b[i..c] == FieldText((key, value))
    ensures CString(b[i + |key| := '\0'], i + |key| + 2) == value
  {
    var c := i + |key| + 2 + |value|;
    FieldTextParts(key, value);
    var b2 := b[i + |key| := '\0'];
    assert b2[i + |key| + 2..c] == b[i..c][|key| + 2..];
    CStringAt(b2, i + |key| + 2, value);
  }

  /** A well-formed header line, as rendered, is split by the field parser into its key and value. */
  lemma FieldAtOfText(buf: seq<char>, i: nat, key: string, value: string)
    requires FieldOk((key, value))
    requires var c := i + |key| + 2 + |value|;
      c + 1 < |buf| && buf[i..c] == FieldText((key, value)) && buf[c] == '\r' && buf[c + 1] == '\n'
    ensures FieldAt(buf, i, key, value)
  {
    var c := i + |key| + 2 + |value|;
    var text := FieldText((key, value));
    assert NoChar(text, '\r');
    PlainSpan(buf, i, c, text);
    var b := buf[c := '\0'];
    SliceBeforeUpdate(buf, c, '\0', i, c);
    FieldKeyLength(b, i, key, value);
    FieldKeyString(b, i, key, value);
    FieldValueString(b, i, key, value);
  }

  /** The parts of a status line. */
  lemma StatusLineParts(code: nat, reason: string)
    ensures var text := StatusLine(code, reason);
      var p := |StatusLinePrefix|;
      var d := |Decimal(code)|;
      && |text| == p + d + 1 + |reason|
      && text[..p] == StatusLinePrefix && text[p..p + d] == Decimal(code)
      && text[p + d] == ' ' && text[p + d + 1..] == reason
  {
  }

  /** The space after the code lies inside the status line. */
  lemma StatusCodeBeforeEnd(code: nat, reason: string)
    ensures |StatusLinePrefix| + |Decimal(code)| < |StatusLine(code, reason)|
  {
  }

  /** A slice of a prefix is a slice of the whole. */
  lemma SliceOfPrefix(b: seq<char>, c: nat, i: nat, j: nat)
    requires i <= j <= c <= |b|
    ensures b[..c][i..j] == b[i..j]
  {
  }

  /** In a buffer that starts with a status line, the code follows the prefix and a space follows the code. */
  lemma StatusCodeSlice(b: seq<char>, code: nat, reason: string)
    requires |StatusLine(code, reason)| <= |b| && b[..|StatusLine(code, reason)|] == StatusLine(code, reason)
    ensures var p := |StatusLinePrefix|;
      var d := |Decimal(code)|;
      && p + d < |StatusLine(code, reason)| && b[p..p + d] == Decimal(code) && b[p + d] == ' '
  {
    var p := |StatusLinePrefix|;
    var d := |Decimal(code)|;
    var c := |StatusLine(code, reason)|;
    StatusLineParts(code, reason);
    SliceOfPrefix(b, c, p, p + d);
    assert b[p + d] == b[..c][p + d];
  }

  /** The status code of a rendered status line runs to the first space after the prefix. */
  lemma StatusCodeLength(b: seq<char>, code: nat, reason: string)
    requires |StatusLine(code, reason)| <= |b| && b[..|StatusLine(code, reason)|] == StatusLine(code, reason)
    ensures Strcspn(b, |StatusLinePrefix|, ' ') == |Decimal(code)|
  {
    StatusCodeSlice(b, code, reason);
    assert NoChar(Decimal(code), ' ') && NoChar(Decimal(code), '\0');
    StrcspnAt(b, |StatusLinePrefix|, Decimal(code), ' ');
  }

  /** Text followed by a character that is then overwritten by `'\0'` reads back as a C string. */
  lemma CStringBeforeCut(b: seq<char>, start: nat, s: string)
    requires start + |s| < |b| && b[start..start + |s|] == s && NoChar(s, '\0')
    ensures CString(b[start + |s| := '\0'], start) == s
  {
    var b2 := b[start + |s| := '\0'];
    assert b2[start..start + |s|] == s;
    CStringAt(b2, start, s);
  }

  /** With the space overwritten, the code reads back through `atol`. */
  lemma StatusCodeValue(b: seq<char>, code: nat, reason: string)
    requires code < 0x1_0000
    requires |StatusLine(code, reason)| <= |b| && b[..|StatusLine(code, reason)|] == StatusLine(code, reason)
    ensures Uint16(Atol(CString(b[|StatusLinePrefix| + |Decimal(code)| := '\0'], |StatusLinePrefix|))) == code
  {
    StatusCodeSlice(b, code, reason);
    CStringBeforeCut(b, |StatusLinePrefix|, Decimal(code));
    AtolOfDecimal(code, []);
    assert Decimal(code) + [] == Decimal(code);
  }

  /** A C string that ends at a `'\0'` survives a cut before its start. */
  lemma CStringAfterCut(b: seq<char>, k: nat, start: nat, c: nat, s: string)
    requires k < start <= c < |b| && b[c] == '\0' && b[start..c] == s && NoChar(s, '\0')
    ensures CString(b[k := '\0'], start) == s
  {
    var b2 := b[k := '\0'];
    assert b2[start..c] == s;
    CStringAt(b2, start, s);
  }

  /** With the CR overwritten as well, the reason reads back as a C string. */
  lemma StatusReasonValue(b: seq<char>, code: nat, reason: string)
    requires Plain(reason)
    requires var c := |StatusLine(code, reason)|;
      c < |b| && b[c] == '\0' && b[..c] == StatusLine(code, reason)
    ensures CString(b[|StatusLinePrefix| + |Decimal(code)| := '\0'], |StatusLinePrefix| + |Decimal(code)| + 1) == reason
  {
    var p := |StatusLinePrefix|;
    var d := |Decimal(code)|;
    var c := |StatusLine(code, reason)|;
    StatusLineParts(code, reason);
    SliceOfPrefix(b, c, p + d + 1, c);
    CStringAfterCut(b, p + d, p + d + 1, c, reason);
  }

  /** A well-formed status line, as rendered, is split by the status-line parser into its code and reason. */
  lemma StatusAtOfText(buf: seq<char>, code: nat, reason: string)
    requires code < 0x1_0000 && Plain(reason)
    requires var c := |StatusLine(code, reason)|;
      c + 1 < |buf| && buf[0..c] == StatusLine(code, reason) && buf[c] == '\r' && buf[c + 1] == '\n'
    ensures StatusAt(buf, code, reason)
  {
    var p := |StatusLinePrefix|;
    var text := StatusLine(code, reason);
    var c := |text|;
    StatusLineParts(code, reason);
    assert NoChar(Decimal(code), '\r');
    assert NoChar(text, '\r');
    PlainSpan(buf, 0, c, text);
    assert buf[..p] == buf[0..c][..p];
    var b := buf[c := '\0'];
    SliceBeforeUpdate(buf, c, '\0', 0, c);
    assert b[..c] == b[0..c];
    StatusCodeLength(b, code, reason);
    StatusCodeValue(b, code, reason);
    StatusReasonValue(b, code, reason);
  }

  /** A rendered header line at `i`, and what follows it. */
  lemma FieldLineOfText(buf: seq<char>, i: nat, f: (string, string), rest: string)
    requires FieldOk(f) && i <= |buf| && buf[i..] == FieldText(f) + "\r\n" + rest && |rest| >= 2
    ensures FieldAt(buf, i, f.0, f.1) && buf[i + |FieldText(f)| + 2..] == rest
  {
    LineLayout(buf, i, FieldText(f), rest);
    FieldAtOfText(buf, i, f.0, f.1);
  }

  /** The same for the empty line and the body. */
  lemma EmptyLineOfText(buf: seq<char>, i: nat, body: string)
    requires NoChar(body, '\0') && i <= |buf| && buf[i..] == "\r\n" + body
    ensures Lines(buf, i, [], body)
  {
    LineLayout(buf, i, "", body);
    CStringAt(buf, i + 2, body);
  }

  /** The rendered header section, its first line split off. */
  lemma RenderFieldsCons(fields: seq<(string, string)>, body: string)
    requires fields != []
    ensures RenderFields(fields) + "\r\n" + body
         == FieldText(fields[0]) + "\r\n" + (RenderFields(fields[1..]) + "\r\n" + body)
  {
  }

  /** What follows a rendered line `text` and its CR LF. */
  lemma RestOfLine(buf: seq<char>, i: nat, text: string, rest: string)
    requires i <= |buf| && buf[i..] == text + "\r\n" + rest
    ensures i + |text| + 2 <= |buf| && buf[i + |text| + 2..] == rest
  {
    LineLayout(buf, i, text, rest);
  }

  /** One rendered field line in front of a laid out remainder. */
  lemma LinesStep(buf: seq<char>, i: nat, fields: seq<(string, string)>, body: string, rest: string)
    requires fields != [] && FieldOk(fields[0]) && |rest| >= 2
    requires i <= |buf| && buf[i..] == FieldText(fields[0]) + "\r\n" + rest
    requires Lines(buf, i + |FieldText(fields[0])| + 2, fields[1..], body)
    ensures Lines(buf, i, fields, body)
  {
    FieldLineOfText(buf, i, fields[0], rest);
    assert LinesFrom(buf, i, fields, body);
  }

  /** `buf` holds `t` from `i` to its end, one character at a time. */
  predicate HoldsFrom(buf: seq<char>, i: nat, t: string)
    decreases |t|
  {
    if t == [] then i == |buf| else i < |buf| && buf[i] == t[0] && HoldsFrom(buf, i + 1, t[1..])
  }

  lemma {:induction false} HoldsFromSlice(buf: seq<char>, i: nat, t: string)
    ensures HoldsFrom(buf, i, t) <==> i <= |buf| && buf[i..] == t
    decreases |t|
  {
    if t != [] {
      HoldsFromSlice(buf, i + 1, t[1..]);
      if i < |buf| && buf[i..] == t {
        assert buf[i + 1..] == buf[i..][1..];
      }
      if i < |buf| && buf[i] == t[0] && buf[i + 1..] == t[1..] {
        assert buf[i..] == [buf[i]] + buf[i + 1..];
      }
    }
  }

  /** The rendered header section from `i` satisfies `Lines`. */
  lemma {:induction false} LinesOfHeld(buf: seq<char>, i: nat, fields: seq<(string, string)>, body: string)
    requires FieldsOk(fields) && NoChar(body, '\0')
    requires HoldsFrom(buf, i, RenderFields(fields) + "\r\n" + body)
    ensures Lines(buf, i, fields, body)
    decreases |fields|
  {
    var t := RenderFields(fields) + "\r\n" + body;
    HoldsFromSlice(buf, i, t);
    if fields == [] {
      EmptyLineOfText(buf, i, body);
    } else {
      var next := i + |FieldText(fields[0])| + 2;
      HeldRest(buf, i, fields, body);
      assert FieldOk(fields[0]) && FieldsOk(fields[1..]);
      LinesOfHeld(buf, next, fields[1..], body);
      LinesOfHeldCons(buf, i, fields, body);
    }
  }

  /** The text after the first rendered field line. */
  lemma HeldRest(buf: seq<char>, i: nat, fields: seq<(string, string)>, body: string)
    requires fields != [] && HoldsFrom(buf, i, RenderFields(fields) + "\r\n" + body)
    ensures HoldsFrom(buf, i + |FieldText(fields[0])| + 2, RenderFields(fields[1..]) + "\r\n" + body)
  {
    var rest := RenderFields(fields[1..]) + "\r\n" + body;
    HoldsFromSlice(buf, i, RenderFields(fields) + "\r\n" + body);
    RenderFieldsCons(fields, body);
    RestOfLine(buf, i, FieldText(fields[0]), rest);
    HoldsFromSlice(buf, i + |FieldText(fields[0])| + 2, rest);
  }

  /** The first field line of a rendered header section, in front of its laid out remainder. */
  lemma LinesOfHeldCons(buf: seq<char>, i: nat, fields: seq<(string, string)>, body: string)
    requires fields != [] && FieldOk(fields[0])
    requires HoldsFrom(buf, i, RenderFields(fields) + "\r\n" + body)
    requires Lines(buf, i + |FieldText(fields[0])| + 2, fields[1..], body)
    ensures Lines(buf, i, fields, body)
  {
    var rest := RenderFields(fields[1..]) + "\r\n" + body;
    HoldsFromSlice(buf, i, RenderFields(fields) + "\r\n" + body);
    RenderFieldsCons(fields, body);
    LinesStep(buf, i, fields, body, rest);
  }

  /** The rendered response split at the end of its status line. */
  lemma RenderSplit(m: Message)
    ensures var c := |StatusLine(m.statusCode, m.reason)|;
      && c + 2 <= |Render(m)|
      && Render(m)[0..c] == StatusLine(m.statusCode, m.reason) && Render(m)[c] == '\r' && Render(m)[c + 1] == '\n'
      && Render(m)[c + 2..] == RenderFields(m.fields) + "\r\n" + m.body
  {
    var buf := Render(m);
    var text := StatusLine(m.statusCode, m.reason);
    assert buf[0..] == text + "\r\n" + (RenderFields(m.fields) + "\r\n" + m.body);
    LineLayout(buf, 0, text, RenderFields(m.fields) + "\r\n" + m.body);
  }

  /** The status line of a rendered response. */
  lemma RenderStatus(m: Message)
    requires WellFormed(m)
    ensures StatusAt(Render(m), m.statusCode, m.reason)
  {
    RenderSplit(m);
    StatusAtOfText(Render(m), m.statusCode, m.reason);
  }

  /** The header lines and body of a rendered response. */
  lemma RenderLines(m: Message)
    requires WellFormed(m)
    ensures Lines(Render(m), |StatusLine(m.statusCode, m.reason)| + 2, m.fields, m.body)
  {
    RenderRest(m);
    LinesOfHeld(Render(m), |StatusLine(m.statusCode, m.reason)| + 2, m.fields, m.body);
  }

  /** What follows the status line of a rendered response, character by character. */
  lemma RenderRest(m: Message)
    ensures HoldsFrom(Render(m), |StatusLine(m.statusCode, m.reason)| + 2, RenderFields(m.fields) + "\r\n" + m.body)
  {
    RenderSplit(m);
    HoldsFromSlice(Render(m), |StatusLine(m.statusCode, m.reason)| + 2, RenderFields(m.fields) + "\r\n" + m.body);
  }

  lemma {:induction false} LinesLength(buf: seq<char>, i: nat, fields: seq<(string, string)>, body: string)
    requires Lines(buf, i, fields, body)
    ensures i + |RenderFields(fields)| + 2 + |body| == |buf|
    decreases |fields|
  {
    if fields != [] {
      assert LinesFrom(buf, i, fields, body);
      LinesLength(buf, i + |FieldText(fields[0])| + 2, fields[1..], body);
    }
  }

  // ---------------------------------------------------------------------------
  // The scan over a rendered response

  /** The pass at the CR that ends the status line: code and reason are stored. */
  lemma StatusLineRun(s: Scan, code: nat, reason: string, bound: nat)
    requires !s.stop && s.first && s.i == |StatusLine(code, reason)| && s.i < bound <= ScanBound(|s.buf|)
    requires StatusAt(s.buf, code, reason)
    ensures var t := Continue(s, s.buf[s.i := '\0'][|StatusLinePrefix| + |Decimal(code)| := '\0'],
                              s.res.(statusCode := code, reasonMessage := reason));
      Run(s, bound) == if t.stop then t else Run(t, bound)
  {
    var b := s.buf[s.i := '\0'];
    assert b[..|StatusLinePrefix|] == s.buf[..|StatusLinePrefix|];
    var p := StatusLineStep(b, s.i, s.res);
    assert p == Parsed(true, b[|StatusLinePrefix| + |Decimal(code)| := '\0'], s.res.(statusCode := code, reasonMessage := reason));
    assert Run(s, bound) == Pass(s, bound) == AfterStatusLine(s, bound);
    assert AfterStatusLine(s, bound) == AfterLine(s, p, bound);
  }

  /** What the field parser makes of a header line laid out as `FieldAt` says. */
  lemma FieldAtStep(buf: seq<char>, i: nat, key: string, value: string, res: Response)
    requires FieldAt(buf, i, key, value) && i > 0
    ensures var c := i + |key| + 2 + |value|;
      && c + 1 < |buf| && buf[c] == '\r' && buf[c + 1] == '\n'
      && (forall j :: i <= j < c ==> buf[j] != '\r')
      && HeaderFieldStep(buf[c := '\0'], i, c, res)
         == Parsed(true, buf[c := '\0'][i + |key| := '\0'], res.(headers := Insert(res.headers, key, value)))
  {
  }

  /** The pass at the CR that ends a header line, given what the field parser makes of it. */
  lemma FieldLineEnd(s: Scan, bound: nat, p: Parsed)
    requires !s.stop && !s.first && s.line <= s.i && s.i < bound <= ScanBound(|s.buf|) && AtLineEnd(s)
    requires HeaderFieldStep(s.buf[s.i := '\0'], s.line, s.i, s.res) == p && p.ok
    ensures var t := Continue(s, p.buf, p.res);
      Run(s, bound) == if t.stop then t else Run(t, bound)
  {
    assert Run(s, bound) == Pass(s, bound) == AfterFieldLine(s, bound);
    assert AfterFieldLine(s, bound) == AfterLine(s, p, bound);
  }

  /** The scan over a header line from its start up to its CR. */
  lemma FieldLineSteps(s: Scan, c: nat, bound: nat, p: Parsed)
    requires !s.stop && !s.first && s.line == s.i && s.i <= c < bound <= ScanBound(|s.buf|)
    requires s.buf[c] == '\r' && s.buf[c + 1] == '\n' && forall j :: s.i <= j < c ==> s.buf[j] != '\r'
    requires HeaderFieldStep(s.buf[c := '\0'], s.i, c, s.res) == p && p.ok
    ensures var t := Continue(s.(i := c), p.buf, p.res);
      Run(s, bound) == if t.stop then t else Run(t, bound)
  {
    RunSkip(s, bound, c);
    FieldLineEnd(s.(i := c), bound, p);
  }

  /** The scan over a header line from its start: the field is inserted at its CR. */
  lemma FieldLineRun(s: Scan, key: string, value: string, bound: nat)
    requires !s.stop && !s.first && s.line == s.i && s.i > 0
    requires s.i + |key| + 2 + |value| < bound <= ScanBound(|s.buf|)
    requires FieldAt(s.buf, s.i, key, value)
    ensures var c := s.i + |key| + 2 + |value|;
      var t := Continue(s.(i := c), s.buf[c := '\0'][s.i + |key| := '\0'],
                        s.res.(headers := Insert(s.res.headers, key, value)));
      Run(s, bound) == if t.stop then t else Run(t, bound)
  {
    var c := s.i + |key| + 2 + |value|;
    FieldAtStep(s.buf, s.i, key, value, s.res);
    FieldLineSteps(s, c, bound, Parsed(true, s.buf[c := '\0'][s.i + |key| := '\0'], s.res.(headers := Insert(s.res.headers, key, value))));
  }

  /** What the scan ends in after the header fields that start at `i`. */
  predicate FieldsEnd(s: Scan, t: Scan, fields: seq<(string, string)>, body: string)
    requires fields != []
  {
    if |body| > 0 then
      && t.stop && t.success && t.i + 4 == t.line && t.line + |body| == |s.buf|
      && CString(t.buf, t.line) == body
      && t.res == s.res.(headers := InsertAll(s.res.headers, fields))
    else
      && !t.stop && t.success && t.i + 4 == |s.buf|
      && t.res == s.res.(headers := InsertAll(s.res.headers, fields[..|fields| - 1]))
  }

  /** Cutting two characters before `start` leaves the C string there as it was. */
  lemma CutsKeepCString(buf: seq<char>, c: nat, k: nat, start: nat)
    requires k < c < start && c < |buf|
    ensures CString(buf[c := '\0'][k := '\0'], start) == CString(buf, start)
  {
    CStringFrame(buf[c := '\0'][k := '\0'], buf, start);
  }

  /** Cutting two characters before `i` leaves the lines from `i` as they were. */
  lemma CutsKeepLines(buf: seq<char>, c: nat, k: nat, i: nat, fields: seq<(string, string)>, body: string)
    requires k < c < i && c < |buf| && Lines(buf, i, fields, body)
    ensures Lines(buf[c := '\0'][k := '\0'], i, fields, body)
  {
    LinesFrame(buf, buf[c := '\0'][k := '\0'], i, fields, body);
  }

  /** The lines after the first, once the first line's CR and `':'` are cut. */
  lemma LinesAfterFirst(buf: seq<char>, i: nat, fields: seq<(string, string)>, body: string)
    requires fields != [] && Lines(buf, i, fields, body)
    ensures var c := i + |FieldText(fields[0])|;
      && c + 4 + |body| <= |buf|
      && Lines(buf[c := '\0'][i + |fields[0].0| := '\0'], c + 2, fields[1..], body)
  {
    var c := i + |FieldText(fields[0])|;
    assert LinesFrom(buf, i, fields, body);
    LinesLength(buf, c + 2, fields[1..], body);
    CutsKeepLines(buf, c, i + |fields[0].0|, c + 2, fields[1..], body);
  }

  /** The last header line as `Lines` lays it out: the empty line and the body follow. */
  lemma LastLineLayout(buf: seq<char>, i: nat, fields: seq<(string, string)>, body: string)
    requires |fields| == 1 && Lines(buf, i, fields, body)
    ensures var c := i + |FieldText(fields[0])|;
      && FieldAt(buf, i, fields[0].0, fields[0].1)
      && c + 4 + |body| == |buf| && buf[c + 2] == '\r' && buf[c + 3] == '\n' && CString(buf, c + 4) == body
  {
    assert LinesFrom(buf, i, fields, body);
    assert fields[1..] == [];
    assert Lines(buf, i + |FieldText(fields[0])| + 2, [], body);
  }

  /** The scan over the last header line with nothing after the empty line: it ends at the line's CR. */
  lemma LastFieldNoBody(s: Scan, key: string, value: string)
    requires !s.stop && s.success && !s.first && s.line == s.i && s.i > 0
    requires FieldAt(s.buf, s.i, key, value) && s.i + |key| + 2 + |value| + 4 == |s.buf|
    ensures RunToBound(s) == s.(i := s.i + |key| + 2 + |value|)
  {
    var c := s.i + |key| + 2 + |value|;
    RunSkip(s, ScanBound(|s.buf|), c);
  }

  /** The scan stops at CR LF CR LF: the header section ends there and the body follows. */
  lemma StopsAtEmptyLine(s: Scan, c: nat, b: seq<char>, res1: Response, body: string)
    requires !s.stop && c + 4 + |body| == |s.buf| == |b| && |body| > 0 && s.i < c
    requires b[c + 2] == '\r' && b[c + 3] == '\n' && CString(b, c + 4) == body
    requires var t := Continue(s.(i := c), b, res1);
      RunToBound(s) == if t.stop then t else Run(t, ScanBound(|s.buf|))
    ensures RunToBound(s) == Scan(b, c, c + 4, false, res1, true, true)
  {
  }

  /** The scan over the last header line with a body after the empty line: it stops at the body. */
  lemma LastFieldWithBody(s: Scan, key: string, value: string, body: string)
    requires !s.stop && s.success && !s.first && s.line == s.i && s.i > 0
    requires FieldAt(s.buf, s.i, key, value) && |body| > 0
    requires var c := s.i + |key| + 2 + |value|;
      && c + 4 + |body| == |s.buf| && s.buf[c + 2] == '\r' && s.buf[c + 3] == '\n' && CString(s.buf, c + 4) == body
    ensures var c := s.i + |key| + 2 + |value|;
      var t := RunToBound(s);
      && t.stop && t.success && t.i == c && t.line == c + 4 && CString(t.buf, c + 4) == body
      && t.res == s.res.(headers := Insert(s.res.headers, key, value))
  {
    var c := s.i + |key| + 2 + |value|;
    var b := s.buf[c := '\0'][s.i + |key| := '\0'];
    FieldLineRun(s, key, value, ScanBound(|s.buf|));
    CutsKeepCString(s.buf, c, s.i + |key|, c + 4);
    StopsAtEmptyLine(s, c, b, s.res.(headers := Insert(s.res.headers, key, value)), body);
  }

  /** The scan over the last header line, before the empty line. */
  lemma LastFieldRun(s: Scan, fields: seq<(string, string)>, body: string)
    requires !s.stop && s.success && !s.first && s.line == s.i && s.i > 0
    requires |fields| == 1 && Lines(s.buf, s.i, fields, body)
    ensures FieldsEnd(s, RunToBound(s), fields, body)
  {
    var key := fields[0].0;
    var value := fields[0].1;
    LastLineLayout(s.buf, s.i, fields, body);
    assert fields[..0] == [];
    assert InsertAll(s.res.headers, fields) == Insert(s.res.headers, key, value);
    if body == [] {
      LastFieldNoBody(s, key, value);
    } else {
      LastFieldWithBody(s, key, value, body);
    }
  }

  /** A header line that is not the last as `Lines` lays it out: another header line follows. */
  lemma NextLineLayout(buf: seq<char>, i: nat, fields: seq<(string, string)>, body: string)
    requires |fields| >= 2 && Lines(buf, i, fields, body)
    ensures var c := i + |FieldText(fields[0])|;
      && FieldAt(buf, i, fields[0].0, fields[0].1)
      && c + 8 <= |buf| && buf[c + 2] != '\r'
  {
    var c := i + |FieldText(fields[0])|;
    assert LinesFrom(buf, i, fields, body);
    assert Lines(buf, c + 2, fields[1..], body);
    assert LinesFrom(buf, c + 2, fields[1..], body);
    LinesLength(buf, c + 2, fields[1..], body);
  }

  /** The scan over a header line that another header line follows. */
  lemma NextLineRun(s: Scan, key: string, value: string, bound: nat)
    requires !s.stop && s.success && !s.first && s.line == s.i && s.i > 0
    requires var c := s.i + |key| + 2 + |value|;
      FieldAt(s.buf, s.i, key, value) && c + 2 < bound <= ScanBound(|s.buf|) && s.buf[c + 2] != '\r'
    ensures var c := s.i + |key| + 2 + |value|;
      var b2 := s.buf[c := '\0'][s.i + |key| := '\0'];
      var res1 := s.res.(headers := Insert(s.res.headers, key, value));
      Run(s, bound) == Run(Scan(b2, c + 2, c + 2, false, res1, true, false), bound)
  {
    var c := s.i + |key| + 2 + |value|;
    FieldLineRun(s, key, value, bound);
    var b2 := s.buf[c := '\0'][s.i + |key| := '\0'];
    var res1 := s.res.(headers := Insert(s.res.headers, key, value));
    RunPastChar(Scan(b2, c + 1, c + 2, false, res1, true, false), bound);
  }

  /** The scan over a header line that is not the last: the state at the start of the next line. */
  lemma NextLine(s: Scan, fields: seq<(string, string)>, body: string)
    requires !s.stop && s.success && !s.first && s.line == s.i && s.i > 0
    requires |fields| >= 2 && Lines(s.buf, s.i, fields, body)
    ensures s.i + |FieldText(fields[0])| + 2 < |s.buf|
    ensures var key := fields[0].0;
      var c := s.i + |FieldText(fields[0])|;
      var b2 := s.buf[c := '\0'][s.i + |key| := '\0'];
      var res1 := s.res.(headers := Insert(s.res.headers, key, fields[0].1));
      RunToBound(s) == RunToBound(Scan(b2, c + 2, c + 2, false, res1, true, false))
  {
    NextLineLayout(s.buf, s.i, fields, body);
    NextLineRun(s, fields[0].0, fields[0].1, ScanBound(|s.buf|));
  }

  /** `FieldsEnd` after the first header line carries over to the whole section. */
  lemma FieldsEndStep(s: Scan, s3: Scan, fields: seq<(string, string)>, body: string)
    requires |fields| >= 2 && FieldsEnd(s3, RunToBound(s3), fields[1..], body) && |s3.buf| == |s.buf|
    requires s3.res == s.res.(headers := Insert(s.res.headers, fields[0].0, fields[0].1))
    requires RunToBound(s) == RunToBound(s3)
    ensures FieldsEnd(s, RunToBound(s), fields, body)
  {
    InsertAllAllButLast(s.res.headers, fields);
  }

  /** The scan over the header lines from `i`: every field is inserted, and the body found when there is one. */
  lemma {:induction false} FieldsRun(s: Scan, fields: seq<(string, string)>, body: string)
    requires !s.stop && s.success && !s.first && s.line == s.i && s.i > 0
    requires fields != [] && Lines(s.buf, s.i, fields, body)
    ensures FieldsEnd(s, RunToBound(s), fields, body)
    decreases |fields|
  {
    if |fields| == 1 {
      LastFieldRun(s, fields, body);
    } else {
      var key := fields[0].0;
      var c := s.i + |FieldText(fields[0])|;
      LinesAfterFirst(s.buf, s.i, fields, body);
      NextLine(s, fields, body);
      var b2 := s.buf[c := '\0'][s.i + |key| := '\0'];
      var res1 := s.res.(headers := Insert(s.res.headers, key, fields[0].1));
      var s3 := Scan(b2, c + 2, c + 2, false, res1, true, false);
      FieldsRun(s3, fields[1..], body);
      FieldsEndStep(s, s3, fields, body);
    }
  }

  /** Inserting all fields but the last, one step unrolled. */
  lemma InsertAllAllButLast(headers: map<string, string>, fields: seq<(string, string)>)
    requires |fields| >= 2
    ensures InsertAll(headers, fields[..|fields| - 1])
         == InsertAll(Insert(headers, fields[0].0, fields[0].1), fields[1..][..|fields[1..]| - 1])
  {
    assert fields[..|fields| - 1][1..] == fields[1..][..|fields[1..]| - 1];
  }
  // ---------------------------------------------------------------------------
  // Parsing a rendered response

  /** The first header line as `Lines` lays it out: it does not start with CR, and more follows. */
  lemma FirstLineLayout(buf: seq<char>, i: nat, fields: seq<(string, string)>, body: string)
    requires fields != [] && Lines(buf, i, fields, body)
    ensures i + 6 <= |buf| && buf[i] != '\r'
  {
    assert LinesFrom(buf, i, fields, body);
    LinesLength(buf, i, fields, body);
  }

  /** The scan state just after the status line's CR LF has been handled. */
  function AfterStatus(buf: seq<char>, res: Response, code: nat, reason: string): (t: Scan)
    requires |StatusLine(code, reason)| < |buf|
    ensures |t.buf| == |buf|
  {
    var c := |StatusLine(code, reason)|;
    Continue(Scan(buf, c, 0, true, res, true, false),
             buf[c := '\0'][|StatusLinePrefix| + |Decimal(code)| := '\0'],
             res.(statusCode := code, reasonMessage := reason))
  }

  /** The scan up to the end of the status line, which stores the code and the reason. */
  predicate StatusHandled(buf: seq<char>, res: Response, code: nat, reason: string)
    requires |StatusLine(code, reason)| < |buf|
  {
    var t := AfterStatus(buf, res, code, reason);
    RunToBound(Start(buf, res)) == if t.stop then t else RunToBound(t)
  }

  lemma ParseStatus(buf: seq<char>, res: Response, code: nat, reason: string)
    requires StatusAt(buf, code, reason) && |StatusLine(code, reason)| + 4 < |buf|
    ensures StatusHandled(buf, res, code, reason)
  {
    var c := |StatusLine(code, reason)|;
    RunSkip(Start(buf, res), ScanBound(|buf|), c);
    StatusLineRun(Start(buf, res).(i := c), code, reason, ScanBound(|buf|));
  }

  /** The scan stopped at the empty line: what follows it is the body. */
  lemma ParseStopped(buf: seq<char>, res: Response, t: Scan, body: string)
    requires RunToBound(Start(buf, res)) == t && |t.buf| == |buf|
    requires t.stop && t.success && t.i + 4 == t.line && t.line + |body| == |buf| && |body| > 0
    requires CString(t.buf, t.line) == body
    ensures ParseResponseSpec(buf, res).res == t.res.(body := body)
    ensures BodyReachesEnd(buf, res)
  {
  }

  /** With no header fields, the scan stops right after the status line, at the empty line. */
  lemma StatusThenBody(buf: seq<char>, res: Response, code: nat, reason: string)
    requires var c := |StatusLine(code, reason)|;
      c + 4 < |buf| && StatusHandled(buf, res, code, reason) && buf[c + 2] == '\r' && buf[c + 3] == '\n'
    ensures var c := |StatusLine(code, reason)|;
      RunToBound(Start(buf, res))
      == Scan(buf[c := '\0'][|StatusLinePrefix| + |Decimal(code)| := '\0'], c, c + 4, false,
              res.(statusCode := code, reasonMessage := reason), true, true)
  {
  }

  /** A response with a body but no header fields: the body follows the empty line. */
  lemma ParseOnlyBody(buf: seq<char>, res: Response, code: nat, reason: string, body: string)
    requires var c := |StatusLine(code, reason)|;
      && c + 4 + |body| == |buf| && |body| > 0 && CString(buf, c + 4) == body
      && RunToBound(Start(buf, res))
         == Scan(buf[c := '\0'][|StatusLinePrefix| + |Decimal(code)| := '\0'], c, c + 4, false,
                 res.(statusCode := code, reasonMessage := reason), true, true)
    ensures ParseResponseSpec(buf, res).res == res.(statusCode := code, reasonMessage := reason, body := body)
    ensures BodyReachesEnd(buf, res)
  {
    var c := |StatusLine(code, reason)|;
    var b1 := buf[c := '\0'][|StatusLinePrefix| + |Decimal(code)| := '\0'];
    CutsKeepCString(buf, c, |StatusLinePrefix| + |Decimal(code)|, c + 4);
    ParseStopped(buf, res, Scan(b1, c, c + 4, false, res.(statusCode := code, reasonMessage := reason), true, true), body);
  }

  /** The scan from the first header line decides the result. */
  lemma ParseFromFields(buf: seq<char>, res: Response, s3: Scan, fields: seq<(string, string)>, body: string)
    requires RunToBound(Start(buf, res)) == RunToBound(s3) && |s3.buf| == |buf|
    requires !s3.stop && s3.success && !s3.first && s3.line == s3.i && s3.i > 0
    requires fields != [] && Lines(s3.buf, s3.i, fields, body)
    ensures ParseResponseSpec(buf, res).res
         == s3.res.(headers := InsertAll(s3.res.headers, if body == [] then fields[..|fields| - 1] else fields),
                    body := body)
    ensures body != [] ==> BodyReachesEnd(buf, res)
  {
    FieldsRun(s3, fields, body);
  }

  /** With header fields, the scan goes on at the first field line with code and reason stored. */
  lemma StatusThenField(buf: seq<char>, res: Response, code: nat, reason: string)
    requires var c := |StatusLine(code, reason)|;
      && c + 8 <= |buf| && StatusHandled(buf, res, code, reason)
      && buf[c + 1] == '\n' && buf[c + 2] != '\r'
    ensures var c := |StatusLine(code, reason)|;
      var b1 := buf[c := '\0'][|StatusLinePrefix| + |Decimal(code)| := '\0'];
      RunToBound(Start(buf, res))
      == RunToBound(Scan(b1, c + 2, c + 2, false, res.(statusCode := code, reasonMessage := reason), true, false))
  {
    var c := |StatusLine(code, reason)|;
    var b1 := buf[c := '\0'][|StatusLinePrefix| + |Decimal(code)| := '\0'];
    var res1 := res.(statusCode := code, reasonMessage := reason);
    assert AfterStatus(buf, res, code, reason) == Scan(b1, c + 1, c + 2, false, res1, true, false);
    RunPastChar(Scan(b1, c + 1, c + 2, false, res1, true, false), ScanBound(|buf|));
  }

  /** A response with header fields: the fields start right after the status line, and cutting the status line keeps them. */
  lemma FieldsStart(buf: seq<char>, code: nat, reason: string, fields: seq<(string, string)>, body: string)
    requires fields != [] && Lines(buf, |StatusLine(code, reason)| + 2, fields, body)
    ensures var c := |StatusLine(code, reason)|;
      && c + 8 <= |buf| && buf[c + 2] != '\r'
      && Lines(buf[c := '\0'][|StatusLinePrefix| + |Decimal(code)| := '\0'], c + 2, fields, body)
  {
    var c := |StatusLine(code, reason)|;
    FirstLineLayout(buf, c + 2, fields, body);
    StatusCodeBeforeEnd(code, reason);
    CutsKeepLines(buf, c, |StatusLinePrefix| + |Decimal(code)|, c + 2, fields, body);
  }

  /** A response with header fields: every field is stored, the last one only when a body follows. */
  lemma ParseWithFields(buf: seq<char>, res: Response, code: nat, reason: string, fields: seq<(string, string)>, body: string)
    requires |StatusLine(code, reason)| + 4 < |buf| && StatusHandled(buf, res, code, reason)
    requires buf[|StatusLine(code, reason)| + 1] == '\n'
    requires fields != [] && Lines(buf, |StatusLine(code, reason)| + 2, fields, body)
    ensures ParseResponseSpec(buf, res).res
         == res.(statusCode := code, reasonMessage := reason,
                 headers := InsertAll(res.headers, if body == [] then fields[..|fields| - 1] else fields),
                 body := body)
    ensures body != [] ==> BodyReachesEnd(buf, res)
  {
    var c := |StatusLine(code, reason)|;
    var b1 := buf[c := '\0'][|StatusLinePrefix| + |Decimal(code)| := '\0'];
    var s3 := Scan(b1, c + 2, c + 2, false, res.(statusCode := code, reasonMessage := reason), true, false);
    FieldsStart(buf, code, reason, fields, body);
    StatusThenField(buf, res, code, reason);
    ParseFromFields(buf, res, s3, fields, body);
  }

  /** The length of a rendered response. */
  lemma RenderLength(m: Message)
    ensures |Render(m)| == |StatusLine(m.statusCode, m.reason)| + |RenderFields(m.fields)| + 4 + |m.body|
    ensures m.fields != [] ==> |RenderFields(m.fields)| >= 2
  {
  }

  /** Parsing a buffer laid out line by line, with something after the status line's CR LF. */
  lemma ParseLayout(buf: seq<char>, res: Response, code: nat, reason: string, fields: seq<(string, string)>, body: string)
    requires StatusAt(buf, code, reason) && |StatusLine(code, reason)| + 4 < |buf|
    requires Lines(buf, |StatusLine(code, reason)| + 2, fields, body)
    ensures ParseResponseSpec(buf, res).res
         == res.(statusCode := code, reasonMessage := reason,
                 headers := InsertAll(res.headers, if body == [] then fields[..|fields| - 1] else fields),
                 body := body)
    ensures body != [] ==> BodyReachesEnd(buf, res)
  {
    ParseStatus(buf, res, code, reason);
    if fields == [] {
      StatusThenBody(buf, res, code, reason);
      ParseOnlyBody(buf, res, code, reason, body);
    } else {
      ParseWithFields(buf, res, code, reason, fields, body);
    }
  }

  /**
   * Parsing a rendered response recovers its status code, its reason, its
   * body and, first value first, its header fields; the last field is lost
   * when the body is empty, because the scan stops four characters before
   * the end of the chunk.
   */
  lemma ParseRender(m: Message, res: Response)
    requires WellFormed(m) && (m.fields != [] || m.body != [])
    ensures ParseResponseSpec(Render(m), res).res
         == res.(statusCode := m.statusCode, reasonMessage := m.reason,
                 headers := InsertAll(res.headers, if m.body == [] then m.fields[..|m.fields| - 1] else m.fields),
                 body := m.body)
  {
    RenderLength(m);
    RenderStatus(m);
    RenderLines(m);
    ParseLayout(Render(m), res, m.statusCode, m.reason, m.fields, m.body);
  }

  /**
   * The same response parsed as written, with `after` the memory that
   * follows the chunk: status code, reason and fields are as before, but the
   * body read is the body sent followed by the C string at `after`.  It is
   * the body sent exactly when the chunk happens to be followed by `'\0'`.
   */
  lemma ParseRenderAsWritten(m: Message, res: Response, after: seq<char>)
    requires WellFormed(m) && m.body != []
    ensures ParseResponseAsWritten(Render(m), after, res).res
         == res.(statusCode := m.statusCode, reasonMessage := m.reason,
                 headers := InsertAll(res.headers, m.fields), body := m.body + CString(after, 0))
    ensures ParseResponseAsWritten(Render(m), after, res).res.body == m.body <==> |after| == 0 || after[0] == '\0'
  {
    ParseRender(m, res);
    RenderBodyReachesEnd(m, res);
    ParseResponseAsWrittenBody(Render(m), after, res);
    EmptyCString(after);
  }

  /** The body of a rendered response runs to the end of the chunk. */
  lemma RenderBodyReachesEnd(m: Message, res: Response)
    requires WellFormed(m) && m.body != []
    ensures BodyReachesEnd(Render(m), res)
  {
    RenderLength(m);
    RenderStatus(m);
    RenderLines(m);
    ParseLayout(Render(m), res, m.statusCode, m.reason, m.fields, m.body);
  }

  /** The C string at the start of `after` is empty exactly when `after` is empty or starts with `'\0'`. */
  lemma EmptyCString(after: seq<char>)
    ensures CString(after, 0) == "" <==> |after| == 0 || after[0] == '\0'
  {
  }

  /** A bare status line and empty line: the CR that ends the status line is never reached. */
  lemma ParseRenderBare(m: Message, res: Response)
    requires WellFormed(m) && m.fields == [] && m.body == []
    ensures ParseResponseSpec(Render(m), res) == Parsed(true, Render(m), res.(body := ""))
  {
    RenderStatus(m);
    RenderLines(m);
    NoTerminatorNoBody(Render(m), res);
  }

  // ---------------------------------------------------------------------------
  // The line parsers on a line of text
  //
  // Here the line's text (from its start up to the overwritten CR) holds no
  // `'\0'`, as in a received response.

  /**
   * A status line is accepted exactly when it has at least nine characters,
   * starts with `"HTTP/1.1 "` and has a space after them.
   */
  lemma StatusLineAccepted(buf: seq<char>, lineLength: nat, res: Response)
    requires lineLength < |buf| && buf[lineLength] == '\0' && NoChar(buf[..lineLength], '\0')
    ensures StatusLineStep(buf, lineLength, res).ok
        <==> |StatusLinePrefix| <= lineLength && buf[..|StatusLinePrefix|] == StatusLinePrefix
             && exists k :: |StatusLinePrefix| <= k < lineLength && buf[k] == ' '
  {
    if |StatusLinePrefix| <= lineLength && buf[..|StatusLinePrefix|] == StatusLinePrefix {
      var start := |StatusLinePrefix|;
      var end := Strcspn(buf, start, ' ');
      assert buf[..lineLength][lineLength - 1] == buf[lineLength - 1];
      if start + end < lineLength {
        assert buf[..lineLength][start + end] == buf[start + end];
        assert buf[start + end] == ' ';
      } else {
        forall k | start <= k < lineLength
          ensures buf[k] != ' '
        {
        }
      }
    }
  }

  /**
   * With the first space after the prefix at `sp`, the status code is `atoi`
   * of the text between them and the reason is the rest of the line; the
   * space is overwritten by `'\0'`.
   */
  lemma StatusLineParsed(buf: seq<char>, lineLength: nat, res: Response, sp: nat)
    requires lineLength < |buf| && buf[lineLength] == '\0' && NoChar(buf[..lineLength], '\0')
    requires |StatusLinePrefix| <= sp < lineLength && buf[..|StatusLinePrefix|] == StatusLinePrefix
    requires buf[sp] == ' ' && NoChar(buf[|StatusLinePrefix|..sp], ' ')
    ensures StatusLineStep(buf, lineLength, res)
         == Parsed(true, buf[sp := '\0'], res.(statusCode := Uint16(Atol(buf[|StatusLinePrefix|..sp])),
                                              reasonMessage := buf[sp + 1..lineLength]))
  {
    var start := |StatusLinePrefix|;
    var code := buf[start..sp];
    assert buf[0..lineLength] == buf[..lineLength];
    NoCharWithin(buf, 0, lineLength, start, sp, '\0');
    StrcspnAt(buf, start, code, ' ');
    var b := buf[sp := '\0'];
    assert b[start..sp] == code;
    CStringAt(b, start, code);
    var reason := buf[sp + 1..lineLength];
    NoCharWithin(buf, 0, lineLength, sp + 1, lineLength, '\0');
    assert b[sp + 1..lineLength] == reason;
    CStringAt(b, sp + 1, reason);
  }

  /** Text without `c` has no `c` in any part either. */
  lemma NoCharWithin(buf: seq<char>, lo: nat, hi: nat, i: nat, j: nat, c: char)
    requires lo <= i <= j <= hi <= |buf| && NoChar(buf[lo..hi], c)
    ensures NoChar(buf[i..j], c)
  {
    forall k | 0 <= k < j - i ensures buf[i..j][k] != c {
      assert buf[i..j][k] == buf[lo..hi][i - lo + k];
    }
  }

  /** The key of a header line: the text up to `keyEnd`, where a `':'` or (with none in the line) the overwritten CR stands. */
  lemma HeaderKey(buf: seq<char>, line: nat, lineLength: nat, keyEnd: nat)
    requires line <= keyEnd <= lineLength < |buf| && buf[lineLength] == '\0'
    requires NoChar(buf[line..lineLength], '\0') && NoChar(buf[line..keyEnd], ':')
    requires buf[keyEnd] == ':' || keyEnd == lineLength
    ensures Strcspn(buf, line, ':') == keyEnd - line
    ensures CString(buf[keyEnd := '\0'], line) == buf[line..keyEnd]
  {
    NoCharWithin(buf, line, lineLength, line, keyEnd, '\0');
    StrcspnAt(buf, line, buf[line..keyEnd], ':');
    CStringBeforeCut(buf, line, buf[line..keyEnd]);
  }

  /** `HeaderFieldStep` once the key's extent and text are known. */
  lemma HeaderFieldOfKey(buf: seq<char>, line: nat, lineLength: nat, res: Response, keyEnd: nat)
    requires line <= keyEnd <= lineLength < |buf| && buf[lineLength] == '\0'
    requires Strcspn(buf, line, ':') == keyEnd - line
    requires CString(buf[keyEnd := '\0'], line) == buf[line..keyEnd]
    ensures HeaderFieldStep(buf, line, lineLength, res)
         == if keyEnd - line + 2 < lineLength
            then Parsed(true, buf[keyEnd := '\0'], res.(headers := Insert(res.headers, buf[line..keyEnd], CString(buf, keyEnd + 2))))
            else Parsed(false, buf[keyEnd := '\0'], res)
  {
    CStringFrame(buf[keyEnd := '\0'], buf, keyEnd + 2);
  }

  /**
   * A header line with its first `':'` at `colon`: the colon becomes `'\0'`,
   * the line is accepted exactly when the key length plus two is below
   * `lineLength` (the line's end offset), the key is the text before the
   * colon and the value the C string two characters after it (see
   * `HeaderValueText`).
   */
  lemma HeaderFieldParsed(buf: seq<char>, line: nat, lineLength: nat, res: Response, colon: nat)
    requires line <= colon < lineLength < |buf| && buf[lineLength] == '\0'
    requires NoChar(buf[line..lineLength], '\0') && buf[colon] == ':' && NoChar(buf[line..colon], ':')
    ensures HeaderFieldStep(buf, line, lineLength, res)
         == if colon - line + 2 < lineLength
            then Parsed(true, buf[colon := '\0'], res.(headers := Insert(res.headers, buf[line..colon], CString(buf, colon + 2))))
            else Parsed(false, buf[colon := '\0'], res)
  {
    HeaderKey(buf, line, lineLength, colon);
    HeaderFieldOfKey(buf, line, lineLength, res, colon);
  }

  /** A value that starts inside its line is the rest of that line. */
  lemma HeaderValueText(buf: seq<char>, line: nat, lineLength: nat, start: nat)
    requires line <= start <= lineLength < |buf| && buf[lineLength] == '\0'
    requires NoChar(buf[line..lineLength], '\0')
    ensures CString(buf, start) == buf[start..lineLength]
  {
    NoCharWithin(buf, line, lineLength, start, lineLength, '\0');
    CStringAt(buf, start, buf[start..lineLength]);
  }

  /**
   * A header line without a `':'` is accepted whenever it starts past offset
   * 2, which every line after the status line does: the whole line becomes
   * the key and the value is read from the start of the next line.
   */
  lemma HeaderFieldWithoutColon(buf: seq<char>, line: nat, lineLength: nat, res: Response)
    requires line <= lineLength < |buf| && buf[lineLength] == '\0'
    requires NoChar(buf[line..lineLength], '\0') && NoChar(buf[line..lineLength], ':')
    ensures HeaderFieldStep(buf, line, lineLength, res)
         == if line > 2
            then Parsed(true, buf, res.(headers := Insert(res.headers, buf[line..lineLength], CString(buf, lineLength + 2))))
            else Parsed(false, buf, res)
  {
    HeaderKey(buf, line, lineLength, lineLength);
    CutAtNul(buf, lineLength);
    HeaderFieldOfKey(buf, line, lineLength, res, lineLength);
  }

  /** Overwriting a `'\0'` by `'\0'` changes nothing. */
  lemma CutAtNul(buf: seq<char>, k: nat)
    requires k < |buf| && buf[k] == '\0'
    ensures buf[k := '\0'] == buf
  {
  }

  // ---------------------------------------------------------------------------
  // Headers are only ever added

  /** Every key of `h` is in `h2` with the same value. */
  predicate Extends(h: map<string, string>, h2: map<string, string>)
  {
    forall k :: k in h ==> k in h2 && h2[k] == h[k]
  }

  /** A pass keeps every header the response already had. */
  lemma LineStepsKeepHeaders(s: Scan, bound: nat)
    requires bound <= ScanBound(|s.buf|) && !s.stop && s.i < bound && AtLineEnd(s)
    ensures s.first ==> StatusLineStep(s.buf[s.i := '\0'], s.i, s.res).res.headers == s.res.headers
    ensures !s.first && s.line <= s.i ==> Extends(s.res.headers, HeaderFieldStep(s.buf[s.i := '\0'], s.line, s.i, s.res).res.headers)
  {
  }

  /** The scan never removes or overwrites a header. */
  lemma {:induction false} RunKeepsHeaders(s: Scan, bound: nat)
    requires bound <= ScanBound(|s.buf|)
    ensures Extends(s.res.headers, Run(s, bound).res.headers)
    decreases bound - s.i
  {
    if s.stop || s.i >= bound {
    } else if !AtLineEnd(s) {
      RunPastChar(s, bound);
      RunKeepsHeaders(s.(i := s.i + 1), bound);
    } else if s.first || s.line <= s.i {
      LineStepsKeepHeaders(s, bound);
      var p := if s.first then StatusLineStep(s.buf[s.i := '\0'], s.i, s.res)
               else HeaderFieldStep(s.buf[s.i := '\0'], s.line, s.i, s.res);
      if s.first {
        assert Run(s, bound) == Pass(s, bound) == AfterStatusLine(s, bound) == AfterLine(s, p, bound);
      } else {
        assert Run(s, bound) == Pass(s, bound) == AfterFieldLine(s, bound) == AfterLine(s, p, bound);
      }
      if p.ok {
        var t := Continue(s, p.buf, p.res);
        if !t.stop {
          RunKeepsHeaders(t, bound);
        }
      }
    } else {
      assert Run(s, bound) == s.(success := false, stop := true);
    }
  }

  /**
   * `ParseResponse` on a response that already holds headers keeps their
   * values, whatever the chunk says: a stale `Content-Length` survives.
   */
  lemma ParseKeepsHeaders(buf: seq<char>, res: Response)
    ensures Extends(res.headers, ParseResponseSpec(buf, res).res.headers)
  {
    RunKeepsHeaders(Start(buf, res), ScanBound(|buf|));
  }
}
