/**
 * Request correlation in the Gin/zap logging middleware: resolving the
 * request id, extracting a trace id from `traceparent` or `X-B3-TraceId`,
 * and the completion record the middleware writes for each request.
 */
module Correlation {
  import opened Wrappers
  import opened Text
  import opened Hex
  import opened Patterns

  const RequestIDHeader := "X-Request-ID"
  const TraceParentHeader := "traceparent"
  const B3TraceIDHeader := "X-B3-TraceId"

  /** Number of random bytes behind a generated request id. */
  const RandomIDBytes := 16

  /** The buffer crypto/rand fills: exactly 16 bytes. */
  type RandomBlock = b: seq<byte> | |b| == RandomIDBytes witness seq(RandomIDBytes, _ => 0)

  /** ASCII '0'..'9' as a byte. */
  predicate IsDigitByte(b: byte) {
    0x30 <= b <= 0x39
  }

  /**
   * The bytes of a time formatted with the layout "20060102150405.000000000":
   * fourteen digits, a dot, nine digits.
   */
  predicate IsStampLayout(s: seq<byte>) {
    && |s| == 24
    && s[14] == 0x2E
    && forall i | 0 <= i < |s| && i != 14 :: IsDigitByte(s[i])
  }

  type Stamp = s: seq<byte> | IsStampLayout(s) witness seq(24, i => if i == 14 then 0x2E else 0x30)

  /** What the random source delivered: a full block, or a failure and the current time. */
  datatype Entropy = Random(block: RandomBlock) | RngFailure(stamp: Stamp)

  /** The bytes a request id is the hex encoding of. */
  function EntropyBytes(e: Entropy): seq<byte> {
    match e
    case Random(block) => block
    case RngFailure(stamp) => stamp
  }

  /**
   * newRequestID: the hex of the 16 random bytes, or of the formatted time when
   * the random source fails. Decoding the id gives back the bytes it was made from.
   */
  function NewRequestID(e: Entropy): (id: string)
    ensures IsLowerHex(id)
    ensures e.Random? ==> |id| == 2 * RandomIDBytes
    ensures e.RngFailure? ==> |id| == 48
    ensures Decode(id) == Some(EntropyBytes(e))
  {
    DecodeEncode(EntropyBytes(e));
    match e
    case Random(block) => EncodeToString(block)
    case RngFailure(stamp) => EncodeToString(stamp)
  }

  /** Different entropy never yields the same request id. */
  lemma NewRequestIDInjective(a: Entropy, b: Entropy)
    requires NewRequestID(a) == NewRequestID(b)
    ensures a == b
  {
    var ba, bb := EntropyBytes(a), EntropyBytes(b);
    assert Some(ba) == Decode(NewRequestID(a)) == Some(bb);
  }

  /**
   * getOrCreateRequestID without the Gin context: a non-empty inbound
   * X-Request-ID is kept verbatim; only an empty one is replaced by a new id.
   */
  function GetOrCreateRequestID(inbound: string, e: Entropy): (id: string)
    ensures id != []
    ensures inbound != [] ==> id == inbound
    ensures inbound == [] ==> id == NewRequestID(e) && IsLowerHex(id) && (|id| == 32 || |id| == 48)
  {
    if inbound == [] then NewRequestID(e) else inbound
  }

  /** allZeros: every character is '0' (so the empty string qualifies). */
  function AllZeros(s: string): (b: bool)
    ensures b <==> forall i | 0 <= i < |s| :: s[i] == '0'
  {
    s == [] || (s[0] == '0' && AllZeros(s[1..]))
  }

  /** A text whose first character is not blank has no `[ \t]*` prefix to skip. */
  lemma NoLeadingBlanks(s: string)
    requires s == [] || !IsBlank(s[0])
    ensures LeadingBlanks(s) == 0
  {
  }

  /** The second dash-separated field of rendered groups followed by an extension is the trace-id. */
  lemma SecondFieldIsTraceId(g: TraceParentGroups, tail: string)
    requires WellFormed(g) && IsExtension(tail)
    ensures |Split(Render(g) + tail, '-')| >= 4 && Split(Render(g) + tail, '-')[1] == g.traceId
  {
    var rest := g.flags + tail;
    assert Render(g) + tail == g.version + "-" + (g.traceId + "-" + (g.parentId + "-" + rest));
    SplitAfter(g.version, '-', g.traceId + "-" + (g.parentId + "-" + rest));
    SplitAfter(g.traceId, '-', g.parentId + "-" + rest);
    SplitAfter(g.parentId, '-', rest);
  }

  /**
   * parseTraceParent: the trace-id of a trimmed header that matches the
   * traceparent pattern and whose trace-id and parent-id are not all zeros;
   * otherwise "". A non-empty result is the header's second dash-separated field.
   */
  function ParseTraceParent(headerVal: string): (traceId: string)
    ensures traceId == [] || (|traceId| == 32 && IsLowerHex(traceId) && !AllZeros(traceId))
    ensures traceId != [] ==>
      var fields := Split(TrimSpace(headerVal), '-');
      |fields| >= 4 && fields[1] == traceId
  {
    var t := TrimSpace(headerVal);
    match MatchTraceParent(t)
    case None => ""
    case Some(g) =>
      if AllZeros(g.traceId) || AllZeros(g.parentId) then ""
      else
        TraceIdIsSecondField(t, g);
        g.traceId
  }

  /** On a trimmed header, the matched trace-id is the second dash-separated field. */
  lemma TraceIdIsSecondField(t: string, g: TraceParentGroups)
    requires Trimmed(t) && MatchTraceParent(t) == Some(g)
    ensures |Split(t, '-')| >= 4 && Split(t, '-')[1] == g.traceId
  {
    NoLeadingBlanks(t);
    assert t == Render(g) + t[FixedWidth..];
    SecondFieldIsTraceId(g, t[FixedWidth..]);
  }

  /**
   * A header made of white space, well-formed groups, an extension and white
   * space yields the trace-id exactly when neither the trace-id nor the
   * parent-id is all zeros. The version and the flags play no part.
   */
  lemma ParseTraceParentWellFormed(pre: string, g: TraceParentGroups, ext: string, post: string)
    requires AllSpace(pre) && AllSpace(post)
    requires WellFormed(g) && IsExtension(ext)
    requires ext == [] || !IsSpace(ext[|ext| - 1])
    ensures !AllZeros(g.traceId) && !AllZeros(g.parentId) ==> ParseTraceParent(pre + Render(g) + ext + post) == g.traceId
    ensures AllZeros(g.traceId) || AllZeros(g.parentId) ==> ParseTraceParent(pre + Render(g) + ext + post) == ""
  {
    var h := pre + Render(g) + ext + post;
    TrimRendered(pre, g, ext, post);
    MatchRendered(g, ext);
    ParseOfMatch(h, Render(g) + ext, g);
  }

  lemma MatchRendered(g: TraceParentGroups, ext: string)
    requires WellFormed(g) && IsExtension(ext)
    ensures MatchTraceParent(Render(g) + ext) == Some(g)
  {
    assert [] + Render(g) + ext == Render(g) + ext;
    MatchTraceParentComplete([], g, ext);
  }

  lemma ParseOfMatch(h: string, t: string, g: TraceParentGroups)
    requires TrimSpace(h) == t && MatchTraceParent(t) == Some(g)
    ensures ParseTraceParent(h) == if AllZeros(g.traceId) || AllZeros(g.parentId) then "" else g.traceId
  {
  }

  /** White space around rendered groups and an extension is exactly what TrimSpace removes. */
  lemma TrimRendered(pre: string, g: TraceParentGroups, ext: string, post: string)
    requires AllSpace(pre) && AllSpace(post)
    requires WellFormed(g) && IsExtension(ext)
    requires ext == [] || !IsSpace(ext[|ext| - 1])
    ensures TrimSpace(pre + Render(g) + ext + post) == Render(g) + ext
  {
    var core := Render(g) + ext;
    assert core[0] == g.version[0];
    assert core[|core| - 1] == if ext == [] then g.flags[1] else ext[|ext| - 1];
    assert pre + Render(g) + ext + post == pre + core + post;
    TrimSpaceOf(pre, core, post);
  }

  /**
   * Rewriting the version and flags of a header never changes what it parses
   * to, whatever white space and extension surround the groups.
   */
  lemma VersionAndFlagsIgnored(pre: string, g: TraceParentGroups, ext: string, post: string, version: string, flags: string)
    requires AllSpace(pre) && AllSpace(post)
    requires WellFormed(g) && IsExtension(ext)
    requires ext == [] || !IsSpace(ext[|ext| - 1])
    requires |version| == 2 && IsLowerHex(version) && |flags| == 2 && IsLowerHex(flags)
    ensures ParseTraceParent(pre + Render(g) + ext + post)
         == ParseTraceParent(pre + Render(g.(version := version, flags := flags)) + ext + post)
  {
    ParseTraceParentWellFormed(pre, g, ext, post);
    ParseTraceParentWellFormed(pre, g.(version := version, flags := flags), ext, post);
  }

  /** A non-empty parse result comes from a match of the trimmed header. */
  lemma ParseTraceParentMatched(h: string) returns (g: TraceParentGroups)
    requires ParseTraceParent(h) != []
    ensures MatchTraceParent(TrimSpace(h)) == Some(g)
    ensures g.traceId == ParseTraceParent(h) && !AllZeros(g.parentId)
  {
    g := MatchTraceParent(TrimSpace(h)).value;
  }

  /** A trimmed header that matches is the rendered groups followed by the extension. */
  lemma MatchedTrimmed(t: string, g: TraceParentGroups)
    requires Trimmed(t) && MatchTraceParent(t) == Some(g)
    ensures |t| >= FixedWidth && t == Render(g) + t[FixedWidth..] && IsExtension(t[FixedWidth..])
  {
    NoLeadingBlanks(t);
    assert t[..0] == [];
  }

  /**
   * The converse of ParseTraceParentWellFormed: a header that yields a
   * trace-id is white space, well-formed groups with non-zero trace-id and
   * parent-id, an extension, and white space, and the result is that trace-id.
   */
  lemma ParseTraceParentSound(h: string) returns (pre: string, g: TraceParentGroups, ext: string, post: string)
    requires ParseTraceParent(h) != []
    ensures AllSpace(pre) && AllSpace(post)
    ensures WellFormed(g) && IsExtension(ext)
    ensures h == pre + Render(g) + ext + post
    ensures g.traceId == ParseTraceParent(h) && !AllZeros(g.traceId) && !AllZeros(g.parentId)
  {
    g := ParseTraceParentMatched(h);
    pre, ext, post := MatchFrames(h, g);
  }

  /** A header whose trimmed text matches is white space, the rendered groups, an extension, and white space. */
  lemma MatchFrames(h: string, g: TraceParentGroups) returns (pre: string, ext: string, post: string)
    requires MatchTraceParent(TrimSpace(h)) == Some(g)
    ensures AllSpace(pre) && AllSpace(post) && IsExtension(ext)
    ensures h == pre + Render(g) + ext + post
  {
    var t := TrimSpace(h);
    MatchedTrimmed(t, g);
    ext := t[FixedWidth..];
    pre, post := TrimSpaceSplit(h);
    Regroup(h, pre, t, post, Render(g), ext);
  }

  lemma Regroup(h: string, pre: string, t: string, post: string, a: string, b: string)
    requires h == pre + t + post && t == a + b
    ensures h == pre + a + b + post
  {
  }

  /** A 32-character hex trace-id is trimmed and would itself pass the B3 pattern. */
  lemma HexIdPassesB3(id: string)
    requires |id| == 32 && IsLowerHex(id)
    ensures Trimmed(id) && MatchHex16Or32(id)
  {
    assert id[|id| - 32..] == id;
  }

  /**
   * extractTraceID: a valid traceparent wins; X-B3-TraceId is consulted only
   * when it does not yield an id, and its trimmed value is taken whole when it
   * matches reHex16Or32; otherwise the trace id is "".
   */
  function ExtractTraceID(traceParent: string, b3: string): (traceId: string)
    ensures ParseTraceParent(traceParent) != [] ==> traceId == ParseTraceParent(traceParent)
    ensures ParseTraceParent(traceParent) == [] && MatchHex16Or32(TrimSpace(b3)) ==> traceId == TrimSpace(b3)
    ensures traceId == [] <==> ParseTraceParent(traceParent) == [] && !MatchHex16Or32(TrimSpace(b3))
    ensures traceId == [] || (|traceId| >= 16 && Trimmed(traceId) && MatchHex16Or32(traceId))
  {
    if traceParent != "" && ParseTraceParent(traceParent) != "" then
      HexIdPassesB3(ParseTraceParent(traceParent));
      ParseTraceParent(traceParent)
    else if b3 != "" && MatchHex16Or32(TrimSpace(b3)) then TrimSpace(b3)
    else ""
  }

  /** An inbound request as the middleware sees it; an absent header reads as "". */
  datatype Request = Request(
    httpMethod: string,
    path: string,
    rawQuery: string,
    clientIP: string,
    userAgent: string,
    header: map<string, string>)

  /** c.GetHeader(name): the header's value, or "" when it is absent. */
  function GetHeader(req: Request, name: string): string {
    if name in req.header then req.header[name] else ""
  }

  /** The fields of the "request completed" log entry, latency aside. */
  datatype LogRecord = LogRecord(
    message: string,
    status: int,
    httpMethod: string,
    path: string,
    query: string,
    ip: string,
    userAgent: string,
    errors: string,
    requestId: string,
    traceId: string)

  /** Everything one pass of the middleware leaves behind. */
  datatype Completion = Completion(
    responseHeader: map<string, string>,
    keys: map<string, string>,
    record: LogRecord)

  /**
   * One request through ZapLogger: `status` and `privateErrors` stand for what
   * the downstream handler left on the context. The id on the response header,
   * the one stored under "request_id" and the one logged are the same value,
   * and the logged trace id is the one stored under "trace_id".
   */
  function ZapLogger(req: Request, e: Entropy, status: int, privateErrors: string): (c: Completion)
    ensures RequestIDHeader in c.responseHeader && c.responseHeader[RequestIDHeader] == c.record.requestId
    ensures "request_id" in c.keys && c.keys["request_id"] == c.record.requestId
    ensures "trace_id" in c.keys && c.keys["trace_id"] == c.record.traceId
    ensures c.record.requestId != []
    ensures GetHeader(req, RequestIDHeader) != [] ==> c.record.requestId == GetHeader(req, RequestIDHeader)
    ensures GetHeader(req, RequestIDHeader) == [] ==> c.record.requestId == NewRequestID(e)
    ensures c.record.traceId == ExtractTraceID(GetHeader(req, TraceParentHeader), GetHeader(req, B3TraceIDHeader))
    ensures c.record.status == status && c.record.path == req.path && c.record.query == req.rawQuery
  {
    var rid := GetOrCreateRequestID(GetHeader(req, RequestIDHeader), e);
    var traceId := ExtractTraceID(GetHeader(req, TraceParentHeader), GetHeader(req, B3TraceIDHeader));
    Completion(
      map[RequestIDHeader := rid],
      map["request_id" := rid, "trace_id" := traceId],
      LogRecord("request completed", status, req.httpMethod, req.path, req.rawQuery,
                req.clientIP, req.userAgent, privateErrors, rid, traceId))
  }
}
