/**
 * The header values exercised by the middleware's own test suite, and a few
 * more that show how the patterns behave as written. Long header values are
 * spelled as concatenations of their fields.
 */
module WorkedCases {
  import opened Text
  import opened Hex
  import opened Patterns
  import opened Correlation

  const SampleTraceId := "4bf92f3577b34da6a3ce929d0e0e4736"
  const SampleParentId := "00f067aa0ba902b7"
  const ZeroTraceId: string := seq(32, _ => '0')
  const SampleB3 := "463ac35c9f6413ad48485a3953bb6124"

  /** The traceparent of the test suite: 00-4bf92f3577b34da6a3ce929d0e0e4736-00f067aa0ba902b7-01. */
  const SampleTraceParent := "00-" + SampleTraceId + "-" + SampleParentId + "-01"

  /** The same header with an all-zero trace-id. */
  const ZeroTraceParent := "00-" + ZeroTraceId + "-" + SampleParentId + "-01"

  /** The same header with version ff. */
  const VersionFfTraceParent := "ff-" + SampleTraceId + "-" + SampleParentId + "-01"

  /** The same header followed by a further field. */
  const ExtendedTraceParent := SampleTraceParent + "-extra"

  function SampleGroups(version: string, traceId: string): TraceParentGroups {
    TraceParentGroups(version, traceId, SampleParentId, "01")
  }

  lemma SampleTraceIdFacts()
    ensures |SampleTraceId| == 32 && IsLowerHex(SampleTraceId) && !AllZeros(SampleTraceId)
  {
    assert SampleTraceId[0] != '0';
  }

  lemma SampleParentIdFacts()
    ensures |SampleParentId| == 16 && IsLowerHex(SampleParentId) && !AllZeros(SampleParentId)
  {
    assert SampleParentId[2] != '0';
  }

  lemma SampleIsWellFormed(version: string, traceId: string)
    requires |version| == 2 && IsLowerHex(version)
    requires |traceId| == 32 && IsLowerHex(traceId)
    ensures WellFormed(SampleGroups(version, traceId))
  {
    SampleParentIdFacts();
    assert IsLowerHex("01");
  }

  /** A header built around the sample parent-id parses to its trace-id unless that is all zeros. */
  lemma ParseSampleShape(version: string, traceId: string, ext: string)
    requires |version| == 2 && IsLowerHex(version)
    requires |traceId| == 32 && IsLowerHex(traceId)
    requires IsExtension(ext) && (ext == [] || !IsSpace(ext[|ext| - 1]))
    ensures ParseTraceParent(version + "-" + traceId + "-" + SampleParentId + "-01" + ext)
         == if AllZeros(traceId) then "" else traceId
  {
    var g := SampleGroups(version, traceId);
    SampleParentIdFacts();
    SampleIsWellFormed(version, traceId);
    RenderSample(version, traceId, ext);
    ParseTraceParentWellFormed([], g, ext, []);
  }

  lemma RenderSample(version: string, traceId: string, ext: string)
    ensures [] + Render(SampleGroups(version, traceId)) + ext + []
         == version + "-" + traceId + "-" + SampleParentId + "-01" + ext
  {
    assert "-01" == "-" + "01";
  }

  lemma ParseSample()
    ensures ParseTraceParent(SampleTraceParent) == SampleTraceId
  {
    SampleTraceIdFacts();
    assert IsLowerHex("00") && "00-" == "00" + "-" && SampleTraceParent + [] == SampleTraceParent;
    ParseSampleShape("00", SampleTraceId, []);
  }

  /** The test suite's traceparent yields its trace-id, whatever X-B3-TraceId holds. */
  lemma TraceParentSample(b3: string)
    ensures ExtractTraceID(SampleTraceParent, b3) == SampleTraceId
  {
    ParseSample();
  }

  lemma B3SampleFacts()
    ensures |SampleB3| == 32 && IsLowerHex(SampleB3) && Trimmed(SampleB3)
  {
  }

  /** With no traceparent, the test suite's 32-character B3 trace id is taken as it is. */
  lemma B3Sample()
    ensures ExtractTraceID("", SampleB3) == SampleB3
  {
    B3SampleFacts();
    assert [] + SampleB3 + [] == SampleB3;
    TrimSpaceOf([], SampleB3, []);
    assert [] + SampleB3 == SampleB3;
    Hex16Or32AcceptsSuffix([], SampleB3);
  }

  lemma ZeroTraceIdFacts()
    ensures |ZeroTraceId| == 32 && IsLowerHex(ZeroTraceId) && AllZeros(ZeroTraceId)
  {
  }

  lemma ParseZero()
    ensures ParseTraceParent(ZeroTraceParent) == ""
  {
    ZeroTraceIdFacts();
    assert IsLowerHex("00") && "00-" == "00" + "-" && ZeroTraceParent + [] == ZeroTraceParent;
    ParseSampleShape("00", ZeroTraceId, []);
  }

  /** An all-zero trace-id invalidates an otherwise well-formed header, and nothing else is consulted. */
  lemma ZeroTraceIdSample()
    ensures ExtractTraceID(ZeroTraceParent, "") == ""
  {
    ParseZero();
    assert TrimSpace("") == "";
  }

  /** Version ff, which the W3C Trace Context format reserves as invalid, is accepted. */
  lemma VersionFfAccepted()
    ensures ParseTraceParent(VersionFfTraceParent) == SampleTraceId
  {
    SampleTraceIdFacts();
    assert IsLowerHex("ff") && "ff-" == "ff" + "-" && VersionFfTraceParent + [] == VersionFfTraceParent;
    ParseSampleShape("ff", SampleTraceId, []);
  }

  lemma ExtraIsExtension()
    ensures IsExtension("-extra") && !IsSpace("-extra"[5])
  {
  }

  /** A version-00 header with trailing fields is accepted too. */
  lemma ExtensionAccepted()
    ensures ParseTraceParent(ExtendedTraceParent) == SampleTraceId
  {
    SampleTraceIdFacts();
    ExtraIsExtension();
    assert IsLowerHex("00") && "00-" == "00" + "-";
    ParseSampleShape("00", SampleTraceId, "-extra");
  }

  /** A B3 value is accepted whole when only its first 16 characters are hex. */
  lemma B3PrefixOnly()
    ensures ExtractTraceID("", "463ac35c9f6413ad" + "-not-a-trace-id") == "463ac35c9f6413ad" + "-not-a-trace-id"
  {
    var v := "463ac35c9f6413ad" + "-not-a-trace-id";
    assert Trimmed(v);
    assert [] + v + [] == v;
    TrimSpaceOf([], v, []);
    Hex16Or32AcceptsPrefix("463ac35c9f6413ad", "-not-a-trace-id");
  }

  /** An inbound X-Request-ID is echoed on the response and logged unchanged. */
  lemma IncomingRequestIdSample(e: Entropy, status: int)
    ensures var c := ZapLogger(Request("GET", "/ping", "", "", "", map[RequestIDHeader := "fixed-id-123"]), e, status, "");
      c.responseHeader[RequestIDHeader] == "fixed-id-123" && c.record.requestId == "fixed-id-123"
  {
  }

  /** Without an inbound id, the response carries a fresh 32-character lower-case hex id, which is also the logged id. */
  lemma GeneratedRequestIdSample(block: RandomBlock)
    ensures var c := ZapLogger(Request("GET", "/ping", "", "", "", map[]), Random(block), 200, "");
      && |c.responseHeader[RequestIDHeader]| == 32 && IsLowerHex(c.responseHeader[RequestIDHeader])
      && c.record.requestId == c.responseHeader[RequestIDHeader]
  {
  }
}
