# Request correlation in the Gin/zap logging middleware

This project models the request-correlation part of the service's logging
middleware (`internal/middleware/zap.go`) and proves properties of it in Dafny.
The middleware does three things for every request:

- It resolves a **request id**. A non-empty inbound `X-Request-ID` header is used as it is.
  Otherwise a new id is the lower-case hex of 16 random bytes. If the random source fails,
  the id is the hex of the current time formatted as `20060102150405.000000000`.
- It extracts a **trace id**. It tries the W3C `traceparent` header first, then the Zipkin B3
  `X-B3-TraceId` header, and otherwise uses the empty string.
- It writes one **"request completed"** log entry. The response header, the context key
  `request_id` and the log field `request_id` all carry the same request id.

Modules:

- `Wrappers` (wrappers.dfy): the `Option` type.
- `Text` (text.dfy): `strings.TrimSpace`, using Go's `unicode.IsSpace` set, and a `Split` that
  defines "the n-th dash-separated field".
- `Hex` (hex.dfy): `hex.EncodeToString` and a decoder that serves as its inverse.
- `Patterns` (patterns.dfy): the regular expressions `reTraceParent` and `reHex16Or32`, written
  as predicates over characters with Go's RE2 reading. `$` is the end of the text, `.` is any
  character except a newline, and `|` binds looser than `^` and `$`.
- `Correlation` (correlation.dfy): `newRequestID`, `getOrCreateRequestID`, `allZeros`,
  `parseTraceParent`, `extractTraceID`, and one pass of `ZapLogger` as a pure function.
- `WorkedCases` (worked_cases.dfy): the header values from the middleware's test suite, and
  values that show the patterns' as-written behaviour.

Nondeterminism becomes a parameter. `Entropy` is either the 16-byte block `crypto/rand`
filled, or an RNG failure together with the bytes of the formatted time. The downstream
handler is represented by the status code and the private-error text it leaves behind.
Headers are a map from header name to value, and a missing header reads as "".

## Code versus intent

Where the code's own names and comments promise more than its statements do, the model
follows the statements:

- **B3 check.** The pattern's name `reHex16Or32` (internal/middleware/zap.go:76) says that the
  value must be 16 or 32 lower-case hex characters. But `^[0-9a-f]{16}|[0-9a-f]{32}$` parses as
  `(^[0-9a-f]{16})|([0-9a-f]{32}$)`. It accepts any trimmed value that starts with 16 hex
  characters or ends with 32 of them, and then returns the whole value.
  `Patterns.Hex16Or32AcceptsPrefix` and `WorkedCases.B3PrefixOnly` show this.
- **traceparent version and flags.** The comments call the header W3C (zap.go:48), and they
  say `parseTraceParent` "validates" it (zap.go:92). The pattern checks only that the version
  and the flags are two lower-case hex characters each and never looks at their values, so
  version `ff` is accepted. It also accepts a trailing `-…` for every version
  (`WorkedCases.VersionFfAccepted`, `WorkedCases.ExtensionAccepted`). Beyond the header's
  shape, the code enforces only the Recommendation's rules against an all-zero trace-id and
  parent-id (sections 3.2.2.3 and 3.2.2.4 of the W3C Trace Context Recommendation).
- **Request id shape.** The comment on `newRequestID` (zap.go:64) promises a 32-character hex
  string. An inbound id is kept verbatim whatever it contains. The RNG-failure fallback is 48
  characters long, because it is the hex of a 24-character timestamp.

## Model

| member | source | states |
|---|---|---|
| Text.TrimSpace | internal/middleware/zap.go:86 | the trimmed value is empty or starts and ends with a non-space character, and it is no longer than the input |
| Text.TrimSpaceFrames | internal/middleware/zap.go:94 | the trimmed value is an infix of the input, and everything before and after it is white space |
| Text.TrimSpaceOf | internal/middleware/zap.go:94 | conversely, any trimmed core framed by white space is exactly what trimming returns. Together with TrimSpaceFrames this characterises the trim |
| Text.TrimSpaceSplit | internal/middleware/zap.go:94 | the header is white space, then its trimmed value, then white space, with both white-space pieces named |
| Text.TrimSpaceIdempotent | internal/middleware/zap.go:86 | trimming an already-trimmed header changes nothing |
| Hex.EncodeToString | internal/middleware/zap.go:69-71 | the encoding of n bytes is 2n characters, all in 0-9a-f |
| Hex.Decode | internal/middleware/zap.go:71 | a text decodes exactly when it has even length and only lower-case hex; whatever it decodes to re-encodes to the same text |
| Hex.DecodeEncode | internal/middleware/zap.go:71 | decoding an encoding gives back the original bytes |
| Hex.EncodeInjective | internal/middleware/zap.go:64-71 | distinct byte strings never share an encoding |
| Patterns.LeadingBlanks | internal/middleware/zap.go:75 | the `[ \t]*` prefix is the longest run of blanks at the start |
| Patterns.MatchTraceParent | internal/middleware/zap.go:75 | a match yields groups of widths 2/32/16/2 in 0-9a-f. The text is then blanks, the dash-joined groups, and nothing or a dash plus newline-free text |
| Patterns.MatchTraceParentComplete | internal/middleware/zap.go:75 | every text of that shape matches, and the match reports exactly its groups |
| Patterns.Hex16Or32AcceptsPrefix | internal/middleware/zap.go:76 | any text that begins with 16 hex characters matches, whatever follows |
| Patterns.Hex16Or32AcceptsSuffix | internal/middleware/zap.go:76 | any text that ends with 32 hex characters matches, whatever precedes |
| Patterns.Hex16Or32RejectsShort | internal/middleware/zap.go:76 | a text shorter than 16 characters never matches, even when it is all hex |
| Patterns.Hex16Or32RejectsOthers | internal/middleware/zap.go:76 | a text with a non-hex character among its first 16 and among its last 32 does not match |
| Correlation.NewRequestID | internal/middleware/zap.go:64-72 | the id is lower-case hex. It is 32 characters from random bytes and 48 from the timestamp fallback, and it decodes back to the bytes it came from |
| Correlation.NewRequestIDInjective | internal/middleware/zap.go:64-71 | different entropy never produces the same id |
| Correlation.GetOrCreateRequestID | internal/middleware/zap.go:54-62 | the id is never empty. A non-empty inbound id is kept verbatim, and a fresh one (32 or 48 hex characters) is made only when the inbound id is empty |
| Correlation.AllZeros | internal/middleware/zap.go:103-106 | true exactly when every character is '0', so true for "" |
| Correlation.ParseTraceParent | internal/middleware/zap.go:93-101 | the result is "" or 32 hex characters, not all zeros, equal to the second dash-separated field of the trimmed header |
| Correlation.ParseTraceParentSound | internal/middleware/zap.go:93-101 | conversely, a non-empty result means the header is white space, well-formed version/trace-id/parent-id/flags groups, nothing or a dash-led newline-free tail, and white space. The trace-id and parent-id are not all zeros, and the result is that trace-id |
| Correlation.ParseTraceParentWellFormed | internal/middleware/zap.go:93-101 | for any header of the pattern's shape inside white space, with an optional dash-led tail that does not end in white space, the result is its trace-id unless the trace-id or parent-id is all zeros, in which case it is "" |
| Correlation.VersionAndFlagsIgnored | internal/middleware/zap.go:96-99 | take any header of the pattern's shape, with white space around it and an optional dash-led tail that does not end in white space. Replacing its version and flags with other two-character hex values never changes the parse result |
| Correlation.ExtractTraceID | internal/middleware/zap.go:79-90 | a traceparent that parses wins. Otherwise the trimmed B3 value is returned whole when it matches the B3 pattern, and otherwise "". A non-empty result is trimmed, at least 16 characters long and passes the B3 pattern |
| Correlation.ZapLogger | internal/middleware/zap.go:15-44 | the response header, the `request_id` key and the logged request id are the same non-empty value; the logged trace id is the stored `trace_id` and is the extracted one |
| WorkedCases.TraceParentSample | internal/middleware/zap_test.go:65-75 | the test suite's traceparent yields 4bf92f3577b34da6a3ce929d0e0e4736, whatever X-B3-TraceId holds |
| WorkedCases.B3Sample | internal/middleware/zap_test.go:91-101 | the test suite's B3 value, with no traceparent, is the trace id unchanged |
| WorkedCases.ZeroTraceIdSample | internal/middleware/zap.go:98 | an all-zero trace-id in an otherwise valid header yields "" |
| WorkedCases.VersionFfAccepted | internal/middleware/zap.go:75 | a header with version ff is accepted |
| WorkedCases.ExtensionAccepted | internal/middleware/zap.go:75 | a version-00 header followed by `-extra` is accepted |
| WorkedCases.B3PrefixOnly | internal/middleware/zap.go:76 | a B3 value with only 16 leading hex characters is returned whole |
| WorkedCases.IncomingRequestIdSample | internal/middleware/zap_test.go:117-129 | an inbound `fixed-id-123` is both the response header and the logged request id |
| WorkedCases.GeneratedRequestIdSample | internal/middleware/zap_test.go:29-48 | with no inbound id, the response header is a 32-character lower-case hex id, and the logged request id is that same id |

## Left out

- Gin and zap plumbing (`c.GetHeader`, `c.Header`, `c.Set`, `c.Next`, `logger.Info`): headers are a map looked up by exact name. Go's case-insensitive, canonicalised header names and multi-valued headers are not modelled.
- `crypto/rand` and `time.Now`: the `Entropy` parameter stands for both. A partially filled buffer on RNG failure is irrelevant, because the code then discards it.
- `time.Format`: the fallback stamp is taken as 24 bytes laid out as fourteen digits, a dot and nine digits. That is what the layout gives for years 0 to 9999. Other years are not modelled.
- Request latency and `uptime_seconds`: these are time-based durations and floating-point values.
- The downstream handler: it is represented only by its status code and private-error text. Headers the handler itself writes are not modelled.
- Go strings are UTF-8 byte strings. The model uses sequences of Unicode characters, so invalid UTF-8 is not modelled.
- Correlation.NewRequestIDInjective: a random id for correlation (zap.go:64) is expected to differ from every other id in practice. That is a probabilistic property of the random source, so the model proves only that different entropy gives different ids.
- internal/delivery/health_handler.go: `Check` fills a constant "ok" response with build strings and a float uptime, so it has no logic to verify.
- Readiness aggregation, exercised in internal/delivery/health_handler_test.go: it has no implementation in the source. `NewHealthHandler` takes only a logger.
- internal/version/version.go, cmd/main.go, internal/usecase/usecase.go and commitlint.config.js: these are constants, wiring, an empty package and tool configuration.
- Log-level filtering (zap_test.go:136-177): this is behaviour of the zap library.
