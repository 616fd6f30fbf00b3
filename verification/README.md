# DockerRestFileUpload in Dafny

A model of `DockerRestFileUpload`, which uploads a file into a running Docker
container. It does this by driving the Docker Engine exec API over one raw
socket. `uploadFile` connects to the engine and sends an exec-create request
whose command is `touch 'f' && echo 'ok' && false || cat > 'f'`. It pulls
the exec id out of the create response. It then sends an exec-start request
that asks to upgrade the connection to raw TCP. It checks the
`HTTP/1.1 101 UPGRADED` status line, skips the response headers and checks
that the shell answered `ok`. Finally it hands the caller an output stream
whose bytes go straight into the container's `cat`.

Modules and files:

- `wrappers.dfy` (`Wrappers`): `Option`, `Result` and `Outcome`.
- `errors.dfy` (`Errors`): one tag per exception the code can raise.
- `text.dfy` (`Text`): the pieces of `java.lang.String` the code relies on.
  These are `contains`, `trim`, `replaceAll` over a char class, decimal
  rendering of an `int`, `length()` in UTF-16 code units, and
  `getBytes("UTF-8")`. `Text.IndexOf` is not a method the code calls: it is
  the search for the next `:` that `Scanner.next()` performs (line 202).
- `http.dfy` (`Http`): the request text the code builds with `StringBuffer`
  (request line, headers each ended by CR LF, an empty line, the body), a
  parser for that layout, and the `Content-Length` header.
- `endpoint.dfy` (`Endpoint`): the request path prefix and the port and
  transport chosen for the server address.
- `exec.dfy` (`Exec`): the two requests, the rules that judge the two
  responses line by line, and `Handshake`. `Handshake` is a reference
  definition of a whole session: its outcome, every byte sent, and how many
  reply lines were read.
- `session.dfy` (`Session`): the mutable side.
  - `Socket` is the connection. Its peer is described by the lines it
    answers with and whether it accepts the connection. Reads advance a
    cursor, and writes append to an output byte sequence.
  - `FileUpload` is the uploader object. Its `execId` field is set by
    `ExecCreate`.
  - `UploadStream` is the anonymous `OutputStream`.
  - `UploadFile` ties them together with the `needToClose` flag.

The methods are proved against the functions of `Exec`. For example,
`UploadFile` ends with exactly the socket output, read position and outcome
that `Handshake` prescribes, and with a closed socket after any failure once
connected. The
properties of the session are then proved once, as lemmas about `Handshake`.

Three details of the code matter here:

- The exec id is cleaned of every `"`, `,` and `}`, not just trailing ones,
  because `replaceAll("[\",\\}]*", "")` removes them anywhere.
- With an explicit port any scheme is accepted and only `https` gets TLS;
  without one, only `http` (port 80) and `https` (port 443) are accepted.
- `Content-Length` is `String.length()`, which counts UTF-16 code units, not
  bytes.

`java.util.Scanner.next()` with `:` as the delimiter is modelled as it
behaves, not as a plain split. Each call skips one `:` at the read position
and then reads up to the next `:`. The two readings differ only for a line
that begins with `:` or ends right after its first `:`: for `{"Id":` the
second `next()` finds no token, where a plain split would give an empty id.

## Model

| member | source | states |
|---|---|---|
| Endpoint.RequestPath | DockerRestFileUpload.java:65-72 | The prefix is never empty. It starts with the URI path, or is "/" when the path is empty. With a query it ends in "?" + query, and its length is exactly base plus one plus the query. |
| Endpoint.SelectTransport | DockerRestFileUpload.java:142-164 | Succeeds iff the port is explicit or the scheme is http or https. Otherwise it fails with UnsupportedScheme. An explicit port is kept, else https gets 443 and http gets 80. The host is kept, and TLS is chosen exactly for https. |
| Text.ContainsOccurs | DockerRestFileUpload.java:194 | A string that String.contains a substring has an occurrence of it at some index. |
| Text.OccursContains | DockerRestFileUpload.java:194 | An occurrence of the substring at any index makes String.contains hold. |
| Text.ContainsIffOccurs | DockerRestFileUpload.java:194 | String.contains as modelled holds exactly when the substring occurs at some index. |
| Text.MissingFirstChar | DockerRestFileUpload.java:194 | A string lacking the first char of a pattern does not contain the pattern. |
| Text.ContainsAfter | DockerRestFileUpload.java:200 | An occurrence at the start of the second part is an occurrence in the concatenation. |
| Text.IndexOf | DockerRestFileUpload.java:202-205 | Returns the first index at or after `from` holding the char, or the length when there is none. No earlier index in range holds it. |
| Text.TrimStartStrips | DockerRestFileUpload.java:258 | Leading trim keeps a suffix. Everything it drops is a char at most U+0020, and what it keeps is empty or starts with a visible char. |
| Text.TrimEndStrips | DockerRestFileUpload.java:258 | Trailing trim keeps a prefix. Everything it drops is a char at most U+0020, and what it keeps is empty or ends with a visible char. |
| Text.TrimPadded | DockerRestFileUpload.java:258 | Trimming a core that starts and ends with a visible char, padded with chars at most U+0020, gives back the core. |
| Text.TrimmedFrom | DockerRestFileUpload.java:258 | Conversely, every string is its trimmed core with such padding on both sides. |
| Text.Remove | DockerRestFileUpload.java:206 | The result is no longer than the input and holds none of the removed chars. |
| Text.RemoveKeepsOthers | DockerRestFileUpload.java:206 | Every char outside the removed set keeps its number of occurrences. |
| Text.RemoveAppend | DockerRestFileUpload.java:206 | Removal distributes over concatenation. |
| Text.RemoveNothing | DockerRestFileUpload.java:206 | A string with none of the removed chars is unchanged. |
| Text.Decimal | DockerRestFileUpload.java:182 | The decimal text of a length is non-empty, all digits, and has no leading zero. |
| Text.DecimalRoundTrip | DockerRestFileUpload.java:182 | Parsing the decimal text of n gives back n. |
| Text.EncodeChar | DockerRestFileUpload.java:186-187 | One char encodes to 1 to 4 UTF-8 bytes. It is a single byte equal to its code iff the char is below U+0080, and never fewer bytes than UTF-16 units. |
| Text.Utf8Append | DockerRestFileUpload.java:186-187 | UTF-8 encoding distributes over concatenation. |
| Text.Utf16Append | DockerRestFileUpload.java:182 | String.length() adds up over concatenation. |
| Text.LengthMatchesBytesIffAscii | DockerRestFileUpload.java:182-187 | String.length() never exceeds the UTF-8 byte count, and equals it exactly when the string is ASCII. |
| Text.Utf8NotShorter | DockerRestFileUpload.java:186-187 | UTF-8 never takes fewer bytes than there are chars. |
| Text.AsciiBytes | DockerRestFileUpload.java:186-187 | An ASCII string encodes to one byte per char, each equal to the char's code. |
| Text.AsciiAppend | DockerRestFileUpload.java:169-174 | A concatenation is ASCII exactly when both parts are. |
| Http.SplitLine | DockerRestFileUpload.java:178-183 | A found line and the rest rebuild the input around CR LF, and the line holds no CR. None means no such split exists. |
| Http.ReadHeadOf | DockerRestFileUpload.java:180-183 | Non-empty header lines without CR, followed by the empty line, read back as exactly those headers and the body. |
| Http.ParseRender | DockerRestFileUpload.java:177-184 | A request whose request line and headers are non-empty and free of CR parses back into exactly its request line, headers and body. |
| Http.ContentLengthReadsBack | DockerRestFileUpload.java:182 | A receiver reading the written Content-Length header gets String.length() of the body. |
| Exec.CreatePayload | DockerRestFileUpload.java:169-174 | The create payload opens with '{' and closes with '}'. The filename is spliced in unescaped, so a `"`, `\` or control char in it changes or breaks the JSON; the model does not state when the payload is valid JSON. |
| Exec.CreateExecRequest | DockerRestFileUpload.java:176-184 | A POST whose request line carries the container id right after `POST {path}containers/`, whose body is the create payload, with three headers, the last being the Content-Length of that same body. |
| Exec.StartExecRequest | DockerRestFileUpload.java:227-239 | A POST whose request line carries the exec id (or null) right after `POST {path}exec/`, whose body is the start payload, with five headers: first the upgrade to tcp, last the Content-Length of that same body. |
| Exec.RequestBytes | DockerRestFileUpload.java:186-187 | Each request goes out as the UTF-8 bytes of its rendered text: never fewer bytes than chars, and one byte per char, equal to its code, for ASCII text. |
| Http.ContentLengthHeader | DockerRestFileUpload.java:182 | The header is "Content-Length: " followed by a non-empty run of digits without a leading zero. |
| Exec.ConstantsAscii | DockerRestFileUpload.java:169-174 | Every fixed piece of both JSON payloads is ASCII, the start payload included. |
| Exec.CreatePayloadAscii | DockerRestFileUpload.java:169-174 | The create payload is ASCII exactly when the filename is. |
| Exec.ContentLengthIsLine | DockerRestFileUpload.java:182 | The Content-Length header is a framable line. |
| Exec.CreateWellFormed | DockerRestFileUpload.java:177-183 | With no CR in path, host and container id, every line of the create request is framable. |
| Exec.StartWellFormed | DockerRestFileUpload.java:229-238 | With no CR in path, host and exec id, every line of the start request is framable. |
| Exec.RequestsAreFramed | DockerRestFileUpload.java:177-184 | Under the same conditions, both requests parse back into exactly their request line, headers and payload, for a reader that ends lines only at CR LF. A bare LF in the path, host or an id is not excluded, and a reader that also ends lines at LF would see an extra line there. |
| Exec.CreateContentLength | DockerRestFileUpload.java:169-184 | The create request declares String.length() of its payload. That equals the payload's byte count exactly when the filename is ASCII. |
| Exec.StartContentLength | DockerRestFileUpload.java:227-239 | The start request declares exactly the byte count of its payload. |
| Exec.NextToken | DockerRestFileUpload.java:202-205 | Scanner.next() with ":" as delimiter. None iff nothing is left after skipping one ':' at the position. A token is a ':'-free slice of the line, ending at a ':' or the end of the line. It starts just after the position exactly when a ':' stands there, and at the position otherwise. |
| Exec.IdFromLine | DockerRestFileUpload.java:200-207 | A failure is NoSuchToken (Scanner's NoSuchElementException). An extracted id never contains '"', ',' or '}'. |
| Exec.IdFromLineRule | DockerRestFileUpload.java:202-206 | For a line not starting with ':' whose first ':' is at i: no id when line[..i] lacks "Id"; NoSuchToken when it has "Id" and the ':' ends the line; otherwise the id is the field after that ':', up to the next ':', with every '"', ',' and '}' removed. |
| Exec.FindIdLine | DockerRestFileUpload.java:197-210 | Returns the first line at or after the position containing "Id":, or the line count. No line before it contains "Id":. |
| Exec.FindBlankLine | DockerRestFileUpload.java:252-255 | Returns the first empty line at or after the position, or the line count. No line before it is empty. |
| Exec.ScanCreate | DockerRestFileUpload.java:190-210 | The create response is read from the position without passing the end of the lines. |
| Exec.ScanUpgrade | DockerRestFileUpload.java:245-260 | The upgrade response is read from the position without passing the end of the lines. |
| Exec.ScanAck | DockerRestFileUpload.java:252-260 | The headers and the acknowledgment are read without passing the end of the lines. |
| Exec.ScanAckLine | DockerRestFileUpload.java:257-260 | The acknowledgment line is read without passing the end of the lines. |
| Exec.Handshake | DockerRestFileUpload.java:100-102 | A session never reads past the last reply line. |
| Exec.NotFoundStopsAtStatusLine | DockerRestFileUpload.java:192-196 | A first line containing 404 fails with ContainerNotFound after one line, with only the create request sent. |
| Exec.StartSentOnlyWithId | DockerRestFileUpload.java:100-102 | The start request is sent iff the create response yielded an exec id. |
| Exec.SuccessCarriesCreatedId | DockerRestFileUpload.java:197-209 | A successful session reports the id extracted from the create response. That id is free of '"', ',' and '}', and both requests were sent, in order. |
| Exec.HeadersEndAtFound | DockerRestFileUpload.java:252-255 | The blank-line search finds exactly the first empty line after the status line. |
| Exec.UpgradeAcceptedIffShape | DockerRestFileUpload.java:247-260 | The upgrade response is accepted iff it is the exact 101 line, then non-empty headers, an empty line, and a line that trims to "ok". |
| Exec.AcceptedHasShape | DockerRestFileUpload.java:247-260 | An accepted upgrade response has that shape. |
| Exec.ShapeIsAccepted | DockerRestFileUpload.java:247-260 | A response of that shape is accepted. |
| Exec.FirstTokenOfCreatedBody | DockerRestFileUpload.java:202-204 | On the engine's body line, the first token is {"Id", which mentions Id. |
| Exec.SecondTokenOfCreatedBody | DockerRestFileUpload.java:205-206 | The second token is the quoted id with its brace, and cleaning it leaves exactly the id. |
| Exec.IdFromCreatedBody | DockerRestFileUpload.java:200-207 | For an id free of '"', ',', '}' and ':', the engine's line {"Id":"<id>"} contains "Id": and yields exactly that id. |
| Exec.IdExample | DockerRestFileUpload.java:200-207 | The line {"Id":"abc123"} yields abc123. |
| Exec.CreateRepliesScan | DockerRestFileUpload.java:192-210 | A conforming create response yields exactly the issued id and stops right after the body line. |
| Exec.UpgradeRepliesScan | DockerRestFileUpload.java:247-260 | A well-shaped upgrade response is consumed whole. It succeeds iff the answer trims to "ok", and otherwise fails with that answer. |
| Exec.EngineRoundTrip | DockerRestFileUpload.java:100-102 | With a conforming engine, a session succeeds with exactly the issued id, sends the create then the start request for that id, and reads every reply line. |
| Exec.ScenarioUpload | DockerRestFileUpload.java:217-218 | With container c0111a111e, file /var/log/example.txt and exec id abc123, a shell answering "ok" gives success with that id. |
| Exec.ScenarioBadAck | DockerRestFileUpload.java:257-259 | The same exchange with the shell answering "fail" fails with UnexpectedAck("fail"). |
| Exec.FirstTokenWithoutIdFails | DockerRestFileUpload.java:204-212 | If the first "Id": line's first token lacks Id, no id is set. The session fails with ExecCreateFailed after that line, and only the create request is sent. |
| Exec.NoIdLineFails | DockerRestFileUpload.java:210-212 | With no "Id": line at all, the session fails with ExecCreateFailed after reading every line, and only the create request is sent. |
| Exec.EmptyCreateResponseFails | DockerRestFileUpload.java:192-194 | With no reply line at all, the status line is missing: the session fails with EndOfStream, having read nothing and sent only the create request. |
| Exec.IdLineWithoutValueFails | DockerRestFileUpload.java:200-205 | If the first "Id": line mentions Id before its first ':' and ends right after it, the second next() fails: NoSuchToken after that line, with only the create request sent. |
| Exec.WrongStatusLineFails | DockerRestFileUpload.java:245-250 | After a found id, a status line other than the 101 line fails with InvalidHandshake carrying that line, after one more line read and both requests sent. |
| Exec.UpgradeEndsEarly | DockerRestFileUpload.java:252-258 | After the 101 line, input ending before the empty line or right after it fails the upgrade phase with EndOfStream, with every line read. |
| Exec.StatusLineMissingFails | DockerRestFileUpload.java:245-247 | After a found id, input ending before the 101 line fails with EndOfStream, with every line read and both requests sent. |
| Exec.HeadersUnendedFails | DockerRestFileUpload.java:252-255 | After the 101 line, input ending before the empty line fails with EndOfStream, with every line read and both requests sent. |
| Exec.AckMissingFails | DockerRestFileUpload.java:257-258 | After the empty line, input ending before the acknowledgment fails with EndOfStream, with every line read and both requests sent. |
| Session.Socket.constructor | DockerRestFileUpload.java:268 | A new socket is unconnected, has read nothing and written nothing. |
| Session.Socket.Connect | DockerRestFileUpload.java:158-163 | Opens to the given transport iff the peer accepts. Otherwise it stays unconnected. |
| Session.Socket.ReadLine | DockerRestFileUpload.java:192 | Returns the next reply line and advances by one, or returns None at the end without moving. |
| Session.Socket.Write | DockerRestFileUpload.java:186-187 | On an open socket, appends exactly the bytes. Otherwise it fails and writes nothing. |
| Session.Socket.Flush | DockerRestFileUpload.java:188 | On an open socket, everything written so far is flushed. |
| Session.Socket.Close | DockerRestFileUpload.java:275 | The socket is closed, and nothing else changes. |
| Session.CreateSocket | DockerRestFileUpload.java:142-164 | A refused scheme fails before connecting, and a refused connection fails with SocketCreateFailed. Otherwise the socket is open to the chosen transport. |
| Session.Send | DockerRestFileUpload.java:186-188 | Appends the request to the output and flushes it. |
| Session.ReadToIdLine | DockerRestFileUpload.java:197-210 | Reads up to and including the first "Id": line, or to the end of the lines. |
| Session.ReadToBlankLine | DockerRestFileUpload.java:252-255 | Reads up to and including the first empty line. It reports false when the lines end first. |
| Session.ReadCreateResponse | DockerRestFileUpload.java:190-210 | The outcome and read position are those of ScanCreate. |
| Session.ReadUpgradeResponse | DockerRestFileUpload.java:245-260 | The outcome and read position are those of ScanUpgrade. |
| Session.ReadAck | DockerRestFileUpload.java:252-260 | The outcome and read position are those of ScanAck. |
| Session.ReadAckLine | DockerRestFileUpload.java:257-260 | The outcome and read position are those of ScanAckLine. |
| Session.FileUpload.constructor | DockerRestFileUpload.java:61-80 | The host is the URI's host, the path is RequestPath of its path and query, and no exec id is set. |
| Session.FileUpload.ExecCreate | DockerRestFileUpload.java:166-213 | Sends exactly the create request bytes and reads as ScanCreate prescribes. The exec id is set only when found, and the step fails with ExecCreateFailed when none is known. |
| Session.FileUpload.ExecStartAndUpgrade | DockerRestFileUpload.java:226-262 | Sends exactly the start request for the current exec id. The read position and outcome are those of ScanUpgrade. |
| Session.FileUpload.Close | DockerRestFileUpload.java:274-276 | The socket is closed, and what was read and written is unchanged. |
| Session.UploadStream.constructor | DockerRestFileUpload.java:103-105 | The stream writes to the uploader's own socket. |
| Session.UploadStream.WriteByte | DockerRestFileUpload.java:106-109 | Appends exactly the low eight bits of the int. |
| Session.UploadStream.Write | DockerRestFileUpload.java:111-114 | Appends exactly the given bytes, in order. |
| Session.UploadStream.WriteRange | DockerRestFileUpload.java:116-120 | Appends exactly the requested slice. A range outside the array fails with IndexOutOfBounds and writes nothing. |
| Session.UploadStream.Close | DockerRestFileUpload.java:122-126 | Flushes everything written on an open socket, then closes it. Output, read position and peer stay the same, and an unopened socket's flushed count is unchanged. |
| Session.UploadFile | DockerRestFileUpload.java:95-140 | Follows Handshake exactly: the output, read position and outcome match. Any failure after connecting leaves the socket closed. Success leaves it open and returns a stream on it, with the exec id Handshake reports. |

## Left out

- Real socket and TLS creation and the network itself. `Socket` is a scripted peer: the reply lines and whether it accepts the connection are given up front.
- `URI.create` parsing. The model starts from the parsed scheme, host, optional port, path and optional query. A null scheme, host or path, which `URI` can yield, is not modelled. For example `//localhost:4243` has no scheme, and `createSocket` then fails with a NullPointerException at line 149 or line 158.
- Decoding by `InputStreamReader` and line splitting by `BufferedReader`. Replies are given as already split lines. Each phase's fresh `BufferedReader` is modelled as one shared read position, so read-ahead buffering that could swallow lines between phases is not captured.
- Lone UTF-16 surrogates. Dafny's `char` is a Unicode scalar value, so `String.length()` is modelled as one unit below U+10000 and two above.
- Blocking, timeouts and I/O errors of `write`, `flush`, `getOutputStream` and `close`. The `IOException` swallowed around `close` in `uploadFile` cannot arise in the model.
- Logging of each header line (line 254), the `main` demo (215-224) and the unused `DockerRestFileUpload(URI)` constructor (270-272).
- The effect of the remote `touch`/`cat` on the container's file system.
- Double close: closing a closed socket only leaves it closed.
- Session.UploadStream.WriteRange: the bounds check follows the `OutputStream` contract. The JDK socket stream returns silently from a zero-length write even when `off` is out of range, and that quirk is not modelled.
- Exec.ScanCreate, Exec.ScanUpgrade, Exec.ScanAck, Exec.ScanAckLine, Exec.Handshake: their own contracts only bound the read position. What they decide, and the error each failure carries, is stated by the lemmas in the rows above.
- Http.Render, Exec.CreateBytes, Exec.StartBytes: their facts are stated by Http.ParseRender, Exec.RequestsAreFramed and Exec.RequestBytes rather than by their own contracts. As contracts of these functions, the same facts would be unfolded in every proof about a session, which makes those proofs too costly.
