/**
 * The exec protocol the uploader speaks to the Docker Engine: the two fixed
 * requests (exec create, exec start with upgrade), the line-by-line rules
 * that judge the two responses, and `Handshake`, the reference definition
 * of a whole session from the first byte sent to the acknowledgment line.
 */
module Exec {
  import opened Wrappers
  import opened Text
  import opened Http
  import opened Errors

  // ---------------------------------------------------------------------
  // Requests
  // ---------------------------------------------------------------------

  /**
   * Attach stdin, stdout and stderr, no TTY, not detached. The literal is
   * kept in the short pieces below, as the Java source also splits it.
   */
  const AttachFlags: string := DetachTty + AttachIn + AttachOut + AttachErr

  const DetachTty: string := "\"Detach\": false,\"Tty\": false,"
  const AttachIn: string := "\"AttachStdin\" :true, "
  const AttachOut: string := "\"AttachStdout\" :true,"
  const AttachErr: string := "\"AttachStderr\":true"

  const CommandPrefix: string := ",\"Cmd\":[\"/bin/bash\", \"-c\", \""

  /** The acknowledgment and the redirect; the '>' is sent as the JSON escape \u003e. */
  const AckThenCat: string := EchoAck + CatInto
  const EchoAck: string := "' && echo 'ok' && false"
  const CatInto: string := " || cat \\u003e '"

  /**
   * The shell line run in the container: create the file, print the
   * acknowledgment "ok", then copy standard input into the file. The
   * filename is spliced in unescaped, twice.
   */
  function ShellCommand(filename: string): string
  {
    "touch '" + filename + AckThenCat + filename + "' "
  }

  /** The exec-create body, the text of lines 169-174 of DockerRestFileUpload.java. */
  function CreatePayload(filename: string): (r: string)
    ensures |r| > 0 && r[0] == '{' && r[|r| - 1] == '}'
  {
    "{" + AttachFlags + CommandPrefix + ShellCommand(filename) + "\"]}"
  }

  const StartPayload: string := "{" + AttachFlags + "}"

  const JsonContentType: string := "Content-Type: application/json"

  /** POST {path}containers/{containerId}/exec */
  function CreateExecRequest(path: string, host: string, containerId: string, filename: string): (r: Request)
    ensures "POST " <= r.line && r.body == CreatePayload(filename)
    ensures OccursAt(r.line, containerId, |"POST " + path + "containers/"|)
    ensures |r.headers| == 3 && r.headers[2] == ContentLengthHeader(r.body)
  {
    var body := CreatePayload(filename);
    Request("POST " + path + "containers/" + containerId + "/exec HTTP/1.1",
            ["Host: " + host, JsonContentType, ContentLengthHeader(body)],
            body)
  }

  /** How the exec id is printed into the start request; a Java null prints as "null". */
  function IdText(execId: Option<string>): string
  {
    match execId
    case None => "null"
    case Some(id) => id
  }

  /** POST {path}exec/{execId}/start, asking to upgrade the connection to raw TCP. */
  function StartExecRequest(path: string, host: string, execId: Option<string>): (r: Request)
    ensures "POST " <= r.line && r.body == StartPayload
    ensures OccursAt(r.line, IdText(execId), |"POST " + path + "exec/"|)
    ensures |r.headers| == 5 && r.headers[..2] == ["Upgrade: tcp", "Connection: Upgrade"]
    ensures r.headers[4] == ContentLengthHeader(r.body)
  {
    Request("POST " + path + "exec/" + IdText(execId) + "/start HTTP/1.1",
            ["Upgrade: tcp", "Connection: Upgrade", "Host: " + host, JsonContentType,
             ContentLengthHeader(StartPayload)],
            StartPayload)
  }

  /** The bytes execCreate writes to the socket. */
  function CreateBytes(path: string, host: string, containerId: string, filename: string): seq<byte>
  {
    Utf8(Render(CreateExecRequest(path, host, containerId, filename)))
  }

  /** The bytes execStartAndUpgrade writes to the socket. */
  function StartBytes(path: string, host: string, execId: Option<string>): seq<byte>
  {
    Utf8(Render(StartExecRequest(path, host, execId)))
  }

  // ---------------------------------------------------------------------
  // Properties of the requests
  // ---------------------------------------------------------------------

  /**
   * Each request goes out as the UTF-8 bytes of its rendered text: never
   * fewer bytes than chars, and one byte per char, equal to its code, when
   * the text is ASCII.
   */
  lemma RequestBytes(path: string, host: string, containerId: string, filename: string, execId: Option<string>)
    ensures var t := Render(CreateExecRequest(path, host, containerId, filename));
            var b := CreateBytes(path, host, containerId, filename);
            |t| <= |b| && (IsAscii(t) ==> |b| == |t| && forall i :: 0 <= i < |t| ==> b[i] as int == t[i] as int)
    ensures var t := Render(StartExecRequest(path, host, execId));
            var b := StartBytes(path, host, execId);
            |t| <= |b| && (IsAscii(t) ==> |b| == |t| && forall i :: 0 <= i < |t| ==> b[i] as int == t[i] as int)
  {
    var c := Render(CreateExecRequest(path, host, containerId, filename));
    var s := Render(StartExecRequest(path, host, execId));
    Utf8NotShorter(c);
    Utf8NotShorter(s);
    if IsAscii(c) {
      AsciiBytes(c);
    }
    if IsAscii(s) {
      AsciiBytes(s);
    }
  }

  predicate NoCR(s: string)
  {
    '\r' !in s
  }

  lemma AttachFlagsAscii()
    ensures IsAscii(AttachFlags)
  {
    FlagPiecesAscii();
    AsciiAppend(DetachTty, AttachIn);
    AsciiAppend(DetachTty + AttachIn, AttachOut);
    AsciiAppend(DetachTty + AttachIn + AttachOut, AttachErr);
  }

  lemma FlagPiecesAscii()
    ensures IsAscii(DetachTty) && IsAscii(AttachIn) && IsAscii(AttachOut) && IsAscii(AttachErr)
  {
    DetachAttachInAscii();
    AttachOutErrAscii();
  }

  lemma DetachAttachInAscii()
    ensures IsAscii(DetachTty) && IsAscii(AttachIn)
  {
    assert IsAscii(DetachTty);
  }

  lemma AttachOutErrAscii()
    ensures IsAscii(AttachOut) && IsAscii(AttachErr)
  {
    assert IsAscii(AttachOut);
  }

  lemma CommandPiecesAscii()
    ensures IsAscii(CommandPrefix) && IsAscii(AckThenCat)
  {
    assert IsAscii(CommandPrefix);
    assert IsAscii(EchoAck) && IsAscii(CatInto);
    AsciiAppend(EchoAck, CatInto);
  }

  /** Every fixed piece of both payloads is ASCII. */
  lemma ConstantsAscii()
    ensures IsAscii(AttachFlags) && IsAscii(StartPayload)
    ensures IsAscii(CommandPrefix) && IsAscii(AckThenCat)
  {
    AttachFlagsAscii();
    AsciiAppend("{", AttachFlags);
    AsciiAppend("{" + AttachFlags, "}");
    CommandPiecesAscii();
  }

  /** The create payload is ASCII exactly when the filename is. */
  lemma CreatePayloadAscii(filename: string)
    ensures IsAscii(CreatePayload(filename)) <==> IsAscii(filename)
  {
    ConstantsAscii();
    var cmd := ShellCommand(filename);
    AsciiAppend("touch '", filename);
    AsciiAppend("touch '" + filename, AckThenCat);
    AsciiAppend("touch '" + filename + AckThenCat, filename);
    AsciiAppend("touch '" + filename + AckThenCat + filename, "' ");
    AsciiAppend("{", AttachFlags);
    AsciiAppend("{" + AttachFlags, CommandPrefix);
    AsciiAppend("{" + AttachFlags + CommandPrefix, cmd);
    AsciiAppend("{" + AttachFlags + CommandPrefix + cmd, "\"]}");
  }

  /** The Content-Length header is a line: its value is all digits. */
  lemma ContentLengthIsLine(body: string)
    ensures IsLine(ContentLengthHeader(body))
  {
    assert '\r' !in ContentLengthName;
  }

  /** The fixed pieces of the create request's lines hold no carriage return. */
  lemma CreateTextNoCR()
    ensures NoCR("POST ") && NoCR("containers/") && NoCR("/exec HTTP/1.1")
    ensures NoCR("Host: ") && IsLine(JsonContentType)
  {
  }

  /** The fixed pieces of the start request's lines hold no carriage return. */
  lemma StartTextNoCR()
    ensures NoCR("POST ") && NoCR("exec/") && NoCR("/start HTTP/1.1")
    ensures IsLine("Upgrade: tcp") && IsLine("Connection: Upgrade")
  {
  }

  lemma CreateWellFormed(path: string, host: string, containerId: string, filename: string)
    requires NoCR(path) && NoCR(host) && NoCR(containerId)
    ensures WellFormed(CreateExecRequest(path, host, containerId, filename))
  {
    var c := CreateExecRequest(path, host, containerId, filename);
    CreateTextNoCR();
    ContentLengthIsLine(c.body);
  }

  lemma StartWellFormed(path: string, host: string, execId: Option<string>)
    requires NoCR(path) && NoCR(host) && NoCR(IdText(execId))
    ensures WellFormed(StartExecRequest(path, host, execId))
  {
    CreateTextNoCR();
    StartTextNoCR();
    ContentLengthIsLine(StartPayload);
  }

  /**
   * With no carriage return in what the caller supplies, both requests are
   * framed as intended: request line, header lines, blank line, body, and
   * they parse back into exactly those parts.
   */
  lemma RequestsAreFramed(path: string, host: string, containerId: string, filename: string, execId: Option<string>)
    requires NoCR(path) && NoCR(host) && NoCR(containerId) && NoCR(IdText(execId))
    ensures Parse(Render(CreateExecRequest(path, host, containerId, filename)))
            == Some(CreateExecRequest(path, host, containerId, filename))
    ensures Parse(Render(StartExecRequest(path, host, execId))) == Some(StartExecRequest(path, host, execId))
  {
    CreateWellFormed(path, host, containerId, filename);
    ParseRender(CreateExecRequest(path, host, containerId, filename));
    StartWellFormed(path, host, execId);
    ParseRender(StartExecRequest(path, host, execId));
  }

  /**
   * The Content-Length a receiver reads from the create request is
   * String.length() of the payload; it equals the number of payload bytes
   * sent exactly when the filename is ASCII.
   */
  lemma CreateContentLength(path: string, host: string, containerId: string, filename: string)
    ensures DeclaredLength(CreateExecRequest(path, host, containerId, filename).headers)
            == Some(Utf16Length(CreatePayload(filename)))
    ensures Utf16Length(CreatePayload(filename)) == |Utf8(CreatePayload(filename))| <==> IsAscii(filename)
  {
    var body := CreatePayload(filename);
    var hs := CreateExecRequest(path, host, containerId, filename).headers;
    assert hs[0][0] == 'H';
    assert !(ContentLengthName <= hs[0]);
    assert hs[1][8] == 'T' && ContentLengthName[8] == 'L';
    assert !(ContentLengthName <= hs[1]);
    assert hs[2..] == [ContentLengthHeader(body)];
    ContentLengthReadsBack(body);
    LengthMatchesBytesIffAscii(body);
    CreatePayloadAscii(filename);
  }

  /** The start request's Content-Length is exactly the number of payload bytes sent. */
  lemma StartContentLength(path: string, host: string, execId: Option<string>)
    ensures DeclaredLength(StartExecRequest(path, host, execId).headers) == Some(|Utf8(StartPayload)|)
  {
    var hs := StartExecRequest(path, host, execId).headers;
    assert !(ContentLengthName <= hs[0]) by {
      assert |hs[0]| < |ContentLengthName|;
    }
    assert !(ContentLengthName <= hs[1]) by {
      assert hs[1][3] == 'n' && ContentLengthName[3] == 't';
    }
    assert !(ContentLengthName <= hs[2]) by {
      assert hs[2][0] == 'H';
    }
    assert !(ContentLengthName <= hs[3]) by {
      assert hs[3][8] == 'T' && ContentLengthName[8] == 'L';
    }
    assert DeclaredLength(hs) == DeclaredLength(hs[1..]);
    assert DeclaredLength(hs[1..]) == DeclaredLength(hs[2..]);
    assert DeclaredLength(hs[2..]) == DeclaredLength(hs[3..]);
    assert DeclaredLength(hs[3..]) == DeclaredLength(hs[4..]);
    assert hs[4..] == [ContentLengthHeader(StartPayload)];
    ContentLengthReadsBack(StartPayload);
    ConstantsAscii();
    LengthMatchesBytesIffAscii(StartPayload);
  }

  // ---------------------------------------------------------------------
  // Reading the responses
  // ---------------------------------------------------------------------

  const NotFoundMarker: string := "404"
  const IdKey: string := "\"Id\":"
  const UpgradedStatus: string := "HTTP/1.1 101 UPGRADED"
  const Ack: string := "ok"

  /** The chars the exec id is cleaned of: '"', ',' and '}'. */
  const IdJunk: set<char> := {'"', ',', '}'}

  datatype Token = Token(text: string, end: nat)

  /**
   * java.util.Scanner.next() with ":" as the delimiter, resuming at `pos`:
   * it skips one ':' standing at `pos`, then reads up to the next ':' or the
   * end of the line. None when nothing is left after the skip
   * (NoSuchElementException).
   */
  function NextToken(s: string, pos: nat): (r: Option<Token>)
    requires pos <= |s|
    ensures r.None? <==> pos == |s| || (pos + 1 == |s| && s[pos] == ':')
    ensures r.Some? ==> pos <= r.value.end - |r.value.text| <= pos + 1 && r.value.end <= |s|
    ensures r.Some? ==> s[r.value.end - |r.value.text|..r.value.end] == r.value.text
    ensures r.Some? ==> ':' !in r.value.text
    ensures r.Some? ==> r.value.end == |s| || s[r.value.end] == ':'
    ensures r.Some? ==> pos < |s| && (r.value.end - |r.value.text| == pos + 1 <==> s[pos] == ':')
  {
    var start := if pos < |s| && s[pos] == ':' then pos + 1 else pos;
    if start == |s| then None
    else
      var e := IndexOf(s, ':', start);
      Some(Token(s[start..e], e))
  }

  /**
   * What execCreate makes of the line holding "Id":. Success(Some(id)) when
   * the first token mentions Id: the second token cleaned of '"', ',' and '}'.
   * Success(None) when the first token does not mention Id (no id is set).
   */
  function IdFromLine(line: string): (r: Result<Option<string>, Error>)
    ensures r.Failure? ==> r.error == NoSuchToken
    ensures r.Success? && r.value.Some? ==> forall i :: 0 <= i < |r.value.value| ==> r.value.value[i] !in IdJunk
  {
    match NextToken(line, 0)
    case None => Failure(NoSuchToken)
    case Some(first) =>
      if !Contains(first.text, "Id") then Success(None)
      else
        match NextToken(line, first.end)
        case None => Failure(NoSuchToken)
        case Some(second) => Success(Some(Remove(second.text, IdJunk)))
  }

  /**
   * The rule of IdFromLine for a line that does not start with ':' and has a
   * ':' at index i: the first field is line[..i]; without "Id" in it no id is
   * set, with nothing after the ':' the second next() fails, and otherwise
   * the id is the next field, up to the following ':', with '"', ',' and '}'
   * removed.
   */
  lemma IdFromLineRule(line: string)
    requires IndexOf(line, ':', 0) < |line| && line[0] != ':'
    ensures var i := IndexOf(line, ':', 0);
      && (!Contains(line[..i], "Id") ==> IdFromLine(line) == Success(None))
      && (Contains(line[..i], "Id") && i + 1 == |line| ==> IdFromLine(line) == Failure(NoSuchToken))
      && (Contains(line[..i], "Id") && i + 1 < |line| ==>
            IdFromLine(line) == Success(Some(Remove(line[i + 1..IndexOf(line, ':', i + 1)], IdJunk))))
  {
  }

  /** The first line at or after `from` that contains "Id":, or |lines|. */
  function FindIdLine(lines: seq<string>, from: nat): (k: nat)
    requires from <= |lines|
    ensures from <= k <= |lines|
    ensures k < |lines| ==> Contains(lines[k], IdKey)
    ensures forall j :: from <= j < k ==> !Contains(lines[j], IdKey)
    decreases |lines| - from
  {
    if from == |lines| || Contains(lines[from], IdKey) then from else FindIdLine(lines, from + 1)
  }

  /** The first empty line at or after `from`, or |lines|. */
  function FindBlankLine(lines: seq<string>, from: nat): (k: nat)
    requires from <= |lines|
    ensures from <= k <= |lines|
    ensures k < |lines| ==> lines[k] == ""
    ensures forall j :: from <= j < k ==> lines[j] != ""
    decreases |lines| - from
  {
    if from == |lines| || lines[from] == "" then from else FindBlankLine(lines, from + 1)
  }

  /** The verdict of one reading phase and the read position it leaves behind. */
  datatype Scan<T> = Scan(result: Result<T, Error>, next: nat)

  /**
   * The create response as execCreate reads it from position `at`: the
   * status line, then lines up to the first one containing "Id":.
   * Success(None) means no exec id was found.
   */
  function ScanCreate(lines: seq<string>, at: nat): (s: Scan<Option<string>>)
    requires at <= |lines|
    ensures at <= s.next <= |lines|
  {
    if at == |lines| then Scan(Failure(EndOfStream), at)
    else if Contains(lines[at], NotFoundMarker) then Scan(Failure(ContainerNotFound), at + 1)
    else
      var k := FindIdLine(lines, at + 1);
      if k == |lines| then Scan(Success(None), k)
      else Scan(IdFromLine(lines[k]), k + 1)
  }

  /**
   * The upgrade response as execStartAndUpgrade reads it from position `at`:
   * the exact 101 status line, then the headers and the acknowledgment.
   */
  function ScanUpgrade(lines: seq<string>, at: nat): (s: Scan<()>)
    requires at <= |lines|
    ensures at <= s.next <= |lines|
  {
    if at == |lines| then Scan(Failure(EndOfStream), at)
    else if lines[at] != UpgradedStatus then Scan(Failure(InvalidHandshake(lines[at])), at + 1)
    else ScanAck(lines, at + 1)
  }

  /**
   * Header lines from `from` up to and including the first empty one, then
   * the acknowledgment line.
   */
  function ScanAck(lines: seq<string>, from: nat): (s: Scan<()>)
    requires from <= |lines|
    ensures from <= s.next <= |lines|
  {
    var k := FindBlankLine(lines, from);
    if k == |lines| then Scan(Failure(EndOfStream), k) else ScanAckLine(lines, k + 1)
  }

  /** The acknowledgment line at `at`, which must trim to "ok". */
  function ScanAckLine(lines: seq<string>, at: nat): (s: Scan<()>)
    requires at <= |lines|
    ensures at <= s.next <= |lines|
  {
    if at == |lines| then Scan(Failure(EndOfStream), at)
    else if Trim(lines[at]) != Ack then Scan(Failure(UnexpectedAck(lines[at])), at + 1)
    else Scan(Success(()), at + 1)
  }

  // ---------------------------------------------------------------------
  // The whole handshake
  // ---------------------------------------------------------------------

  /** The exec id or error a session ends with, every byte it sent, and how many reply lines it read. */
  datatype Run = Run(result: Result<string, Error>, sent: seq<byte>, next: nat)

  /**
   * Reference definition of a session on an open connection whose peer
   * answers with `lines`: exec create, then, only once an id is known,
   * exec start with the upgrade handshake.
   */
  function Handshake(path: string, host: string, containerId: string, filename: string, lines: seq<string>): (run: Run)
    ensures run.next <= |lines|
  {
    var create := CreateBytes(path, host, containerId, filename);
    var c := ScanCreate(lines, 0);
    match c.result
    case Failure(e) => Run(Failure(e), create, c.next)
    case Success(None) => Run(Failure(ExecCreateFailed), create, c.next)
    case Success(Some(id)) =>
      var u := ScanUpgrade(lines, c.next);
      Run(if u.result.Failure? then Failure(u.result.error) else Success(id),
          create + StartBytes(path, host, Some(id)), u.next)
  }

  // ---------------------------------------------------------------------
  // Properties of the response rules and of the handshake
  // ---------------------------------------------------------------------

  /** A status line mentioning 404 ends the session at once: one line read, only the create request sent. */
  lemma NotFoundStopsAtStatusLine(path: string, host: string, containerId: string, filename: string, lines: seq<string>)
    requires |lines| > 0 && Contains(lines[0], NotFoundMarker)
    ensures Handshake(path, host, containerId, filename, lines)
            == Run(Failure(ContainerNotFound), CreateBytes(path, host, containerId, filename), 1)
  {
  }

  /** The start request goes out exactly when the create response yielded an exec id. */
  lemma StartSentOnlyWithId(path: string, host: string, containerId: string, filename: string, lines: seq<string>)
    ensures var run := Handshake(path, host, containerId, filename, lines);
            var c := ScanCreate(lines, 0);
            (run.sent == CreateBytes(path, host, containerId, filename)) <==> !(c.result.Success? && c.result.value.Some?)
  {
    var c := ScanCreate(lines, 0);
    if c.result.Success? && c.result.value.Some? {
      var start := StartBytes(path, host, c.result.value);
      Utf8NotShorter(Render(StartExecRequest(path, host, c.result.value)));
      assert |start| > 0;
      var create := CreateBytes(path, host, containerId, filename);
      assert |create + start| > |create|;
    }
  }

  /** A successful session reports the id read from the create response, and sent both requests. */
  lemma SuccessCarriesCreatedId(path: string, host: string, containerId: string, filename: string, lines: seq<string>)
    requires Handshake(path, host, containerId, filename, lines).result.Success?
    ensures var run := Handshake(path, host, containerId, filename, lines);
            ScanCreate(lines, 0).result == Success(Some(run.result.value))
            && run.sent == CreateBytes(path, host, containerId, filename)
                           + StartBytes(path, host, Some(run.result.value))
            && forall i :: 0 <= i < |run.result.value| ==> run.result.value[i] !in IdJunk
  {
    var c := ScanCreate(lines, 0);
    assert c.result.Success? && c.result.value.Some?;
    HandshakeAfterId(path, host, containerId, filename, lines);
    var k := FindIdLine(lines, 1);
    assert c.result == IdFromLine(lines[k]);
  }

  /** The upgrade response is accepted exactly when it has the documented shape. */
  ghost predicate UpgradeShape(lines: seq<string>, at: nat)
  {
    at < |lines| && lines[at] == UpgradedStatus
    && exists k :: HeadersEndAt(lines, at, k) && k + 1 < |lines| && Trim(lines[k + 1]) == Ack
  }

  /** Line `k` is the first empty line after the status line at `at`. */
  ghost predicate HeadersEndAt(lines: seq<string>, at: nat, k: int)
  {
    at < k < |lines| && lines[k] == "" && forall j :: at < j < k ==> lines[j] != ""
  }

  /** FindBlankLine finds exactly the line HeadersEndAt describes. */
  lemma HeadersEndAtFound(lines: seq<string>, at: nat, k: int)
    requires at < |lines|
    ensures HeadersEndAt(lines, at, k) <==> k == FindBlankLine(lines, at + 1) < |lines|
  {
  }

  lemma UpgradeAcceptedIffShape(lines: seq<string>, at: nat)
    requires at <= |lines|
    ensures ScanUpgrade(lines, at).result.Success? <==> UpgradeShape(lines, at)
  {
    if ScanUpgrade(lines, at).result.Success? {
      AcceptedHasShape(lines, at);
    }
    if UpgradeShape(lines, at) {
      ShapeIsAccepted(lines, at);
    }
  }

  lemma AcceptedHasShape(lines: seq<string>, at: nat)
    requires at <= |lines| && ScanUpgrade(lines, at).result.Success?
    ensures UpgradeShape(lines, at)
  {
    var b := FindBlankLine(lines, at + 1);
    HeadersEndAtFound(lines, at, b);
    assert HeadersEndAt(lines, at, b) && b + 1 < |lines| && Trim(lines[b + 1]) == Ack;
  }

  lemma ShapeIsAccepted(lines: seq<string>, at: nat)
    requires UpgradeShape(lines, at)
    ensures ScanUpgrade(lines, at).result.Success?
  {
    var k :| HeadersEndAt(lines, at, k) && k + 1 < |lines| && Trim(lines[k + 1]) == Ack;
    HeadersEndAtFound(lines, at, k);
    assert at < |lines| && lines[at] == UpgradedStatus;
    assert FindBlankLine(lines, at + 1) == k;
    var ack := lines[k + 1];
    assert Trim(ack) == Ack;
  }

  /** The line carrying the exec id in the engine's create response body. */
  function CreatedBody(id: string): string
  {
    "{\"Id\"" + ":" + IdValue(id)
  }

  /** The quoted id and the closing brace that follow the key. */
  function IdValue(id: string): string
  {
    "\"" + id + "\"}"
  }

  /** An id with none of '"', ',', '}', ':' in it. */
  predicate CleanId(id: string)
  {
    forall i :: 0 <= i < |id| ==> id[i] !in IdJunk && id[i] != ':'
  }

  /** Scanner's first token of the created body is {"Id", which mentions Id. */
  lemma FirstTokenOfCreatedBody(id: string)
    ensures NextToken(CreatedBody(id), 0) == Some(Token("{\"Id\"", 5))
    ensures Contains("{\"Id\"", "Id")
  {
    var s := CreatedBody(id);
    var head := "{\"Id\"";
    assert s[0] != ':';
    assert forall j :: 0 <= j < 5 ==> s[j] == head[j] && head[j] != ':';
    assert s[5] == ':';
    assert IndexOf(s, ':', 0) == 5;
    assert s[..5] == head;
    assert head == "{\"" + ("Id" + "\"");
    ContainsAfter("{\"", "Id" + "\"", "Id");
  }

  /** Scanner's second token is the rest of the line; cleaning it leaves the id. */
  lemma SecondTokenOfCreatedBody(id: string)
    requires CleanId(id)
    ensures NextToken(CreatedBody(id), 5) == Some(Token(IdValue(id), |CreatedBody(id)|))
    ensures Remove(IdValue(id), IdJunk) == id
  {
    var s := CreatedBody(id);
    var v := IdValue(id);
    assert s[5] == ':';
    assert s[6..|s|] == v;
    assert forall j :: 0 <= j < |v| ==> v[j] != ':';
    assert forall j :: 6 <= j < |s| ==> s[j] == v[j - 6];
    assert IndexOf(s, ':', 6) == |s|;
    assert v == "\"" + (id + "\"}");
    RemoveAppend("\"", id + "\"}", IdJunk);
    RemoveAppend(id, "\"}", IdJunk);
    assert Remove("\"", IdJunk) == [];
    assert Remove("\"}", IdJunk) == [];
    RemoveNothing(id, IdJunk);
  }

  /** The id the engine puts in its create response is exactly the id extracted. */
  lemma IdFromCreatedBody(id: string)
    requires CleanId(id)
    ensures Contains(CreatedBody(id), IdKey)
    ensures IdFromLine(CreatedBody(id)) == Success(Some(id))
  {
    ContainsAfter("{", IdKey + IdValue(id), IdKey);
    assert CreatedBody(id) == "{" + (IdKey + IdValue(id));
    FirstTokenOfCreatedBody(id);
    SecondTokenOfCreatedBody(id);
  }

  /** Worked example: the engine line {"Id":"abc123"} yields the exec id abc123. */
  lemma IdExample()
    ensures IdFromLine("{\"Id\":\"abc123\"}") == Success(Some("abc123"))
  {
    assert CreatedBody("abc123") == "{\"Id\":\"abc123\"}";
    assert CleanId("abc123");
    IdFromCreatedBody("abc123");
  }

  /**
   * The create response of an engine that follows the protocol: the status
   * line, header lines (and the blank line before the body), then the body
   * line with the exec id.
   */
  function CreateReplies(status: string, headers: seq<string>, id: string): seq<string>
  {
    [status] + headers + [CreatedBody(id)]
  }

  /**
   * The upgrade response: the 101 status line, header lines, the blank line,
   * then the shell's first output line `answer`.
   */
  function UpgradeReplies(headers: seq<string>, answer: string): seq<string>
  {
    [UpgradedStatus] + headers + ["", answer]
  }

  /** The replies of an engine that follows the protocol and a shell that acknowledges. */
  function EngineReplies(status: string, headers: seq<string>, id: string, upgradeHeaders: seq<string>): seq<string>
  {
    CreateReplies(status, headers, id) + UpgradeReplies(upgradeHeaders, Ack)
  }

  /**
   * A conforming create response yields exactly the id the engine issued,
   * and leaves the read position just after the body line.
   */
  lemma CreateRepliesScan(status: string, headers: seq<string>, id: string, rest: seq<string>)
    requires !Contains(status, NotFoundMarker)
    requires forall i :: 0 <= i < |headers| ==> !Contains(headers[i], IdKey)
    requires CleanId(id)
    ensures ScanCreate(CreateReplies(status, headers, id) + rest, 0) == Scan(Success(Some(id)), |headers| + 2)
  {
    var lines := CreateReplies(status, headers, id) + rest;
    var n := |headers|;
    assert lines[0] == status;
    assert forall j :: 1 <= j < 1 + n ==> lines[j] == headers[j - 1];
    assert lines[1 + n] == CreatedBody(id);
    IdFromCreatedBody(id);
    assert FindIdLine(lines, 1) == 1 + n;
  }

  /**
   * Reading a well-shaped upgrade response placed after `pre` consumes it
   * whole, and succeeds exactly when the answer trims to "ok".
   */
  lemma UpgradeRepliesScan(pre: seq<string>, headers: seq<string>, answer: string)
    requires forall i :: 0 <= i < |headers| ==> headers[i] != ""
    ensures var u := ScanUpgrade(pre + UpgradeReplies(headers, answer), |pre|);
            u.next == |pre| + |headers| + 3
            && (u.result.Success? <==> Trim(answer) == Ack)
            && (u.result.Failure? ==> u.result.error == UnexpectedAck(answer))
  {
    var lines := pre + UpgradeReplies(headers, answer);
    var p, m := |pre|, |headers|;
    assert lines[p] == UpgradedStatus;
    assert forall j :: p + 1 <= j < p + 1 + m ==> lines[j] == headers[j - p - 1];
    assert lines[p + 1 + m] == "" && lines[p + 2 + m] == answer && |lines| == p + m + 3;
    assert FindBlankLine(lines, p + 1) == p + 1 + m;
  }

  /** "ok" is already trimmed. */
  lemma AckTrimmed()
    ensures Trim(Ack) == Ack
  {
    TrimPadded("", Ack, "");
    assert "" + Ack + "" == Ack;
  }

  /**
   * Round trip with a conforming engine: the session succeeds with exactly
   * the id the engine issued, sends the create request then the start
   * request for that id, and reads every reply line.
   */
  lemma EngineRoundTrip(path: string, host: string, containerId: string, filename: string,
                        status: string, headers: seq<string>, id: string, upgradeHeaders: seq<string>)
    requires !Contains(status, NotFoundMarker)
    requires forall i :: 0 <= i < |headers| ==> !Contains(headers[i], IdKey)
    requires CleanId(id)
    requires forall i :: 0 <= i < |upgradeHeaders| ==> upgradeHeaders[i] != ""
    ensures var lines := EngineReplies(status, headers, id, upgradeHeaders);
            Handshake(path, host, containerId, filename, lines)
            == Run(Success(id),
                   CreateBytes(path, host, containerId, filename) + StartBytes(path, host, Some(id)),
                   |lines|)
  {
    var pre := CreateReplies(status, headers, id);
    CreateRepliesScan(status, headers, id, UpgradeReplies(upgradeHeaders, Ack));
    UpgradeRepliesScan(pre, upgradeHeaders, Ack);
    AckTrimmed();
  }

  const CreatedStatus: string := "HTTP/1.1 201 Created"
  const SampleId: string := "abc123"
  const SampleContainer: string := "c0111a111e"
  const SampleFile: string := "/var/log/example.txt"

  /**
   * A sample exchange: the create response "HTTP/1.1 201 Created" with body
   * {"Id":"abc123"}, then "HTTP/1.1 101 UPGRADED", a blank line and the
   * shell's answer `answer`.
   */
  function SampleReplies(answer: string): seq<string>
  {
    CreateReplies(CreatedStatus, [], SampleId) + UpgradeReplies([], answer)
  }

  /** The sample create response is conforming. */
  lemma SampleCreateConforms()
    ensures !Contains(CreatedStatus, NotFoundMarker) && CleanId(SampleId)
  {
    assert '4' !in CreatedStatus;
    MissingFirstChar(CreatedStatus, NotFoundMarker);
    SampleIdClean();
  }

  lemma SampleIdClean()
    ensures CleanId(SampleId)
  {
  }

  /** Scenario: the shell answers "ok"; the session reaches the streaming state with exec id abc123. */
  lemma ScenarioUpload(path: string, host: string)
    ensures Handshake(path, host, SampleContainer, SampleFile, SampleReplies(Ack)).result == Success(SampleId)
  {
    SampleCreateConforms();
    EngineRoundTrip(path, host, SampleContainer, SampleFile, CreatedStatus, [], SampleId, []);
  }

  /** Scenario: the shell answers "fail" instead of "ok"; the session fails on the acknowledgment. */
  lemma ScenarioBadAck(path: string, host: string)
    ensures Handshake(path, host, SampleContainer, SampleFile, SampleReplies("fail")).result
            == Failure(UnexpectedAck("fail"))
  {
    SampleCreateConforms();
    var pre := CreateReplies(CreatedStatus, [], SampleId);
    CreateRepliesScan(CreatedStatus, [], SampleId, UpgradeReplies([], "fail"));
    UpgradeRepliesScan(pre, [], "fail");
    TrimPadded("", "fail", "");
    assert "" + "fail" + "" == "fail";
  }

  /**
   * The first line holding "Id": has a first token that does not mention
   * Id: no exec id is set, the session fails after reading that line, and
   * the start request is never sent.
   */
  lemma FirstTokenWithoutIdFails(path: string, host: string, containerId: string, filename: string,
                                 lines: seq<string>, k: nat)
    requires 0 < k < |lines| && !Contains(lines[0], NotFoundMarker)
    requires forall i :: 1 <= i < k ==> !Contains(lines[i], IdKey)
    requires Contains(lines[k], IdKey)
    requires NextToken(lines[k], 0).Some? && !Contains(NextToken(lines[k], 0).value.text, "Id")
    ensures Handshake(path, host, containerId, filename, lines)
            == Run(Failure(ExecCreateFailed), CreateBytes(path, host, containerId, filename), k + 1)
  {
    var f := FindIdLine(lines, 1);
    assert f == k;
    assert IdFromLine(lines[k]) == Success(None);
  }

  /**
   * Scenario: the create response never shows an "Id": line; the session
   * fails after reading every line and the start request is never sent.
   */
  lemma NoIdLineFails(path: string, host: string, containerId: string, filename: string, lines: seq<string>)
    requires |lines| > 0 && !Contains(lines[0], NotFoundMarker)
    requires forall i :: 1 <= i < |lines| ==> !Contains(lines[i], IdKey)
    ensures Handshake(path, host, containerId, filename, lines)
            == Run(Failure(ExecCreateFailed), CreateBytes(path, host, containerId, filename), |lines|)
  {
    assert FindIdLine(lines, 1) == |lines|;
  }

  /** An empty create response: the status line is already missing (readLine gives null). */
  lemma EmptyCreateResponseFails(path: string, host: string, containerId: string, filename: string)
    ensures Handshake(path, host, containerId, filename, [])
            == Run(Failure(EndOfStream), CreateBytes(path, host, containerId, filename), 0)
  {
  }

  /**
   * The first line holding "Id": mentions Id before its first ':' and ends
   * right after that ':': the second next() finds no token, the session
   * fails after reading that line and the start request is never sent.
   */
  lemma IdLineWithoutValueFails(path: string, host: string, containerId: string, filename: string,
                                lines: seq<string>, k: nat)
    requires 0 < k < |lines| && !Contains(lines[0], NotFoundMarker)
    requires forall i :: 1 <= i < k ==> !Contains(lines[i], IdKey)
    requires Contains(lines[k], IdKey) && lines[k][0] != ':'
    requires IndexOf(lines[k], ':', 0) + 1 == |lines[k]|
    requires Contains(lines[k][..IndexOf(lines[k], ':', 0)], "Id")
    ensures Handshake(path, host, containerId, filename, lines)
            == Run(Failure(NoSuchToken), CreateBytes(path, host, containerId, filename), k + 1)
  {
    var f := FindIdLine(lines, 1);
    assert f == k;
    IdFromLineRule(lines[k]);
  }

  /**
   * An exec id was found but the next line is not the 101 status line: the
   * session fails with that line as the reported handshake, after sending
   * both requests and reading exactly one more line.
   */
  lemma WrongStatusLineFails(path: string, host: string, containerId: string, filename: string, lines: seq<string>)
    requires ScanCreate(lines, 0).result.Success? && ScanCreate(lines, 0).result.value.Some?
    requires ScanCreate(lines, 0).next < |lines| && lines[ScanCreate(lines, 0).next] != UpgradedStatus
    ensures var c := ScanCreate(lines, 0);
            Handshake(path, host, containerId, filename, lines)
            == Run(Failure(InvalidHandshake(lines[c.next])),
                   CreateBytes(path, host, containerId, filename) + StartBytes(path, host, c.result.value),
                   c.next + 1)
  {
  }

  /**
   * An exec id was found but the input ends before the status line of the
   * upgrade response: EndOfStream, after sending both requests and reading
   * every line.
   */
  lemma StatusLineMissingFails(path: string, host: string, containerId: string, filename: string, lines: seq<string>)
    requires ScanCreate(lines, 0).result.Success? && ScanCreate(lines, 0).result.value.Some?
    requires ScanCreate(lines, 0).next == |lines|
    ensures Handshake(path, host, containerId, filename, lines)
            == Run(Failure(EndOfStream),
                   CreateBytes(path, host, containerId, filename) + StartBytes(path, host, ScanCreate(lines, 0).result.value),
                   |lines|)
  {
  }

  /** Once the create response yields an exec id, the session is the upgrade phase after both requests. */
  lemma HandshakeAfterId(path: string, host: string, containerId: string, filename: string, lines: seq<string>)
    requires ScanCreate(lines, 0).result.Success? && ScanCreate(lines, 0).result.value.Some?
    ensures var c := ScanCreate(lines, 0);
            var u := ScanUpgrade(lines, c.next);
            Handshake(path, host, containerId, filename, lines)
            == Run(if u.result.Failure? then Failure(u.result.error) else Success(c.result.value.value),
                   CreateBytes(path, host, containerId, filename) + StartBytes(path, host, c.result.value),
                   u.next)
  {
  }

  /**
   * After the 101 status line at `at`, input that ends before the empty line
   * or right after it makes the upgrade phase fail with EndOfStream, with
   * every line read.
   */
  lemma UpgradeEndsEarly(lines: seq<string>, at: nat)
    requires at < |lines| && lines[at] == UpgradedStatus && FindBlankLine(lines, at + 1) + 1 >= |lines|
    ensures ScanUpgrade(lines, at) == Scan(Failure(EndOfStream), |lines|)
  {
  }

  /**
   * The 101 status line came, but the input ends before the empty line
   * closing the headers: EndOfStream, with every line read.
   */
  lemma HeadersUnendedFails(path: string, host: string, containerId: string, filename: string, lines: seq<string>)
    requires ScanCreate(lines, 0).result.Success? && ScanCreate(lines, 0).result.value.Some?
    requires ScanCreate(lines, 0).next < |lines| && lines[ScanCreate(lines, 0).next] == UpgradedStatus
    requires FindBlankLine(lines, ScanCreate(lines, 0).next + 1) == |lines|
    ensures Handshake(path, host, containerId, filename, lines)
            == Run(Failure(EndOfStream),
                   CreateBytes(path, host, containerId, filename) + StartBytes(path, host, ScanCreate(lines, 0).result.value),
                   |lines|)
  {
    var c := ScanCreate(lines, 0);
    UpgradeEndsEarly(lines, c.next);
    HandshakeAfterId(path, host, containerId, filename, lines);
  }

  /**
   * The headers ended with an empty line, but the input ends before the
   * acknowledgment: EndOfStream, with every line read.
   */
  lemma AckMissingFails(path: string, host: string, containerId: string, filename: string, lines: seq<string>)
    requires ScanCreate(lines, 0).result.Success? && ScanCreate(lines, 0).result.value.Some?
    requires ScanCreate(lines, 0).next < |lines| && lines[ScanCreate(lines, 0).next] == UpgradedStatus
    requires FindBlankLine(lines, ScanCreate(lines, 0).next + 1) + 1 == |lines|
    ensures Handshake(path, host, containerId, filename, lines)
            == Run(Failure(EndOfStream),
                   CreateBytes(path, host, containerId, filename) + StartBytes(path, host, ScanCreate(lines, 0).result.value),
                   |lines|)
  {
    var c := ScanCreate(lines, 0);
    UpgradeEndsEarly(lines, c.next);
    HandshakeAfterId(path, host, containerId, filename, lines);
  }
}
