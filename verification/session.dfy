/**
 * The stateful side of an upload: the connection, the uploader object that
 * runs the two exec requests over it, the output stream handed back to the
 * caller, and `UploadFile`, which ties them together and closes the
 * connection on every failure after it was opened.
 */
module Session {
  import opened Wrappers
  import opened Text
  import opened Errors
  import opened Endpoint
  import opened Exec

  datatype SocketState = Unconnected | Open | Closed

  /**
   * A client socket. The peer is described up front: whether it accepts the
   * connection and the lines it answers with, in order. Reading advances
   * `cursor` over `replies`; writing appends to `output`; `flushed` counts
   * the bytes pushed out by the last flush.
   */
  class Socket {
    const replies: seq<string>
    const accepts: bool
    var remote: Option<Transport>
    var state: SocketState
    var cursor: nat
    var output: seq<byte>
    var flushed: nat

    predicate Valid()
      reads this
    {
      cursor <= |replies| && flushed <= |output|
      && (state == Unconnected ==> remote.None? && cursor == 0 && output == [])
    }

    constructor(replies: seq<string>, accepts: bool)
      ensures this.replies == replies && this.accepts == accepts
      ensures state == Unconnected && remote.None? && cursor == 0 && output == [] && flushed == 0
      ensures Valid()
    {
      this.replies := replies;
      this.accepts := accepts;
      remote := None;
      state := Unconnected;
      cursor := 0;
      output := [];
      flushed := 0;
    }

    /** Opens the connection to `t`; it fails (IOException) when the peer refuses. */
    method Connect(t: Transport) returns (ok: bool)
      requires Valid() && state == Unconnected
      modifies this
      ensures Valid()
      ensures ok == accepts
      ensures ok ==> state == Open && remote == Some(t)
      ensures !ok ==> state == Unconnected && remote.None?
      ensures cursor == 0 && output == [] && flushed == old(flushed)
    {
      ok := accepts;
      if ok {
        state := Open;
        remote := Some(t);
      }
    }

    /** BufferedReader.readLine: the next reply line, or None at the end of the stream. */
    method ReadLine() returns (line: Option<string>)
      requires Valid() && state == Open
      modifies this
      ensures Valid() && state == Open && remote == old(remote)
      ensures old(cursor) < |replies| ==> line == Some(replies[old(cursor)]) && cursor == old(cursor) + 1
      ensures old(cursor) == |replies| ==> line.None? && cursor == old(cursor)
      ensures output == old(output) && flushed == old(flushed)
    {
      if cursor < |replies| {
        line := Some(replies[cursor]);
        cursor := cursor + 1;
      } else {
        line := None;
      }
    }

    /** Writes `bytes`; on a socket that is not open nothing is written and the write fails. */
    method Write(bytes: seq<byte>) returns (r: Outcome<Error>)
      requires Valid()
      modifies this
      ensures Valid() && state == old(state) && remote == old(remote)
      ensures cursor == old(cursor) && flushed == old(flushed)
      ensures old(state) == Open ==> r == Pass && output == old(output) + bytes
      ensures old(state) != Open ==> r == Fail(SocketClosed) && output == old(output)
    {
      if state == Open {
        output := output + bytes;
        r := Pass;
      } else {
        r := Fail(SocketClosed);
      }
    }

    /** Pushes out everything written so far; on a socket that is not open it does nothing. */
    method Flush()
      requires Valid()
      modifies this
      ensures Valid() && state == old(state) && remote == old(remote)
      ensures cursor == old(cursor) && output == old(output)
      ensures flushed == if old(state) == Open then |output| else old(flushed)
    {
      if state == Open {
        flushed := |output|;
      }
    }

    /** Closes the socket; closing a closed socket does nothing more. */
    method Close()
      requires Valid()
      modifies this
      ensures Valid() && state == Closed && remote == old(remote)
      ensures cursor == old(cursor) && output == old(output) && flushed == old(flushed)
    {
      state := Closed;
    }
  }

  /**
   * createSocket: picks the transport for the address and opens the socket.
   * A refused scheme fails before any connection attempt; a refused
   * connection fails as SocketCreateFailed.
   */
  method CreateSocket(uri: Uri, socket: Socket) returns (r: Outcome<Error>)
    requires socket.Valid() && socket.state == Unconnected
    modifies socket
    ensures socket.Valid()
    ensures SelectTransport(uri).Failure? ==> r == Fail(UnsupportedScheme) && socket.state == Unconnected
    ensures SelectTransport(uri).Success? && !socket.accepts ==>
              r == Fail(SocketCreateFailed) && socket.state == Unconnected
    ensures SelectTransport(uri).Success? && socket.accepts ==>
              r == Pass && socket.state == Open && socket.remote == Some(SelectTransport(uri).value)
    ensures socket.cursor == 0 && socket.output == []
  {
    var t := SelectTransport(uri);
    if t.Failure? {
      return Fail(t.error);
    }
    var ok := socket.Connect(t.value);
    r := if ok then Pass else Fail(SocketCreateFailed);
  }

  /** Writes a request and flushes it, as both exec steps do. */
  method Send(socket: Socket, request: seq<byte>)
    requires socket.Valid() && socket.state == Open
    modifies socket
    ensures socket.Valid() && socket.state == Open && socket.remote == old(socket.remote)
    ensures socket.output == old(socket.output) + request && socket.flushed == |socket.output|
    ensures socket.cursor == old(socket.cursor)
  {
    var written := socket.Write(request);
    socket.Flush();
  }

  /**
   * The do-while loop of execCreate: reads lines until one holds "Id": or
   * the stream ends, and returns that line.
   */
  method ReadToIdLine(socket: Socket) returns (line: Option<string>)
    requires socket.Valid() && socket.state == Open
    modifies socket
    ensures socket.Valid() && socket.state == Open && socket.remote == old(socket.remote)
    ensures socket.output == old(socket.output) && socket.flushed == old(socket.flushed)
    ensures var k := FindIdLine(socket.replies, old(socket.cursor));
            if k < |socket.replies| then line == Some(socket.replies[k]) && socket.cursor == k + 1
            else line.None? && socket.cursor == k
  {
    ghost var k := FindIdLine(socket.replies, socket.cursor);
    while true
      invariant socket.Valid() && socket.state == Open && socket.remote == old(socket.remote)
      invariant socket.output == old(socket.output) && socket.flushed == old(socket.flushed)
      invariant old(socket.cursor) <= socket.cursor <= k
      decreases |socket.replies| - socket.cursor
    {
      line := socket.ReadLine();
      if line.None? || Contains(line.value, IdKey) {
        return;
      }
    }
  }

  /**
   * The do-while loop of execStartAndUpgrade: reads header lines up to and
   * including the first empty one; false when the stream ends first.
   */
  method ReadToBlankLine(socket: Socket) returns (found: bool)
    requires socket.Valid() && socket.state == Open
    modifies socket
    ensures socket.Valid() && socket.state == Open && socket.remote == old(socket.remote)
    ensures socket.output == old(socket.output) && socket.flushed == old(socket.flushed)
    ensures var k := FindBlankLine(socket.replies, old(socket.cursor));
            found == (k < |socket.replies|) && socket.cursor == (if found then k + 1 else k)
  {
    ghost var k := FindBlankLine(socket.replies, socket.cursor);
    while true
      invariant socket.Valid() && socket.state == Open && socket.remote == old(socket.remote)
      invariant socket.output == old(socket.output) && socket.flushed == old(socket.flushed)
      invariant old(socket.cursor) <= socket.cursor <= k
      decreases |socket.replies| - socket.cursor
    {
      var header := socket.ReadLine();
      if header.None? {
        return false;
      }
      if header.value == "" {
        return true;
      }
    }
  }

  /**
   * The reading half of execCreate: the status line, refused when it
   * mentions 404, then the lines up to the first one holding "Id":, whose
   * tokens give the exec id.
   */
  method ReadCreateResponse(socket: Socket) returns (r: Result<Option<string>, Error>)
    requires socket.Valid() && socket.state == Open
    modifies socket
    ensures socket.Valid() && socket.state == Open && socket.remote == old(socket.remote)
    ensures socket.output == old(socket.output) && socket.flushed == old(socket.flushed)
    ensures var c := ScanCreate(socket.replies, old(socket.cursor));
            r == c.result && socket.cursor == c.next
  {
    var header := socket.ReadLine();
    if header.None? {
      return Failure(EndOfStream);
    }
    if Contains(header.value, NotFoundMarker) {
      return Failure(ContainerNotFound);
    }
    var line := ReadToIdLine(socket);
    if line.None? {
      return Success(None);
    }
    r := IdFromLine(line.value);
  }

  /**
   * The reading half of execStartAndUpgrade: the status line, which must be
   * the 101 line exactly, then the headers and the acknowledgment.
   */
  method ReadUpgradeResponse(socket: Socket) returns (r: Outcome<Error>)
    requires socket.Valid() && socket.state == Open
    modifies socket
    ensures socket.Valid() && socket.state == Open && socket.remote == old(socket.remote)
    ensures socket.output == old(socket.output) && socket.flushed == old(socket.flushed)
    ensures var u := ScanUpgrade(socket.replies, old(socket.cursor));
            socket.cursor == u.next && r == (if u.result.Failure? then Fail(u.result.error) else Pass)
  {
    ghost var at := socket.cursor;
    var header := socket.ReadLine();
    if header.None? {
      return Fail(EndOfStream);
    }
    assert header.value == socket.replies[at] && socket.cursor == at + 1;
    if header.value != UpgradedStatus {
      return Fail(InvalidHandshake(header.value));
    }
    r := ReadAck(socket);
  }

  /**
   * Skips the headers up to the empty line, then reads the line the
   * command echoed, which must trim to "ok".
   */
  method ReadAck(socket: Socket) returns (r: Outcome<Error>)
    requires socket.Valid() && socket.state == Open
    modifies socket
    ensures socket.Valid() && socket.state == Open && socket.remote == old(socket.remote)
    ensures socket.output == old(socket.output) && socket.flushed == old(socket.flushed)
    ensures var a := ScanAck(socket.replies, old(socket.cursor));
            socket.cursor == a.next && r == (if a.result.Failure? then Fail(a.result.error) else Pass)
  {
    var found := ReadToBlankLine(socket);
    if !found {
      return Fail(EndOfStream);
    }
    r := ReadAckLine(socket);
  }

  /** Reads the acknowledgment line itself; it must trim to "ok". */
  method ReadAckLine(socket: Socket) returns (r: Outcome<Error>)
    requires socket.Valid() && socket.state == Open
    modifies socket
    ensures socket.Valid() && socket.state == Open && socket.remote == old(socket.remote)
    ensures socket.output == old(socket.output) && socket.flushed == old(socket.flushed)
    ensures var a := ScanAckLine(socket.replies, old(socket.cursor));
            socket.cursor == a.next && r == (if a.result.Failure? then Fail(a.result.error) else Pass)
  {
    var ack := socket.ReadLine();
    if ack.None? {
      return Fail(EndOfStream);
    }
    if Trim(ack.value) != Ack {
      return Fail(UnexpectedAck(ack.value));
    }
    r := Pass;
  }

  /** The uploader: where to send the requests, what to run, and the exec id once known. */
  class FileUpload {
    const host: string
    const path: string
    const containerId: string
    const filename: string
    const socket: Socket
    var execId: Option<string>

    /** Reads host and path from the address; the path becomes the request prefix. */
    constructor(uri: Uri, containerId: string, filename: string, socket: Socket)
      ensures host == uri.host && path == RequestPath(uri.path, uri.query)
      ensures this.containerId == containerId && this.filename == filename && this.socket == socket
      ensures execId.None?
    {
      host := uri.host;
      path := RequestPath(uri.path, uri.query);
      this.containerId := containerId;
      this.filename := filename;
      this.socket := socket;
      execId := None;
    }

    /**
     * execCreate: sends the exec create request, then reads the status
     * line and the lines up to the first one holding "Id":. The exec id is
     * set only when that line's first token mentions Id; the step fails when
     * no exec id is known afterwards.
     */
    method ExecCreate() returns (r: Outcome<Error>)
      requires socket.Valid() && socket.state == Open
      modifies this, socket
      ensures socket.Valid() && socket.state == Open && socket.remote == old(socket.remote)
      ensures var c := ScanCreate(socket.replies, old(socket.cursor));
              && socket.output == old(socket.output) + CreateBytes(path, host, containerId, filename)
              && socket.flushed == |socket.output|
              && socket.cursor == c.next
              && execId == (if c.result.Success? && c.result.value.Some? then c.result.value else old(execId))
              && r == (if c.result.Failure? then Fail(c.result.error)
                       else if execId.None? then Fail(ExecCreateFailed)
                       else Pass)
    {
      Send(socket, CreateBytes(path, host, containerId, filename));
      var id := ReadCreateResponse(socket);
      if id.Failure? {
        return Fail(id.error);
      }
      if id.value.Some? {
        execId := id.value;
      }
      if execId.None? {
        return Fail(ExecCreateFailed);
      }
      r := Pass;
    }

    /**
     * execStartAndUpgrade: sends the exec start request for the current
     * exec id, then checks the 101 status line, skips the headers up to the
     * empty line, and checks that the next line trims to "ok".
     */
    method ExecStartAndUpgrade() returns (r: Outcome<Error>)
      requires socket.Valid() && socket.state == Open
      modifies socket
      ensures socket.Valid() && socket.state == Open && socket.remote == old(socket.remote)
      ensures var u := ScanUpgrade(socket.replies, old(socket.cursor));
              && socket.output == old(socket.output) + StartBytes(path, host, execId)
              && socket.flushed == |socket.output|
              && socket.cursor == u.next
              && r == (if u.result.Failure? then Fail(u.result.error) else Pass)
    {
      Send(socket, StartBytes(path, host, execId));
      r := ReadUpgradeResponse(socket);
    }

    method Close()
      requires socket.Valid()
      modifies socket
      ensures socket.Valid() && socket.state == Closed && socket.remote == old(socket.remote)
      ensures socket.cursor == old(socket.cursor) && socket.output == old(socket.output)
      ensures socket.flushed == old(socket.flushed)
    {
      socket.Close();
    }
  }

  /**
   * The stream handed to the caller once the handshake succeeded: every
   * write goes straight to the socket's output stream; closing flushes it
   * and closes the uploader's socket.
   */
  class UploadStream {
    const os: Socket
    const upload: FileUpload

    predicate Valid()
      reads this
    {
      os == upload.socket
    }

    constructor(upload: FileUpload)
      ensures this.upload == upload && os == upload.socket && Valid()
    {
      this.upload := upload;
      os := upload.socket;
    }

    /** write(int): only the low eight bits of `b` are written. */
    method WriteByte(b: int) returns (r: Outcome<Error>)
      requires Valid() && os.Valid()
      modifies os
      ensures os.Valid() && os.state == old(os.state) && os.cursor == old(os.cursor)
      ensures os.flushed == old(os.flushed) && os.remote == old(os.remote)
      ensures old(os.state) == Open ==> r == Pass && os.output == old(os.output) + [(b % 256) as byte]
      ensures old(os.state) != Open ==> r == Fail(SocketClosed) && os.output == old(os.output)
    {
      r := os.Write([(b % 256) as byte]);
    }

    /** write(byte[]): the whole array. */
    method Write(b: seq<byte>) returns (r: Outcome<Error>)
      requires Valid() && os.Valid()
      modifies os
      ensures os.Valid() && os.state == old(os.state) && os.cursor == old(os.cursor)
      ensures os.flushed == old(os.flushed) && os.remote == old(os.remote)
      ensures old(os.state) == Open ==> r == Pass && os.output == old(os.output) + b
      ensures old(os.state) != Open ==> r == Fail(SocketClosed) && os.output == old(os.output)
    {
      r := os.Write(b);
    }

    /** write(byte[], off, len): `len` bytes from `off`, refused when the range leaves `b`. */
    method WriteRange(b: seq<byte>, off: int, len: int) returns (r: Outcome<Error>)
      requires Valid() && os.Valid()
      modifies os
      ensures os.Valid() && os.state == old(os.state) && os.cursor == old(os.cursor)
      ensures os.flushed == old(os.flushed) && os.remote == old(os.remote)
      ensures !(0 <= off && 0 <= len && off + len <= |b|) ==> r == Fail(IndexOutOfBounds) && os.output == old(os.output)
      ensures 0 <= off && 0 <= len && off + len <= |b| ==>
                if old(os.state) == Open then r == Pass && os.output == old(os.output) + b[off..off + len]
                else r == Fail(SocketClosed) && os.output == old(os.output)
    {
      if off < 0 || len < 0 || off + len > |b| {
        return Fail(IndexOutOfBounds);
      }
      r := os.Write(b[off..off + len]);
    }

    /** close(): flush, then close the connection. */
    method Close()
      requires Valid() && os.Valid()
      modifies os
      ensures os.Valid() && os.state == Closed && os.output == old(os.output)
      ensures os.cursor == old(os.cursor) && os.remote == old(os.remote)
      ensures old(os.state) == Open ==> os.flushed == |os.output|
      ensures old(os.state) != Open ==> os.flushed == old(os.flushed)
    {
      os.Flush();
      upload.Close();
    }
  }

  /**
   * uploadFile: opens the connection, runs exec create and exec start, and
   * on success hands back the stream into the file. The outcome, the bytes
   * sent and the lines read are those of `Handshake`; after any failure
   * past the connection the socket is closed, after success it stays open.
   */
  method UploadFile(uri: Uri, containerId: string, filename: string, socket: Socket)
      returns (r: Result<UploadStream, Error>)
    requires socket.Valid() && socket.state == Unconnected
    modifies socket
    ensures socket.Valid()
    ensures SelectTransport(uri).Failure? ==> r == Failure(UnsupportedScheme) && socket.state == Unconnected
    ensures SelectTransport(uri).Success? && !socket.accepts ==>
              r == Failure(SocketCreateFailed) && socket.state == Unconnected
    ensures SelectTransport(uri).Success? && socket.accepts ==>
              var run := Handshake(RequestPath(uri.path, uri.query), uri.host, containerId, filename, socket.replies);
              && socket.remote == Some(SelectTransport(uri).value)
              && socket.output == run.sent
              && socket.cursor == run.next
              && (r.Success? <==> run.result.Success?)
              && (r.Failure? ==> r.error == run.result.error && socket.state == Closed)
              && (r.Success? ==> socket.state == Open && socket.flushed == |socket.output|
                                 && r.value.Valid() && r.value.os == socket
                                 && r.value.upload.execId == Some(run.result.value))
  {
    var created := CreateSocket(uri, socket);
    if created.Fail? {
      return Failure(created.error);
    }
    var upload := new FileUpload(uri, containerId, filename, socket);
    ghost var lines := socket.replies;
    ghost var c := ScanCreate(lines, 0);
    ghost var run := Handshake(upload.path, upload.host, containerId, filename, lines);
    var needToClose := true;
    var step := upload.ExecCreate();
    assert socket.output == CreateBytes(upload.path, upload.host, containerId, filename);
    if step.Pass? {
      assert c.result == Success(upload.execId);
      step := upload.ExecStartAndUpgrade();
      assert socket.output == run.sent && socket.cursor == run.next;
    } else {
      assert run.result == Failure(step.error);
    }
    if step.Pass? {
      var os := new UploadStream(upload);
      r := Success(os);
      needToClose := false;
    } else {
      r := Failure(step.error);
    }
    if needToClose {
      upload.Close();
    }
  }
}
