/**
 * The hand-rolled HTTP/1.1 request text the uploader writes to the socket:
 * a request line, header lines, each ended by CR LF, an empty line, then
 * the body. `Parse` is the reading side, used to state that the layout can
 * be taken apart again into exactly the parts it was built from.
 */
module Http {
  import opened Wrappers
  import opened Text

  const CRLF: string := "\r\n"

  datatype Request = Request(line: string, headers: seq<string>, body: string)

  /** Every header followed by its CR LF. */
  function HeaderBlock(headers: seq<string>): string
    decreases |headers|
  {
    if headers == [] then [] else headers[0] + CRLF + HeaderBlock(headers[1..])
  }

  /** The text of a request, in the order the StringBuffer appends build it. */
  function Render(r: Request): string
  {
    r.line + CRLF + HeaderBlock(r.headers) + CRLF + r.body
  }

  /** A line that can be framed: not empty, and without a carriage return. */
  predicate IsLine(s: string)
  {
    s != [] && '\r' !in s
  }

  predicate WellFormed(r: Request)
  {
    IsLine(r.line) && forall i :: 0 <= i < |r.headers| ==> IsLine(r.headers[i])
  }

  /** Splits `s` at its first CR, which must be followed by LF. */
  function SplitLine(s: string): (r: Option<(string, string)>)
    ensures r.Some? ==> s == r.value.0 + CRLF + r.value.1 && '\r' !in r.value.0
    ensures r.None? ==> forall l, rest :: '\r' !in l ==> s != l + CRLF + rest
  {
    var i := IndexOf(s, '\r', 0);
    if i + 1 < |s| && s[i + 1] == '\n' then
      assert s == s[..i] + CRLF + s[i + 2..];
      assert forall j :: 0 <= j < |s[..i]| ==> s[..i][j] != '\r';
      Some((s[..i], s[i + 2..]))
    else
      assert forall l, rest :: '\r' !in l && s == l + CRLF + rest ==> s[|l|] == '\r' && s[|l| + 1] == '\n';
      None
  }

  /** Reads lines up to and including the first empty one; returns them and what follows. */
  function ReadHead(s: string): Option<(seq<string>, string)>
    decreases |s|
  {
    match SplitLine(s)
    case None => None
    case Some((line, rest)) =>
      if line == [] then Some(([], rest))
      else
        match ReadHead(rest)
        case None => None
        case Some((lines, body)) => Some(([line] + lines, body))
  }

  /** Takes request text apart into request line, headers and body. */
  function Parse(s: string): Option<Request>
  {
    match ReadHead(s)
    case None => None
    case Some((lines, body)) => if lines == [] then None else Some(Request(lines[0], lines[1..], body))
  }

  lemma SplitLineOf(line: string, rest: string)
    requires '\r' !in line
    ensures SplitLine(line + CRLF + rest) == Some((line, rest))
  {
    var s := line + CRLF + rest;
    assert s[|line|] == '\r' && s[|line| + 1] == '\n';
    assert forall j :: 0 <= j < |line| ==> s[j] == line[j];
    assert IndexOf(s, '\r', 0) == |line|;
    assert s[..|line|] == line && s[|line| + 2..] == rest;
  }

  lemma {:induction false} ReadHeadOf(headers: seq<string>, body: string)
    requires forall i :: 0 <= i < |headers| ==> IsLine(headers[i])
    ensures ReadHead(HeaderBlock(headers) + CRLF + body) == Some((headers, body))
    decreases |headers|
  {
    if headers == [] {
      assert HeaderBlock(headers) + CRLF + body == [] + CRLF + body;
      SplitLineOf([], body);
    } else {
      var h := headers[0];
      var tail := HeaderBlock(headers[1..]) + CRLF + body;
      assert HeaderBlock(headers) + CRLF + body == h + CRLF + tail;
      SplitLineOf(h, tail);
      ReadHeadOf(headers[1..], body);
      assert [h] + headers[1..] == headers;
    }
  }

  /** Rendering loses nothing: a well-formed request parses back to itself. */
  lemma ParseRender(r: Request)
    requires WellFormed(r)
    ensures Parse(Render(r)) == Some(r)
  {
    var tail := HeaderBlock(r.headers) + CRLF + r.body;
    assert Render(r) == r.line + CRLF + tail;
    SplitLineOf(r.line, tail);
    ReadHeadOf(r.headers, r.body);
  }

  // ---------------------------------------------------------------------
  // Content-Length
  // ---------------------------------------------------------------------

  const ContentLengthName: string := "Content-Length: "

  /** The Content-Length header as written: the decimal text of String.length(). */
  function ContentLengthHeader(body: string): (h: string)
    ensures ContentLengthName <= h && |ContentLengthName| < |h|
    ensures AllDigits(h[|ContentLengthName|..])
    ensures |h| > |ContentLengthName| + 1 ==> h[|ContentLengthName|] != '0'
  {
    ContentLengthName + Decimal(Utf16Length(body))
  }

  /** The length a receiver reads from the first Content-Length header, if any. */
  function DeclaredLength(headers: seq<string>): Option<nat>
    decreases |headers|
  {
    if headers == [] then None
    else if ContentLengthName <= headers[0] && AllDigits(headers[0][|ContentLengthName|..]) then
      Some(ParseDecimal(headers[0][|ContentLengthName|..]))
    else DeclaredLength(headers[1..])
  }

  /** A receiver reading the written header gets back String.length() of the body. */
  lemma ContentLengthReadsBack(body: string)
    ensures DeclaredLength([ContentLengthHeader(body)]) == Some(Utf16Length(body))
  {
    var h := ContentLengthHeader(body);
    assert h[|ContentLengthName|..] == Decimal(Utf16Length(body));
    DecimalRoundTrip(Utf16Length(body));
  }
}
