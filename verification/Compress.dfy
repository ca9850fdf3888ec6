/**
 * The compressing response writer: initWriter, WriteHeader, Write and Close, over a
 * response writer that records what it is sent. Content codings are those of section
 * 8.4 of RFC 9110.
 */
module Compress {
  import opened Wrappers

  type Headers = map<string, seq<string>>

  function Header(h: Headers, key: string): string {
    if key in h && h[key] != [] then h[key][0] else ""
  }

  function Added(h: Headers, key: string, value: string): Headers {
    h[key := (if key in h then h[key] else []) + [value]]
  }

  /** A status line with the headers as they are at that moment. */
  datatype Sent = Sent(status: int, headers: Headers)

  /** The compressors: what a coding makes of a whole body, and its inverse. */
  datatype Coding = Coding(encode: (string, Bytes) -> Bytes, decode: (string, Bytes) -> Bytes)

  predicate Supported(encoding: string) {
    encoding == "zstd" || encoding == "gzip"
  }

  ghost predicate Lossless(c: Coding) {
    forall encoding, b | Supported(encoding) :: c.decode(encoding, c.encode(encoding, b)) == b
  }

  datatype Compressor = Compressor(encoding: string, input: Bytes)

  /** The writer together with the response writer under it. */
  datatype State = State(
    headers: Headers, sent: seq<Sent>, body: Bytes,
    encoding: string, writer: Option<Compressor>, wroteHeader: bool)

  function NewState(encoding: string, headers: Headers): State {
    State(headers, [], [], encoding, None, false)
  }

  // ----- specification of the methods -----

  /** No body to compress, or the handler encoded it itself. */
  predicate PassThrough(status: int, h: Headers) {
    status == 204 || status == 304 || Header(h, "Content-Encoding") != ""
  }

  function Marked(h: Headers, encoding: string): Headers {
    Added(h["Content-Encoding" := [encoding]] - {"Content-Length"}, "Vary", "Accept-Encoding")
  }

  function AfterWriteHeader(s: State, status: int): State {
    if s.wroteHeader then s
    else if PassThrough(status, s.headers) then
      s.(wroteHeader := true, encoding := "", sent := s.sent + [Sent(status, s.headers)])
    else if s.encoding != "" then
      var h := Marked(s.headers, s.encoding);
      s.(wroteHeader := true, headers := h, sent := s.sent + [Sent(status, h)],
         writer := if Supported(s.encoding) then Some(Compressor(s.encoding, [])) else s.writer)
    else s.(wroteHeader := true, sent := s.sent + [Sent(status, s.headers)])
  }

  function AfterWrite(s: State, b: Bytes): State {
    var t := AfterWriteHeader(s, 200);
    if t.writer.Some? then t.(writer := Some(t.writer.value.(input := t.writer.value.input + b)))
    else t.(body := t.body + b)
  }

  function AfterClose(c: Coding, s: State): State {
    if s.writer.Some? then s.(body := s.body + c.encode(s.writer.value.encoding, s.writer.value.input)) else s
  }

  class CompressResponseWriter {
    var headers: Headers
    var sent: seq<Sent>
    var body: Bytes
    var encoding: string
    var writer: Option<Compressor>
    var wroteHeader: bool

    ghost function Now(): State
      reads this
    {
      State(headers, sent, body, encoding, writer, wroteHeader)
    }

    constructor (encoding: string, headers: Headers)
      ensures Now() == NewState(encoding, headers)
    {
      this.headers, this.encoding := headers, encoding;
      sent, body, writer, wroteHeader := [], [], None, false;
    }

    method InitWriter()
      modifies this`writer, this`headers
      ensures headers == Marked(old(headers), encoding)
      ensures writer == if Supported(encoding) then Some(Compressor(encoding, [])) else old(writer)
    {
      if encoding == "zstd" {
        writer := Some(Compressor("zstd", []));
      } else if encoding == "gzip" {
        writer := Some(Compressor("gzip", []));
      }
      headers := headers["Content-Encoding" := [encoding]];
      headers := headers - {"Content-Length"};
      headers := Added(headers, "Vary", "Accept-Encoding");
    }

    method WriteHeader(status: int)
      modifies this
      ensures Now() == AfterWriteHeader(old(Now()), status)
    {
      if wroteHeader { return; }
      wroteHeader := true;
      if status == 204 || status == 304 || Header(headers, "Content-Encoding") != "" {
        encoding := "";
        sent := sent + [Sent(status, headers)];
        return;
      }
      if encoding != "" { InitWriter(); }
      sent := sent + [Sent(status, headers)];
    }

    method Write(b: Bytes)
      modifies this
      ensures Now() == AfterWrite(old(Now()), b)
    {
      if !wroteHeader { WriteHeader(200); }
      if writer.Some? {
        writer := Some(Compressor(writer.value.encoding, writer.value.input + b));
      } else {
        body := body + b;
      }
    }

    method Close(c: Coding)
      modifies this`body
      ensures Now() == AfterClose(c, old(Now()))
    {
      if writer.Some? { body := body + c.encode(writer.value.encoding, writer.value.input); }
    }
  }

  // ----- whole responses -----

  /** What a handler may do: put any headers in place, send a status, write. */
  datatype Op = Edit(headers: Headers) | SendStatus(status: int) | Send(bytes: Bytes)

  function Apply(s: State, op: Op): State {
    match op
    case Edit(h) => s.(headers := h)
    case SendStatus(status) => AfterWriteHeader(s, status)
    case Send(b) => AfterWrite(s, b)
  }

  function Run(s: State, ops: seq<Op>): State {
    if ops == [] then s else Apply(Run(s, ops[..|ops| - 1]), ops[|ops| - 1])
  }

  /** All that the handler wrote. */
  function Written(ops: seq<Op>): Bytes {
    if ops == [] then []
    else Written(ops[..|ops| - 1]) + if ops[|ops| - 1].Send? then ops[|ops| - 1].bytes else []
  }

  /** The headers the handler has put in place, as long as nothing was sent. */
  function HeadersPut(start: Headers, ops: seq<Op>): Headers {
    if ops == [] then start
    else if ops[|ops| - 1].Edit? then ops[|ops| - 1].headers
    else HeadersPut(start, ops[..|ops| - 1])
  }

  /** The first status sent, or 200 if a write comes first, with the handler's headers then. */
  function FirstSent(start: Headers, ops: seq<Op>): Option<Sent> {
    if ops == [] then None
    else
      var before := FirstSent(start, ops[..|ops| - 1]);
      if before.Some? then before
      else match ops[|ops| - 1]
        case Edit(_) => None
        case SendStatus(status) => Some(Sent(status, HeadersPut(start, ops[..|ops| - 1])))
        case Send(_) => Some(Sent(200, HeadersPut(start, ops[..|ops| - 1])))
  }

  lemma {:induction false} RunState(encoding: string, start: Headers, ops: seq<Op>)
    requires Supported(encoding)
    ensures var s := Run(NewState(encoding, start), ops);
      match FirstSent(start, ops)
      case None =>
        s == NewState(encoding, HeadersPut(start, ops)) && Written(ops) == []
      case Some(Sent(status, h)) =>
        && s.wroteHeader
        && (PassThrough(status, h) ==>
              s.sent == [Sent(status, h)] && s.body == Written(ops) && s.writer.None?)
        && (!PassThrough(status, h) ==>
              s.sent == [Sent(status, Marked(h, encoding))] && s.body == []
              && s.writer == Some(Compressor(encoding, Written(ops))))
  {
    if ops != [] {
      var init := ops[..|ops| - 1];
      RunState(encoding, start, init);
      assert Written(init) + [] == Written(init);
    }
  }

  /** A response that is not to be compressed: it has no body, or the handler has encoded it itself. */
  predicate AsWritten(status: int, h: Headers) {
    || status == 204 || status == 304
    || ("Content-Encoding" in h && |h["Content-Encoding"]| > 0 && h["Content-Encoding"][0] != "")
  }

  lemma PassThroughExactly(status: int, h: Headers)
    ensures PassThrough(status, h) <==> AsWritten(status, h)
  {
  }

  /** The headers of a compressed response: marked as such, and otherwise those of the handler. */
  ghost predicate CompressedHeaders(m: Headers, h: Headers, encoding: string) {
    && Get(m, "Content-Encoding") == Some([encoding])
    && Get(m, "Content-Length") == None
    && Get(m, "Vary") == Some((if "Vary" in h then h["Vary"] else []) + ["Accept-Encoding"])
    && forall k | k != "Content-Encoding" && k != "Content-Length" && k != "Vary" :: Get(m, k) == Get(h, k)
  }

  lemma MarkedHeaders(h: Headers, encoding: string)
    ensures CompressedHeaders(Marked(h, encoding), h, encoding)
  {
    assert "Content-Encoding" != "Vary" by { assert "Content-Encoding"[0] == 'C' && "Vary"[0] == 'V'; }
    assert "Content-Length" != "Vary" by { assert "Content-Length"[0] == 'C' && "Vary"[0] == 'V'; }
    assert "Content-Encoding" != "Content-Length" by { assert |"Content-Encoding"| != |"Content-Length"|; }
  }

  /**
   * For every sequence of header edits, statuses and writes, with either coding: at most one
   * status goes out, the first; and the bytes on the wire, read as the Content-Encoding sent
   * with it says, are all that was written. A response that has no body, or that the handler
   * has encoded itself, goes out as written, with the handler's headers.
   */
  lemma CompressionTransparent(c: Coding, encoding: string, start: Headers, ops: seq<Op>)
    requires (encoding == "gzip" || encoding == "zstd") && Lossless(c)
    ensures var s, first := AfterClose(c, Run(NewState(encoding, start), ops)), FirstSent(start, ops);
      && (first.None? ==> s.sent == [] && s.body == [] == Written(ops))
      && (first.Some? ==>
           && |s.sent| == 1 && s.sent[0].status == first.value.status
           && if AsWritten(first.value.status, first.value.headers)
              then s.sent[0].headers == first.value.headers && s.body == Written(ops)
              else
                && CompressedHeaders(s.sent[0].headers, first.value.headers, encoding)
                && c.decode(encoding, s.body) == Written(ops))
  {
    RunState(encoding, start, ops);
    var first := FirstSent(start, ops);
    if first.Some? {
      PassThroughExactly(first.value.status, first.value.headers);
      MarkedHeaders(first.value.headers, encoding);
      var input := Written(ops);
      assert [] + c.encode(encoding, input) == c.encode(encoding, input);
      assert c.decode(encoding, c.encode(encoding, input)) == input;
    }
  }

  /** With no coding agreed on, everything goes out as the handler sends it. */
  lemma {:induction false} PlainRun(c: Coding, start: Headers, ops: seq<Op>)
    ensures var s := Run(NewState("", start), ops);
      && s.writer.None? && s.encoding == "" && s.body == Written(ops) && AfterClose(c, s) == s
      && (s.wroteHeader <==> FirstSent(start, ops).Some?)
      && s.sent == (if FirstSent(start, ops).Some? then [FirstSent(start, ops).value] else [])
      && (!s.wroteHeader ==> s.headers == HeadersPut(start, ops))
  {
    if ops != [] {
      PlainRun(c, start, ops[..|ops| - 1]);
      assert Written(ops[..|ops| - 1]) + [] == Written(ops[..|ops| - 1]);
    }
  }

  /** Statuses that announce another one (net/http treats 101 as final). */
  predicate Informational(status: int) {
    100 <= status <= 199 && status != 101
  }

  /**
   * The status the handler means as its answer: the first one that is not informational, or
   * 200 with the first write.
   */
  function FinalStatus(ops: seq<Op>): Option<int> {
    if ops == [] then None
    else
      var before := FinalStatus(ops[..|ops| - 1]);
      if before.Some? then before
      else match ops[|ops| - 1]
        case Edit(_) => None
        case SendStatus(status) => if Informational(status) then None else Some(status)
        case Send(_) => Some(200)
  }

  lemma {:induction false} FirstOrFinal(start: Headers, ops: seq<Op>)
    ensures match FirstSent(start, ops)
            case None => FinalStatus(ops) == None
            case Some(first) => Informational(first.status) || FinalStatus(ops) == Some(first.status)
    ensures FinalStatus(ops).Some? ==> !Informational(FinalStatus(ops).value)
  {
    if ops != [] { FirstOrFinal(start, ops[..|ops| - 1]); }
  }

  /**
   * Whatever a handler does that names a final status, or writes: that status reaches the
   * client if and only if the first status sent is not an informational one.
   */
  lemma FinalStatusSentExactly(encoding: string, start: Headers, ops: seq<Op>)
    requires Supported(encoding) && FinalStatus(ops).Some?
    ensures FirstSent(start, ops).Some?
    ensures var s := Run(NewState(encoding, start), ops);
      |s.sent| == 1 && (s.sent[0].status == FinalStatus(ops).value <==>
          !Informational(FirstSent(start, ops).value.status))
  {
    RunState(encoding, start, ops);
    FirstOrFinal(start, ops);
  }
}
