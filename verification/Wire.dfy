/** Rootfs requests and replies on the wire.

    JSON is a lossless codec of which only lengths matter: a request's text has
    fixed parts, its number, its escaped container ID and its data in base64. */
module Wire {
  import opened Options
  import opened Words
  import opened Strings
  import opened Framing

  const CHUNK: nat := 256 * 1024

  /** The JSON text of a data-chunk request, from its request number, its
      escaped container ID and its base64 data. */
  function ChunkText(id: string, container: string, data: string): string {
    "{\"id\":\"" + id + "\",\"method\":\"Rootfs\",\"ok\":false,\"payload\":{\"containerID\":\"" + container
    + "\",\"data\":\"" + data + "\",\"eof\":false}}"
  }

  /** The JSON text of the end-of-file request. */
  function EofText(id: string, container: string): string {
    "{\"id\":\"" + id + "\",\"method\":\"Rootfs\",\"ok\":false,\"payload\":{\"containerID\":\"" + container
    + "\",\"data\":null,\"eof\":true}}"
  }

  /** The JSON text of the agent's answer to a request that succeeded. */
  function OkText(id: string): string {
    "{\"id\":\"" + id + "\",\"method\":\"Rootfs\",\"ok\":true}"
  }

  /** The length of `n` bytes in base64. */
  function Base64Length(n: nat): nat { (n + 2) / 3 * 4 }

  /** Room for the escaped container ID beside a full chunk and a 20-digit
      request number. */
  const MAX_ESCAPED_ID: nat := MAX_FRAME - 349528 - 20 - 89

  // ---------------------------------------------------------------- requests and replies

  datatype Message = Message(container: string, data: seq<Byte>, eof: bool)

  datatype Request = Request(number: Uint64, message: Message)

  datatype Reply = Reply(number: Uint64, ok: bool, error: string)

  datatype Format = Format(
    escape: string -> string,
    encode: Request -> seq<Byte>,
    decode: seq<Byte> -> Option<Request>,
    encodeReply: Reply -> seq<Byte>,
    decodeReply: seq<Byte> -> Option<Reply>)

  /** The length of a request's text; empty data is `null`, and `false` is one
      character longer than `true`. */
  function RequestLength(f: Format, r: Request): nat {
    var id, container := Itoa(r.number), f.escape(r.message.container);
    if r.message.data == [] then |EofText(id, container)| + (if r.message.eof then 0 else 1)
    else |ChunkText(id, container, "")| + Base64Length(|r.message.data|) - (if r.message.eof then 1 else 0)
  }

  ghost predicate Lossless(f: Format) {
    && Codec(f.encode, f.decode) && SelfDelimiting(f.encode, f.decode)
    && Codec(f.encodeReply, f.decodeReply) && SelfDelimiting(f.encodeReply, f.decodeReply)
  }

  /** Requests can be read back, and answers to requests that succeed arrive. */
  ghost predicate Reliable(f: Format) {
    Lossless(f) && forall n: Uint64 :: Sendable(f.encodeReply(Reply(n, true, "")))
  }

  ghost predicate Json(f: Format) {
    && Lossless(f)
    && (forall r :: |f.encode(r)| == RequestLength(f, r))
    && (forall n: Uint64 :: |f.encodeReply(Reply(n, true, ""))| == |OkText(Itoa(n))|)
  }

  /** The request's text fits a frame. */
  predicate Fits(f: Format, r: Request) { Sendable(f.encode(r)) }

  lemma {:induction false} TwentyDigits(n: Uint64)
    ensures |Itoa(n)| <= 20
    ensures n >= 10_000_000_000_000_000_000 ==> |Itoa(n)| == 20
  {
    assert Pow10(5) == 100_000;
    assert Pow10(10) == 10_000_000_000;
    assert Pow10(15) == 1_000_000_000_000_000;
    assert Pow10(19) == 10_000_000_000_000_000_000;
    ItoaLength(n, 20);
  }

  /** Requests as PutRootfs makes them fit when the escaped ID is within bounds. */
  lemma MessageFits(f: Format, r: Request)
    requires Json(f) && |f.escape(r.message.container)| <= MAX_ESCAPED_ID
    requires |r.message.data| <= CHUNK && (r.message.eof <==> r.message.data == [])
    ensures Fits(f, r)
  {
    TwentyDigits(r.number);
    var id, container := Itoa(r.number), f.escape(r.message.container);
    assert |f.encode(r)| == RequestLength(f, r);
    assert |ChunkText(id, container, "")| == 89 + |id| + |container|;
    assert Base64Length(|r.message.data|) <= 349528;
  }

  /** The length of a full data request with a 20-digit number. */
  lemma FullChunkLength(f: Format, r: Request)
    requires Json(f) && |r.message.data| == CHUNK && !r.message.eof && |Itoa(r.number)| == 20
    ensures Fits(f, r) <==> |f.escape(r.message.container)| <= MAX_ESCAPED_ID
  {
    var id, container := Itoa(r.number), f.escape(r.message.container);
    assert |f.encode(r)| == RequestLength(f, r);
    assert |ChunkText(id, container, "")| == 89 + |id| + |container|;
  }

  /** The answer to a request that succeeds is short, so it always arrives. */
  lemma JsonIsReliable(f: Format)
    requires Json(f)
    ensures Reliable(f)
  {
    forall n: Uint64 ensures Sendable(f.encodeReply(Reply(n, true, ""))) {
      TwentyDigits(n);
      assert |f.encodeReply(Reply(n, true, ""))| == |OkText(Itoa(n))|;
    }
  }

  // ---------------------------------------------------------------- runs of requests

  /** The number of the `i`-th request after `n`; numbers wrap. */
  function NumberAfter(n: Uint64, i: nat): Uint64 {
    if i == 0 then n else AddUint64(NumberAfter(n, i - 1), 1)
  }

  function RequestAt(n: Uint64, ms: seq<Message>, i: nat): Request
    requires i < |ms|
  {
    Request(NumberAfter(n, i + 1), ms[i])
  }

  /** Every message fits a frame when they are sent one after the other. */
  ghost predicate AllFit(f: Format, n: Uint64, ms: seq<Message>) {
    forall i :: 0 <= i < |ms| ==> Fits(f, RequestAt(n, ms, i))
  }

  /** The requests that carry the messages. */
  function Requests(n: Uint64, ms: seq<Message>): seq<Request> {
    seq(|ms|, i requires 0 <= i < |ms| => RequestAt(n, ms, i))
  }

  /** A stream of requests is read back whole exactly when every one fits. */
  lemma RequestsArriveExactly(f: Format, n: Uint64, ms: seq<Message>)
    requires Lossless(f)
    ensures ReadEnvelopes(f.decode, WriteEnvelopes(f.encode, Requests(n, ms))) == Requests(n, ms) <==> AllFit(f, n, ms)
  {
    var rs := Requests(n, ms);
    EnvelopesInOrder(f.encode, f.decode, rs);
    if AllFit(f, n, ms) {
      forall r | r in rs ensures Sendable(f.encode(r)) {
        var i :| 0 <= i < |rs| && rs[i] == r;
        assert Fits(f, RequestAt(n, ms, i));
      }
    } else {
      var i :| 0 <= i < |ms| && !Fits(f, RequestAt(n, ms, i));
      assert rs[i] in rs;
    }
  }
}
