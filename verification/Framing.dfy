/** Length-prefixed frames between the shim and the guest agent. */
module Framing {
  import opened Options
  import opened Words

  const MAX_FRAME: nat := 16 * 1024 * 1024

  function Be32(n: nat): (h: seq<Byte>)
    requires n < TWO32
    ensures |h| == 4
  {
    [n / 0x100_0000, n / 0x1_0000 % 0x100, n / 0x100 % 0x100, n % 0x100]
  }

  function FromBe32(h: seq<Byte>): (n: nat)
    requires |h| == 4
    ensures n < TWO32
  {
    h[0] as nat * 0x100_0000 + h[1] as nat * 0x1_0000 + h[2] as nat * 0x100 + h[3] as nat
  }

  /** The most significant byte comes first, and the number reads back. */
  lemma Be32RoundTrip(n: nat)
    requires n < TWO32
    ensures var h := Be32(n); n == ((h[0] as nat * 256 + h[1] as nat) * 256 + h[2] as nat) * 256 + h[3] as nat
    ensures FromBe32(Be32(n)) == n
  {
    var a, b := n / 0x100, n / 0x1_0000;
    assert b == a / 0x100 && n / 0x100_0000 == b / 0x100;
    assert n == a * 0x100 + n % 0x100 && a == b * 0x100 + a % 0x100;
  }

  /** WriteEnvelope's bytes: the length, truncated to 32 bits, then the body. */
  function FrameOf(body: seq<Byte>): seq<Byte> {
    Be32(|body| % TWO32) + body
  }

  datatype Read = Got(body: seq<Byte>, rest: seq<Byte>) | Short | BadSize

  /** ReadEnvelope up to decoding. */
  function ReadFrame(stream: seq<Byte>): Read {
    if |stream| < 4 then Short
    else
      var n := FromBe32(stream[..4]);
      if n == 0 || n > MAX_FRAME then BadSize
      else if |stream| - 4 < n then Short
      else Got(stream[4..4 + n], stream[4 + n..])
  }

  predicate Sendable(body: seq<Byte>) { 1 <= |body| <= MAX_FRAME }

  /** A frame is read back, and the rest of the stream left alone, exactly when
      its body has between one byte and 16 MiB. */
  lemma FrameRoundTripExactly(body: seq<Byte>, rest: seq<Byte>)
    ensures ReadFrame(FrameOf(body) + rest) == Got(body, rest) <==> 1 <= |body| <= 0x100_0000
  {
    var stream := FrameOf(body) + rest;
    var n := |body| % TWO32;
    Be32RoundTrip(n);
    assert stream[..4] == Be32(n);
    if Sendable(body) {
      assert stream[4..4 + n] == body && stream[4 + n..] == rest;
    } else if |body| > MAX_FRAME && n != 0 && n <= MAX_FRAME {
      assert |stream[4..4 + n]| == n != |body|;
    }
  }

  /** Encoding and decoding an envelope, a lossless codec. */
  ghost predicate Codec<E(!new)>(encode: E -> seq<Byte>, decode: seq<Byte> -> Option<E>) {
    forall e :: decode(encode(e)) == Some(e)
  }

  /** No proper prefix of an encoding decodes, as for JSON objects. */
  ghost predicate SelfDelimiting<E(!new)>(encode: E -> seq<Byte>, decode: seq<Byte> -> Option<E>) {
    forall e, n: nat :: n < |encode(e)| ==> decode(encode(e)[..n]) == None
  }

  /** ReadEnvelope. */
  function ReadOne<E>(decode: seq<Byte> -> Option<E>, stream: seq<Byte>): Option<E> {
    match ReadFrame(stream)
    case Got(body, _) => decode(body)
    case _ => None
  }

  /** What is read of a frame that is too long or empty is cut short. */
  lemma BadFrame(body: seq<Byte>, rest: seq<Byte>)
    requires !Sendable(body)
    ensures var r := ReadFrame(FrameOf(body) + rest); r.Got? ==> |r.body| < |body| && r.body == body[..|r.body|]
  {
    var stream := FrameOf(body) + rest;
    var n := |body| % TWO32;
    Be32RoundTrip(n);
    assert stream[..4] == Be32(n);
    if 0 < n <= MAX_FRAME { assert stream[4..4 + n] == body[..n]; }
  }

  /** An envelope arrives exactly when its text fits a frame. */
  lemma ArrivesExactly<E(!new)>(encode: E -> seq<Byte>, decode: seq<Byte> -> Option<E>, e: E, rest: seq<Byte>)
    requires Codec(encode, decode) && SelfDelimiting(encode, decode)
    ensures ReadOne(decode, FrameOf(encode(e)) + rest) == if Sendable(encode(e)) then Some(e) else None
  {
    FrameRoundTripExactly(encode(e), rest);
    if !Sendable(encode(e)) { BadFrame(encode(e), rest); }
  }

  /** WriteEnvelope, once for every envelope. */
  function WriteEnvelopes<E>(encode: E -> seq<Byte>, es: seq<E>): seq<Byte> {
    if es == [] then [] else FrameOf(encode(es[0])) + WriteEnvelopes(encode, es[1..])
  }

  /** ReadEnvelope, until the first failure. */
  function ReadEnvelopes<E>(decode: seq<Byte> -> Option<E>, stream: seq<Byte>): seq<E>
    decreases |stream|
  {
    match ReadFrame(stream)
    case Got(body, rest) =>
      (match decode(body)
       case Some(e) => [e] + ReadEnvelopes(decode, rest)
       case None => [])
    case _ => []
  }

  /** The envelopes before the first that does not fit. */
  function Leading<E>(encode: E -> seq<Byte>, es: seq<E>): seq<E> {
    if es == [] || !Sendable(encode(es[0])) then [] else [es[0]] + Leading(encode, es[1..])
  }

  /** Envelopes are read back in order, up to the first that does not fit a frame. */
  lemma {:induction false} EnvelopesInOrder<E(!new)>(encode: E -> seq<Byte>, decode: seq<Byte> -> Option<E>, es: seq<E>)
    requires Codec(encode, decode) && SelfDelimiting(encode, decode)
    ensures ReadEnvelopes(decode, WriteEnvelopes(encode, es)) == Leading(encode, es)
    ensures Leading(encode, es) == es <==> forall e :: e in es ==> Sendable(encode(e))
  {
    if es != [] {
      var rest := WriteEnvelopes(encode, es[1..]);
      FrameRoundTripExactly(encode(es[0]), rest);
      if Sendable(encode(es[0])) {
        EnvelopesInOrder(encode, decode, es[1..]);
        assert es == [es[0]] + es[1..];
      } else {
        BadFrame(encode(es[0]), rest);
        assert es[0] in es;
      }
    }
  }
}
