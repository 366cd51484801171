/** Shipping a root filesystem archive to the guest in chunks.

    `PutRootfs` reads the archive in 256 KiB pieces and sends each as a request;
    the agent feeds them to an unpacker through a pipe.  The unpacker may stop
    reading before the stream ends (at an end-of-archive marker or an error),
    which closes the pipe.  Requests travel in frames; an agent that cannot read
    a frame closes the connection. */
module RootfsStream {
  import opened Options
  import opened Sequences
  import opened Words
  import opened Framing
  import opened Wire

  // ---------------------------------------------------------------- chunking

  /** The pieces a stream is sent in. */
  function Split(bytes: seq<Byte>): seq<seq<Byte>> {
    if bytes == [] then []
    else if |bytes| <= CHUNK then [bytes]
    else [bytes[..CHUNK]] + Split(bytes[CHUNK..])
  }

  function Concat(pieces: seq<seq<Byte>>): seq<Byte> {
    if pieces == [] then [] else pieces[0] + Concat(pieces[1..])
  }

  /** The pieces make up the stream; all are full except possibly the last. */
  lemma {:induction false} SplitIsFaithful(bytes: seq<Byte>)
    ensures Concat(Split(bytes)) == bytes
    ensures forall i :: 0 <= i < |Split(bytes)| ==>
              0 < |Split(bytes)[i]| <= 0x4_0000 && (i + 1 < |Split(bytes)| ==> |Split(bytes)[i]| == 0x4_0000)
    decreases |bytes|
  {
    if |bytes| > CHUNK {
      SplitIsFaithful(bytes[CHUNK..]);
      assert Split(bytes)[1..] == Split(bytes[CHUNK..]);
      forall i | 0 <= i < |Split(bytes)|
        ensures 0 < |Split(bytes)[i]| <= CHUNK && (i + 1 < |Split(bytes)| ==> |Split(bytes)[i]| == CHUNK)
      {
        if i > 0 { assert Split(bytes)[i] == Split(bytes[CHUNK..])[i - 1]; }
      }
    } else if bytes != [] {
      assert Split(bytes)[1..] == [];
    }
  }

  // ---------------------------------------------------------------- the agent

  /** What an unpacker does with the stream: how many bytes it reads before it
      stops (all, if None), whether it ends without error, and with which. */
  datatype Unpacker = Unpacker(appetite: Option<nat>, succeeds: bool, error: string)

  predicate Takes(u: Unpacker, total: nat) { u.appetite.None? || total <= u.appetite.value }

  datatype Job = Job(fed: seq<Byte>, unpacker: Unpacker)

  /** What a request does to the open jobs, whether it succeeds, and the stream
      it closes, if any. */
  datatype Effect = Effect(unpackers: map<string, Job>, ok: bool, closed: Option<seq<Byte>>)

  function Handle(unpackers: map<string, Job>, m: Message, u: Unpacker): Effect {
    if m.container == "" then Effect(unpackers, false, None)
    else
      var job := if m.container in unpackers then unpackers[m.container] else Job([], u);
      var fed := job.(fed := job.fed + m.data);
      if |m.data| > 0 && !Takes(job.unpacker, |fed.fed|) then
        Effect(unpackers[m.container := job], false, None)     // the pipe is closed
      else if !m.eof then Effect(unpackers[m.container := fed], true, None)
      else Effect(unpackers - {m.container}, job.unpacker.succeeds, Some(fed.fed))
  }

  function Log(unpacked: seq<(string, seq<Byte>)>, id: string, closed: Option<seq<Byte>>): seq<(string, seq<Byte>)> {
    if closed.Some? then unpacked + [(id, closed.value)] else unpacked
  }

  class Agent {
    var unpackers: map<string, Job>
    var unpacked: seq<(string, seq<Byte>)>   // streams that were closed, with their bytes

    constructor ()
      ensures unpackers == map[] && unpacked == []
    {
      unpackers, unpacked := map[], [];
    }

    /** agent.rootfs; `u` is how a new job's unpacker will behave. */
    method Rootfs(m: Message, u: Unpacker) returns (ok: bool, error: string)
      modifies this
      ensures var e := Handle(old(unpackers), m, u);
              unpackers == e.unpackers && ok == e.ok && unpacked == Log(old(unpacked), m.container, e.closed)
      ensures ok ==> error == ""
    {
      error := "";
      if m.container == "" { return false, "containerID required"; }
      if m.container !in unpackers {
        unpackers := unpackers[m.container := Job([], u)];
      }
      var job := unpackers[m.container];
      if |m.data| > 0 {
        if !Takes(job.unpacker, |job.fed| + |m.data|) { return false, "io: read/write on closed pipe"; }
        job := job.(fed := job.fed + m.data);
        unpackers := unpackers[m.container := job];
      } else {
        assert job.fed + m.data == job.fed;
      }
      if !m.eof { return true, ""; }
      unpacked := unpacked + [(m.container, job.fed)];
      unpackers := unpackers - {m.container};
      if job.unpacker.succeeds { return true, ""; }
      return false, job.unpacker.error;
    }

    /** One turn of serve: reads a frame and answers it.  None: the frame could
        not be read, and the connection is closed. */
    method Serve(f: Format, frame: seq<Byte>, u: Unpacker) returns (reply: Option<seq<Byte>>)
      modifies this
      ensures var r := ReadOne(f.decode, frame);
              && (r.None? ==> reply == None && unpackers == old(unpackers) && unpacked == old(unpacked))
              && (r.Some? ==>
                    var e := Handle(old(unpackers), r.value.message, u);
                    && unpackers == e.unpackers
                    && unpacked == Log(old(unpacked), r.value.message.container, e.closed)
                    && exists error :: (e.ok ==> error == "") &&
                         reply == Some(FrameOf(f.encodeReply(Reply(r.value.number, e.ok, error)))))
    {
      match ReadFrame(frame) {
        case Got(body, _) =>
          var r := f.decode(body);
          if r.None? { return None; }
          var ok, error := Rootfs(r.value.message, u);
          return Some(FrameOf(f.encodeReply(Reply(r.value.number, ok, error))));
        case _ => return None;
      }
    }
  }

  // ---------------------------------------------------------------- the client

  /** A source stream: its bytes, and whether it then fails instead of ending. */
  datatype Source = Source(bytes: seq<Byte>, fails: bool)

  function DataMessages(id: string, pieces: seq<seq<Byte>>): seq<Message> {
    seq(|pieces|, i requires 0 <= i < |pieces| => Message(id, pieces[i], false))
  }

  /** A whole transfer: the pieces, then one end-of-file message. */
  function Transfer(id: string, bytes: seq<Byte>): seq<Message> {
    DataMessages(id, Split(bytes)) + [Message(id, [], true)]
  }

  lemma Snoc<T>(s: seq<T>, k: nat)
    requires k < |s|
    ensures s[..k] + [s[k]] == s[..k + 1]
  {
  }

  lemma Extend<T>(s: seq<T>, pos: nat, n: nat)
    requires pos + n <= |s|
    ensures s[..pos] + s[pos..pos + n] == s[..pos + n]
  {
  }

  lemma SnocAfter<T>(a: seq<T>, s: seq<T>, k: nat)
    requires k < |s|
    ensures a + s[..k] + [s[k]] == a + s[..k + 1]
  {
    Snoc(s, k);
  }

  /** Where the `k`-th piece starts. */
  function Boundary(k: nat): nat { if k == 0 then 0 else Boundary(k - 1) + CHUNK }

  /** The pieces from the `k`-th on. */
  lemma {:induction false} SplitAt(bytes: seq<Byte>, k: nat)
    requires Boundary(k) < |bytes|
    ensures k < |Split(bytes)| && Split(bytes)[k..] == Split(bytes[Boundary(k)..])
    decreases k
  {
    if k == 0 {
      assert bytes[0..] == bytes && Split(bytes)[0..] == Split(bytes);
    } else {
      var pos, rest := Boundary(k - 1), bytes[CHUNK..];
      SplitAt(rest, k - 1);
      assert Split(bytes)[1..] == Split(rest);
      assert Split(bytes)[1..][k - 1..] == Split(bytes)[k..];
      assert rest[pos..] == bytes[pos + CHUNK..];
    }
  }

  /** The `k`-th piece. */
  lemma {:induction false} PieceAt(bytes: seq<Byte>, k: nat, piece: seq<Byte>)
    requires Boundary(k) < |bytes|
    requires piece == bytes[Boundary(k)..if |bytes| - Boundary(k) < CHUNK then |bytes| else Boundary(k) + CHUNK]
    ensures k < |Split(bytes)| && Split(bytes)[k] == piece
    ensures k + 1 == |Split(bytes)| <==> Boundary(k) + |piece| == |bytes|
  {
    var rest := bytes[Boundary(k)..];
    SplitAt(bytes, k);
    assert if |rest| <= CHUNK then piece == rest else piece == rest[..CHUNK];
    assert Split(bytes)[k..][0] == Split(bytes)[k];
  }

  /** One more message that fits. */
  lemma FitStep(f: Format, n: Uint64, ms: seq<Message>, k: nat)
    requires k < |ms| && AllFit(f, n, ms[..k])
    ensures AllFit(f, n, ms[..k + 1]) <==> Fits(f, RequestAt(n, ms, k))
    ensures AllFit(f, n, ms) ==> Fits(f, RequestAt(n, ms, k))
  {
    assert forall i :: 0 <= i < k ==> RequestAt(n, ms[..k], i) == RequestAt(n, ms[..k + 1], i);
    assert RequestAt(n, ms[..k + 1], k) == RequestAt(n, ms, k);
    if Fits(f, RequestAt(n, ms, k)) {
      var all := ms[..k + 1];
      forall i | 0 <= i < |all| ensures Fits(f, RequestAt(n, all, i)) {
        if i < k { assert Fits(f, RequestAt(n, ms[..k], i)); }
      }
    } else {
      assert !Fits(f, RequestAt(n, ms[..k + 1], k));
    }
  }

  /** Before the `k`-th read: all messages so far fit; at the end there is none left. */
  ghost predicate Midway(f: Format, id: string, bytes: seq<Byte>, n: Uint64, k: nat, pos: nat) {
    && pos <= |bytes| && k <= |Split(bytes)| && (k == 0 <==> pos == 0)
    && (if pos < |bytes| then pos == Boundary(k) else k == |Split(bytes)|)
    && AllFit(f, n, DataMessages(id, Split(bytes))[..k])
  }

  lemma {:induction false} MidwayStep(f: Format, id: string, bytes: seq<Byte>, n: Uint64, k: nat, pos: nat,
                                      piece: seq<Byte>)
    requires Midway(f, id, bytes, n, k, pos) && pos < |bytes|
    requires piece == bytes[pos..if |bytes| - pos < CHUNK then |bytes| else pos + CHUNK]
    ensures var ms := DataMessages(id, Split(bytes));
            && k < |ms| && ms[k] == Message(id, piece, false)
            && (Fits(f, RequestAt(n, ms, k)) ==> Midway(f, id, bytes, n, k + 1, pos + |piece|))
            && (AllFit(f, n, ms) ==> Fits(f, RequestAt(n, ms, k)))
            && (k > 0 ==> Fits(f, RequestAt(n, ms, 0)))
  {
    var ms := DataMessages(id, Split(bytes));
    PieceAt(bytes, k, piece);
    FitStep(f, n, ms, k);
    if k > 0 { assert Fits(f, RequestAt(n, ms[..k], 0)); }
  }

  /** The container's job before a transfer: the open one, or a new one. */
  function StartJob(base: map<string, Job>, id: string, u: Unpacker): Job {
    if id in base then base[id] else Job([], u)
  }

  /** The jobs when the transfer has fed `fed` to the container's; it creates no
      job before its first byte. */
  function Fed(base: map<string, Job>, id: string, fed: seq<Byte>, u: Unpacker): map<string, Job> {
    var start := StartJob(base, id, u);
    if fed == [] then base else base[id := start.(fed := start.fed + fed)]
  }

  /** A job for the container is left behind; the others are untouched. */
  ghost predicate Stuck(unpackers: map<string, Job>, base: map<string, Job>, id: string) {
    id in unpackers && unpackers - {id} == base - {id}
  }

  /** What one more piece does to the container's job. */
  lemma PieceEffect(unpackers: map<string, Job>, base: map<string, Job>, id: string,
                    fed: seq<Byte>, piece: seq<Byte>, u: Unpacker)
    requires |piece| > 0 && unpackers == Fed(base, id, fed, u) && (id == "" ==> fed == [])
    ensures var e, start := Handle(unpackers, Message(id, piece, false), u), StartJob(base, id, u);
            && e.closed == None
            && e.ok == (id != "" && Takes(start.unpacker, |start.fed| + |fed| + |piece|))
            && (e.ok ==> e.unpackers == Fed(base, id, fed + piece, u))
            && (!e.ok ==> if id != "" then Stuck(e.unpackers, base, id) else e.unpackers == unpackers)
  {
    var start := StartJob(base, id, u);
    assert start.fed + [] == start.fed;
    assert start.fed + fed + piece == start.fed + (fed + piece);
  }

  /** What the end-of-file message does to it. */
  lemma EofEffect(unpackers: map<string, Job>, base: map<string, Job>, id: string, fed: seq<Byte>, u: Unpacker)
    requires unpackers == Fed(base, id, fed, u) && (id == "" ==> fed == [])
    ensures var e, start := Handle(unpackers, Message(id, [], true), u), StartJob(base, id, u);
            && e.ok == (id != "" && start.unpacker.succeeds)
            && (id != "" ==> e.unpackers == base - {id} && e.closed == Some(start.fed + fed))
            && (id == "" ==> e.unpackers == unpackers && e.closed == None)
  {
    var start := StartJob(base, id, u);
    assert start.fed + [] == start.fed && start.fed + fed + [] == start.fed + fed;
  }

  lemma FedIsStuck(unpackers: map<string, Job>, base: map<string, Job>, id: string, fed: seq<Byte>, u: Unpacker)
    requires unpackers == Fed(base, id, fed, u) && fed != []
    ensures Stuck(unpackers, base, id)
  {
  }

  /** A transfer fits when its data and its last message do. */
  lemma {:induction false} TransferFit(f: Format, n: Uint64, id: string, bytes: seq<Byte>)
    ensures var data, k := DataMessages(id, Split(bytes)), |Split(bytes)|;
            AllFit(f, n, Transfer(id, bytes)) <==>
            AllFit(f, n, data) && Fits(f, Request(NumberAfter(n, k + 1), Message(id, [], true)))
  {
    var data, ms, k := DataMessages(id, Split(bytes)), Transfer(id, bytes), |Split(bytes)|;
    assert ms[k] == Message(id, [], true) && RequestAt(n, ms, k) == Request(NumberAfter(n, k + 1), ms[k]);
    assert forall i :: 0 <= i < k ==> RequestAt(n, ms, i) == RequestAt(n, data, i);
    if AllFit(f, n, ms) {
      forall i | 0 <= i < |data| ensures Fits(f, RequestAt(n, data, i)) { assert Fits(f, RequestAt(n, ms, i)); }
      assert Fits(f, RequestAt(n, ms, k));
    }
    if AllFit(f, n, data) && Fits(f, RequestAt(n, ms, k)) {
      forall i | 0 <= i < |ms| ensures Fits(f, RequestAt(n, ms, i)) {
        if i < k { assert Fits(f, RequestAt(n, data, i)); }
      }
    }
  }

  /** The state before a transfer. */
  datatype Start = Start(requests: Uint64, open: bool, sent: seq<Message>,
                         unpackers: map<string, Job>, unpacked: seq<(string, seq<Byte>)>)

  class Client {
    const format: Format
    var requests: Uint64
    var open: bool               // the connection
    ghost var sent: seq<Message>

    constructor (format: Format)
      ensures this.format == format && requests == 0 && open && sent == []
    {
      this.format := format;
      requests, open, sent := 0, true, [];
    }

    /** Call, for a Rootfs request: written as a frame, answered with a frame. */
    method Call(agent: Agent, m: Message, u: Unpacker) returns (ok: bool)
      requires Reliable(format)
      modifies this, agent
      ensures requests == AddUint64(old(requests), 1) && sent == old(sent) + [m]
      ensures var e := Handle(old(agent.unpackers), m, u);
              if old(open) && Fits(format, Request(requests, m)) then
                && agent.unpackers == e.unpackers && ok == e.ok && (ok ==> open)
                && agent.unpacked == Log(old(agent.unpacked), m.container, e.closed)
              else !ok && !open && agent.unpackers == old(agent.unpackers) && agent.unpacked == old(agent.unpacked)
    {
      requests := AddUint64(requests, 1);
      sent := sent + [m];
      if !open { return false; }
      var frame := FrameOf(format.encode(Request(requests, m)));
      ArrivesExactly(format.encode, format.decode, Request(requests, m), []);
      assert frame + [] == frame;
      var answer := agent.Serve(format, frame, u);
      if answer.None? { open := false; return false; }
      ok := ReadAnswer(answer.value, Request(requests, m), Handle(old(agent.unpackers), m, u).ok);
    }

    /** The client's half of Call: what the answer says. */
    method ReadAnswer(answer: seq<Byte>, ghost r: Request, ghost wanted: bool) returns (ok: bool)
      requires Reliable(format) && open
      requires exists error :: (wanted ==> error == "") &&
                 answer == FrameOf(format.encodeReply(Reply(r.number, wanted, error)))
      modifies this`open
      ensures ok == wanted && (ok ==> open)
    {
      ghost var error :| (wanted ==> error == "") &&
                         answer == FrameOf(format.encodeReply(Reply(r.number, wanted, error)));
      assert wanted ==> Sendable(format.encodeReply(Reply(r.number, true, "")));
      ArrivesExactly(format.encodeReply, format.decodeReply, Reply(r.number, wanted, error), []);
      assert answer + [] == answer;
      var reply := None;
      match ReadFrame(answer) {
        case Got(body, _) => reply := format.decodeReply(body);
        case _ =>
      }
      if reply.None? { open := false; return false; }
      ok := reply.value.ok;
    }

    /** Sends one piece of data. */
    method SendPiece(agent: Agent, id: string, piece: seq<Byte>, u: Unpacker,
                     ghost base: map<string, Job>, ghost fed: seq<Byte>) returns (ok: bool)
      requires Reliable(format) && |piece| > 0 && agent.unpackers == Fed(base, id, fed, u)
      requires id == "" ==> fed == []
      modifies this, agent
      ensures requests == AddUint64(old(requests), 1)
      ensures sent == old(sent) + [Message(id, piece, false)] && agent.unpacked == old(agent.unpacked)
      ensures var start := StartJob(base, id, u);
              var fits := old(open) && Fits(format, Request(requests, Message(id, piece, false)));
              && ok == (fits && id != "" && Takes(start.unpacker, |start.fed| + |fed| + |piece|))
              && (ok ==> open && agent.unpackers == Fed(base, id, fed + piece, u))
              && (!ok ==> if fits && id != "" then Stuck(agent.unpackers, base, id)
                          else agent.unpackers == old(agent.unpackers))
    {
      PieceEffect(agent.unpackers, base, id, fed, piece, u);
      ok := Call(agent, Message(id, piece, false), u);
    }

    /** Sends the end-of-file message. */
    method SendEof(agent: Agent, id: string, u: Unpacker, ghost base: map<string, Job>, ghost fed: seq<Byte>)
      returns (ok: bool)
      requires Reliable(format) && agent.unpackers == Fed(base, id, fed, u)
      requires id == "" ==> fed == []
      modifies this, agent
      ensures requests == AddUint64(old(requests), 1) && sent == old(sent) + [Message(id, [], true)]
      ensures var start := StartJob(base, id, u);
              var fits := old(open) && Fits(format, Request(requests, Message(id, [], true)));
              && ok == (fits && id != "" && start.unpacker.succeeds) && (ok ==> open)
              && (fits && id != "" ==> && agent.unpacked == old(agent.unpacked) + [(id, start.fed + fed)]
                                       && agent.unpackers == base - {id})
              && (!fits || id == "" ==> agent.unpacked == old(agent.unpacked) && agent.unpackers == old(agent.unpackers))
    {
      EofEffect(agent.unpackers, base, id, fed, u);
      ok := Call(agent, Message(id, [], true), u);
    }

    /** The job after data that was not all taken: left behind from the first
        piece that arrived on. */
    ghost predicate LeftBehind(n: Uint64, id: string, bytes: seq<Byte>, wasOpen: bool,
                               unpackers: map<string, Job>, base: map<string, Job>)
    {
      var ms := DataMessages(id, Split(bytes));
      if wasOpen && id != "" && |ms| > 0 && Fits(format, RequestAt(n, ms, 0)) then Stuck(unpackers, base, id)
      else unpackers == base
    }

    /** The state before the `k`-th read, at `pos`: what was sent, how far the
        job has been fed, and that nothing else changed. */
    ghost predicate Sending(agent: Agent, id: string, bytes: seq<Byte>, u: Unpacker, was: Start, k: nat, pos: nat)
      reads this, agent
    {
      var start := StartJob(was.unpackers, id, u);
      && Midway(format, id, bytes, was.requests, k, pos)
      && (pos > 0 ==> was.open && id != "" && Takes(start.unpacker, |start.fed| + pos))
      && open == was.open && requests == NumberAfter(was.requests, k)
      && sent == was.sent + DataMessages(id, Split(bytes))[..k]
      && agent.unpackers == Fed(was.unpackers, id, bytes[..pos], u) && agent.unpacked == was.unpacked
    }

    /** All data will be taken. */
    ghost predicate Accepted(id: string, bytes: seq<Byte>, u: Unpacker, was: Start) {
      var start := StartJob(was.unpackers, id, u);
      bytes == [] || (&& id != "" && was.open && AllFit(format, was.requests, DataMessages(id, Split(bytes)))
                      && Takes(start.unpacker, |start.fed| + |bytes|))
    }

    /** The body of PutRootfs' loop, for a read up to `end`. */
    method SendChunk(agent: Agent, id: string, bytes: seq<Byte>, pos: nat, end: nat, u: Unpacker,
                     ghost was: Start, ghost k: nat) returns (ok: bool)
      requires Reliable(format) && Sending(agent, id, bytes, u, was, k, pos)
      requires pos < |bytes| && end == if |bytes| - pos < CHUNK then |bytes| else pos + CHUNK
      modifies this, agent
      ensures ok ==> Sending(agent, id, bytes, u, was, k + 1, end)
      ensures !ok ==> && !Accepted(id, bytes, u, was) && agent.unpacked == was.unpacked
                      && LeftBehind(was.requests, id, bytes, was.open, agent.unpackers, was.unpackers)
    {
      var piece := bytes[pos..end];
      MidwayStep(format, id, bytes, was.requests, k, pos, piece);
      Extend(bytes, pos, end - pos);
      SnocAfter(was.sent, DataMessages(id, Split(bytes)), k);
      if pos > 0 { FedIsStuck(agent.unpackers, was.unpackers, id, bytes[..pos], u); }
      ok := SendPiece(agent, id, piece, u, was.unpackers, bytes[..pos]);
    }

    /** PutRootfs' loop up to the short read that ends it. */
    method SendData(agent: Agent, id: string, bytes: seq<Byte>, u: Unpacker) returns (ok: bool)
      requires Reliable(format)
      modifies this, agent
      ensures var was := Start(old(requests), old(open), old(sent), old(agent.unpackers), old(agent.unpacked));
              && (ok <==> Accepted(id, bytes, u, was))
              && (ok ==> && sent == was.sent + DataMessages(id, Split(bytes)) && open == was.open
                         && requests == NumberAfter(was.requests, |Split(bytes)|)
                         && agent.unpackers == Fed(was.unpackers, id, bytes, u))
              && agent.unpacked == was.unpacked
              && LeftBehind(was.requests, id, bytes, was.open, agent.unpackers, was.unpackers)
    {
      ghost var was, k := Start(requests, open, sent, agent.unpackers, agent.unpacked), 0;
      var pos, n := 0, CHUNK;
      ok := true;
      assert bytes[..0] == [] && sent + [] == sent;
      while n == CHUNK
        invariant n <= CHUNK && pos <= |bytes| && (n < CHUNK ==> pos == |bytes|)
        invariant Sending(agent, id, bytes, u, was, k, pos)
        decreases |bytes| - pos, n
      {
        // io.ReadFull into the chunk buffer
        n := if |bytes| - pos < CHUNK then |bytes| - pos else CHUNK;
        if n > 0 {
          var end := pos + n;
          ok := SendChunk(agent, id, bytes, pos, end, u, was, k);
          if !ok { return; }
          k, pos := k + 1, end;
        }
      }
      SentAll(agent, id, bytes, u, was, k);
    }

    lemma {:induction false} SentAll(agent: Agent, id: string, bytes: seq<Byte>, u: Unpacker, was: Start, k: nat)
      requires Sending(agent, id, bytes, u, was, k, |bytes|)
      ensures Accepted(id, bytes, u, was) && k == |Split(bytes)| && bytes[..|bytes|] == bytes
      ensures sent == was.sent + DataMessages(id, Split(bytes))
      ensures LeftBehind(was.requests, id, bytes, was.open, agent.unpackers, was.unpackers)
    {
      var ms := DataMessages(id, Split(bytes));
      assert ms[..k] == ms && bytes[..|bytes|] == bytes;
      if bytes != [] {
        FedIsStuck(agent.unpackers, was.unpackers, id, bytes, u);
        assert Fits(format, RequestAt(was.requests, ms, 0));
      }
    }

    /** PutRootfs.  It succeeds exactly when the container is named, the
        connection is open, every request fits a frame, the source ends normally,
        and the job's unpacker reads the whole stream and ends without error;
        then the agent has unpacked the bytes, after any that an open job already
        had, and dropped the job, and what was sent is the transfer.  If a data
        request arrived but the end of file did not, the job is left behind. */
    method PutRootfs(agent: Agent, id: string, src: Source, u: Unpacker) returns (ok: bool)
      requires Reliable(format)
      modifies this, agent
      ensures var start, ms := StartJob(old(agent.unpackers), id, u), Transfer(id, src.bytes);
              var arrives := && id != "" && old(open) && !src.fails && AllFit(format, old(requests), ms)
                             && (src.bytes == [] || start.unpacker.appetite.None?
                                 || |start.fed| + |src.bytes| <= start.unpacker.appetite.value);
              && (ok <==> arrives && start.unpacker.succeeds)
              && (arrives ==> && sent == old(sent) + ms && requests == NumberAfter(old(requests), |ms|)
                              && agent.unpacked == old(agent.unpacked) + [(id, start.fed + src.bytes)]
                              && agent.unpackers == old(agent.unpackers) - {id})
              && (!arrives ==>
                    && agent.unpacked == old(agent.unpacked)
                    && LeftBehind(old(requests), id, src.bytes, old(open), agent.unpackers, old(agent.unpackers)))
    {
      ghost var base := agent.unpackers;
      TransferFit(format, requests, id, src.bytes);
      ok := SendData(agent, id, src.bytes, u);
      if !ok { return; }
      if src.fails { return false; }
      ok := SendEof(agent, id, u, base, src.bytes);
      Assoc(old(sent), DataMessages(id, Split(src.bytes)), [Message(id, [], true)]);
    }
  }

  // ---------------------------------------------------------------- the frame bound

  /** Every transfer of a container fits its frames, whatever the stream and the
      request numbers, exactly when the escaped container ID is within bounds. */
  lemma FitsAlwaysExactly(f: Format, id: string)
    requires Json(f)
    ensures (forall n: Uint64, bytes: seq<Byte> :: AllFit(f, n, Transfer(id, bytes))) <==> |f.escape(id)| <= 16_427_579
  {
    if |f.escape(id)| <= MAX_ESCAPED_ID {
      forall n: Uint64, bytes: seq<Byte> ensures AllFit(f, n, Transfer(id, bytes)) { ShortIdFits(f, n, id, bytes); }
    } else {
      var n: Uint64 := 10_000_000_000_000_000_000;
      var bytes: seq<Byte> := seq(CHUNK, i => 0);
      LongIdDoesNotFit(f, n, id, bytes);
    }
  }

  lemma ShortIdFits(f: Format, n: Uint64, id: string, bytes: seq<Byte>)
    requires Json(f) && |f.escape(id)| <= MAX_ESCAPED_ID
    ensures AllFit(f, n, Transfer(id, bytes))
  {
    var ms := Transfer(id, bytes);
    SplitIsFaithful(bytes);
    forall i | 0 <= i < |ms| ensures Fits(f, RequestAt(n, ms, i)) {
      MessageFits(f, RequestAt(n, ms, i));
    }
  }

  lemma LongIdDoesNotFit(f: Format, n: Uint64, id: string, bytes: seq<Byte>)
    requires Json(f) && |f.escape(id)| > MAX_ESCAPED_ID
    requires n == 10_000_000_000_000_000_000 && |bytes| == CHUNK
    ensures !AllFit(f, n, Transfer(id, bytes))
  {
    var ms := Transfer(id, bytes);
    assert Split(bytes) == [bytes] && ms[0] == Message(id, bytes, false);
    var r := RequestAt(n, ms, 0);
    assert NumberAfter(n, 1) == n + 1 by { assert NumberAfter(n, 0) == n; }
    TwentyDigits(n + 1);
    FullChunkLength(f, r);
    assert !Fits(f, r);
  }
}
