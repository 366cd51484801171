/** Copying a host root filesystem into the guest, end to end.

    The tar format is an abstract lossless codec for sequences of entries.  The
    agent's unpacker works while the stream arrives; here it works on the whole
    stream that the agent received. */
module Shipping {
  import opened Options
  import opened Words
  import opened Framing
  import opened Wire
  import opened RootfsTree
  import opened TreeWalk
  import opened RootfsStream
  import opened Unpack
  import opened RoundTrip

  /** What is at the host path: nothing, a directory whose walk may break off
      after some bytes of archive, or a file that may not open. */
  datatype Host =
    | Nothing
    | Directory(root: Node, broken: Option<seq<Byte>>)
    | Plain(content: seq<Byte>, opens: bool)

  /** The stream putHostRootfs sends, if it gets that far. */
  function HostStream(encode: seq<Entry> -> seq<Byte>, host: Host): Option<Source> {
    match host
    case Nothing => None
    case Directory(root, None) => Some(Source(encode(Archive(root)), false))
    case Directory(_, Some(bytes)) => Some(Source(bytes, true))
    case Plain(content, opens) => if opens then Some(Source(content, false)) else None
  }

  /** putHostRootfs: succeeds exactly when there is a stream that ends normally,
      every request of its transfer fits a frame, and the unpacker reads it all
      and succeeds; then the agent has the same bytes. */
  method PutHostRootfs(client: Client, agent: Agent, id: string, host: Host,
                       encode: seq<Entry> -> seq<Byte>, u: Unpacker) returns (ok: bool)
    requires Reliable(client.format)
    modifies client, agent
    ensures var start, src := StartJob(old(agent.unpackers), id, u), HostStream(encode, host);
            && (ok <==> && src.Some? && !src.value.fails && id != "" && old(client.open) && start.unpacker.succeeds
                        && AllFit(client.format, old(client.requests), Transfer(id, src.value.bytes))
                        && (src.value.bytes == [] || Takes(start.unpacker, |start.fed| + |src.value.bytes|)))
            && (ok ==> host != Nothing)
            && (ok && host.Plain? ==>
                  host.opens && agent.unpacked == old(agent.unpacked) + [(id, start.fed + host.content)])
            && (ok && host.Directory? ==>
                  && host.broken.None?
                  && agent.unpacked == old(agent.unpacked) + [(id, start.fed + encode(Archive(host.root)))])
            && (src.None? ==> client.sent == old(client.sent) && agent.unpackers == old(agent.unpackers))
            && (ok ==> && client.sent == old(client.sent) + Transfer(id, src.value.bytes)
                       && agent.unpacked == old(agent.unpacked) + [(id, start.fed + src.value.bytes)]
                       && agent.unpackers == old(agent.unpackers) - {id})
  {
    match host {
      case Nothing => return false;
      case Plain(content, opens) =>
        if !opens { return false; }
        ok := client.PutRootfs(agent, id, Source(content, false), u);
      case Directory(root, broken) =>
        var es := TarTree(root);
        var src := if broken.None? then Source(encode(es), false) else Source(broken.value, true);
        ok := client.PutRootfs(agent, id, src, u);
    }
  }

  /** An unpacker that reads its whole stream and applies what it decodes. */
  function UnpackerFor(decode: seq<Byte> -> Option<seq<Entry>>, fs: Fs, dest: Path, stream: seq<Byte>): Unpacker {
    Unpacker(None, decode(stream).Some? && ApplyAll(fs, dest, decode(stream).value).Some?, "unpack")
  }

  /** The first half: the agent gets the archive, and has no job left. */
  method CarryTree(client: Client, agent: Agent, id: string, root: Node,
                   encode: seq<Entry> -> seq<Byte>, u: Unpacker) returns (ok: bool, received: seq<Byte>)
    requires Json(client.format) && client.open && |client.format.escape(id)| <= MAX_ESCAPED_ID
    requires id != "" && id !in agent.unpackers && u.appetite.None? && u.succeeds
    modifies client, agent
    ensures ok && received == encode(Archive(root)) && agent.unpackers == old(agent.unpackers)
  {
    JsonIsReliable(client.format);
    ghost var before := agent.unpackers;
    ghost var stream := encode(Archive(root));
    ShortIdFits(client.format, client.requests, id, stream);
    ok := PutHostRootfs(client, agent, id, Directory(root, None), encode, u);
    assert before - {id} == before;
    received := agent.unpacked[|agent.unpacked| - 1].1;
    assert received == [] + stream == stream;
  }

  /** The whole copy: for every directory tree without whiteout names, every
      lossless tar codec and every container ID within the frame bound, it
      succeeds, the guest holds the kept tree, and the agent has no job left. */
  method CopyTree(client: Client, agent: Agent, guest: Guest, id: string, dest: Path, root: Node,
                  encode: seq<Entry> -> seq<Byte>, decode: seq<Byte> -> Option<seq<Entry>>) returns (ok: bool)
    requires Codec(encode, decode) && WellNamed(root) && NoWhiteoutNames(root) && EmptyDir(guest.fs, dest)
    requires Json(client.format) && client.open && |client.format.escape(id)| <= MAX_ESCAPED_ID
    requires id != "" && id !in agent.unpackers
    modifies client, agent, guest
    ensures ok && agent.unpackers == old(agent.unpackers)
    ensures Rebuilt(guest.fs, old(guest.fs), dest, root)
    ensures OwnBytes(guest.fs, dest, root) <==> LinksAgree(root)
  {
    UnpackRebuildsTheTree(guest.fs, dest, root);
    BytesSurviveExactly(guest.fs, dest, root);
    var u := UnpackerFor(decode, guest.fs, dest, encode(Archive(root)));
    var received;
    ok, received := CarryTree(client, agent, id, root, encode, u);
    ok := guest.UnpackTar(dest, decode(received).value);
  }
}
