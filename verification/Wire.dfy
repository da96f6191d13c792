/** The line protocol between Raft servers: the printed messages, the tokenizer that cuts the
    received bytes at newlines, and the dispatch of a line (raft/simple_serialize.cpp,
    raft/simple_message_processor.cpp).  */
module Wire {
  import opened Streams

  // ---------------------------------------------------------------- the structures

  datatype EntryInfo = EntryInfo(index: nat, term: nat)

  datatype Header = Header(
    peer: string, destination: string, id: nat, term: nat, commit: EntryInfo, uncommit: EntryInfo)

  datatype Entry = Entry(info: EntryInfo, data: string)

  datatype PeerConfig = PeerConfig(name: string, address: string, peerPort: int, clientPort: int, isNew: bool)

  /** The serialized fields of the messages. */
  datatype Message =
    | AppendEntriesRequest(header: Header, previous: EntryInfo, entries: seq<Entry>)
    | AppendEntriesResponse(header: Header, success: bool)
    | VoteRequest(header: Header)
    | VoteResponse(header: Header, granted: bool)
    | ClientRequest(data: string)
    | ConfigChangeRequest(header: Header, previousIndex: nat, peers: seq<PeerConfig>)

  const INFO := Via(Pair(UNSIGNED, UNSIGNED), (p: (nat, nat)) => EntryInfo(p.0, p.1), (e: EntryInfo) => (e.index, e.term))

  type HeaderFields = (string, (string, (nat, (nat, (EntryInfo, EntryInfo)))))

  function MakeHeader(p: HeaderFields): Header {
    Header(p.0, p.1.0, p.1.1.0, p.1.1.1.0, p.1.1.1.1.0, p.1.1.1.1.1)
  }

  function HeaderParts(h: Header): HeaderFields {
    (h.peer, (h.destination, (h.id, (h.term, (h.commit, h.uncommit)))))
  }

  const HEADER := Via(Pair(WORD, Pair(WORD, Pair(UNSIGNED, Pair(UNSIGNED, Pair(INFO, INFO))))), MakeHeader, HeaderParts)

  const ENTRY := Via(Pair(INFO, WORD), (p: (EntryInfo, string)) => Entry(p.0, p.1), (e: Entry) => (e.info, e.data))

  type PeerFields = (string, (string, (int, (int, bool))))

  function MakePeer(p: PeerFields): PeerConfig {
    PeerConfig(p.0, p.1.0, p.1.1.0, p.1.1.1.0, p.1.1.1.1)
  }

  function PeerParts(c: PeerConfig): PeerFields {
    (c.name, (c.address, (c.peerPort, (c.clientPort, c.isNew))))
  }

  const PEER := Via(Pair(WORD, Pair(WORD, Pair(INT, Pair(INT, FLAG)))), MakePeer, PeerParts)

  const APPEND := Pair(HEADER, Pair(INFO, Vector(ENTRY)))
  const REPLY := Pair(HEADER, FLAG)
  const CONFIG := Pair(HEADER, Pair(UNSIGNED, Vector(PEER)))

  /** What follows the name of each kind of message. */
  datatype Protocol = Protocol(
    append: Format<(Header, (EntryInfo, seq<Entry>))>,
    reply: Format<(Header, bool)>,
    vote: Format<Header>,
    client: Format<string>,
    config: Format<(Header, (nat, seq<PeerConfig>))>)

  const RAFT := Protocol(APPEND, REPLY, HEADER, WORD, CONFIG)

  // ---------------------------------------------------------------- messages

  /** A printed message without the newline that ends it. */
  function Line(protocol: Protocol, m: Message): string {
    match m
    case AppendEntriesRequest(h, p, es) => "AppendEntriesRequest" + ([' '] + (protocol.append.put((h, (p, es))) + ""))
    case AppendEntriesResponse(h, ok) => "AppendEntriesResponse" + ([' '] + (protocol.reply.put((h, ok)) + " "))
    case VoteRequest(h) => "VoteRequest" + ([' '] + (protocol.vote.put(h) + " "))
    case VoteResponse(h, ok) => "VoteResponse" + ([' '] + (protocol.reply.put((h, ok)) + " "))
    case ClientRequest(data) => "ClientRequest" + ([' '] + (protocol.client.put(data) + " "))
    case ConfigChangeRequest(h, p, peers) => "ConfigChangeRequest" + ([' '] + (protocol.config.put((h, (p, peers))) + ""))
  }

  function Text(m: Message): string { Line(RAFT, m) + "\n" }

  /** The strings are words, and the numbers are in the range of their types. */
  predicate Fits(protocol: Protocol, m: Message) {
    match m
    case AppendEntriesRequest(h, p, es) => protocol.append.fits((h, (p, es)))
    case AppendEntriesResponse(h, ok) => protocol.reply.fits((h, ok))
    case VoteRequest(h) => protocol.vote.fits(h)
    case VoteResponse(h, ok) => protocol.reply.fits((h, ok))
    case ClientRequest(data) => protocol.client.fits(data)
    case ConfigChangeRequest(h, p, peers) => protocol.config.fits((h, (p, peers)))
  }

  datatype Delivery = Deliver(message: Message) | Drop

  datatype Kind = Append | Reply | Client | VoteReply | Vote | Config | Unknown

  /** The names the dispatch knows. */
  function KindOf(name: string): Kind {
    if name == "AppendEntriesRequest" then Append
    else if name == "AppendEntriesResponse" then Reply
    else if name == "ClientRequest" then Client
    else if name == "VoteResponse" then VoteReply
    else if name == "VoteRequest" then Vote
    else if name == "ConfigChangeRequest" then Config
    else Unknown
  }

  /** What a message of the kind is read from the rest of its line. */
  function ReadKind(protocol: Protocol, kind: Kind, rest: string): Delivery {
    match kind
    case Append =>
      (match protocol.append.read(rest) case Fail => Drop case Ok((h, (p, es)), _) => Deliver(AppendEntriesRequest(h, p, es)))
    case Reply =>
      (match protocol.reply.read(rest) case Fail => Drop case Ok((h, ok), _) => Deliver(AppendEntriesResponse(h, ok)))
    case Client =>
      (match protocol.client.read(rest) case Fail => Drop case Ok(data, _) => Deliver(ClientRequest(data)))
    case VoteReply =>
      (match protocol.reply.read(rest) case Fail => Drop case Ok((h, ok), _) => Deliver(VoteResponse(h, ok)))
    case Vote =>
      (match protocol.vote.read(rest) case Fail => Drop case Ok(h, _) => Deliver(VoteRequest(h)))
    case Config =>
      (match protocol.config.read(rest) case Fail => Drop case Ok((h, (p, peers)), _) => Deliver(ConfigChangeRequest(h, p, peers)))
    case Unknown => Drop
  }

  /** `process_server_message`: the message of a line; a line with an unknown name or a field
      that cannot be read drops the peer. */
  function Dispatch(protocol: Protocol, line: string): Delivery {
    match ReadWord(line)
    case Fail => Drop
    case Ok(name, rest) => ReadKind(protocol, KindOf(name), rest)
  }

  // ---------------------------------------------------------------- the tokenizer

  /** The complete lines so far and the start of the next one. */
  datatype Tokens = Tokens(lines: seq<string>, incomplete: string)

  function Strip(line: string): string {
    if line != [] && line[|line| - 1] == '\r' then line[..|line| - 1] else line
  }

  function Feed(t: Tokens, c: char): Tokens {
    if c == '\n' then Tokens(t.lines + [Strip(t.incomplete)], []) else Tokens(t.lines, t.incomplete + [c])
  }

  function FeedAll(t: Tokens, bytes: string): Tokens {
    if bytes == [] then t else Feed(FeedAll(t, bytes[..|bytes| - 1]), bytes[|bytes| - 1])
  }

  function FeedChunks(t: Tokens, chunks: seq<string>): Tokens {
    if chunks == [] then t else FeedAll(FeedChunks(t, chunks[..|chunks| - 1]), chunks[|chunks| - 1])
  }

  function Concat(chunks: seq<string>): string {
    if chunks == [] then [] else Concat(chunks[..|chunks| - 1]) + chunks[|chunks| - 1]
  }

  /** The newline found in the buffer, or its end. */
  method Find(buffer: string, begin: nat) returns (end: nat)
    requires begin <= |buffer|
    ensures begin <= end <= |buffer| && OneLine(buffer[begin..end])
    ensures end < |buffer| ==> buffer[end] == '\n'
  {
    end := begin;
    while end < |buffer| && buffer[end] != '\n'
      invariant begin <= end <= |buffer| && OneLine(buffer[begin..end])
    {
      assert buffer[begin..end + 1] == buffer[begin..end] + [buffer[end]];
      end := end + 1;
    }
  }

  /** What the callback makes of the lines. */
  function Handled(callback: string -> Delivery, lines: seq<string>): seq<Delivery> {
    if lines == [] then [] else Handled(callback, lines[..|lines| - 1]) + [callback(lines[|lines| - 1])]
  }

  class MessageProcessor {
    var incomplete: string
    var received: seq<Delivery>

    constructor ()
      ensures incomplete == [] && received == []
    {
      incomplete, received := [], [];
    }

    /** Every line the buffer completes is handed to the callback, in order. */
    method NewlineTokenizer(buffer: string, callback: string -> Delivery)
      modifies this
      ensures var t := FeedAll(Tokens([], old(incomplete)), buffer);
              incomplete == t.incomplete && received == old(received) + Handled(callback, t.lines)
    {
      ghost var start, lines := Tokens([], incomplete), [];
      var begin := 0;
      var end := Find(buffer, begin);
      while end != |buffer|
        invariant begin <= end <= |buffer| && OneLine(buffer[begin..end])
        invariant end < |buffer| ==> buffer[end] == '\n'
        invariant FeedAll(start, buffer[..begin]) == Tokens(lines, incomplete)
        invariant received == old(received) + Handled(callback, lines)
        decreases |buffer| - begin
      {
        FeedNextLine(start, buffer, begin, end);
        HandleOneMore(callback, lines, Strip(incomplete + buffer[begin..end]), old(received), received);
        lines := lines + [Strip(incomplete + buffer[begin..end])];
        CompleteLine(buffer[begin..end], callback);
        begin := end + 1;
        end := Find(buffer, begin);
      }
      FeedTheRest(start, buffer, begin);
      incomplete := incomplete + buffer[begin..];
    }

    /** The last part of a line, up to its newline. */
    method CompleteLine(part: string, callback: string -> Delivery)
      modifies this
      ensures incomplete == [] && received == old(received) + [callback(Strip(old(incomplete) + part))]
    {
      incomplete := incomplete + part;
      if incomplete != [] && incomplete[|incomplete| - 1] == '\r' {
        incomplete := incomplete[..|incomplete| - 1];
      }
      var message := incomplete;
      incomplete := [];
      received := received + [callback(message)];
    }

    method ProcessRead(buffer: string)
      modifies this
      ensures var t := FeedAll(Tokens([], old(incomplete)), buffer);
              incomplete == t.incomplete && received == old(received) + Handled(Handle, t.lines)
    {
      NewlineTokenizer(buffer, Handle);
    }
  }

  lemma HandleOneMore(callback: string -> Delivery, lines: seq<string>, line: string, before: seq<Delivery>, now: seq<Delivery>)
    requires now == before + Handled(callback, lines)
    ensures now + [callback(line)] == before + Handled(callback, lines + [line])
  {
  }

  lemma FeedNextLine(start: Tokens, buffer: string, begin: nat, end: nat)
    requires begin <= end < |buffer| && OneLine(buffer[begin..end]) && buffer[end] == '\n'
    ensures var t := FeedAll(start, buffer[..begin]);
            FeedAll(start, buffer[..end + 1]) == Tokens(t.lines + [Strip(t.incomplete + buffer[begin..end])], [])
  {
    FeedLine(FeedAll(start, buffer[..begin]), buffer[begin..end]);
    FeedConcat(start, buffer[..begin], buffer[begin..end] + "\n");
    assert buffer[..begin] + (buffer[begin..end] + "\n") == buffer[..end + 1];
  }

  lemma FeedTheRest(start: Tokens, buffer: string, begin: nat)
    requires begin <= |buffer| && OneLine(buffer[begin..|buffer|])
    ensures var t := FeedAll(start, buffer[..begin]);
            FeedAll(start, buffer) == Tokens(t.lines, t.incomplete + buffer[begin..])
  {
    assert buffer[begin..|buffer|] == buffer[begin..];
    FeedPart(FeedAll(start, buffer[..begin]), buffer[begin..]);
    FeedConcat(start, buffer[..begin], buffer[begin..]);
    assert buffer[..begin] + buffer[begin..] == buffer;
  }

  lemma {:induction false} FeedConcat(t: Tokens, a: string, b: string)
    ensures FeedAll(t, a + b) == FeedAll(FeedAll(t, a), b)
  {
    if b == [] {
      assert a + b == a;
    } else {
      assert (a + b)[..|a + b| - 1] == a + b[..|b| - 1];
      FeedConcat(t, a, b[..|b| - 1]);
    }
  }

  /** However the bytes are cut into chunks, the lines are the same: they are those of the
      concatenation. */
  lemma {:induction false} ChunksDoNotMatter(t: Tokens, chunks: seq<string>)
    ensures FeedChunks(t, chunks) == FeedAll(t, Concat(chunks))
  {
    if chunks != [] {
      ChunksDoNotMatter(t, chunks[..|chunks| - 1]);
      FeedConcat(t, Concat(chunks[..|chunks| - 1]), chunks[|chunks| - 1]);
    }
  }

  lemma {:induction false} FeedPart(t: Tokens, part: string)
    requires OneLine(part)
    ensures FeedAll(t, part) == Tokens(t.lines, t.incomplete + part)
  {
    if part == [] {
      assert t.incomplete + part == t.incomplete;
    } else {
      FeedPart(t, part[..|part| - 1]);
      assert t.incomplete + part[..|part| - 1] + [part[|part| - 1]] == t.incomplete + part;
    }
  }

  lemma FeedLine(t: Tokens, line: string)
    requires OneLine(line)
    ensures FeedAll(t, line + "\n") == Tokens(t.lines + [Strip(t.incomplete + line)], [])
  {
    FeedPart(t, line);
    assert (line + "\n")[..|line|] == line;
  }

  // ---------------------------------------------------------------- round trip

  lemma InfoIsGood()
    ensures Good(INFO) && INFO.trail == ""
  {
    UnsignedIsGood();
    PairIsGood(UNSIGNED, UNSIGNED);
    ViaIsGood(Pair(UNSIGNED, UNSIGNED), (p: (nat, nat)) => EntryInfo(p.0, p.1), (e: EntryInfo) => (e.index, e.term));
  }

  lemma HeaderIsGood()
    ensures Good(HEADER) && HEADER.trail == ""
  {
    WordIsGood();
    UnsignedIsGood();
    InfoIsGood();
    PairIsGood(INFO, INFO);
    PairIsGood(UNSIGNED, Pair(INFO, INFO));
    PairIsGood(UNSIGNED, Pair(UNSIGNED, Pair(INFO, INFO)));
    PairIsGood(WORD, Pair(UNSIGNED, Pair(UNSIGNED, Pair(INFO, INFO))));
    PairIsGood(WORD, Pair(WORD, Pair(UNSIGNED, Pair(UNSIGNED, Pair(INFO, INFO)))));
    ViaIsGood(Pair(WORD, Pair(WORD, Pair(UNSIGNED, Pair(UNSIGNED, Pair(INFO, INFO))))), MakeHeader, HeaderParts);
  }

  lemma EntryIsGood()
    ensures Good(ENTRY) && ENTRY.trail == ""
  {
    WordIsGood();
    InfoIsGood();
    PairIsGood(INFO, WORD);
    ViaIsGood(Pair(INFO, WORD), (p: (EntryInfo, string)) => Entry(p.0, p.1), (e: Entry) => (e.info, e.data));
  }

  lemma PeerIsGood()
    ensures Good(PEER) && PEER.trail == ""
  {
    WordIsGood();
    IntIsGood();
    FlagIsGood();
    PairIsGood(INT, FLAG);
    PairIsGood(INT, Pair(INT, FLAG));
    PairIsGood(WORD, Pair(INT, Pair(INT, FLAG)));
    PairIsGood(WORD, Pair(WORD, Pair(INT, Pair(INT, FLAG))));
    ViaIsGood(Pair(WORD, Pair(WORD, Pair(INT, Pair(INT, FLAG)))), MakePeer, PeerParts);
  }

  lemma RaftIsGood()
    ensures GoodProtocol(RAFT)
  {
    WordIsGood();
    HeaderIsGood();
    InfoIsGood();
    UnsignedIsGood();
    FlagIsGood();
    EntryIsGood();
    PeerIsGood();
    VectorIsGood(ENTRY);
    VectorIsGood(PEER);
    PairIsGood(INFO, Vector(ENTRY));
    PairIsGood(UNSIGNED, Vector(PEER));
    PairIsGood(HEADER, Pair(INFO, Vector(ENTRY)));
    PairIsGood(HEADER, FLAG);
    PairIsGood(HEADER, Pair(UNSIGNED, Vector(PEER)));
  }

  /** The name and the fields of a printed message are read back. */
  lemma ReadNamed<T(!new)>(f: Format<T>, name: string, x: T, tail: string)
    requires Good(f) && IsWord(name) && f.fits(x) && (if f.trail == " " then tail == "" else tail == " ")
    ensures var line := name + ([' '] + (f.put(x) + tail));
            && ReadWord(line) == Ok(name, [' '] + (f.put(x) + tail))
            && f.read([' '] + (f.put(x) + tail)) == Ok(x, f.trail + tail)
            && OneLine(line) && EndsInSpace(line)
  {
    ReadName(name, f.put(x) + tail);
    assert ReadsBack(f, x, tail) && ReadsFitting(f, f.put(x) + tail) && PrintsLine(f, x);
    NamedLine(name, f.put(x), tail);
  }

  lemma ReadName(name: string, rest: string)
    requires IsWord(name)
    ensures ReadWord(name + ([' '] + rest)) == Ok(name, [' '] + rest)
  {
    WordIsGood();
    assert ReadsBack(WORD, name, [' '] + rest) && "" + ([' '] + rest) == [' '] + rest;
  }

  lemma NamedLine(name: string, fields: string, tail: string)
    requires IsWord(name) && OneLine(fields) && ((EndsInSpace(fields) && tail == "") || tail == " ")
    ensures OneLine(name + ([' '] + (fields + tail))) && EndsInSpace(name + ([' '] + (fields + tail)))
  {
    assert EndsInSpace(fields + tail) by { if tail == "" { assert fields + tail == fields; } }
    OneLineConcat(fields, tail);
    OneLineConcat([' '], fields + tail);
    OneLineConcat(name, [' '] + (fields + tail));
  }

  /** The message stands on one line that does not end in a carriage return, and the line is
      dispatched as that message. */
  ghost predicate GoodProtocol(protocol: Protocol) {
    && Good(protocol.append) && Good(protocol.reply) && Good(protocol.vote)
    && Good(protocol.client) && Good(protocol.config)
    && protocol.append.trail == protocol.config.trail == " "
    && protocol.reply.trail == protocol.vote.trail == protocol.client.trail == ""
  }

  ghost predicate Delivered(protocol: Protocol, m: Message) {
    Dispatch(protocol, Line(protocol, m)) == Deliver(m) && OneLine(Line(protocol, m)) && Strip(Line(protocol, m)) == Line(protocol, m)
  }

  /** The name of a message is a word that the dispatch knows. */
  lemma NameOf(kind: Kind) returns (name: string)
    requires kind != Unknown
    ensures IsWord(name) && KindOf(name) == kind
    ensures name == match kind
                    case Append => "AppendEntriesRequest"
                    case Reply => "AppendEntriesResponse"
                    case Client => "ClientRequest"
                    case VoteReply => "VoteResponse"
                    case Vote => "VoteRequest"
                    case _ => "ConfigChangeRequest"
  {
    name := match kind
            case Append => "AppendEntriesRequest"
            case Reply => "AppendEntriesResponse"
            case Client => "ClientRequest"
            case VoteReply => "VoteResponse"
            case Vote => "VoteRequest"
            case _ => "ConfigChangeRequest";
  }

  lemma DeliverAppend(protocol: Protocol, m: Message)
    requires m.AppendEntriesRequest? && Fits(protocol, m) && GoodProtocol(protocol)
    ensures Delivered(protocol, m)
  {
    var name := NameOf(Append);
    ReadNamed(protocol.append, name, (m.header, (m.previous, m.entries)), "");
  }

  lemma DeliverReply(protocol: Protocol, m: Message)
    requires m.AppendEntriesResponse? && Fits(protocol, m) && GoodProtocol(protocol)
    ensures Delivered(protocol, m)
  {
    var name := NameOf(Reply);
    ReadNamed(protocol.reply, name, (m.header, m.success), " ");
  }

  lemma DeliverVote(protocol: Protocol, m: Message)
    requires m.VoteRequest? && Fits(protocol, m) && GoodProtocol(protocol)
    ensures Delivered(protocol, m)
  {
    var name := NameOf(Vote);
    ReadNamed(protocol.vote, name, m.header, " ");
  }

  lemma DeliverVoteReply(protocol: Protocol, m: Message)
    requires m.VoteResponse? && Fits(protocol, m) && GoodProtocol(protocol)
    ensures Delivered(protocol, m)
  {
    var name := NameOf(VoteReply);
    ReadNamed(protocol.reply, name, (m.header, m.granted), " ");
  }

  lemma DeliverClient(protocol: Protocol, m: Message)
    requires m.ClientRequest? && Fits(protocol, m) && GoodProtocol(protocol)
    ensures Delivered(protocol, m)
  {
    var name := NameOf(Client);
    ReadNamed(protocol.client, name, m.data, " ");
  }

  lemma DeliverConfig(protocol: Protocol, m: Message)
    requires m.ConfigChangeRequest? && Fits(protocol, m) && GoodProtocol(protocol)
    ensures Delivered(protocol, m)
  {
    var name := NameOf(Config);
    ReadNamed(protocol.config, name, (m.header, (m.previousIndex, m.peers)), "");
  }

  lemma DeliverLine(protocol: Protocol, m: Message)
    requires GoodProtocol(protocol) && Fits(protocol, m)
    ensures Delivered(protocol, m)
  {
    match m
    case AppendEntriesRequest(_, _, _) => DeliverAppend(protocol, m);
    case AppendEntriesResponse(_, _) => DeliverReply(protocol, m);
    case VoteRequest(_) => DeliverVote(protocol, m);
    case VoteResponse(_, _) => DeliverVoteReply(protocol, m);
    case ClientRequest(_) => DeliverClient(protocol, m);
    case ConfigChangeRequest(_, _, _) => DeliverConfig(protocol, m);
  }

  /** Only messages that fit are ever delivered. */
  lemma DeliveredFits(protocol: Protocol, line: string)
    requires GoodProtocol(protocol)
    ensures Dispatch(protocol, line).Deliver? ==> Fits(protocol, Dispatch(protocol, line).message)
  {
    if ReadWord(line).Ok? {
      var rest := ReadWord(line).rest;
      assert ReadsFitting(protocol.append, rest) && ReadsFitting(protocol.reply, rest);
      assert ReadsFitting(protocol.vote, rest) && ReadsFitting(protocol.client, rest);
      assert ReadsFitting(protocol.config, rest);
    }
  }

  function Texts(ms: seq<Message>): string {
    if ms == [] then [] else Texts(ms[..|ms| - 1]) + Text(ms[|ms| - 1])
  }

  function Delivers(ms: seq<Message>): seq<Delivery> {
    if ms == [] then [] else Delivers(ms[..|ms| - 1]) + [Deliver(ms[|ms| - 1])]
  }

  predicate AllFit(ms: seq<Message>) {
    ms == [] || (AllFit(ms[..|ms| - 1]) && Fits(RAFT, ms[|ms| - 1]))
  }

  /** A line read by a server. */
  function Handle(line: string): Delivery { Dispatch(RAFT, line) }

  lemma FeedText(t: Tokens, m: Message)
    requires GoodProtocol(RAFT) && Fits(RAFT, m) && t.incomplete == []
    ensures var t' := FeedAll(t, Text(m));
            t'.incomplete == [] && Handled(Handle, t'.lines) == Handled(Handle, t.lines) + [Deliver(m)]
  {
    DeliverLine(RAFT, m);
    var line := Line(RAFT, m);
    FeedLine(t, line);
    assert [] + line == line;
    HandleOneMore(Handle, t.lines, line, [], Handled(Handle, t.lines));
  }

  lemma {:induction false} TextsAreDelivered(ms: seq<Message>)
    requires GoodProtocol(RAFT) && AllFit(ms)
    ensures var t := FeedAll(Tokens([], []), Texts(ms));
            t.incomplete == [] && Handled(Handle, t.lines) == Delivers(ms)
  {
    if ms != [] {
      var init, m := ms[..|ms| - 1], ms[|ms| - 1];
      TextsAreDelivered(init);
      FeedConcat(Tokens([], []), Texts(init), Text(m));
      FeedText(FeedAll(Tokens([], []), Texts(init)), m);
    }
  }

  lemma {:induction false} DeliveredLinesFit(lines: seq<string>, ms: seq<Message>)
    requires GoodProtocol(RAFT) && Handled(Handle, lines) == Delivers(ms)
    ensures AllFit(ms)
    decreases |ms|
  {
    if ms != [] {
      assert lines != [];
      var line := lines[|lines| - 1];
      assert Handled(Handle, lines)[..|Handled(Handle, lines)| - 1] == Handled(Handle, lines[..|lines| - 1]);
      assert Delivers(ms)[..|Delivers(ms)| - 1] == Delivers(ms[..|ms| - 1]);
      assert Handle(line) == Deliver(ms[|ms| - 1]);
      DeliveredFits(RAFT, line);
      DeliveredLinesFit(lines[..|lines| - 1], ms[..|ms| - 1]);
    }
  }

  /** Wire round trip: however the printed messages are cut into chunks on the way, exactly
      those messages are delivered and nothing is left over, if and only if every string in
      them is a word and every number is in the range of its type. */
  lemma WireRoundTrip(ms: seq<Message>, chunks: seq<string>)
    requires Concat(chunks) == Texts(ms)
    ensures var t := FeedChunks(Tokens([], []), chunks);
            AllFit(ms) <==> t.incomplete == [] && Handled(Handle, t.lines) == Delivers(ms)
  {
    RaftIsGood();
    ChunksDoNotMatter(Tokens([], []), chunks);
    var t := FeedChunks(Tokens([], []), chunks);
    if AllFit(ms) { TextsAreDelivered(ms); }
    if Handled(Handle, t.lines) == Delivers(ms) { DeliveredLinesFit(t.lines, ms); }
  }

  lemma {:induction false} FeedBehind(lines: seq<string>, incomplete: string, bytes: string)
    ensures var t := FeedAll(Tokens([], incomplete), bytes);
            FeedAll(Tokens(lines, incomplete), bytes) == Tokens(lines + t.lines, t.incomplete)
  {
    if bytes == [] {
      assert lines + [] == lines;
    } else {
      FeedBehind(lines, incomplete, bytes[..|bytes| - 1]);
      var t := FeedAll(Tokens([], incomplete), bytes[..|bytes| - 1]);
      assert lines + (t.lines + [Strip(t.incomplete)]) == lines + t.lines + [Strip(t.incomplete)];
    }
  }

  lemma {:induction false} HandledConcat(callback: string -> Delivery, a: seq<string>, b: seq<string>)
    ensures Handled(callback, a + b) == Handled(callback, a) + Handled(callback, b)
  {
    if b == [] {
      assert a + b == a;
    } else {
      assert (a + b)[..|a + b| - 1] == a + b[..|b| - 1];
      HandledConcat(callback, a, b[..|b| - 1]);
    }
  }

  /** A connection from its first chunk to its last. */
  method Receive(chunks: seq<string>) returns (received: seq<Delivery>, incomplete: string)
    ensures var t := FeedChunks(Tokens([], []), chunks);
            incomplete == t.incomplete && received == Handled(Handle, t.lines)
  {
    var processor := new MessageProcessor();
    for k := 0 to |chunks|
      invariant fresh(processor)
      invariant var t := FeedChunks(Tokens([], []), chunks[..k]);
                processor.incomplete == t.incomplete && processor.received == Handled(Handle, t.lines)
    {
      ghost var t := FeedChunks(Tokens([], []), chunks[..k]);
      ghost var more := FeedAll(Tokens([], t.incomplete), chunks[k]);
      FeedBehind(t.lines, t.incomplete, chunks[k]);
      HandledConcat(Handle, t.lines, more.lines);
      assert chunks[..k + 1][..k] == chunks[..k];
      processor.ProcessRead(chunks[k]);
    }
    assert chunks[..|chunks|] == chunks;
    return processor.received, processor.incomplete;
  }
}
