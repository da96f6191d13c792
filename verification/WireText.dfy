/** The text of the Raft messages field by field, and what a server makes of a line beyond the
    messages that are printed (raft/simple_serialize.cpp, raft/simple_message_processor.cpp).  */
module WireText {
  import opened Decimals
  import opened Streams
  import opened Wire

  // ---------------------------------------------------------------- what is printed

  /** Two fields with a space between them. */
  function Then(a: string, b: string): string { a + (" " + b) }

  /** Each field with a space behind it. */
  function Ended(fields: seq<string>): string {
    if fields == [] then [] else Then(fields[0], Ended(fields[1..]))
  }

  function InfoText(e: EntryInfo): string { Then(Digits(e.index), Digits(e.term)) }

  function FlagText(b: bool): string { if b then "1" else "0" }

  function HeaderText(h: Header): string {
    Then(h.peer, Then(h.destination, Then(Digits(h.id), Then(Digits(h.term), Then(InfoText(h.commit), InfoText(h.uncommit))))))
  }

  function EntryText(e: Entry): string { Then(InfoText(e.info), e.data) }

  function PeerText(c: PeerConfig): string {
    Then(c.name, Then(c.address, Then(IntText(c.peerPort), Then(IntText(c.clientPort), FlagText(c.isNew)))))
  }

  function EntryTexts(es: seq<Entry>): seq<string> { seq(|es|, j requires 0 <= j < |es| => EntryText(es[j])) }

  function PeerTexts(cs: seq<PeerConfig>): seq<string> { seq(|cs|, j requires 0 <= j < |cs| => PeerText(cs[j])) }

  /** The line of a message, without its newline. */
  function LineText(m: Message): string {
    match m
    case AppendEntriesRequest(h, p, es) =>
      Then("AppendEntriesRequest", Then(HeaderText(h), Then(InfoText(p), Then(Digits(|es|), Ended(EntryTexts(es))))))
    case AppendEntriesResponse(h, ok) => Then("AppendEntriesResponse", Then(HeaderText(h), FlagText(ok)) + " ")
    case VoteRequest(h) => Then("VoteRequest", HeaderText(h) + " ")
    case VoteResponse(h, ok) => Then("VoteResponse", Then(HeaderText(h), FlagText(ok)) + " ")
    case ClientRequest(data) => Then("ClientRequest", data + " ")
    case ConfigChangeRequest(h, p, peers) =>
      Then("ConfigChangeRequest", Then(HeaderText(h), Then(Digits(p), Then(Digits(|peers|), Ended(PeerTexts(peers))))))
  }

  lemma PairIsPrinted<A, B>(f: Format<A>, g: Format<B>, a: A, b: B)
    ensures Pair(f, g).put((a, b)) == Then(f.put(a), g.put(b))
  {
  }

  /** The index comes first. */
  lemma InfoIsPrinted(e: EntryInfo)
    ensures INFO.put(e) == InfoText(e)
  {
  }

  lemma HeaderIsPrinted(h: Header)
    ensures HEADER.put(h) == HeaderText(h)
  {
    InfoIsPrinted(h.commit);
    InfoIsPrinted(h.uncommit);
    var e := (h.commit, h.uncommit);
    PairIsPrinted(INFO, INFO, e.0, e.1);
    PairIsPrinted(UNSIGNED, Pair(INFO, INFO), h.term, e);
    PairIsPrinted(UNSIGNED, Pair(UNSIGNED, Pair(INFO, INFO)), h.id, (h.term, e));
    PairIsPrinted(WORD, Pair(UNSIGNED, Pair(UNSIGNED, Pair(INFO, INFO))), h.destination, (h.id, (h.term, e)));
    var d := (h.destination, (h.id, (h.term, e)));
    PairIsPrinted(WORD, Pair(WORD, Pair(UNSIGNED, Pair(UNSIGNED, Pair(INFO, INFO)))), h.peer, d);
    assert HeaderParts(h) == (h.peer, d);
  }

  lemma EntryIsPrinted(e: Entry)
    ensures ENTRY.put(e) == EntryText(e)
  {
    InfoIsPrinted(e.info);
  }

  lemma PeerIsPrinted(c: PeerConfig)
    ensures PEER.put(c) == PeerText(c)
  {
    PairIsPrinted(INT, FLAG, c.clientPort, c.isNew);
    PairIsPrinted(INT, Pair(INT, FLAG), c.peerPort, (c.clientPort, c.isNew));
    PairIsPrinted(WORD, Pair(INT, Pair(INT, FLAG)), c.address, (c.peerPort, (c.clientPort, c.isNew)));
    var d := (c.address, (c.peerPort, (c.clientPort, c.isNew)));
    PairIsPrinted(WORD, Pair(WORD, Pair(INT, Pair(INT, FLAG))), c.name, d);
    assert PeerParts(c) == (c.name, d);
  }

  lemma {:induction false} ItemsArePrinted<T>(f: Format<T>, xs: seq<T>, texts: seq<string>)
    requires |texts| == |xs| && forall j :: 0 <= j < |xs| ==> texts[j] == f.put(xs[j])
    ensures PrintItems(f, xs) == Ended(texts)
  {
    if xs != [] { ItemsArePrinted(f, xs[1..], texts[1..]); }
  }

  /** A vector is printed as its length and its items, each with a space behind it. */
  lemma VectorIsPrinted<T>(f: Format<T>, xs: seq<T>, texts: seq<string>)
    requires |texts| == |xs| && forall j :: 0 <= j < |xs| ==> texts[j] == f.put(xs[j])
    ensures Vector(f).put(xs) == Then(Digits(|xs|), Ended(texts))
  {
    ItemsArePrinted(f, xs, texts);
  }

  lemma EntriesArePrinted(es: seq<Entry>)
    ensures Vector(ENTRY).put(es) == Then(Digits(|es|), Ended(EntryTexts(es)))
  {
    forall j | 0 <= j < |es| ensures EntryTexts(es)[j] == ENTRY.put(es[j]) { EntryIsPrinted(es[j]); }
    VectorIsPrinted(ENTRY, es, EntryTexts(es));
  }

  lemma PeersArePrinted(cs: seq<PeerConfig>)
    ensures Vector(PEER).put(cs) == Then(Digits(|cs|), Ended(PeerTexts(cs)))
  {
    forall j | 0 <= j < |cs| ensures PeerTexts(cs)[j] == PEER.put(cs[j]) { PeerIsPrinted(cs[j]); }
    VectorIsPrinted(PEER, cs, PeerTexts(cs));
  }

  lemma ReplyIsPrinted(h: Header, b: bool)
    ensures REPLY.put((h, b)) == Then(HeaderText(h), FlagText(b))
  {
    HeaderIsPrinted(h);
  }

  lemma AppendIsPrinted(h: Header, p: EntryInfo, es: seq<Entry>)
    ensures APPEND.put((h, (p, es))) + "" == Then(HeaderText(h), Then(InfoText(p), Then(Digits(|es|), Ended(EntryTexts(es)))))
  {
    HeaderIsPrinted(h);
    InfoIsPrinted(p);
    EntriesArePrinted(es);
  }

  lemma ConfigIsPrinted(h: Header, p: nat, peers: seq<PeerConfig>)
    ensures CONFIG.put((h, (p, peers))) + "" == Then(HeaderText(h), Then(Digits(p), Then(Digits(|peers|), Ended(PeerTexts(peers)))))
  {
    HeaderIsPrinted(h);
    PeersArePrinted(peers);
  }

  /** The line of each of the six kinds of message, field by field. */
  lemma LinesArePrinted(m: Message)
    ensures Line(RAFT, m) == LineText(m)
  {
    match m
    case AppendEntriesRequest(h, p, es) => AppendIsPrinted(h, p, es);
    case AppendEntriesResponse(h, ok) => ReplyIsPrinted(h, ok);
    case VoteRequest(h) => HeaderIsPrinted(h);
    case VoteResponse(h, ok) => ReplyIsPrinted(h, ok);
    case ClientRequest(_) =>
    case ConfigChangeRequest(h, p, peers) => ConfigIsPrinted(h, p, peers);
  }

  // ---------------------------------------------------------------- line endings

  /** One carriage return before the newline goes, and no more than one. */
  lemma LineEndings(t: Tokens, a: string)
    requires OneLine(a)
    ensures FeedAll(t, a + "\r\n") == Tokens(t.lines + [t.incomplete + a], [])
    ensures !(t.incomplete + a != [] && (t.incomplete + a)[|t.incomplete + a| - 1] == '\r') ==>
              FeedAll(t, a + "\n") == FeedAll(t, a + "\r\n")
  {
    FeedLine(t, a);
    FeedLine(t, a + "\r");
    assert a + "\r\n" == a + "\r" + "\n";
    var line := t.incomplete + (a + "\r");
    assert line == t.incomplete + a + "\r" && line[..|line| - 1] == t.incomplete + a;
  }

  // ---------------------------------------------------------------- lines that were not printed

  /** A line without a name, or with a name that is none of the six, drops the peer. */
  lemma UnknownIsDropped(protocol: Protocol, line: string)
    ensures ReadWord(line) == Fail ==> Dispatch(protocol, line) == Drop
    ensures ReadWord(line).Ok? && ReadWord(line).value !in
              {"AppendEntriesRequest", "AppendEntriesResponse", "ClientRequest", "VoteResponse", "VoteRequest", "ConfigChangeRequest"} ==>
              Dispatch(protocol, line) == Drop
  {
  }

  lemma ReadNamedField<T(!new)>(f: Format<T>, name: string, x: T, tail: string, extra: string)
    requires Good(f) && IsWord(name) && f.fits(x) && Delimited(tail + extra)
    ensures var line := name + ([' '] + (f.put(x) + tail)) + extra;
            var rest := [' '] + (f.put(x) + (tail + extra));
            ReadWord(line) == Ok(name, rest) && f.read(rest) == Ok(x, f.trail + (tail + extra))
  {
    ReadName(name, f.put(x) + (tail + extra));
    assert name + ([' '] + (f.put(x) + tail)) + extra == name + ([' '] + (f.put(x) + (tail + extra)));
    assert ReadsBack(f, x, tail + extra) && ReadsFitting(f, f.put(x) + (tail + extra));
  }

  /** What stands on a line behind the fields of its message is ignored. */
  lemma ExtraIsIgnored(protocol: Protocol, m: Message, extra: string)
    requires GoodProtocol(protocol) && Fits(protocol, m) && Delimited(extra)
    ensures Dispatch(protocol, Line(protocol, m) + extra) == Deliver(m)
  {
    assert "" + extra == extra;
    match m
    case AppendEntriesRequest(h, p, es) =>
      var name := NameOf(Append);
      ReadNamedField(protocol.append, name, (h, (p, es)), "", extra);
    case AppendEntriesResponse(h, ok) =>
      var name := NameOf(Reply);
      ReadNamedField(protocol.reply, name, (h, ok), " ", extra);
    case VoteRequest(h) =>
      var name := NameOf(Vote);
      ReadNamedField(protocol.vote, name, h, " ", extra);
    case VoteResponse(h, ok) =>
      var name := NameOf(VoteReply);
      ReadNamedField(protocol.reply, name, (h, ok), " ", extra);
    case ClientRequest(data) =>
      var name := NameOf(Client);
      ReadNamedField(protocol.client, name, data, " ", extra);
    case ConfigChangeRequest(h, p, peers) =>
      var name := NameOf(Config);
      ReadNamedField(protocol.config, name, (h, (p, peers)), "", extra);
  }

  // ---------------------------------------------------------------- numbers that were not printed

  /** Space, tab, line feed, vertical tab, form feed and carriage return. */
  lemma SpacesAre(c: char)
    ensures IsSpace(c) <==> c as int in {0x20, 0x09, 0x0a, 0x0b, 0x0c, 0x0d}
  {
  }

  ghost predicate IsNumeral(sign: string, d: string) {
    sign in {"", "+", "-"} && d != [] && forall j :: 0 <= j < |d| ==> IsDigit(d[j])
  }

  lemma NumeralStarts(sign: string, d: string, rest: string)
    requires IsNumeral(sign, d)
    ensures var t := sign + (d + rest);
            && SkipSpace(t) == t != [] && t[|sign|..] == d + rest
            && (sign == "" ==> IsDigit(t[0])) && (sign != "" ==> t[0] == sign[0])
  {
    var t := sign + (d + rest);
    if sign == "" { assert t[0] == d[0]; }
  }

  /** A sign before the digits, and leading zeros or not. */
  lemma SignedIsRead(sign: string, d: string, rest: string)
    requires IsNumeral(sign, d) && Delimited(rest)
    ensures ReadSigned(sign + (d + rest)) == Ok((sign == "-", DecimalValue(d)), rest)
  {
    NumeralStarts(sign, d, rest);
    DigitSpanOf(d, rest);
    assert (d + rest)[..|d|] == d && (d + rest)[|d|..] == rest;
  }

  /** An unsigned number is taken modulo 2^64 when it is negative, and refused when its digits are
      out of range. */
  lemma UnsignedInRange(sign: string, d: string, rest: string)
    requires IsNumeral(sign, d) && Delimited(rest)
    ensures var m := DecimalValue(d);
            ReadUnsigned(sign + (d + rest)) ==
            if m > 0xffff_ffff_ffff_ffff then Fail
            else if sign == "-" && m > 0 then Ok(0x1_0000_0000_0000_0000 - m, rest) else Ok(m, rest)
  {
    var m := DecimalValue(d);
    SignedIsRead(sign, d, rest);
    if m < U64 { Complement(m); }
  }

  lemma Complement(m: nat)
    requires m < U64
    ensures (U64 - m) % U64 == if m == 0 then 0 else U64 - m
  {
  }

  /** A port is refused when it does not fit 32 bits with a sign, and a flag is zero or one. */
  lemma SignedInRange(sign: string, d: string, rest: string)
    requires IsNumeral(sign, d) && Delimited(rest)
    ensures var m := DecimalValue(d);
            var s := sign + (d + rest);
            && ReadInt(s) == (if sign == "-" then (if m > 0x8000_0000 then Fail else Ok(-(m as int), rest))
                              else if m > 0x7fff_ffff then Fail else Ok(m as int, rest))
            && ReadFlag(s) == (if m == 0 then Ok(false, rest) else if m == 1 && sign != "-" then Ok(true, rest) else Fail)
  {
    SignedIsRead(sign, d, rest);
  }
}
