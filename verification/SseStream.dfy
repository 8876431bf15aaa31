/** The chat stream end to end: `runChatStream` prints one frame per reply chunk while it collects
    the full reply, and `sendAgentChatStream` rebuilds the reply from network segments. */
module SseStream {
  import opened Options
  import opened Seqs
  import opened Text
  import opened SseFormat

  // ------------------------------------------------------------------ server

  /** How the model's reply stream ends: `io.EOF`, or a receive error. */
  datatype End = Completed | Failed(error: string)

  function Connected(clientId: string): Event {
    Event("connected", "{\"status\":\"connected\",\"client_id\":\"" + clientId + "\"}")
  }

  function Terminal(end: End): Event {
    match end
    case Completed => Event("done", "Stream completed")
    case Failed(error) => Event("error", error)
  }

  function Messages(chunks: seq<string>): seq<Event> {
    seq(|chunks|, i requires 0 <= i < |chunks| => Event("message", chunks[i]))
  }

  function Exchange(first: Event, chunks: seq<string>, last: Event): seq<Event> {
    [first] + Messages(chunks) + [last]
  }

  /** The events of one exchange, in the order they are sent. */
  function Sent(clientId: string, chunks: seq<string>, end: End): seq<Event> {
    Exchange(Connected(clientId), chunks, Terminal(end))
  }

  /** The printed bytes of `events`; `clock(n)` is the timestamp of the n-th frame. */
  function Wire(clock: nat -> int, n: nat, events: seq<Event>): string
    decreases |events|
  {
    if events == [] then "" else Frame(clock(n), events[0]) + Wire(clock, n + 1, events[1..])
  }

  lemma {:induction false} WireAppend(clock: nat -> int, n: nat, a: seq<Event>, b: seq<Event>)
    ensures Wire(clock, n, a + b) == Wire(clock, n, a) + Wire(clock, n + |a|, b)
    decreases |a|
  {
    hide Frame;
    if a == [] {
      assert a + b == b;
    } else {
      assert (a + b)[1..] == a[1..] + b;
      WireAppend(clock, n + 1, a[1..], b);
    }
  }

  lemma WireOne(clock: nat -> int, n: nat, e: Event)
    ensures Wire(clock, n, [e]) == Frame(clock(n), e)
  {
    hide Frame;
    assert Wire(clock, n + 1, [e][1..]) == "";
  }

  lemma WireSnoc(clock: nat -> int, events: seq<Event>, e: Event)
    ensures Wire(clock, 0, events + [e]) == Wire(clock, 0, events) + Frame(clock(|events|), e)
  {
    hide Frame;
    hide Wire;
    WireAppend(clock, 0, events, [e]);
    WireOne(clock, |events|, e);
  }

  /** `runChatStream` from the created client on: every chunk is both stored and sent. */
  method RunChatStream(clock: nat -> int, clientId: string, chunks: seq<string>, end: End)
    returns (written: string, fullResponse: string)
    ensures written == Wire(clock, 0, Sent(clientId, chunks, end))
    ensures fullResponse == Flatten(chunks)
  {
    written, fullResponse := Relay(clock, Connected(clientId), chunks, Terminal(end));
  }

  /** The receive loop between the first and the last frame. */
  method Relay(clock: nat -> int, first: Event, chunks: seq<string>, last: Event)
    returns (written: string, fullResponse: string)
    ensures written == Wire(clock, 0, Exchange(first, chunks, last))
    ensures fullResponse == Flatten(chunks)
  {
    hide Frame;
    fullResponse := "";
    written := SendToClient("", clock(0), first);
    ghost var sent := [first];
    WireOne(clock, 0, first);
    hide Wire;
    var i := 0;
    while i < |chunks|
      invariant 0 <= i <= |chunks|
      invariant sent == [first] + Messages(chunks)[..i]
      invariant written == Wire(clock, 0, sent)
      invariant fullResponse == Flatten(chunks[..i])
    {
      fullResponse := fullResponse + chunks[i];
      assert chunks[..i + 1] == chunks[..i] + [chunks[i]];
      FlattenAppend(chunks[..i], [chunks[i]]);
      var e := Event("message", chunks[i]);
      written := SendToClient(written, clock(i + 1), e);
      WireSnoc(clock, sent, e);
      sent := sent + [e];
      i := i + 1;
    }
    assert chunks[..|chunks|] == chunks && Messages(chunks)[..|chunks|] == Messages(chunks);
    written := SendToClient(written, clock(|chunks| + 1), last);
    WireSnoc(clock, sent, last);
  }

  // ------------------------------------------------------------------ client

  /** What the caller's handlers saw: all events, the tokens among them, and the thrown error. */
  datatype Outcome = Outcome(events: seq<Event>, tokens: seq<string>, failure: Option<string>)

  const DEFAULT_FAILURE := "流式响应失败"

  /** Events of the non-empty blocks. */
  function ParseAll(blocks: seq<string>): seq<Event> {
    if blocks == [] then []
    else (match ParseBlock(blocks[0]) case None => [] case Some(e) => [e]) + ParseAll(blocks[1..])
  }

  lemma {:induction false} ParseAllAppend(a: seq<string>, b: seq<string>)
    ensures ParseAll(a + b) == ParseAll(a) + ParseAll(b)
  {
    hide ParseBlock;
    if a == [] {
      assert a + b == b;
    } else {
      assert (a + b)[0] == a[0] && (a + b)[1..] == a[1..] + b;
      ParseAllAppend(a[1..], b);
    }
  }

  function FailureText(data: string): string {
    if data == "" then DEFAULT_FAILURE else data
  }

  /** Handling events in order up to the first `error` event, which throws. */
  function Handle(events: seq<Event>): Outcome {
    if events == [] then Outcome([], [], None)
    else
      var e := events[0];
      if e.name == "error" then
        Outcome([e], [], Some(FailureText(e.data)))
      else
        var tail := Handle(events[1..]);
        Outcome([e] + tail.events, (if e.name == "message" then [e.data] else []) + tail.tokens,
                tail.failure)
  }

  lemma {:induction false} HandleAppend(a: seq<Event>, b: seq<Event>)
    ensures var x, y := Handle(a), Handle(b);
            Handle(a + b) == if x.failure.Some? then x
                             else Outcome(x.events + y.events, x.tokens + y.tokens, y.failure)
  {
    if a == [] {
      assert a + b == b;
    } else {
      assert (a + b)[0] == a[0] && (a + b)[1..] == a[1..] + b;
      HandleAppend(a[1..], b);
      var x, y := Handle(a[1..]), Handle(b);
      var e, token := [a[0]], if a[0].name == "message" then [a[0].data] else [];
      assert e + (x.events + y.events) == (e + x.events) + y.events;
      assert token + (x.tokens + y.tokens) == (token + x.tokens) + y.tokens;
    }
  }

  /** What the whole text means to the client, with no reference to how it was cut. */
  function Received(text: string): Outcome {
    Handle(ParseAll(SplitBlocks(text).done))
  }

  /** `sendAgentChatStream`: reads segments, splits the growing buffer, handles complete blocks. */
  method SendAgentChatStream(segments: seq<string>) returns (seen: Outcome)
    ensures seen == Received(Flatten(segments))
  {
    var buffer := "";
    seen := Outcome([], [], None);
    var i := 0;
    ghost var done: seq<string> := [];
    while i < |segments|
      invariant 0 <= i <= |segments|
      invariant SplitBlocks(Flatten(segments[..i])) == Blocks(done, buffer)
      invariant seen == Handle(ParseAll(done)) && seen.failure.None?
    {
      ReadSegment(segments, i, done, buffer);
      var split := SplitBlocks(buffer + segments[i]);
      buffer := split.rest;
      seen := HandleBlocks(seen, done, split.done);
      done := done + split.done;
      i := i + 1;
      if seen.failure.Some? {
        FailureIsFinal(segments, i, done);
        return;
      }
    }
    assert segments[..|segments|] == segments;
  }

  lemma ReadSegment(segments: seq<string>, i: nat, done: seq<string>, buffer: string)
    requires i < |segments|
    requires SplitBlocks(Flatten(segments[..i])) == Blocks(done, buffer)
    ensures var split := SplitBlocks(buffer + segments[i]);
            SplitBlocks(Flatten(segments[..i + 1])) == Blocks(done + split.done, split.rest)
  {
    assert segments[..i + 1] == segments[..i] + [segments[i]];
    FlattenAppend(segments[..i], [segments[i]]);
    FlattenOne(segments[i]);
    hide Flatten;
    hide SplitBlocks;
    SplitBlocksExtend(Flatten(segments[..i]), segments[i]);
  }

  lemma FlattenOne(part: string)
    ensures Flatten([part]) == part
  {
    assert Flatten([part][1..]) == [];
  }

  /** The inner loop over the complete blocks of one read. */
  method HandleBlocks(before: Outcome, ghost done: seq<string>, blocks: seq<string>)
    returns (seen: Outcome)
    requires before == Handle(ParseAll(done)) && before.failure.None?
    ensures seen == Handle(ParseAll(done + blocks))
  {
    hide ParseBlock;
    hide ParseAll;
    hide Handle;
    seen := before;
    var k := 0;
    assert done + blocks[..0] == done;
    while k < |blocks|
      invariant 0 <= k <= |blocks|
      invariant seen == Handle(ParseAll(done + blocks[..k])) && seen.failure.None?
    {
      var parsed := ParseSseBlock(blocks[k]);
      OneMoreBlock(done, blocks, k, seen);
      if parsed.Some? {
        var e := parsed.value;
        seen := seen.(events := seen.events + [e]);
        if e.name == "message" { seen := seen.(tokens := seen.tokens + [e.data]); }
        if e.name == "error" { seen := seen.(failure := Some(FailureText(e.data))); }
      }
      k := k + 1;
      if seen.failure.Some? {
        FailureEnds(done + blocks[..k], blocks[k..]);
        assert done + blocks[..k] + blocks[k..] == done + blocks;
        return;
      }
    }
    assert blocks[..|blocks|] == blocks;
  }

  /** One more event: both handlers, then the throw. */
  function HandleOne(seen: Outcome, e: Event): Outcome {
    Outcome(seen.events + [e], seen.tokens + if e.name == "message" then [e.data] else [],
            if e.name == "error" then Some(FailureText(e.data)) else seen.failure)
  }

  lemma HandleSnoc(events: seq<Event>, e: Event)
    requires Handle(events).failure.None?
    ensures Handle(events + [e]) == HandleOne(Handle(events), e)
  {
    HandleAppend(events, [e]);
    assert "message" != "error" by { assert "message"[0] != "error"[0]; }
    assert Handle([e]).events == [e];
    assert Handle([e]).tokens == if e.name == "message" then [e.data] else [];
  }

  lemma OneMoreBlock(done: seq<string>, blocks: seq<string>, k: nat, seen: Outcome)
    requires k < |blocks| && seen == Handle(ParseAll(done + blocks[..k])) && seen.failure.None?
    ensures Handle(ParseAll(done + blocks[..k + 1])) ==
            match ParseBlock(blocks[k]) case None => seen case Some(e) => HandleOne(seen, e)
  {
    hide ParseBlock;
    hide Handle;
    hide HandleOne;
    var sofar, b := done + blocks[..k], blocks[k];
    assert done + blocks[..k + 1] == sofar + [b];
    ParseAllAppend(sofar, [b]);
    assert ParseAll([b]) == match ParseBlock(b) case None => [] case Some(e) => [e] by { assert [b][1..] == []; }
    hide ParseAll;
    match ParseBlock(b)
    case None => assert ParseAll(sofar) + [] == ParseAll(sofar);
    case Some(e) => HandleSnoc(ParseAll(sofar), e);
  }

  lemma FailureEnds(done: seq<string>, more: seq<string>)
    requires Handle(ParseAll(done)).failure.Some?
    ensures Handle(ParseAll(done + more)) == Handle(ParseAll(done))
  {
    hide Handle;
    ParseAllAppend(done, more);
    hide ParseAll;
    HandleAppend(ParseAll(done), ParseAll(more));
  }

  lemma FailureIsFinal(segments: seq<string>, i: nat, done: seq<string>)
    requires i <= |segments|
    requires SplitBlocks(Flatten(segments[..i])).done == done
    requires Handle(ParseAll(done)).failure.Some?
    ensures Received(Flatten(segments)) == Handle(ParseAll(done))
  {
    hide SplitBlocks;
    hide ParseAll;
    hide Handle;
    assert segments[..i] + segments[i..] == segments;
    FlattenAppend(segments[..i], segments[i..]);
    ReceivedExtend(Flatten(segments[..i]), Flatten(segments[i..]));
  }

  /** A text that arrives only in part yields a prefix of what the whole yields. */
  lemma ReceivedExtend(text: string, more: string)
    ensures var x, z := Received(text), Received(text + more);
            x.events <= z.events && x.tokens <= z.tokens && (x.failure.Some? ==> z == x)
  {
    SplitBlocksExtend(text, more);
    var x := SplitBlocks(text);
    var y := SplitBlocks(x.rest + more);
    ParseAllAppend(x.done, y.done);
    HandleAppend(ParseAll(x.done), ParseAll(y.done));
  }

  // -------------------------------------------------------------- end to end

  function AsReceived(events: seq<Event>): seq<Event> {
    if events == [] then []
    else [Event(Trim(JsSpace, events[0].name), Clean(events[0].data))] + AsReceived(events[1..])
  }

  /** The printed stream is cut into one block per event and nothing is left over. */
  lemma {:induction false} WireParses(clock: nat -> int, n: nat, events: seq<Event>)
    requires forall e | e in events :: '\n' !in e.name
    ensures SplitBlocks(Wire(clock, n, events)).rest == ""
    ensures ParseAll(SplitBlocks(Wire(clock, n, events)).done) == AsReceived(events)
    decreases |events|
  {
    if events != [] {
      assert events[0] in events;
      var rest := Wire(clock, n + 1, events[1..]);
      FrameParses(clock(n), events[0], rest);
      WireParses(clock, n + 1, events[1..]);
      ParseAllAppend([BlockText(FrameLines(clock(n), events[0]))], SplitBlocks(rest).done);
    }
  }

  function CleanAll(chunks: seq<string>): seq<string> {
    if chunks == [] then [] else [Clean(chunks[0])] + CleanAll(chunks[1..])
  }

  lemma {:induction false} HandleMessages(chunks: seq<string>)
    ensures var x := Handle(AsReceived(Messages(chunks)));
            x.tokens == CleanAll(chunks) && x.failure.None? && |x.events| == |chunks|
  {
    if chunks != [] {
      assert Messages(chunks)[1..] == Messages(chunks[1..]);
      assert Trimmed(JsSpace, "message");
      TrimIsTrimmed(JsSpace, "message");
      HandleMessages(chunks[1..]);
    }
  }

  /** Cleaning the chunks loses nothing from their concatenation exactly when every chunk is free
      of carriage returns at line ends: any loss shortens the text. */
  lemma {:induction false} CleanAllKeeps(chunks: seq<string>)
    ensures |Flatten(CleanAll(chunks))| <= |Flatten(chunks)|
    ensures |Flatten(CleanAll(chunks))| == |Flatten(chunks)| <==>
            forall c | c in chunks :: NoCrAtLineEnd(c)
    ensures (forall c | c in chunks :: NoCrAtLineEnd(c)) ==> Flatten(CleanAll(chunks)) == Flatten(chunks)
  {
    if chunks != [] {
      assert chunks == [chunks[0]] + chunks[1..];
      CleanKeeps(chunks[0]);
      CleanAllKeeps(chunks[1..]);
    }
  }

  lemma {:induction false} AsReceivedAppend(a: seq<Event>, b: seq<Event>)
    ensures AsReceived(a + b) == AsReceived(a) + AsReceived(b)
  {
    if a == [] {
      assert a + b == b;
    } else {
      assert (a + b)[1..] == a[1..] + b;
      AsReceivedAppend(a[1..], b);
    }
  }

  /** An exchange whose first event is neither a message nor an error. */
  lemma HandleExchange(first: Event, chunks: seq<string>, last: Event)
    requires first.name != "message" && first.name != "error" && last.name != "message"
    requires Trimmed(JsSpace, first.name) && Trimmed(JsSpace, last.name)
    ensures var seen := Handle(AsReceived(Exchange(first, chunks, last)));
            seen.tokens == CleanAll(chunks) && |seen.events| == |chunks| + 2 &&
            seen.failure == if last.name == "error" then Some(FailureText(Clean(last.data))) else None
  {
    hide Clean;
    hide JsSpace;
    TrimIsTrimmed(JsSpace, first.name);
    TrimIsTrimmed(JsSpace, last.name);
    AsReceivedAppend([first] + Messages(chunks), [last]);
    AsReceivedAppend([first], Messages(chunks));
    HandleMessages(chunks);
    HandleAppend(AsReceived([first]), AsReceived(Messages(chunks)));
    HandleAppend(AsReceived([first] + Messages(chunks)), AsReceived([last]));
  }

  /** For every exchange and every cutting of its printed text into segments: the tokens are the
      cleaned chunks in order, `connected` and the terminal frame contribute none, and the client
      throws exactly when the server reported an error, with its message. */
  lemma StreamIsDelivered(clock: nat -> int, clientId: string, chunks: seq<string>, end: End,
                          segments: seq<string>)
    requires Flatten(segments) == Wire(clock, 0, Sent(clientId, chunks, end))
    ensures var seen := Received(Flatten(segments));
            seen.tokens == CleanAll(chunks) &&
            |seen.events| == |chunks| + 2 &&
            seen.failure == (match end
                             case Completed => None
                             case Failed(error) =>
                               Some(if Clean(error) == "" then "流式响应失败" else Clean(error)))
  {
    hide Clean;
    hide Frame;
    FixedNames(clientId, end);
    DeliverExchange(clock, Connected(clientId), chunks, Terminal(end));
  }

  lemma FixedNames(clientId: string, end: End)
    ensures Plain(Connected(clientId).name) && Plain(Terminal(end).name)
    ensures Connected(clientId).name !in ["message", "error"]
    ensures Terminal(end).name != "message" && (Terminal(end).name == "error" <==> end.Failed?)
  {
    assert Connected(clientId).name == "connected" && "connected"[0] == 'c';
    assert Terminal(end).name[0] != 'm';
  }

  /** An event name that prints and parses back unchanged. */
  predicate Plain(name: string) {
    '\n' !in name && Trimmed(JsSpace, name)
  }

  lemma DeliverExchange(clock: nat -> int, first: Event, chunks: seq<string>, last: Event)
    requires Plain(first.name) && Plain(last.name)
    requires first.name !in ["message", "error"] && last.name != "message"
    ensures var seen := Received(Wire(clock, 0, Exchange(first, chunks, last)));
            seen.tokens == CleanAll(chunks) && |seen.events| == |chunks| + 2 &&
            seen.failure == if last.name == "error" then Some(FailureText(Clean(last.data))) else None
  {
    hide Clean;
    hide Frame;
    hide JsSpace;
    forall e | e in Exchange(first, chunks, last) ensures '\n' !in e.name {
      ExchangeMember(first, chunks, last, e);
    }
    WireParses(clock, 0, Exchange(first, chunks, last));
    HandleExchange(first, chunks, last);
  }

  lemma ExchangeMember(first: Event, chunks: seq<string>, last: Event, e: Event)
    requires e in Exchange(first, chunks, last)
    ensures e == first || e == last || e.name == "message"
  {
    assert e in [first] || e in Messages(chunks) || e in [last];
  }

  /** The reply shown to the user is the reply stored by the server exactly when no chunk has a
      carriage return at a line end. */
  lemma ShownReplyIsStoredReply(clock: nat -> int, clientId: string, chunks: seq<string>, end: End,
                                segments: seq<string>)
    requires Flatten(segments) == Wire(clock, 0, Sent(clientId, chunks, end))
    ensures Flatten(Received(Flatten(segments)).tokens) == Flatten(chunks) <==>
            forall c | c in chunks :: NoCrAtLineEnd(c)
  {
    StreamIsDelivered(clock, clientId, chunks, end, segments);
    CleanAllKeeps(chunks);
  }

  // ---------------------------------------------------------- in the source's words

  /** Handlers see every event up to the first error. */
  lemma {:induction false} AllSeen(events: seq<Event>)
    requires forall i | 0 <= i < |events| - 1 :: events[i].name != "error"
    ensures Handle(events).events == events
  {
    if events != [] && |events| > 1 {
      assert events[0].name != "error";
      assert forall i | 0 <= i < |events[1..]| - 1 :: events[1..][i] == events[i + 1];
      AllSeen(events[1..]);
      assert events == [events[0]] + events[1..];
    } else if events != [] {
      assert events == [events[0]] && Handle(events[1..]).events == [];
    }
  }

  lemma {:induction false} AsReceivedAt(events: seq<Event>, i: nat)
    requires i < |events|
    ensures |AsReceived(events)| == |events|
    ensures AsReceived(events)[i] == Event(Trim(JsSpace, events[i].name), Clean(events[i].data))
  {
    hide Clean;
    hide Trim;
    if |events| > 1 { AsReceivedAt(events[1..], if i > 0 then i - 1 else 0); }
  }

  lemma PlainNamesStay(e: Event)
    requires e.name in ["connected", "message", "done", "error"]
    ensures Trim(JsSpace, e.name) == e.name
  {
    assert Trimmed(JsSpace, "connected") && Trimmed(JsSpace, "message");
    assert Trimmed(JsSpace, "done") && Trimmed(JsSpace, "error");
    TrimIsTrimmed(JsSpace, e.name);
  }

  /** For every exchange and every cutting of its printed text into segments the browser sees these events
      in this order: `connected`, one `message` with each chunk, then `done` or an `error` with the
      server's message. */
  lemma EventsAreDelivered(clock: nat -> int, clientId: string, chunks: seq<string>, end: End, segments: seq<string>)
    requires Flatten(segments) == Wire(clock, 0, Sent(clientId, chunks, end))
    ensures var events, n := Received(Flatten(segments)).events, |chunks|;
            |events| == n + 2 && events[0].name == "connected" &&
            (forall i | 0 <= i < n :: events[i + 1] == Event("message", Clean(chunks[i]))) &&
            events[n + 1] == match end
                             case Completed => Event("done", Clean("Stream completed"))
                             case Failed(error) => Event("error", Clean(error))
  {
    hide Clean;
    hide Wire;
    hide Handle;
    hide AsReceived;
    hide Sent;
    var sent, n := Sent(clientId, chunks, end), |chunks|;
    SentEvents(clientId, chunks, end);
    assert forall e | e in sent :: '\n' !in e.name;
    WireParses(clock, 0, sent);
    SentAsReceived(clientId, chunks, end);
    AllSeen(AsReceived(sent));
  }

  predicate KnownName(name: string) {
    name in ["connected", "message", "done", "error"] && '\n' !in name
  }

  lemma SentEvents(clientId: string, chunks: seq<string>, end: End)
    ensures var sent, n := Sent(clientId, chunks, end), |chunks|;
            |sent| == n + 2 && sent[0].name == "connected" &&
            (forall i | 0 <= i < n :: sent[i + 1] == Event("message", chunks[i])) &&
            sent[n + 1] == (match end
                            case Completed => Event("done", "Stream completed")
                            case Failed(error) => Event("error", error)) &&
            (forall e | e in sent :: KnownName(e.name))
  {
    hide Exchange;
    hide KnownName;
    var first, last := Connected(clientId), Terminal(end);
    ExchangeShape(first, chunks, last);
    TheirNames(clientId, end);
    forall e | e in Sent(clientId, chunks, end) ensures KnownName(e.name) { ExchangeMember(first, chunks, last, e); }
  }

  lemma ExchangeShape(first: Event, chunks: seq<string>, last: Event)
    ensures var sent, n := Exchange(first, chunks, last), |chunks|;
            |sent| == n + 2 && sent[0] == first && sent[n + 1] == last &&
            forall i | 0 <= i < n :: sent[i + 1] == Event("message", chunks[i])
  {
  }

  lemma TheirNames(clientId: string, end: End)
    ensures KnownName(Connected(clientId).name) && KnownName("message") && KnownName(Terminal(end).name)
  {
  }

  lemma SentAsReceived(clientId: string, chunks: seq<string>, end: End)
    ensures var got, n := AsReceived(Sent(clientId, chunks, end)), |chunks|;
            |got| == n + 2 && got[0].name == "connected" &&
            (forall i | 0 <= i < n :: got[i + 1] == Event("message", Clean(chunks[i]))) &&
            got[n + 1] == (match end
                           case Completed => Event("done", Clean("Stream completed"))
                           case Failed(error) => Event("error", Clean(error))) &&
            (forall i | 0 <= i < |got| - 1 :: got[i].name != "error")
  {
    hide Clean;
    hide AsReceived;
    hide Sent;
    var sent, n := Sent(clientId, chunks, end), |chunks|;
    var got := AsReceived(sent);
    SentEvents(clientId, chunks, end);
    forall i | 0 <= i < n + 2 ensures |got| == n + 2 && got[i] == Event(sent[i].name, Clean(sent[i].data)) {
      AsReceivedAt(sent, i);
      assert sent[i] in sent;
      PlainNamesStay(sent[i]);
    }
    forall i | 0 <= i < n ensures got[i + 1] == Event("message", Clean(chunks[i])) {
      assert sent[i + 1] == Event("message", chunks[i]);
    }
    NotErrors();
    forall i | 0 <= i < |got| - 1 ensures got[i].name != "error" {
      if i > 0 { assert sent[i - 1 + 1] == Event("message", chunks[i - 1]); }
    }
  }

  lemma NotErrors()
    ensures "message" != "error" && "connected" != "error"
  {
    assert "message"[0] == 'm' && "error"[0] == 'e' && "connected"[0] == 'c';
  }
}
