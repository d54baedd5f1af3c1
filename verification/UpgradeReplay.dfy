/**
 Replaying declined upgrade offers. A connection's bytes are a stream of pieces,
 cut into segments anywhere between them; the parser assembles heads from them
 and stops after any head that offers an upgrade, and the protocol feeds a
 sanitized head and the rest of the segment to a fresh parser.
 */
module UpgradeReplay {
  import opened Basics
  import opened UpgradeOffer

  datatype Item =
    | Head(target: Bytes, headers: seq<Header>)
    | Body(chunk: Bytes)
    | End
    | Malformed

  predicate Offers(x: Item) {
    x.Head? && Offer(x.headers).Some?
  }

  /** The parser stops here: at an offer, or with an error. */
  predicate Pauses(x: Item) {
    Offers(x) || x.Malformed?
  }

  /** The offer is declined and the request served as plain HTTP. */
  predicate Declined(x: Item) {
    x.Head? && Ignorable(x.headers)
  }

  /** The request as the application is to see it. */
  function Plain(x: Item): Item {
    if Declined(x) then Head(x.target, WithoutUpgrade(x.headers)) else x
  }

  lemma PlainOffersNothing(x: Item)
    ensures Declined(x) ==> Offers(x) && !Pauses(Plain(x))
    ensures Plain(Plain(x)) == Plain(x)
  {
    if Declined(x) { SanitizedOffersNothing(x.headers); }
  }

  /**
   What comes of the item that ends HTTP: a malformed one is answered as such, a
   WebSocket offer is handed off, or its head served with an empty body.
   */
  function Final(last: Item, webSockets: bool): seq<Item> {
    if last.Malformed? then [Malformed] else if webSockets then [] else [last, End]
  }

  /** The connection stops being HTTP here. */
  predicate Ends(x: Item) {
    Pauses(x) && !Declined(x)
  }

  /** What a stream delivers: everything in plain form, up to an item that ends HTTP on the connection. */
  function Delivered(items: seq<Item>, webSockets: bool): seq<Item> {
    if items == [] then []
    else if Ends(items[0]) then Final(items[0], webSockets)
    else [Plain(items[0])] + Delivered(items[1..], webSockets)
  }

  /** No WebSocket offer and nothing malformed: HTTP goes on after the stream. */
  predicate StaysHttp(items: seq<Item>) {
    items == [] || (!Ends(items[0]) && StaysHttp(items[1..]))
  }

  /** How many requests of the segment still carry an offer: what each replay brings down. */
  function OfferCount(items: seq<Item>): nat {
    if items == [] then 0 else (if Offers(items[0]) then 1 else 0) + OfferCount(items[1..])
  }

  predicate NoPauses(items: seq<Item>) {
    forall i :: 0 <= i < |items| ==> !Pauses(items[i])
  }

  lemma {:induction false} DeliveredAfter(clean: seq<Item>, rest: seq<Item>, webSockets: bool)
    requires NoPauses(clean)
    ensures Delivered(clean + rest, webSockets) == clean + Delivered(rest, webSockets)
  {
    if clean == [] {
      assert clean + rest == rest;
    } else {
      assert (clean + rest)[1..] == clean[1..] + rest;
      PlainOffersNothing(clean[0]);
      DeliveredAfter(clean[1..], rest, webSockets);
    }
  }

  lemma {:induction false} MeasuresAfter(clean: seq<Item>, rest: seq<Item>)
    requires NoPauses(clean)
    ensures OfferCount(clean + rest) == OfferCount(rest)
    ensures StaysHttp(clean + rest) == StaysHttp(rest)
  {
    if clean == [] {
      assert clean + rest == rest;
    } else {
      assert (clean + rest)[1..] == clean[1..] + rest;
      MeasuresAfter(clean[1..], rest);
    }
  }

  /** The state of one pass over the segment: what is delivered so far and what is to be fed. */
  ghost predicate Same(events: seq<Item>, data: seq<Item>, events': seq<Item>, data': seq<Item>, webSockets: bool) {
    && events + Delivered(data, webSockets) == events' + Delivered(data', webSockets)
    && StaysHttp(data) == StaysHttp(data')
  }

  /** Delivering the items before the head the parser stopped at changes neither the outcome nor the measure. */
  lemma Paused(events: seq<Item>, clean: seq<Item>, rest: seq<Item>, webSockets: bool)
    requires NoPauses(clean)
    ensures Same(events, clean + rest, events + clean, rest, webSockets)
    ensures OfferCount(clean + rest) == OfferCount(rest)
  {
    DeliveredAfter(clean, rest, webSockets);
    MeasuresAfter(clean, rest);
    assert events + (clean + Delivered(rest, webSockets)) == (events + clean) + Delivered(rest, webSockets);
  }

  /** Replacing a declined head by its plain form delivers the same and leaves one offer fewer. */
  lemma Replayed(events: seq<Item>, head: Item, rest: seq<Item>, webSockets: bool)
    requires Declined(head)
    ensures Same(events, [head] + rest, events, [Plain(head)] + rest, webSockets)
    ensures OfferCount([Plain(head)] + rest) < OfferCount([head] + rest)
  {
    PlainOffersNothing(head);
    assert ([Plain(head)] + rest)[1..] == rest && ([head] + rest)[1..] == rest;
  }

  lemma Stopped(head: Item, rest: seq<Item>, webSockets: bool)
    requires Ends(head)
    ensures Delivered([head] + rest, webSockets) == Final(head, webSockets) && !StaysHttp([head] + rest)
  {
  }

  // ----- pieces -----

  /** What the parser makes of the bytes: fragments of a target, fields, the end of a head, a body chunk, an end, an error. */
  datatype Piece = Url(fragment: Bytes) | Field(header: Header) | HeadEnd | Chunk(bytes: Bytes) | Finish | Junk

  /** A head of which only the beginning has arrived. */
  datatype Partial = Partial(target: Bytes, headers: seq<Header>)

  const NOTHING := Partial("", [])

  function Advance(p: Partial, x: Piece): Partial {
    match x
    case Url(fragment) => Partial(p.target + fragment, p.headers)
    case Field(header) => Partial(p.target, p.headers + [header])
    case HeadEnd => NOTHING
    case _ => p
  }

  /** The item a piece completes, if any. */
  function Completed(p: Partial, x: Piece): seq<Item> {
    match x
    case HeadEnd => [Head(p.target, p.headers)]
    case Chunk(bytes) => [Body(bytes)]
    case Finish => [End]
    case Junk => [Malformed]
    case _ => []
  }

  function Items(pieces: seq<Piece>, p: Partial): seq<Item>
    decreases pieces
  {
    if pieces == [] then [] else Completed(p, pieces[0]) + Items(pieces[1..], Advance(p, pieces[0]))
  }

  function Left(pieces: seq<Piece>, p: Partial): Partial
    decreases pieces
  {
    if pieces == [] then p else Left(pieces[1..], Advance(p, pieces[0]))
  }

  /** Where a stream is cut makes no difference to its items, head or no head in between. */
  lemma {:induction false} ItemsConcat(x: seq<Piece>, y: seq<Piece>, p: Partial)
    ensures Items(x + y, p) == Items(x, p) + Items(y, Left(x, p))
    ensures Left(x + y, p) == Left(y, Left(x, p))
    decreases x
  {
    if x == [] {
      assert x + y == y;
    } else {
      assert (x + y)[1..] == x[1..] + y && (x + y)[0] == x[0];
      ItemsConcat(x[1..], y, Advance(p, x[0]));
    }
  }

  function Fields(headers: seq<Header>): seq<Piece> {
    if headers == [] then [] else [Field(headers[0])] + Fields(headers[1..])
  }

  /** A head written out. */
  function Rendered(target: Bytes, headers: seq<Header>): seq<Piece> {
    [Url(target)] + Fields(headers) + [HeadEnd]
  }

  lemma {:induction false} FieldsAppend(headers: seq<Header>, h: Header)
    ensures Fields(headers + [h]) == Fields(headers) + [Field(h)]
  {
    if headers != [] {
      assert (headers + [h])[1..] == headers[1..] + [h];
      FieldsAppend(headers[1..], h);
    }
  }

  lemma {:induction false} FieldsRead(headers: seq<Header>, p: Partial)
    ensures Items(Fields(headers), p) == [] && Left(Fields(headers), p) == Partial(p.target, p.headers + headers)
    decreases headers
  {
    if headers == [] {
      assert p.headers + headers == p.headers;
    } else {
      var init, h := headers[..|headers| - 1], headers[|headers| - 1];
      assert init + [h] == headers;
      FieldsRead(init, p);
      FieldsAppend(init, h);
      ItemsConcat(Fields(init), [Field(h)], p);
      OnePiece(Field(h), Partial(p.target, p.headers + init));
      assert (p.headers + init) + [h] == p.headers + headers;
    }
  }

  lemma OnePiece(x: Piece, p: Partial)
    ensures Items([x], p) == Completed(p, x) && Left([x], p) == Advance(p, x)
  {
    assert [x][1..] == [];
  }

  /** Reading a written head gives the head back. */
  lemma RenderedRead(target: Bytes, headers: seq<Header>)
    ensures Items(Rendered(target, headers), NOTHING) == [Head(target, headers)]
    ensures Left(Rendered(target, headers), NOTHING) == NOTHING
  {
    var p := Partial(target, []);
    assert "" + target == target && [] + headers == headers;
    OnePiece(Url(target), NOTHING);
    FieldsRead(headers, p);
    ItemsConcat([Url(target)], Fields(headers), NOTHING);
    OnePiece(HeadEnd, Partial(target, headers));
    ItemsConcat([Url(target)] + Fields(headers), [HeadEnd], NOTHING);
  }

  lemma RenderedThen(target: Bytes, headers: seq<Header>, rest: seq<Piece>)
    ensures Items(Rendered(target, headers) + rest, NOTHING) == [Head(target, headers)] + Items(rest, NOTHING)
    ensures Left(Rendered(target, headers) + rest, NOTHING) == Left(rest, NOTHING)
  {
    RenderedRead(target, headers);
    ItemsConcat(Rendered(target, headers), rest, NOTHING);
  }

  /** The lines of the head without the declined offer. */
  method SanitizedRequestHead(target: Bytes, headers: seq<Header>) returns (lines: seq<Piece>)
    ensures lines == Rendered(target, WithoutUpgrade(headers))
  {
    lines := [Url(target)];
    var sanitized := WithoutUpgradeHeaders(headers);
    for i := 0 to |sanitized|
      invariant lines == [Url(target)] + Fields(sanitized[..i])
    {
      assert sanitized[..i + 1] == sanitized[..i] + [sanitized[i]];
      FieldsAppend(sanitized[..i], sanitized[i]);
      lines := lines + [Field(sanitized[i])];
    }
    assert sanitized[..|sanitized|] == sanitized;
    lines := lines + [HeadEnd];
  }

  // ----- the protocol -----

  /** The pieces up to `n` complete the items delivered and then the one the parser stopped at. */
  ghost predicate Fed(data: seq<Piece>, p: Partial, n: nat, clean: seq<Item>, stop: seq<Item>, now: Partial) {
    n <= |data| && NoPauses(clean) && Items(data[..n], p) == clean + stop && Left(data[..n], p) == now
  }

  lemma FeedOne(data: seq<Piece>, p: Partial, n: nat, clean: seq<Item>, now: Partial)
    requires n < |data| && Fed(data, p, n, clean, [], now)
    ensures var done := Completed(now, data[n]);
            if done != [] && Pauses(done[0]) then Fed(data, p, n + 1, clean, done, Advance(now, data[n]))
            else Fed(data, p, n + 1, clean + done, [], Advance(now, data[n]))
  {
    assert data[..n + 1] == data[..n] + [data[n]];
    ItemsConcat(data[..n], [data[n]], p);
    OnePiece(data[n], now);
    var done := Completed(now, data[n]);
    assert clean + [] == clean && (clean + done) + [] == clean + done;
  }

  lemma SplitAt(data: seq<Piece>, n: nat, p: Partial)
    requires n <= |data|
    ensures Items(data, p) == Items(data[..n], p) + Items(data[n..], Left(data[..n], p))
    ensures Left(data, p) == Left(data[n..], Left(data[..n], p))
  {
    assert data[..n] + data[n..] == data;
    ItemsConcat(data[..n], data[n..], p);
  }

  /** After feeding: what was delivered and what is still to be fed say what the segment said. */
  lemma PassOver(events: seq<Item>, data: seq<Piece>, p: Partial, n: nat, clean: seq<Item>, stop: seq<Item>,
                 now: Partial, webSockets: bool)
    requires Fed(data, p, n, clean, stop, now)
    ensures Same(events, Items(data, p), events + clean, stop + Items(data[n..], now), webSockets)
    ensures OfferCount(Items(data, p)) == OfferCount(stop + Items(data[n..], now))
    ensures Left(data, p) == Left(data[n..], now)
  {
    var rest := Items(data[n..], now);
    SplitAt(data, n, p);
    assert (clean + stop) + rest == clean + (stop + rest);
    Paused(events, clean, stop + rest, webSockets);
  }

  /** Feeding the written-out sanitized head instead delivers the same and leaves one offer fewer. */
  lemma ReplayOver(events: seq<Item>, head: Item, rest: seq<Piece>, webSockets: bool)
    requires Declined(head)
    ensures var data := Rendered(head.target, WithoutUpgrade(head.headers)) + rest;
            && Same(events, [head] + Items(rest, NOTHING), events, Items(data, NOTHING), webSockets)
            && OfferCount(Items(data, NOTHING)) < OfferCount([head] + Items(rest, NOTHING))
            && Left(data, NOTHING) == Left(rest, NOTHING)
  {
    RenderedThen(head.target, WithoutUpgrade(head.headers), rest);
    Replayed(events, head, Items(rest, NOTHING), webSockets);
  }

  lemma NothingToFeed(data: seq<Piece>, now: Partial, webSockets: bool)
    ensures var rest := [] + Items(data[|data|..], now);
            rest == [] && Delivered(rest, webSockets) == [] && StaysHttp(rest) && Left(data[|data|..], now) == now
  {
    assert data[|data|..] == [];
  }

  class Protocol {
    const webSockets: bool
    /** Callbacks passed on to the application, in order. */
    var events: seq<Item>
    /** The target and the headers of the head being read. */
    var partial: Partial
    /** False once the connection was handed to WebSocket, or stopped on an unsupported offer or an error. */
    var http: bool

    constructor (webSockets: bool)
      ensures events == [] && http && partial == NOTHING && this.webSockets == webSockets
    {
      this.webSockets, events, partial, http := webSockets, [], NOTHING, true;
    }

    /** Feeds pieces to the parser until it stops at an item; nothing of that one is passed on. */
    method FeedData(data: seq<Piece>) returns (n: nat, stop: seq<Item>, ghost clean: seq<Item>)
      modifies this`events, this`partial
      ensures Fed(data, old(partial), n, clean, stop, partial) && events == old(events) + clean
      ensures stop == [] ==> n == |data|
      ensures stop != [] ==> |stop| == 1 && Pauses(stop[0]) && (stop[0].Head? ==> partial == NOTHING)
    {
      n, clean, stop := 0, [], [];
      assert data[..0] == [];
      while n < |data|
        invariant Fed(data, old(partial), n, clean, [], partial) && events == old(events) + clean
      {
        FeedOne(data, old(partial), n, clean, partial);
        var completed := Completed(partial, data[n]);
        partial := Advance(partial, data[n]);
        n := n + 1;
        if completed != [] && Pauses(completed[0]) {
          return n, completed, clean;
        }
        assert (old(events) + clean) + completed == old(events) + (clean + completed);
        events := events + completed;
        clean := clean + completed;
      }
    }

    method DataReceived(segment: seq<Piece>)
      modifies this`events, this`partial, this`http
      ensures old(http) ==> events == old(events) + Delivered(Items(segment, old(partial)), webSockets)
      ensures http == (old(http) && StaysHttp(Items(segment, old(partial))))
      ensures http ==> partial == Left(segment, old(partial))
      ensures !old(http) ==> events == old(events)
    {
      if !http {
        return;
      }
      var data := segment;
      while true
        invariant http && Left(data, partial) == Left(segment, old(partial))
        invariant Same(old(events), Items(segment, old(partial)), events, Items(data, partial), webSockets)
        decreases OfferCount(Items(data, partial))
      {
        ghost var before, p := events, partial;
        var n, stop;
        ghost var clean;
        n, stop, clean := FeedData(data);
        PassOver(before, data, p, n, clean, stop, partial, webSockets);
        if stop == [] {
          NothingToFeed(data, partial, webSockets);
          return;
        }
        var head := stop[0];
        assert stop == [head];
        if !Declined(head) {
          Stopped(head, Items(data[n..], partial), webSockets);
          events, http := events + Final(head, webSockets), false;
          return;
        }
        ReplayOver(events, head, data[n..], webSockets);
        var lines := SanitizedRequestHead(head.target, head.headers);
        data := lines + data[n..];
      }
    }
  }

  // ----- whole connections -----

  function PlainAll(items: seq<Item>): (r: seq<Item>)
    ensures |r| == |items| && forall i :: 0 <= i < |r| ==> r[i] == Plain(items[i])
  {
    seq(|items|, i requires 0 <= i < |items| => Plain(items[i]))
  }

  /** Without a WebSocket offer or an error every item is delivered exactly once, in order, in plain form. */
  lemma {:induction false} EveryRequestOnce(items: seq<Item>, webSockets: bool)
    requires StaysHttp(items)
    ensures Delivered(items, webSockets) == PlainAll(items)
  {
    if items != [] {
      EveryRequestOnce(items[1..], webSockets);
      assert PlainAll(items) == [Plain(items[0])] + PlainAll(items[1..]);
    }
  }

  /** And nothing delivered still carries an offer. */
  lemma {:induction false} DeliveredOffersNothing(items: seq<Item>)
    requires StaysHttp(items)
    ensures NoPauses(PlainAll(items))
  {
    if items != [] {
      DeliveredOffersNothing(items[1..]);
      PlainOffersNothing(items[0]);
      assert PlainAll(items) == [Plain(items[0])] + PlainAll(items[1..]);
    }
  }

  function Concat(segments: seq<seq<Piece>>): seq<Piece> {
    if segments == [] then [] else segments[0] + Concat(segments[1..])
  }

  lemma {:induction false} StaysHttpConcat(x: seq<Item>, y: seq<Item>)
    ensures StaysHttp(x + y) == (StaysHttp(x) && StaysHttp(y))
  {
    if x == [] {
      assert x + y == y;
    } else {
      assert (x + y)[1..] == x[1..] + y && (x + y)[0] == x[0];
      StaysHttpConcat(x[1..], y);
    }
  }

  lemma {:induction false} DeliveredConcat(x: seq<Item>, y: seq<Item>, webSockets: bool)
    ensures Delivered(x + y, webSockets) ==
            Delivered(x, webSockets) + if StaysHttp(x) then Delivered(y, webSockets) else []
  {
    if x == [] {
      assert x + y == y;
    } else {
      assert (x + y)[1..] == x[1..] + y && (x + y)[0] == x[0];
      DeliveredConcat(x[1..], y, webSockets);
    }
  }

  // ----- conversations -----

  /** A request as the client sends it. */
  datatype Message = Message(target: Bytes, headers: seq<Header>, body: seq<Bytes>)

  function Chunks(body: seq<Bytes>): seq<Piece> {
    if body == [] then [] else [Chunk(body[0])] + Chunks(body[1..])
  }

  function Bodies(body: seq<Bytes>): seq<Item> {
    if body == [] then [] else [Body(body[0])] + Bodies(body[1..])
  }

  function Wire(m: Message): seq<Piece> {
    Rendered(m.target, m.headers) + (Chunks(m.body) + [Finish])
  }

  function WireAll(ms: seq<Message>): seq<Piece> {
    if ms == [] then [] else Wire(ms[0]) + WireAll(ms[1..])
  }

  /** The request as the application gets it: without its offer, with its whole body. */
  function Served(m: Message): seq<Item> {
    var headers := if Offer(m.headers).Some? then WithoutUpgrade(m.headers) else m.headers;
    [Head(m.target, headers)] + (Bodies(m.body) + [End])
  }

  function ServedAll(ms: seq<Message>): seq<Item> {
    if ms == [] then [] else Served(ms[0]) + ServedAll(ms[1..])
  }

  predicate OffersWebSocket(m: Message) {
    Offer(m.headers) == Some("websocket")
  }

  predicate NoWebSocket(ms: seq<Message>) {
    forall i :: 0 <= i < |ms| ==> !OffersWebSocket(ms[i])
  }

  lemma {:induction false} ChunksRead(body: seq<Bytes>)
    ensures Items(Chunks(body), NOTHING) == Bodies(body) && Left(Chunks(body), NOTHING) == NOTHING
  {
    if body != [] {
      ChunksRead(body[1..]);
      assert Chunks(body)[1..] == Chunks(body[1..]);
    }
  }

  lemma WireRead(m: Message)
    ensures Items(Wire(m), NOTHING) == [Head(m.target, m.headers)] + (Bodies(m.body) + [End])
    ensures Left(Wire(m), NOTHING) == NOTHING
  {
    RenderedRead(m.target, m.headers);
    ChunksRead(m.body);
    OnePiece(Finish, NOTHING);
    ItemsConcat(Chunks(m.body), [Finish], NOTHING);
    ItemsConcat(Rendered(m.target, m.headers), Chunks(m.body) + [Finish], NOTHING);
  }

  lemma {:induction false} BodiesDelivered(body: seq<Bytes>, webSockets: bool)
    ensures Delivered(Bodies(body) + [End], webSockets) == Bodies(body) + [End] && StaysHttp(Bodies(body) + [End])
  {
    var all := Bodies(body) + [End];
    if body == [] {
      assert all == [End] && all[1..] == [];
    } else {
      BodiesDelivered(body[1..], webSockets);
      assert all[1..] == Bodies(body[1..]) + [End];
      assert all == [Body(body[0])] + (Bodies(body[1..]) + [End]);
    }
  }

  lemma MessageServed(m: Message, webSockets: bool)
    requires !OffersWebSocket(m)
    ensures Delivered(Items(Wire(m), NOTHING), webSockets) == Served(m) && StaysHttp(Items(Wire(m), NOTHING))
  {
    WireRead(m);
    BodiesDelivered(m.body, webSockets);
    var rest := Bodies(m.body) + [End];
    assert ([Head(m.target, m.headers)] + rest)[1..] == rest;
  }

  /**
   A conversation without a WebSocket handshake is served whole: every request,
   in order, with its body, its declined offer removed and nothing else changed.
   */
  lemma {:induction false} ConversationServed(ms: seq<Message>, webSockets: bool)
    requires NoWebSocket(ms)
    ensures var items := Items(WireAll(ms), NOTHING);
            Delivered(items, webSockets) == ServedAll(ms) && StaysHttp(items) && Left(WireAll(ms), NOTHING) == NOTHING
  {
    if ms != [] {
      assert !OffersWebSocket(ms[0]) && NoWebSocket(ms[1..]);
      MessageServed(ms[0], webSockets);
      WireRead(ms[0]);
      ConversationServed(ms[1..], webSockets);
      ItemsConcat(Wire(ms[0]), WireAll(ms[1..]), NOTHING);
      var first, rest := Items(Wire(ms[0]), NOTHING), Items(WireAll(ms[1..]), NOTHING);
      DeliveredConcat(first, rest, webSockets);
      StaysHttpConcat(first, rest);
    }
  }

  /** A handshake after it is handed off with whatever follows, or without WebSocket support served as a request. */
  lemma HandshakeEndsHttp(ms: seq<Message>, m: Message, after: seq<Piece>, webSockets: bool)
    requires NoWebSocket(ms) && OffersWebSocket(m)
    ensures var items := Items(WireAll(ms) + (Rendered(m.target, m.headers) + after), NOTHING);
            && Delivered(items, webSockets) ==
               ServedAll(ms) + (if webSockets then [] else [Head(m.target, m.headers), End])
            && !StaysHttp(items)
  {
    ConversationServed(ms, webSockets);
    RenderedRead(m.target, m.headers);
    ItemsConcat(Rendered(m.target, m.headers), after, NOTHING);
    EndsConversation(ms, Rendered(m.target, m.headers) + after, Head(m.target, m.headers), Items(after, NOTHING), webSockets);
  }

  /** And so is anything malformed, with an error. */
  lemma JunkEndsHttp(ms: seq<Message>, after: seq<Piece>, webSockets: bool)
    requires NoWebSocket(ms)
    ensures var items := Items(WireAll(ms) + ([Junk] + after), NOTHING);
            Delivered(items, webSockets) == ServedAll(ms) + [Malformed] && !StaysHttp(items)
  {
    ConversationServed(ms, webSockets);
    OnePiece(Junk, NOTHING);
    ItemsConcat([Junk], after, NOTHING);
    EndsConversation(ms, [Junk] + after, Malformed, Items(after, NOTHING), webSockets);
  }

  lemma EndsConversation(ms: seq<Message>, pieces: seq<Piece>, last: Item, rest: seq<Item>, webSockets: bool)
    requires NoWebSocket(ms) && Items(pieces, NOTHING) == [last] + rest && Ends(last)
    ensures var items := Items(WireAll(ms) + pieces, NOTHING);
            Delivered(items, webSockets) == ServedAll(ms) + Final(last, webSockets) && !StaysHttp(items)
  {
    ConversationServed(ms, webSockets);
    ItemsConcat(WireAll(ms), pieces, NOTHING);
    var served := Items(WireAll(ms), NOTHING);
    DeliveredConcat(served, [last] + rest, webSockets);
    StaysHttpConcat(served, [last] + rest);
    Stopped(last, rest, webSockets);
  }

  /** However the stream is cut into segments, inside heads too, the connection delivers what the whole stream would. */
  method Receive(segments: seq<seq<Piece>>, webSockets: bool) returns (events: seq<Item>, http: bool)
    ensures events == Delivered(Items(Concat(segments), NOTHING), webSockets)
    ensures http == StaysHttp(Items(Concat(segments), NOTHING))
  {
    var p := new Protocol(webSockets);
    ghost var seen: seq<Piece> := [];
    for i := 0 to |segments|
      invariant Concat(segments) == seen + Concat(segments[i..])
      invariant p.webSockets == webSockets && p.http == StaysHttp(Items(seen, NOTHING))
      invariant p.http ==> p.partial == Left(seen, NOTHING)
      invariant p.events == Delivered(Items(seen, NOTHING), webSockets)
    {
      assert segments[i..][1..] == segments[i + 1..];
      ghost var q := Left(seen, NOTHING);
      p.DataReceived(segments[i]);
      assert seen + (segments[i] + Concat(segments[i + 1..])) == (seen + segments[i]) + Concat(segments[i + 1..]);
      ItemsConcat(seen, segments[i], NOTHING);
      StaysHttpConcat(Items(seen, NOTHING), Items(segments[i], q));
      DeliveredConcat(Items(seen, NOTHING), Items(segments[i], q), webSockets);
      seen := seen + segments[i];
    }
    assert segments[|segments|..] == [] && seen + [] == seen;
    events, http := p.events, p.http;
  }
}
