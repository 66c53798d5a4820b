/** The Hyperliquid connector's conversion of `l2Book` WebSocket messages into
    the shared record types (src/exchanges/hyperliquid.rs). `parse` stands for
    `Decimal::from_str` and `decode` for `serde_json::from_str`; both are
    parameters, `None` meaning the call returned an error. */
module Hyperliquid {
  import opened Exchanges

  /** `HyperliquidWsLevel`: price and size as text, and an order count. */
  datatype WsLevel = WsLevel(px: string, sz: string, n: U32)

  /** `HyperliquidWsBook`; `bidLevels` and `askLevels` are `levels[0]` and `levels[1]`. */
  datatype WsBook = WsBook(coin: string, bidLevels: seq<WsLevel>, askLevels: seq<WsLevel>, time: U64)

  /** One level kept when both its price and its size parse. */
  function ParseLevel(l: WsLevel, parse: string -> Option<int>): (r: Option<Level>)
    ensures r.Some? <==> parse(l.px).Some? && parse(l.sz).Some?
    ensures r.Some? ==> r.value == Level(parse(l.px).value, parse(l.sz).value)
  {
    match (parse(l.px), parse(l.sz))
    case (Some(price), Some(size)) => Some(Level(price, size))
    case _ => None
  }

  /** The `filter_map(...).collect()` over one side's levels. */
  function ParseLevels(ls: seq<WsLevel>, parse: string -> Option<int>): (r: seq<Level>)
    ensures |r| <= |ls|
    decreases |ls|
  {
    if ls == [] then []
    else
      var init := ParseLevels(ls[..|ls| - 1], parse);
      match ParseLevel(ls[|ls| - 1], parse)
      case Some(level) => init + [level]
      case None => init
  }

  /** Parsing two runs of levels is parsing each and concatenating: kept levels
      keep their order. */
  lemma {:induction false} ParseLevelsAppend(a: seq<WsLevel>, b: seq<WsLevel>, parse: string -> Option<int>)
    ensures ParseLevels(a + b, parse) == ParseLevels(a, parse) + ParseLevels(b, parse)
    decreases |b|
  {
    if b == [] {
      assert a + b == a;
    } else {
      var b' := b[..|b| - 1];
      assert (a + b)[..|a + b| - 1] == a + b';
      assert (a + b)[|a + b| - 1] == b[|b| - 1];
      ParseLevelsAppend(a, b', parse);
    }
  }

  /** A level contributes `[price, size]` exactly when both fields parse. */
  lemma ParseLevelsSingle(l: WsLevel, parse: string -> Option<int>)
    ensures ParseLevels([l], parse) == if parse(l.px).Some? && parse(l.sz).Some?
      then [Level(parse(l.px).value, parse(l.sz).value)] else []
  {
    assert [l][..0] == [];
  }

  /** Parsing ignores the order count `n`. */
  lemma {:induction false} ParseLevelsIgnoresCount(ls: seq<WsLevel>, ms: seq<WsLevel>, parse: string -> Option<int>)
    requires |ls| == |ms|
    requires forall i :: 0 <= i < |ls| ==> ls[i].px == ms[i].px && ls[i].sz == ms[i].sz
    ensures ParseLevels(ls, parse) == ParseLevels(ms, parse)
    decreases |ls|
  {
    if ls != [] {
      ParseLevelsIgnoresCount(ls[..|ls| - 1], ms[..|ms| - 1], parse);
    }
  }

  /** The snapshot built from a book message (src/exchanges/hyperliquid.rs:62-91, 161-181). */
  function SnapshotOf(book: WsBook, parse: string -> Option<int>): (r: OrderBookSnapshot)
    ensures r.lastUpdateId == book.time
  {
    OrderBookSnapshot(book.time, ParseLevels(book.bidLevels, parse), ParseLevels(book.askLevels, parse))
  }

  /** The update built from a book message (src/exchanges/hyperliquid.rs:93-127, 186-211):
      every id is the message time, `pu` is `(time - 1) as i64`. The `u64`
      subtraction underflows for time 0. */
  function UpdateOf(book: WsBook, parse: string -> Option<int>): (r: DepthUpdate)
    requires book.time >= 1
    ensures r.eventTime == r.transactionTime == r.capitalU == r.smallU == book.time
    ensures r.symbol == book.coin
    ensures r.pu as int == book.time - 1 <==> book.time <= 0x8000_0000_0000_0000
  {
    DepthUpdate(book.time, book.time, book.coin, book.time, book.time, AsI64(book.time - 1),
                ParseLevels(book.bidLevels, parse), ParseLevels(book.askLevels, parse))
  }

  /** One side's conversion loop (src/exchanges/hyperliquid.rs:67-74 and its three copies). */
  method ConvertLevels(ls: seq<WsLevel>, parse: string -> Option<int>) returns (out: seq<Level>)
    ensures out == ParseLevels(ls, parse)
  {
    out := [];
    for i := 0 to |ls|
      invariant out == ParseLevels(ls[..i], parse)
    {
      var px, sz := parse(ls[i].px), parse(ls[i].sz);
      if px.Some? && sz.Some? {
        out := out + [Level(px.value, sz.value)];
      }
      assert ls[..i + 1][..i] == ls[..i];
    }
    assert ls[..|ls|] == ls;
  }

  /** `convert_ws_book_to_snapshot` (src/exchanges/hyperliquid.rs:62-91). */
  method ConvertWsBookToSnapshot(book: WsBook, parse: string -> Option<int>) returns (snap: OrderBookSnapshot)
    ensures snap.lastUpdateId == book.time
    ensures snap.bids == ParseLevels(book.bidLevels, parse) && snap.asks == ParseLevels(book.askLevels, parse)
  {
    var bids := ConvertLevels(book.bidLevels, parse);
    var asks := ConvertLevels(book.askLevels, parse);
    snap := OrderBookSnapshot(book.time, bids, asks);
  }

  /** `convert_ws_book_to_update` (src/exchanges/hyperliquid.rs:93-127). */
  method ConvertWsBookToUpdate(book: WsBook, parse: string -> Option<int>) returns (u: DepthUpdate)
    requires book.time >= 1
    ensures u.eventTime == u.transactionTime == u.capitalU == u.smallU == book.time
    ensures u.symbol == book.coin && u.pu == AsI64(book.time - 1)
    ensures u.bids == ParseLevels(book.bidLevels, parse) && u.asks == ParseLevels(book.askLevels, parse)
  {
    var bids := ConvertLevels(book.bidLevels, parse);
    var asks := ConvertLevels(book.askLevels, parse);
    u := DepthUpdate(book.time, book.time, book.coin, book.time, book.time, AsI64(book.time - 1), bids, asks);
  }

  /** What the read loop receives: a text frame, a ping, a close frame, an error,
      or any other frame. */
  datatype Frame = Text(text: string) | Ping | Close | Failure | Other

  /** The messages the read loop of `connect` (src/exchanges/hyperliquid.rs:154-226)
      sends for the remaining frames, `first` being `first_message`.
      Undecodable text, pings and other frames send nothing and keep `first`;
      a close or an error ends the loop; an update for time 0 ends it too,
      because `book.time - 1` panics the task. */
  function Emitted(frames: seq<Frame>, first: bool, decode: string -> Option<WsBook>,
                   parse: string -> Option<int>): seq<ExchangeMessage>
    decreases |frames|
  {
    if frames == [] then []
    else
      var rest := frames[1..];
      match frames[0]
      case Text(text) =>
        (match decode(text)
         case None => Emitted(rest, first, decode, parse)
         case Some(book) =>
           if first then [Snapshot(SnapshotOf(book, parse))] + Emitted(rest, false, decode, parse)
           else if book.time == 0 then []
           else [Update(UpdateOf(book, parse))] + Emitted(rest, false, decode, parse))
      case Ping => Emitted(rest, first, decode, parse)
      case Close => []
      case Failure => []
      case Other => Emitted(rest, first, decode, parse)
  }

  /** The read loop of `connect` (src/exchanges/hyperliquid.rs:154-226) over the
      frames the socket delivers; returns the messages it sends. */
  method Connect(frames: seq<Frame>, decode: string -> Option<WsBook>, parse: string -> Option<int>)
    returns (sent: seq<ExchangeMessage>)
    ensures sent == Emitted(frames, true, decode, parse)
  {
    sent := [];
    var firstMessage := true;
    var i := 0;
    while i < |frames|
      invariant i <= |frames|
      invariant sent + Emitted(frames[i..], firstMessage, decode, parse) == Emitted(frames, true, decode, parse)
      decreases |frames| - i
    {
      assert frames[i..][1..] == frames[i + 1..];
      match frames[i] {
      case Text(text) => {
        match decode(text)
        case Some(book) => {
          if firstMessage {
            sent := sent + [Snapshot(SnapshotOf(book, parse))];
            firstMessage := false;
          } else {
            if book.time == 0 {
              assert sent == Emitted(frames, true, decode, parse);
              return;
            }
            sent := sent + [Update(UpdateOf(book, parse))];
          }
        }
        case None => {}
      }
      case Ping => {}
      case Close => {
        assert sent == Emitted(frames, true, decode, parse);
        return;
      }
      case Failure => {
        assert sent == Emitted(frames, true, decode, parse);
        return;
      }
      case Other => {}
      }
      i := i + 1;
    }
    assert sent + [] == sent;
  }

  /** The first book that decodes before the stream ends or breaks. */
  function FirstBook(frames: seq<Frame>, decode: string -> Option<WsBook>): Option<WsBook>
    decreases |frames|
  {
    if frames == [] then None
    else match frames[0]
      case Text(text) => if decode(text).Some? then decode(text) else FirstBook(frames[1..], decode)
      case Close => None
      case Failure => None
      case _ => FirstBook(frames[1..], decode)
  }

  /** Only the first message sent can be a snapshot, and it is one exactly when
      some book decoded: the snapshot of that first decoded book. */
  lemma {:induction false} FirstMessageIsSnapshot(frames: seq<Frame>, decode: string -> Option<WsBook>,
                                                 parse: string -> Option<int>)
    ensures var r := Emitted(frames, true, decode, parse);
      && (r != [] <==> FirstBook(frames, decode).Some?)
      && (r != [] ==> r[0] == Snapshot(SnapshotOf(FirstBook(frames, decode).value, parse)))
      && (forall i :: 0 < i < |r| ==> r[i].Update?)
    decreases |frames|
  {
    if frames != [] {
      var rest := frames[1..];
      match frames[0]
      case Text(text) =>
        if decode(text).Some? {
          LaterMessagesAreUpdates(rest, decode, parse);
        } else {
          FirstMessageIsSnapshot(rest, decode, parse);
        }
      case Ping => FirstMessageIsSnapshot(rest, decode, parse);
      case Other => FirstMessageIsSnapshot(rest, decode, parse);
      case Close =>
      case Failure =>
    }
  }

  /** Once a book has been sent, every further message is an update whose ids
      are all its message time, with `pu` the previous millisecond. */
  lemma {:induction false} LaterMessagesAreUpdates(frames: seq<Frame>, decode: string -> Option<WsBook>,
                                                  parse: string -> Option<int>)
    ensures forall m :: m in Emitted(frames, false, decode, parse) ==>
      && m.Update?
      && m.update.capitalU == m.update.smallU >= 1
      && m.update.pu == AsI64(m.update.smallU - 1)
    decreases |frames|
  {
    if frames != [] {
      var rest := frames[1..];
      match frames[0]
      case Text(text) => LaterMessagesAreUpdates(rest, decode, parse);
      case Ping => LaterMessagesAreUpdates(rest, decode, parse);
      case Other => LaterMessagesAreUpdates(rest, decode, parse);
      case Close =>
      case Failure =>
    }
  }
}
