/** The estimator's two book sides and its update-sequencing state machine
    (src/main.rs), written as functions on an `Engine` value. The class in
    app.dfy holds the same state in fields and is proved to follow them. */
module Book {
  import opened Exchanges
  import opened OrderQueue

  /** One side of the book: price -> inferred orders at that price, oldest first. */
  type Side = map<int, seq<int>>

  datatype SideKind = Bid | Ask

  /** Every bid level totals a positive quantity and every ask level a non-zero
      one; in particular no stored queue is empty. */
  predicate WellFormed(kind: SideKind, side: Side)
  {
    forall p :: p in side ==> if kind == Bid then Sum(side[p]) > 0 else Sum(side[p]) != 0
  }

  /** Whether an update entry of this quantity acts on the side: the bid loop
      skips negative quantities, the ask loop has no such guard. */
  predicate Touches(kind: SideKind, qty: int)
  {
    kind == Ask || qty >= 0
  }

  /** One `[price, qty]` entry of an update applied to one side
      (src/main.rs:670-705 for bids, 707-735 for asks). */
  function ApplyEntry(kind: SideKind, side: Side, e: Level): (r: Side)
    requires WellFormed(kind, side)
    ensures WellFormed(kind, r)
    ensures forall p :: p != e.price ==> (p in r <==> p in side)
    ensures forall p :: p != e.price && p in side ==> r[p] == side[p]
  {
    if e.qty == 0 then side - {e.price}
    else if !Touches(kind, e.qty) then side
    else if e.price in side then
      ReconcileTotal(side[e.price], e.qty);
      side[e.price := Reconcile(side[e.price], e.qty)]
    else side[e.price := [e.qty]]
  }

  /** The entries of one side of an update, applied in list order. */
  function ApplyEntries(kind: SideKind, side: Side, es: seq<Level>): (r: Side)
    requires WellFormed(kind, side)
    ensures WellFormed(kind, r)
    decreases |es|
  {
    if es == [] then side
    else ApplyEntry(kind, ApplyEntries(kind, side, es[..|es| - 1]), es[|es| - 1])
  }

  /** What one entry does at its own price: zero removes the level whether or not
      it existed; a touching non-zero quantity leaves a queue totalling exactly
      that quantity, `[qty]` for a new level; a skipped bid entry changes nothing. */
  lemma EntryOutcome(kind: SideKind, side: Side, e: Level)
    requires WellFormed(kind, side)
    ensures e.qty == 0 ==> ApplyEntry(kind, side, e) == side - {e.price}
    ensures !Touches(kind, e.qty) ==> ApplyEntry(kind, side, e) == side
    ensures e.qty != 0 && Touches(kind, e.qty) ==>
      e.price in ApplyEntry(kind, side, e) && Sum(ApplyEntry(kind, side, e)[e.price]) == e.qty
    ensures e.qty != 0 && Touches(kind, e.qty) && e.price !in side ==>
      ApplyEntry(kind, side, e)[e.price] == [e.qty]
  {
    if e.qty != 0 && Touches(kind, e.qty) {
      if e.price in side {
        ReconcileTotal(side[e.price], e.qty);
      } else {
        assert Sum([e.qty]) == e.qty;
      }
    }
  }

  /** The last entry for a price that acts on the side decides that level:
      a zero leaves the price absent, any other quantity leaves a queue that
      totals it. Later entries therefore see the results of earlier ones. */
  lemma {:induction false} LastEntryDecides(kind: SideKind, side: Side, es: seq<Level>, i: nat)
    requires WellFormed(kind, side)
    requires i < |es| && Touches(kind, es[i].qty)
    requires forall j :: i < j < |es| && es[j].price == es[i].price ==> !Touches(kind, es[j].qty)
    ensures es[i].price in ApplyEntries(kind, side, es) <==> es[i].qty != 0
    ensures es[i].price in ApplyEntries(kind, side, es) ==>
      Sum(ApplyEntries(kind, side, es)[es[i].price]) == es[i].qty
  {
    var n := |es|;
    var prefix := es[..n - 1];
    var before := ApplyEntries(kind, side, prefix);
    if i == n - 1 {
      EntryOutcome(kind, before, es[i]);
    } else {
      assert prefix[i] == es[i];
      assert forall j :: i < j < |prefix| ==> prefix[j] == es[j];
      LastEntryDecides(kind, side, prefix, i);
      EntryOutcome(kind, before, es[n - 1]);
    }
  }

  /** A price that no acting entry names keeps exactly its old queue (or stays absent). */
  lemma {:induction false} UntouchedLevel(kind: SideKind, side: Side, es: seq<Level>, p: int)
    requires WellFormed(kind, side)
    requires forall j :: 0 <= j < |es| && es[j].price == p ==> !Touches(kind, es[j].qty)
    ensures p in ApplyEntries(kind, side, es) <==> p in side
    ensures p in side ==> ApplyEntries(kind, side, es)[p] == side[p]
  {
    if es != [] {
      var prefix := es[..|es| - 1];
      assert forall j :: 0 <= j < |prefix| ==> prefix[j] == es[j];
      UntouchedLevel(kind, side, prefix, p);
      EntryOutcome(kind, ApplyEntries(kind, side, prefix), es[|es| - 1]);
    }
  }

  /** Applying two lists of entries one after the other is applying their concatenation. */
  lemma {:induction false} ApplyEntriesAppend(kind: SideKind, side: Side, a: seq<Level>, b: seq<Level>)
    requires WellFormed(kind, side)
    ensures ApplyEntries(kind, side, a + b) == ApplyEntries(kind, ApplyEntries(kind, side, a), b)
    decreases |b|
  {
    if b == [] {
      assert a + b == a;
    } else {
      var b' := b[..|b| - 1];
      assert (a + b)[..|a + b| - 1] == a + b';
      ApplyEntriesAppend(kind, side, a, b');
    }
  }

  /** Requests the estimator sends to its feed task (`Control`). */
  datatype Control = Refetch | ChangeSymbol(symbol: string) | ChangeExchange(exchange: ExchangeType)

  /** The estimator's state. `controls` lists every request it tried to send,
      oldest first (a `try_send` whose result is discarded). */
  datatype Engine = Engine(
    symbol: string,
    exchange: ExchangeType,
    bids: Side,
    asks: Side,
    lastAppliedU: U64,
    isSynced: bool,
    buffer: seq<DepthUpdate>,
    controls: seq<Control>)

  predicate Valid(s: Engine)
  {
    WellFormed(Bid, s.bids) && WellFormed(Ask, s.asks)
  }

  /** The state a new estimator starts in (src/main.rs:115-133). */
  function Initial(symbol: string): (s: Engine)
    ensures Valid(s)
  {
    Engine(symbol, Binance, map[], map[], 0, false, [], [])
  }

  /** Both sides of an update, bids first (src/main.rs:669-737). */
  function ApplyUpdate(s: Engine, u: DepthUpdate): (r: Engine)
    requires Valid(s)
    ensures Valid(r)
  {
    s.(bids := ApplyEntries(Bid, s.bids, u.bids), asks := ApplyEntries(Ask, s.asks, u.asks))
  }

  /** The reaction to a gap: drop the buffer and ask for a fresh snapshot. */
  function RequestRefetch(s: Engine): Engine
  {
    s.(buffer := [], controls := s.controls + [Refetch])
  }

  /** `process_update` (src/main.rs:206-235). */
  function ProcessUpdate(s: Engine, u: DepthUpdate): (r: Engine)
    requires Valid(s)
    ensures Valid(r)
    ensures r.buffer == s.buffer || r.buffer == []
    ensures r.lastAppliedU >= s.lastAppliedU
    ensures s.isSynced ==> r.isSynced
  {
    if u.smallU < s.lastAppliedU then s
    else if s.isSynced then
      if u.pu >= 0 && u.pu != s.lastAppliedU then RequestRefetch(s)
      else ApplyUpdate(s, u).(lastAppliedU := u.smallU)
    else if u.capitalU <= s.lastAppliedU <= u.smallU then
      ApplyUpdate(s, u).(lastAppliedU := u.smallU, isSynced := true)
    else RequestRefetch(s)
  }

  /** An update that ends before the last applied id is dropped without a trace. */
  lemma ProcessDropsStale(s: Engine, u: DepthUpdate)
    requires Valid(s) && u.smallU < s.lastAppliedU
    ensures ProcessUpdate(s, u) == s
  {
  }

  /** While synced, an update whose `pu` is not the last applied id leaves the
      book, the last applied id and the sync flag alone, empties the buffer and
      requests a refetch. A negative `pu` skips the check. */
  lemma ProcessDetectsGap(s: Engine, u: DepthUpdate)
    requires Valid(s) && s.isSynced && u.smallU >= s.lastAppliedU
    ensures var r := ProcessUpdate(s, u);
      (u.pu >= 0 && u.pu != s.lastAppliedU) ==
      (r.bids == s.bids && r.asks == s.asks && r.lastAppliedU == s.lastAppliedU && r.isSynced
       && r.buffer == [] && r.controls == s.controls + [Refetch])
  {
    var r := ProcessUpdate(s, u);
    assert |r.controls| == |s.controls|  <== !(u.pu >= 0 && u.pu != s.lastAppliedU);
  }

  /** While synced, an update in sequence (`pu` negative or equal to the last
      applied id) is applied on both sides and moves the last applied id to
      its `smallU`; the engine stays synced and nothing is buffered or requested. */
  lemma ProcessAppliesInSequence(s: Engine, u: DepthUpdate)
    requires Valid(s) && s.isSynced && u.smallU >= s.lastAppliedU
    requires u.pu < 0 || u.pu == s.lastAppliedU
    ensures var r := ProcessUpdate(s, u);
      && r.bids == ApplyEntries(Bid, s.bids, u.bids) && r.asks == ApplyEntries(Ask, s.asks, u.asks)
      && r.lastAppliedU == u.smallU && r.isSynced
      && r.buffer == s.buffer && r.controls == s.controls
      && r.symbol == s.symbol && r.exchange == s.exchange
  {
  }

  /** Before the first sync, an update is applied exactly when its id range
      `capitalU..smallU` covers the last applied id; applying it syncs the
      engine. Otherwise the buffer is emptied and a refetch requested. */
  lemma ProcessFirstSync(s: Engine, u: DepthUpdate)
    requires Valid(s) && !s.isSynced && u.smallU >= s.lastAppliedU
    ensures var r := ProcessUpdate(s, u);
      (r.isSynced <==> u.capitalU <= s.lastAppliedU <= u.smallU)
      && (r.isSynced ==> r == ApplyUpdate(s, u).(lastAppliedU := u.smallU, isSynced := true))
      && (!r.isSynced ==> r == RequestRefetch(s))
  {
  }

  /** The book only changes when an update is applied, and an applied update
      always moves the last applied id to its `smallU` and leaves the engine synced. */
  lemma ProcessChangesBookOnlyWhenApplied(s: Engine, u: DepthUpdate)
    requires Valid(s)
    ensures var r := ProcessUpdate(s, u);
      (r.bids != s.bids || r.asks != s.asks) ==>
        r.lastAppliedU == u.smallU && r.isSynced && r.controls == s.controls && r.buffer == s.buffer
  {
  }

  /** `while let Some(update) = update_buffer.pop_front() { process_update(update) }`
      (src/main.rs:262-264): a refetch empties the buffer and so ends the loop. */
  function Drain(s: Engine): (r: Engine)
    requires Valid(s)
    ensures Valid(r) && r.buffer == []
    ensures r.lastAppliedU >= s.lastAppliedU
    decreases |s.buffer|
  {
    if s.buffer == [] then s
    else Drain(ProcessUpdate(s.(buffer := s.buffer[1..]), s.buffer[0]))
  }

  /** The given updates processed in order, stopping right after the first one
      that requests a refetch. */
  function ProcessInOrder(s: Engine, us: seq<DepthUpdate>): (r: Engine)
    requires Valid(s)
    ensures Valid(r)
    decreases |us|
  {
    if us == [] then s
    else
      var t := ProcessUpdate(s, us[0]);
      if |t.controls| > |s.controls| then t else ProcessInOrder(t, us[1..])
  }

  /** What `process_update` does to the book does not depend on the buffer;
      it only keeps the buffer or, on a gap, empties it. */
  lemma ProcessIgnoresBuffer(s: Engine, u: DepthUpdate, b: seq<DepthUpdate>)
    requires Valid(s) && s.buffer == []
    ensures var t := ProcessUpdate(s, u);
      ProcessUpdate(s.(buffer := b), u) == if |t.controls| > |s.controls| then t else t.(buffer := b)
  {
  }

  /** Draining processes the buffered updates oldest first, stopping at the
      first gap, which throws away the rest. */
  lemma {:induction false} DrainInOrder(s: Engine)
    requires Valid(s)
    ensures Drain(s) == ProcessInOrder(s.(buffer := []), s.buffer)
    decreases |s.buffer|
  {
    if s.buffer != [] {
      var s0 := s.(buffer := []);
      var u, rest := s.buffer[0], s.buffer[1..];
      var t := ProcessUpdate(s0, u);
      ProcessIgnoresBuffer(s0, u, rest);
      var next := ProcessUpdate(s0.(buffer := rest), u);
      assert s.(buffer := rest) == s0.(buffer := rest);
      if |t.controls| > |s0.controls| {
        assert next == t && next.buffer == [];
      } else {
        assert next == t.(buffer := rest);
        DrainInOrder(next);
        assert next.(buffer := []) == t by {
          assert t.buffer == [];
        }
      }
    }
  }

  /** One side of a snapshot: each positive-quantity row becomes a one-order
      level, a later row for the same price replacing an earlier one
      (src/main.rs:245-258). */
  function LoadLevels(rows: seq<Level>): Side
    decreases |rows|
  {
    if rows == [] then map[]
    else
      var r := LoadLevels(rows[..|rows| - 1]);
      var row := rows[|rows| - 1];
      if row.qty > 0 then r[row.price := [row.qty]] else r
  }

  /** A loaded side holds only one-order levels of positive size, so it satisfies
      both side invariants. */
  lemma {:induction false} LoadLevelsSingleOrders(rows: seq<Level>)
    ensures forall p :: p in LoadLevels(rows) ==> |LoadLevels(rows)[p]| == 1 && LoadLevels(rows)[p][0] > 0
    ensures WellFormed(Bid, LoadLevels(rows)) && WellFormed(Ask, LoadLevels(rows))
    decreases |rows|
  {
    if rows != [] {
      LoadLevelsSingleOrders(rows[..|rows| - 1]);
    }
    var r := LoadLevels(rows);
    forall p | p in r
      ensures Sum(r[p]) > 0
    {
      assert r[p] == [r[p][0]];
    }
  }

  /** A loaded side holds exactly the prices of the positive rows. */
  lemma {:induction false} LoadLevelsKeys(rows: seq<Level>, p: int)
    ensures p in LoadLevels(rows) <==> exists i :: 0 <= i < |rows| && rows[i].price == p && rows[i].qty > 0
    decreases |rows|
  {
    if rows != [] {
      var prefix := rows[..|rows| - 1];
      LoadLevelsKeys(prefix, p);
      assert forall i :: 0 <= i < |prefix| ==> prefix[i] == rows[i];
      if p in LoadLevels(prefix) {
        var i :| 0 <= i < |prefix| && prefix[i].price == p && prefix[i].qty > 0;
        assert rows[i].price == p && rows[i].qty > 0;
      }
    }
  }

  /** Each loaded level is the single order given by the last positive row at its price. */
  lemma {:induction false} LoadLevelsLastRow(rows: seq<Level>, i: nat)
    requires i < |rows| && rows[i].qty > 0
    requires forall j :: i < j < |rows| && rows[j].price == rows[i].price ==> rows[j].qty <= 0
    ensures rows[i].price in LoadLevels(rows) && LoadLevels(rows)[rows[i].price] == [rows[i].qty]
    decreases |rows|
  {
    if i < |rows| - 1 {
      var prefix := rows[..|rows| - 1];
      assert prefix[i] == rows[i];
      assert forall j :: i < j < |prefix| ==> prefix[j] == rows[j];
      LoadLevelsLastRow(prefix, i);
    }
  }

  /** The first half of the snapshot handler: both sides replaced by the
      snapshot's levels, `last_applied_u := last_update_id`, not synced
      (src/main.rs:243-260). */
  function LoadSnapshot(s: Engine, snap: OrderBookSnapshot): (r: Engine)
    ensures Valid(r)
  {
    LoadLevelsSingleOrders(snap.bids);
    LoadLevelsSingleOrders(snap.asks);
    s.(bids := LoadLevels(snap.bids), asks := LoadLevels(snap.asks),
       lastAppliedU := snap.lastUpdateId, isSynced := false)
  }

  /** `AppMessage::Snapshot` (src/main.rs:242-265): load, then drain the buffer. */
  function IngestSnapshot(s: Engine, snap: OrderBookSnapshot): (r: Engine)
    requires Valid(s)
    ensures Valid(r) && r.buffer == []
    ensures r.lastAppliedU >= snap.lastUpdateId
  {
    Drain(LoadSnapshot(s, snap))
  }

  /** After a snapshot no level from before it survives: with nothing buffered the
      book is exactly the snapshot's positive levels, each a single order, and
      otherwise it is those levels with the buffered updates processed oldest first. */
  lemma SnapshotReplacesBook(s: Engine, snap: OrderBookSnapshot)
    requires Valid(s)
    ensures IngestSnapshot(s, snap) == ProcessInOrder(LoadSnapshot(s, snap).(buffer := []), s.buffer)
    ensures s.buffer == [] ==>
      var r := IngestSnapshot(s, snap);
      && r.bids == LoadLevels(snap.bids) && r.asks == LoadLevels(snap.asks)
      && r.lastAppliedU == snap.lastUpdateId && !r.isSynced && r.controls == s.controls
  {
    DrainInOrder(LoadSnapshot(s, snap));
  }

  /** A snapshot with id 0 syncs only through a buffered update with `U = 0`:
      when the oldest buffered update starts later, it is refused as a gap, the
      refetch empties the buffer and the last applied id stays 0. */
  lemma ZeroIdSnapshotRefusesLaterStart(s: Engine, snap: OrderBookSnapshot)
    requires Valid(s) && snap.lastUpdateId == 0
    requires s.buffer != [] && s.buffer[0].capitalU > 0
    ensures var r := IngestSnapshot(s, snap);
      && r.lastAppliedU == 0 && !r.isSynced
      && r.bids == LoadLevels(snap.bids) && r.asks == LoadLevels(snap.asks)
      && r.controls == s.controls + [Refetch]
  {
    var t := LoadSnapshot(s, snap);
    var p := ProcessUpdate(t.(buffer := t.buffer[1..]), t.buffer[0]);
    assert p == RequestRefetch(t.(buffer := t.buffer[1..]));
    assert Drain(t) == Drain(p);
  }

  /** `AppMessage::Update` (src/main.rs:266-271): before any snapshot id is known
      the update is buffered, otherwise it is processed. */
  function ReceiveUpdate(s: Engine, u: DepthUpdate): (r: Engine)
    requires Valid(s)
    ensures Valid(r)
  {
    if s.lastAppliedU == 0 then s.(buffer := s.buffer + [u]) else ProcessUpdate(s, u)
  }

  /** While the last applied id is 0, updates queue up at the back of the buffer and
      nothing else changes. */
  lemma ReceiveBuffersUntilSnapshot(s: Engine, u: DepthUpdate)
    requires Valid(s) && s.lastAppliedU == 0
    ensures ReceiveUpdate(s, u) == s.(buffer := s.buffer + [u])
  {
  }

  /** One message of the UI loop's `while let Ok(msg) = rx.try_recv()` (src/main.rs:240-274). */
  function Handle(s: Engine, m: ExchangeMessage): (r: Engine)
    requires Valid(s)
    ensures Valid(r)
  {
    match m
    case Snapshot(snap) => IngestSnapshot(s, snap)
    case Update(u) => ReceiveUpdate(s, u)
  }

  /** The pending messages handled in arrival order. */
  function HandleAll(s: Engine, ms: seq<ExchangeMessage>): (r: Engine)
    requires Valid(s)
    ensures Valid(r)
    decreases |ms|
  {
    if ms == [] then s else Handle(HandleAll(s, ms[..|ms| - 1]), ms[|ms| - 1])
  }

  /** `str::contains` for strings. */
  function Contains(s: string, sub: string): (b: bool)
    ensures b <==> exists i :: 0 <= i <= |s| - |sub| && sub <= s[i..]
    decreases |s|
  {
    if |s| < |sub| then false
    else if sub <= s then assert s[0..] == s; true
    else
      assert forall i :: 1 <= i <= |s| - |sub| ==> s[i..] == s[1..][i - 1..];
      s != [] && Contains(s[1..], sub)
  }

  /** The common part of both reset blocks: empty book, last applied id 0, not
      synced. The update buffer is NOT cleared. */
  function Reset(s: Engine): (r: Engine)
    ensures Valid(r)
  {
    s.(bids := map[], asks := map[], lastAppliedU := 0, isSynced := false)
  }

  /** Choosing an exchange in the selector (src/main.rs:298-316). Switching to
      Hyperliquid with a symbol containing "usdt" replaces the symbol by "SOL". */
  function SelectExchange(s: Engine, e: ExchangeType): (r: Engine)
    ensures e == s.exchange ==> r == s
    ensures e != s.exchange ==> Valid(r) && r.exchange == e
  {
    if e == s.exchange then s
    else
      var sym := if e == Hyperliquid && Contains(s.symbol, "usdt") then "SOL" else s.symbol;
      Reset(s.(exchange := e, symbol := sym, controls := s.controls + [ChangeExchange(e)]))
  }

  /** Pressing "Change Symbol" with the edited text (src/main.rs:325-339). */
  function SubmitSymbol(s: Engine, edited: string): (r: Engine)
    ensures edited == s.symbol ==> r == s
    ensures edited != s.symbol ==> Valid(r) && r.symbol == edited
  {
    if edited == s.symbol then s
    else Reset(s.(symbol := edited, controls := s.controls + [ChangeSymbol(edited)]))
  }

  /** A real exchange or symbol change empties the book and forgets the sync
      position, so every update is buffered until the next snapshot; updates
      already buffered stay buffered and are replayed against that snapshot. */
  lemma ChangeResetsBook(s: Engine, e: ExchangeType, edited: string, u: DepthUpdate)
    ensures var r := SelectExchange(s, e);
      e != s.exchange ==>
        && r.bids == map[] && r.asks == map[] && r.lastAppliedU == 0 && !r.isSynced
        && r.exchange == e && r.buffer == s.buffer && r.controls == s.controls + [ChangeExchange(e)]
        && ReceiveUpdate(r, u).buffer == s.buffer + [u]
    ensures var r := SubmitSymbol(s, edited);
      edited != s.symbol ==>
        && r.bids == map[] && r.asks == map[] && r.lastAppliedU == 0 && !r.isSynced
        && r.symbol == edited && r.buffer == s.buffer && r.controls == s.controls + [ChangeSymbol(edited)]
        && ReceiveUpdate(r, u).buffer == s.buffer + [u]
  {
  }

  /** Selecting Hyperliquid maps a "usdt" symbol to "SOL" and keeps any other symbol. */
  lemma HyperliquidSymbolRule(s: Engine)
    requires s.exchange == Binance
    ensures SelectExchange(s, Hyperliquid).symbol == if Contains(s.symbol, "usdt") then "SOL" else s.symbol
    ensures SelectExchange(s.(symbol := "dogeusdt"), Hyperliquid).symbol == "SOL"
  {
    assert "usdt" <= "dogeusdt"[4..];
  }
}
