/** `MyApp` (src/main.rs): the estimator's mutable state and its handlers, each
    proved to move the state exactly as the corresponding function of module Book. */
module App {
  import opened Exchanges
  import opened OrderQueue
  import opened Book

  class Estimator {
    var symbol: string
    var currentExchange: ExchangeType
    var bids: Side
    var asks: Side
    var lastAppliedU: U64
    var isSynced: bool
    var updateBuffer: seq<DepthUpdate>
    /** Every control request sent so far, oldest first. */
    var controls: seq<Control>

    /** The fields as one `Engine` value. */
    function State(): Engine
      reads this
    {
      Engine(symbol, currentExchange, bids, asks, lastAppliedU, isSynced, updateBuffer, controls)
    }

    predicate Valid()
      reads this
    {
      Book.Valid(State())
    }

    /** Every field except the two book sides is as in `s`. */
    predicate Unchanged(s: Engine)
      reads this
    {
      State() == s.(bids := bids, asks := asks)
    }

    /** `MyApp::new` (src/main.rs:115-133), without the feed thread and the UI settings. */
    constructor (symbol: string)
      ensures Valid() && State() == Initial(symbol)
    {
      this.symbol := symbol;
      currentExchange := Binance;
      bids := map[];
      asks := map[];
      lastAppliedU := 0;
      isSynced := false;
      updateBuffer := [];
      controls := [];
    }

    /** `apply_update` (src/main.rs:669-737): bid entries in order, then ask entries. */
    method ApplyUpdate(u: DepthUpdate)
      requires Valid()
      modifies this
      ensures Valid() && State() == Book.ApplyUpdate(old(State()), u)
    {
      ApplyBids(u.bids);
      ApplyAsks(u.asks);
    }

    /** The bid loop of `apply_update` (src/main.rs:670-705). */
    method ApplyBids(es: seq<Level>)
      requires WellFormed(Bid, bids)
      modifies this
      ensures WellFormed(Bid, bids) && bids == ApplyEntries(Bid, old(bids), es)
      ensures asks == old(asks) && Unchanged(old(State()))
    {
      for i := 0 to |es|
        invariant WellFormed(Bid, bids) && bids == ApplyEntries(Bid, old(bids), es[..i])
        invariant asks == old(asks) && Unchanged(old(State()))
      {
        ghost var before := bids;
        var price, qty := es[i].price, es[i].qty;
        if qty == 0 {
          bids := bids - {price};
        } else if qty > 0 {
          if price in bids {
            ReconcileTotal(bids[price], qty);
            bids := bids[price := Reconcile(bids[price], qty)];
          } else {
            bids := bids[price := [qty]];
          }
        }
        assert bids == ApplyEntry(Bid, before, es[i]);
        assert es[..i + 1][..i] == es[..i];
      }
      assert es[..|es|] == es;
    }

    /** The ask loop of `apply_update` (src/main.rs:707-735); unlike the bid loop
        it does not skip negative quantities. */
    method ApplyAsks(es: seq<Level>)
      requires WellFormed(Ask, asks)
      modifies this
      ensures WellFormed(Ask, asks) && asks == ApplyEntries(Ask, old(asks), es)
      ensures bids == old(bids) && Unchanged(old(State()))
    {
      for i := 0 to |es|
        invariant WellFormed(Ask, asks) && asks == ApplyEntries(Ask, old(asks), es[..i])
        invariant bids == old(bids) && Unchanged(old(State()))
      {
        ghost var before := asks;
        var price, qty := es[i].price, es[i].qty;
        if qty == 0 {
          asks := asks - {price};
        } else if price in asks {
          ReconcileTotal(asks[price], qty);
          asks := asks[price := Reconcile(asks[price], qty)];
        } else {
          asks := asks[price := [qty]];
        }
        assert asks == ApplyEntry(Ask, before, es[i]);
        assert es[..i + 1][..i] == es[..i];
      }
      assert es[..|es|] == es;
    }

    /** `process_update` (src/main.rs:206-235). */
    method ProcessUpdate(u: DepthUpdate)
      requires Valid()
      modifies this
      ensures Valid() && State() == Book.ProcessUpdate(old(State()), u)
    {
      if u.smallU < lastAppliedU {
        return;
      }
      if isSynced {
        if u.pu >= 0 && u.pu != lastAppliedU {
          updateBuffer := [];
          controls := controls + [Refetch];
          return;
        }
        ApplyUpdate(u);
        lastAppliedU := u.smallU;
      } else if u.capitalU <= lastAppliedU && lastAppliedU <= u.smallU {
        ApplyUpdate(u);
        lastAppliedU := u.smallU;
        isSynced := true;
      } else {
        updateBuffer := [];
        controls := controls + [Refetch];
      }
    }

    /** `AppMessage::Snapshot` (src/main.rs:242-265): replace both sides by the
        snapshot's positive levels, then replay the buffer front to back. */
    method HandleSnapshot(snap: OrderBookSnapshot)
      requires Valid()
      modifies this
      ensures Valid() && State() == IngestSnapshot(old(State()), snap)
    {
      bids := map[];
      asks := map[];
      for i := 0 to |snap.bids|
        invariant bids == LoadLevels(snap.bids[..i]) && asks == map[] && Unchanged(old(State()))
      {
        if snap.bids[i].qty > 0 {
          bids := bids[snap.bids[i].price := [snap.bids[i].qty]];
        }
        assert snap.bids[..i + 1][..i] == snap.bids[..i];
      }
      assert snap.bids[..|snap.bids|] == snap.bids;
      for i := 0 to |snap.asks|
        invariant bids == LoadLevels(snap.bids) && asks == LoadLevels(snap.asks[..i]) && Unchanged(old(State()))
      {
        if snap.asks[i].qty > 0 {
          asks := asks[snap.asks[i].price := [snap.asks[i].qty]];
        }
        assert snap.asks[..i + 1][..i] == snap.asks[..i];
      }
      assert snap.asks[..|snap.asks|] == snap.asks;
      lastAppliedU := snap.lastUpdateId;
      isSynced := false;
      assert State() == LoadSnapshot(old(State()), snap);
      DrainBuffer();
    }

    /** `while let Some(update) = self.update_buffer.pop_front()` (src/main.rs:262-264). */
    method DrainBuffer()
      requires Valid()
      modifies this
      ensures Valid() && State() == Drain(old(State()))
    {
      while updateBuffer != []
        invariant Valid()
        invariant Drain(State()) == Drain(old(State()))
        decreases |updateBuffer|
      {
        var u := updateBuffer[0];
        updateBuffer := updateBuffer[1..];
        ProcessUpdate(u);
      }
    }

    /** `AppMessage::Update` (src/main.rs:266-271). */
    method HandleUpdate(u: DepthUpdate)
      requires Valid()
      modifies this
      ensures Valid() && State() == ReceiveUpdate(old(State()), u)
    {
      if lastAppliedU == 0 {
        updateBuffer := updateBuffer + [u];
      } else {
        ProcessUpdate(u);
      }
    }

    /** The message loop at the top of `update` (src/main.rs:240-274), over the
        messages waiting in the channel. */
    method HandlePending(pending: seq<ExchangeMessage>)
      requires Valid()
      modifies this
      ensures Valid() && State() == HandleAll(old(State()), pending)
    {
      for i := 0 to |pending|
        invariant Valid() && State() == HandleAll(old(State()), pending[..i])
      {
        assert pending[..i + 1][..i] == pending[..i];
        match pending[i]
        case Snapshot(snap) => HandleSnapshot(snap);
        case Update(u) => HandleUpdate(u);
      }
      assert pending[..|pending|] == pending;
    }

    /** Picking an exchange in the selector (src/main.rs:298-316). */
    method SelectExchange(e: ExchangeType)
      requires Valid()
      modifies this
      ensures Valid() && State() == Book.SelectExchange(old(State()), e)
    {
      if e != currentExchange {
        currentExchange := e;
        if e == Hyperliquid && Contains(symbol, "usdt") {
          symbol := "SOL";
        }
        controls := controls + [ChangeExchange(e)];
        bids := map[];
        asks := map[];
        lastAppliedU := 0;
        isSynced := false;
      }
    }

    /** "Change Symbol" pressed with the text field holding `edited` (src/main.rs:325-339). */
    method SubmitSymbol(edited: string)
      requires Valid()
      modifies this
      ensures Valid() && State() == Book.SubmitSymbol(old(State()), edited)
    {
      if edited != symbol {
        controls := controls + [ChangeSymbol(edited)];
        symbol := edited;
        bids := map[];
        asks := map[];
        lastAppliedU := 0;
        isSynced := false;
      }
    }
  }
}
