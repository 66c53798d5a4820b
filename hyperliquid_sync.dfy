/** What the estimator's sequencing (src/main.rs:206-272) makes of the messages
    the Hyperliquid connector produces (src/exchanges/hyperliquid.rs:154-213):
    every id of an update is its message time, so only an update carrying the
    snapshot's own time can ever bring the book in sync. */
module HyperliquidSync {
  import opened Exchanges
  import opened Book
  import opened Hyperliquid

  /** After a Hyperliquid snapshot at time `t0 > 0`, an update from a later
      message is an initial gap: the book stays the snapshot's, the engine stays
      unsynced and a refetch is requested. */
  lemma LaterUpdateRefetches(s: Engine, b0: WsBook, b1: WsBook, parse: string -> Option<int>)
    requires Valid(s) && s.buffer == []
    requires 1 <= b0.time < b1.time
    ensures var r := IngestSnapshot(s, SnapshotOf(b0, parse));
      var r1 := ReceiveUpdate(r, UpdateOf(b1, parse));
      && r.bids == LoadLevels(ParseLevels(b0.bidLevels, parse))
      && r1.bids == r.bids && r1.asks == r.asks && !r1.isSynced
      && r1.controls == s.controls + [Refetch]
  {
    SnapshotReplacesBook(s, SnapshotOf(b0, parse));
  }

  /** An update from a message with the snapshot's own time is applied and syncs the engine. */
  lemma SameTimeUpdateSyncs(s: Engine, b0: WsBook, b1: WsBook, parse: string -> Option<int>)
    requires Valid(s) && s.buffer == []
    requires 1 <= b0.time == b1.time
    ensures var r := IngestSnapshot(s, SnapshotOf(b0, parse));
      var r1 := ReceiveUpdate(r, UpdateOf(b1, parse));
      && r1.isSynced && r1.lastAppliedU == b0.time
      && r1.bids == ApplyEntries(Bid, r.bids, ParseLevels(b1.bidLevels, parse))
      && r1.controls == s.controls
  {
    SnapshotReplacesBook(s, SnapshotOf(b0, parse));
  }

  /** An update from an earlier message than the snapshot is stale and dropped. */
  lemma EarlierUpdateDropped(s: Engine, b0: WsBook, b1: WsBook, parse: string -> Option<int>)
    requires Valid(s) && s.buffer == []
    requires 1 <= b1.time < b0.time
    ensures var r := IngestSnapshot(s, SnapshotOf(b0, parse));
      ReceiveUpdate(r, UpdateOf(b1, parse)) == r
  {
    SnapshotReplacesBook(s, SnapshotOf(b0, parse));
  }

  /** A snapshot with time 0 leaves the last applied id at 0, so every later update
      is only buffered. */
  lemma ZeroTimeSnapshotBuffers(s: Engine, b0: WsBook, u: DepthUpdate, parse: string -> Option<int>)
    requires Valid(s) && s.buffer == [] && b0.time == 0
    ensures var r := IngestSnapshot(s, SnapshotOf(b0, parse));
      ReceiveUpdate(r, u) == r.(buffer := [u])
  {
    SnapshotReplacesBook(s, SnapshotOf(b0, parse));
  }
}
