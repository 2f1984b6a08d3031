/** The single-symbol, price-time-priority limit order book: two ordered price maps, a FIFO queue
    per level with a cached total, and an index from reference to queue position, updated together
    and in place. */
module OrderBooks {
  import opened Bytes
  import opened Messages
  import opened BookModel
  import opened PriceLevels

  class OrderBook {
    var locate: U16
    const bids: PriceMap
    const asks: PriceMap
    var orders: map<U64, OrderLocation>
    var stats: Stats

    // The value this book represents, its levels under one key, and their levels and nodes.
    ghost var model: Book
    ghost var level: map<Key, PriceLevel>
    ghost var nodes: map<Key, seq<Node>>
    ghost var space: set<object>

    constructor ()
      ensures Valid() && fresh(bids) && fresh(asks) && space == {} && model == EMPTY_BOOK
    {
      bids := new PriceMap(true);
      asks := new PriceMap(false);
      locate, orders, stats := 0, map[], NO_STATS;
      model, level, nodes, space := EMPTY_BOOK, map[], map[], {};
    }

    function Levels(side: Side): PriceMap {
      if side.Buy? then bids else asks
    }

    ghost predicate Valid()
      reads this, bids, asks, space
    {
      && this !in space && bids !in space && asks !in space && bids != asks
      && bids.descending && !asks.descending && bids.Valid() && asks.Valid()
      && MapsHold(level, bids.levels, asks.levels)
      && LevelsHold(level, nodes, model.queues, space)
      && EntriesHold(orders, model.orders, nodes)
      && Coherent(model)
      && locate == model.locate && stats == model.stats
    }

    // insert_order, for either side.
    method InsertOrder(levels: PriceMap, side: Side, reference: U64, price: U32, shares: U32)
      requires Valid() && levels == Levels(side)
      modifies this, bids, asks, space
      ensures Valid() && fresh(space - old(space))
      ensures model == Insert(old(model), Key(side, price), reference, shares)
      ensures forall r | r in old(orders) :: r in orders && orders[r] == old(orders[r])
    {
      hide Coherent, LevelsHold, EntriesHold, MapsHold, PriceMap.Valid, Insert;
      ghost var b := model;
      var node, level', nodes', space' := QueueOrder(levels, side, reference, price, shares);
      InsertCoherent(b, Key(side, price), reference, shares);
      if reference !in orders {
        orders := orders[reference := OrderLocation(side, price, node)];
      }
      Commit(Insert(b, Key(side, price), reference, shares), level', nodes', space');
    }

    // The ghost half of every operation: the containers and the index show a new value.
    ghost method Commit(b: Book, level': map<Key, PriceLevel>, nodes': map<Key, seq<Node>>, space': set<object>)
      requires this !in space' && bids !in space' && asks !in space' && bids != asks
      requires bids.descending && !asks.descending && bids.Valid() && asks.Valid()
      requires MapsHold(level', bids.levels, asks.levels) && LevelsHold(level', nodes', b.queues, space')
      requires EntriesHold(orders, b.orders, nodes') && Coherent(b) && locate == b.locate && stats == b.stats
      modifies this
      ensures Valid() && model == b && space == space' && orders == old(orders)
    {
      hide Coherent, LevelsHold, EntriesHold, MapsHold, PriceMap.Valid;
      model, level, nodes, space := b, level', nodes', space';
    }

    // The part of insert_order before the index: levels[price], push_back and the total.
    method QueueOrder(levels: PriceMap, side: Side, reference: U64, price: U32, shares: U32)
      returns (node: Node, ghost level': map<Key, PriceLevel>, ghost nodes': map<Key, seq<Node>>,
               ghost space': set<object>)
      requires Valid() && levels == Levels(side)
      modifies levels, space
      ensures levels.Valid() && MapsHold(level', bids.levels, asks.levels)
      ensures var b' := Insert(model, Key(side, price), reference, shares);
              && LevelsHold(level', nodes', b'.queues, space')
              && EntriesHold(if reference in orders then orders
                             else orders[reference := OrderLocation(side, price, node)],
                             b'.orders, nodes')
              && model.stats == b'.stats && model.locate == b'.locate
      ensures fresh(space' - space) && this !in space' && bids !in space' && asks !in space'
    {
      hide Coherent, LevelsHold, EntriesHold, MapsHold, PriceLevel.Holds, PriceMap.Valid;
      ghost var k := Key(side, price);
      LevelFacts(k);
      var l := levels.Subscript(price, side);
      node := AppendIn(l, reference, shares, model.arrivals, k, QueueAt(model, k), level, nodes, model.queues, space);
      level', nodes', space' := level[k := l], nodes[k := l.nodes], space + {l, node};
      EntriesInsert(orders, model, nodes, k, reference, shares, node);
      MapsInsert(level, old(bids.levels), old(asks.levels), k, l);
    }

    // reduce_or_remove_in, for either side. Both of its asserts hold: the level is there, and no more
    // is removed than rests, which is what the caller is asked for. Every other stored position is
    // left as it is, and is still good: the entries kept are the same nodes, in the new queues.
    method ReduceOrRemoveIn(levels: PriceMap, location: OrderLocation, reference: U64, sharesRemoved: U32,
                            removeAll: bool)
      requires Valid() && levels == Levels(location.side)
      requires reference in orders && location == orders[reference]
      requires removeAll || Covers(model, reference, sharesRemoved)
      modifies this, bids, asks, space
      ensures Valid() && space == old(space)
      ensures model == Reduce(old(model), reference, sharesRemoved, removeAll)
      ensures orders == old(orders) || orders == old(orders) - {reference}
    {
      hide Coherent, LevelsHold, EntriesHold, MapsHold, PriceMap.Valid, Reduce;
      ghost var b := model;
      var gone, level', nodes' := TakeShares(levels, location, reference, sharesRemoved, removeAll);
      ReduceCoherent(b, reference, sharesRemoved, removeAll);
      if gone {
        orders := orders - {reference};
      }
      Commit(Reduce(b, reference, sharesRemoved, removeAll), level', nodes', space);
    }

    // The part of reduce_or_remove_in that leaves the index aside.
    method TakeShares(levels: PriceMap, location: OrderLocation, reference: U64, sharesRemoved: U32, removeAll: bool)
      returns (gone: bool, ghost level': map<Key, PriceLevel>, ghost nodes': map<Key, seq<Node>>)
      requires Valid() && levels == Levels(location.side)
      requires reference in orders && location == orders[reference]
      requires removeAll || Covers(model, reference, sharesRemoved)
      modifies levels, space
      ensures levels.Valid() && MapsHold(level', bids.levels, asks.levels)
      ensures var b' := Reduce(model, reference, sharesRemoved, removeAll);
              && LevelsHold(level', nodes', b'.queues, space)
              && EntriesHold(if gone then orders - {reference} else orders, b'.orders, nodes')
              && model.stats == b'.stats && model.locate == b'.locate
    {
      hide Coherent, LevelsHold, EntriesHold, MapsHold, PriceLevel.Holds, PriceMap.Valid;
      ghost var k := Key(location.side, location.price);
      ghost var i := EntryFacts(reference);
      ghost var q := model.queues[k];
      assert location.position.Value() == q[i];
      QueueAfter(model, reference, i, sharesRemoved, removeAll);
      assert location.price in levels.levels;
      var l := levels.levels[location.price];
      var resting := location.position;

      var removed := if removeAll then resting.shares else sharesRemoved;
      assert removed <= resting.shares;
      DeductIn(l, resting, removed, i, k, level, nodes, model.queues, space);
      gone := removeAll || resting.shares == 0;
      level', nodes' := level, nodes;
      if gone {
        ghost var rest := q[..i] + q[i + 1..];
        CutTwice(model.queues, k, i);
        DropIn(l, resting, i, k, level, nodes, model.queues[k := q[i := q[i].(shares := 0)]], space);
        nodes' := nodes[k := l.nodes];
        EntriesRemove(orders, model, nodes, reference, i);
        if l.head == null {
          assert rest == [];
          levels.Erase(location.price);
          LevelErased(level, nodes', model.queues[k := rest], space, k);
          MapsErase(level, old(bids.levels), old(asks.levels), k);
          level', nodes' := level - {k}, nodes' - {k};
        }
      }
    }

    // An index entry leads to its level and to its place in the queue.
    lemma EntryFacts(reference: U64) returns (i: nat)
      requires Valid() && reference in orders
      ensures var k := Key(orders[reference].side, orders[reference].price);
              && k in level && k in nodes && k in model.queues
              && k.price in Levels(k.side).levels && Levels(k.side).levels[k.price] == level[k]
              && reference in model.orders
              && model.orders[reference] == Location(k, orders[reference].position.arrival)
              && i < |nodes[k]| == |model.queues[k]| && nodes[k][i] == orders[reference].position
              && level[k] in space && level[k].nodes == nodes[k] && (forall n | n in nodes[k] :: n in space)
              && orders[reference].position.Value() == model.queues[k][i]
    {
      hide PriceLevel.Linked, Coherent;
      var k := Key(orders[reference].side, orders[reference].price);
      i :| 0 <= i < |nodes[k]| && nodes[k][i] == orders[reference].position;
      assert LevelIn(level[k], k, model.queues[k]);
      assert level[k].nodes[i].Value() == model.queues[k][i];
    }

    // reduce_or_remove: a reference the index does not have is a silent no-op.
    method ReduceOrRemove(reference: U64, sharesRemoved: U32, removeAll: bool)
      requires Valid() && (removeAll || Covers(model, reference, sharesRemoved))
      modifies this, bids, asks, space
      ensures Valid() && space == old(space)
      ensures model == Reduce(old(model), reference, sharesRemoved, removeAll)
    {
      hide Coherent, LevelsHold, MapsHold, PriceMap.Valid;
      if reference !in orders {
        assert reference !in model.orders;
        return;
      }
      var location := orders[reference];
      if location.side.Buy? {
        ReduceOrRemoveIn(bids, location, reference, sharesRemoved, removeAll);
      } else {
        ReduceOrRemoveIn(asks, location, reference, sharesRemoved, removeAll);
      }
    }

    // The last step of every operation: one tally goes up.
    method Tally(tallied: Stats)
      requires Valid()
      modifies this
      ensures Valid() && model == old(model).(stats := tallied) && space == old(space)
    {
      hide Coherent, LevelsHold, EntriesHold, MapsHold, PriceMap.Valid;
      SameBookCoherent(model, model.(stats := tallied));
      stats := tallied;
      model := model.(stats := tallied);
    }

    method OnAdd(message: AddOrder)
      requires Valid()
      modifies this, bids, asks, space
      ensures Valid() && fresh(space - old(space))
      ensures model == BookModel.OnAdd(old(model), message)
    {
      hide Coherent, LevelsHold, EntriesHold, MapsHold, PriceMap.Valid, Insert;
      if message.header.locate != locate {
        return;
      }
      if message.side == Buy {
        InsertOrder(bids, Buy, message.reference, message.price, message.shares);
      } else {
        InsertOrder(asks, Sell, message.reference, message.price, message.shares);
      }
      InsertKeepsStats(old(model), Key(message.side, message.price), message.reference, message.shares);
      Tally(stats.(adds := stats.adds + 1));
    }

    method OnExecuted(message: OrderExecuted)
      requires Valid()
      requires NoOverRemoval(model, ExecutedMessage(message))
      modifies this, bids, asks, space
      ensures Valid() && space == old(space)
      ensures model == BookModel.OnExecuted(old(model), message)
    {
      hide Coherent, LevelsHold, EntriesHold, MapsHold, PriceMap.Valid, Reduce, Covers;
      if message.header.locate != locate {
        return;
      }
      ReduceOrRemove(message.reference, message.executedShares, false);
      ReduceKeepsStats(old(model), message.reference, message.executedShares, false);
      Tally(stats.(executions := stats.executions + 1));
    }

    method OnCancel(message: OrderCancel)
      requires Valid()
      requires NoOverRemoval(model, CancelMessage(message))
      modifies this, bids, asks, space
      ensures Valid() && space == old(space)
      ensures model == BookModel.OnCancel(old(model), message)
    {
      hide Coherent, LevelsHold, EntriesHold, MapsHold, PriceMap.Valid, Reduce, Covers;
      if message.header.locate != locate {
        return;
      }
      ReduceOrRemove(message.reference, message.cancelledShares, false);
      ReduceKeepsStats(old(model), message.reference, message.cancelledShares, false);
      Tally(stats.(cancels := stats.cancels + 1));
    }

    method OnDelete(message: OrderDelete)
      requires Valid()
      modifies this, bids, asks, space
      ensures Valid() && space == old(space)
      ensures model == BookModel.OnDelete(old(model), message)
    {
      hide Coherent, LevelsHold, EntriesHold, MapsHold, PriceMap.Valid, Reduce, Covers;
      if message.header.locate != locate {
        return;
      }
      ReduceOrRemove(message.reference, 0, true);
      ReduceKeepsStats(old(model), message.reference, 0, true);
      Tally(stats.(deletes := stats.deletes + 1));
    }

    method OnReplace(message: OrderReplace)
      requires Valid()
      modifies this, bids, asks, space
      ensures Valid() && fresh(space - old(space))
      ensures model == BookModel.OnReplace(old(model), message)
    {
      hide Coherent, LevelsHold, MapsHold, PriceMap.Valid, Reduce, Covers, Insert;
      if message.header.locate != locate {
        return;
      }
      if message.original !in orders {
        assert message.original !in model.orders;
        return;
      }
      var side := orders[message.original].side;
      assert side == model.orders[message.original].key.side;
      ReduceOrRemove(message.original, 0, true);
      ghost var b := model;
      if side.Buy? {
        InsertOrder(bids, Buy, message.replacement, message.price, message.shares);
      } else {
        InsertOrder(asks, Sell, message.replacement, message.price, message.shares);
      }
      ReduceKeepsStats(old(model), message.original, 0, true);
      InsertKeepsStats(b, Key(side, message.price), message.replacement, message.shares);
      Tally(stats.(replacements := stats.replacements + 1));
    }

    method OnTrade(message: TradeNonCross)
      requires Valid()
      modifies this
      ensures Valid() && space == old(space)
      ensures model == BookModel.OnTrade(old(model), message)
    {
      if message.header.locate == locate {
        Tally(stats.(trades := stats.trades + 1));
      }
    }

    lemma FieldsOfModel()
      requires Valid()
      ensures locate == model.locate && stats == model.stats
    {
    }

    // set_locate, with its two asserts: once only, and not the unresolved sentinel.
    method SetLocate(newLocate: U16)
      requires Valid() && locate == 0 && newLocate != 0
      modifies this
      ensures Valid() && model == old(model).(locate := newLocate) && space == old(space)
    {
      hide Coherent, LevelsHold, EntriesHold, MapsHold, PriceMap.Valid;
      SameBookCoherent(model, model.(locate := newLocate));
      locate := newLocate;
      model := model.(locate := newLocate);
    }

    // best_bid and best_ask: begin() of the map of a side.
    method Best(levels: PriceMap, side: Side) returns (best: Option<BookLevel>)
      requires Valid() && levels == Levels(side)
      ensures IsBest(model, side, best)
    {
      hide Coherent, PriceLevel.Linked, PriceLevel.Shows, EntriesHold;
      if |levels.keys| == 0 {
        assert forall k | k in level && k.side == side :: k.price in levels.keys;
        return None;
      }
      var price := levels.keys[0];
      assert price in levels.keys;
      assert LevelIn(level[Key(side, price)], Key(side, price), model.queues[Key(side, price)]);
      forall k | k in model.queues && k.side == side
        ensures k.price == price || Better(side, price, k.price)
      {
        levels.FirstIsBest(k.price);
      }
      return Some(BookLevel(price, levels.levels[price].totalShares));
    }

    method BestBid() returns (best: Option<BookLevel>)
      requires Valid()
      ensures IsBest(model, Buy, best)
    {
      best := Best(bids, Buy);
    }

    method BestAsk() returns (best: Option<BookLevel>)
      requires Valid()
      ensures IsBest(model, Sell, best)
    {
      best := Best(asks, Sell);
    }

    method Counts() returns (orderCount: nat, bidLevels: nat, askLevels: nat)
      requires Valid()
      ensures orderCount == |model.orders|
      ensures bidLevels == |LevelPrices(model, Buy)| && askLevels == |LevelPrices(model, Sell)|
    {
      hide Coherent, LevelIn;
      assert orders.Keys == model.orders.Keys;
      SameSize(orders, model.orders);
      assert bids.levels.Keys == LevelPrices(model, Buy) by {
        assert forall p :: p in bids.levels <==> Key(Buy, p) in model.queues;
      }
      assert asks.levels.Keys == LevelPrices(model, Sell) by {
        assert forall p :: p in asks.levels <==> Key(Sell, p) in model.queues;
      }
      return |orders|, |bids.levels|, |asks.levels|;
    }

    // ------------------------------------------------------------------------------------------
    // The audit
    // ------------------------------------------------------------------------------------------

    // What the containers alone guarantee: linked queues in ordered maps, no node in two queues. The
    // queues, totals and index may say anything.
    ghost predicate Containers()
      reads this, bids, asks, space
    {
      && bids.Valid() && asks.Valid() && MapsHold(level, bids.levels, asks.levels)
      && forall k | k in level ::
           level[k] in space && level[k].key == k && (forall n | n in level[k].nodes :: n in space) && level[k].Linked()
    }

    // One level agrees with its own queue and with the index.
    ghost predicate LevelSound(k: Key)
      requires Containers() && k in level
      reads this, bids, asks, space
    {
      && level[k].nodes != []
      && level[k].totalShares == NodeSum(level[k].nodes) % TWO_TO_THE_64
      && forall n | n in level[k].nodes :: NodeIndexed(k, n)
    }

    ghost predicate NodeIndexed(k: Key, n: Node)
      reads this
    {
      n.reference in orders && orders[n.reference] == OrderLocation(k.side, k.price, n)
    }

    // One index entry leads to a queued order with its reference.
    ghost predicate EntrySound(r: U64)
      requires Containers() && r in orders
      reads this, bids, asks, space
    {
      var k := Key(orders[r].side, orders[r].price);
      k in level && orders[r].position in level[k].nodes && orders[r].position.reference == r
    }

    /** The representation invariant in full: levels and index describe each other. */
    ghost predicate RepOk()
      requires Containers()
      reads this, bids, asks, space
    {
      (forall k | k in level :: LevelSound(k)) && (forall r | r in orders :: EntrySound(r))
    }

    /** The invariant in full: what check_rep accepts has no empty level, exact totals, every queued order
        indexed where it is, and every index entry leading to a queued order of its reference. */
    lemma RepOkInFull()
      requires Containers()
      ensures RepOk() <==>
                && (forall k | k in level :: level[k].nodes != [])
                && (forall k | k in level :: level[k].totalShares == NodeSum(level[k].nodes) % TWO_TO_THE_64)
                && (forall k, n | k in level && n in level[k].nodes ::
                      n.reference in orders && orders[n.reference] == OrderLocation(k.side, k.price, n))
                && (forall r | r in orders ::
                      exists k :: k in level && k == Key(orders[r].side, orders[r].price)
                                  && orders[r].position in level[k].nodes && orders[r].position.reference == r)
    {
      hide PriceLevel.Linked;
    }

    // The references counted so far: entries whose order was visited, in a level that is done or in
    // the first `i` places of the level of `k`.
    ghost predicate Counted(seen: set<U64>, done: set<Key>, k: Key, i: nat)
      requires Containers() && k in level && i <= |level[k].nodes|
      reads this, bids, asks, space
    {
      && seen <= orders.Keys && done <= level.Keys
      && (forall r | r in seen :: EntrySound(r))
      && (forall r | r in seen ::
            Key(orders[r].side, orders[r].price) in done
            || (Key(orders[r].side, orders[r].price) == k && orders[r].position in level[k].nodes[..i]))
      && (forall k' | k' in done :: forall n | n in level[k'].nodes :: n.reference in seen)
      && (forall n | n in level[k].nodes[..i] :: n.reference in seen)
    }

    // The inner loop of check_rep: one level's queue, oldest first.
    method CheckLevel(l: PriceLevel, expectedSide: Side, price: U32, totalOrders: nat, ghost seen: set<U64>,
                      ghost done: set<Key>)
      returns (ok: bool, total: nat, ghost seen': set<U64>)
      requires Containers() && Key(expectedSide, price) in level && l == level[Key(expectedSide, price)]
      requires Key(expectedSide, price) !in done
      requires Counted(seen, done, Key(expectedSide, price), 0) && |seen| == totalOrders
      ensures ok <==> LevelSound(Key(expectedSide, price))
      ensures ok ==> Counted(seen', done, Key(expectedSide, price), |l.nodes|) && |seen'| == total
    {
      hide Containers, Counted, EntrySound, PriceLevel.Linked;
      ghost var k := Key(expectedSide, price);
      total, seen' := totalOrders, seen;
      LinksOf(k);
      if l.head == null {
        return false, total, seen';
      }
      var summedShares: U64 := 0;
      var it := l.head;
      ghost var i := 0;
      while it != null
        invariant i <= |l.nodes| && it == (if i < |l.nodes| then l.nodes[i] else null)
        invariant Counted(seen', done, k, i) && |seen'| == total
        invariant forall j | 0 <= j < i :: NodeIndexed(k, l.nodes[j])
        invariant summedShares == NodeSum(l.nodes[..i]) % TWO_TO_THE_64
        decreases |l.nodes| - i
      {
        assert it in l.nodes;
        NodeSumStep(l.nodes, i);
        PriceLevel.AddModulo(NodeSum(l.nodes[..i]), it.shares);
        summedShares := (summedShares + it.shares) % TWO_TO_THE_64;
        if it.reference !in orders {
          return false, total, seen';
        }
        var location := orders[it.reference];
        if location.side != expectedSide || location.price != price || location.position != it {
          return false, total, seen';
        }
        CountOne(l, seen', done, k, i);
        total, seen' := total + 1, seen' + {it.reference};
        it := it.next;
        i := i + 1;
      }
      assert l.nodes[..i] == l.nodes;
      ok := summedShares == l.totalShares;
    }

    lemma LinksOf(k: Key)
      requires Containers() && k in level
      ensures level[k].head == (if level[k].nodes == [] then null else level[k].nodes[0])
      ensures forall i {:trigger level[k].nodes[i].next} | 0 <= i < |level[k].nodes| ::
                level[k].nodes[i].next == (if i == |level[k].nodes| - 1 then null else level[k].nodes[i + 1])
    {
    }

    // Between levels, every visited entry is in a level that is done.
    ghost predicate AllCounted(seen: set<U64>, done: set<Key>)
      requires Containers()
      reads this, bids, asks, space
    {
      && seen <= orders.Keys && done <= level.Keys
      && (forall r | r in seen :: EntrySound(r) && Key(orders[r].side, orders[r].price) in done)
      && (forall k | k in done :: forall n | n in level[k].nodes :: n.reference in seen)
    }

    lemma LevelBegins(seen: set<U64>, done: set<Key>, k: Key)
      requires Containers() && AllCounted(seen, done) && k in level && k !in done
      ensures Counted(seen, done, k, 0)
    {
    }

    lemma LevelEnds(seen: set<U64>, done: set<Key>, k: Key)
      requires Containers() && k in level && Counted(seen, done, k, |level[k].nodes|)
      ensures AllCounted(seen, done + {k})
    {
      assert level[k].nodes[..|level[k].nodes|] == level[k].nodes;
    }

    lemma CountOne(l: PriceLevel, seen: set<U64>, done: set<Key>, k: Key, i: nat)
      requires Containers() && k in level && k !in done && l == level[k] && i < |l.nodes|
      requires Counted(seen, done, k, i) && NodeIndexed(k, l.nodes[i])
      ensures l.nodes[i].reference !in seen
      ensures Counted(seen + {l.nodes[i].reference}, done, k, i + 1)
    {
      var n := l.nodes[i];
      forall j | 0 <= j < i
        ensures l.nodes[j] != n
      {
        assert l.nodes[j].arrival < l.nodes[i].arrival;
      }
      assert l.nodes[..i + 1] == l.nodes[..i] + [n];
    }

    // check_side: every level of one map, from the best price on.
    method CheckSide(levels: PriceMap, expectedSide: Side, totalOrders: nat, ghost seen: set<U64>, ghost done: set<Key>)
      returns (ok: bool, total: nat, ghost seen': set<U64>, ghost done': set<Key>)
      requires Containers() && levels == Levels(expectedSide)
      requires AllCounted(seen, done) && |seen| == totalOrders
      requires done <= level.Keys && forall k | k in done :: k.side != expectedSide && LevelSound(k)
      ensures ok <==> forall k | k in level && k.side == expectedSide :: LevelSound(k)
      ensures ok ==> AllCounted(seen', done') && |seen'| == total
      ensures ok ==> done' == done + (set k | k in level && k.side == expectedSide)
    {
      hide LevelSound, AllCounted, Counted, EntrySound, Containers;
      KeysOf(levels, expectedSide);
      total, seen', done' := totalOrders, seen, done;
      var i := 0;
      while i < |levels.keys|
        invariant i <= |levels.keys| && done' <= level.Keys
        invariant AllCounted(seen', done') && |seen'| == total
        invariant done' == done + (set j | 0 <= j < i :: Key(expectedSide, levels.keys[j]))
        invariant forall k | k in done' :: LevelSound(k)
      {
        var price := levels.keys[i];
        ghost var k := Key(expectedSide, price);
        assert k !in done';
        LevelBegins(seen', done', k);
        var levelOk;
        levelOk, total, seen' := CheckLevel(levels.levels[price], expectedSide, price, total, seen', done');
        if !levelOk {
          return false, total, seen', done';
        }
        LevelEnds(seen', done', k);
        done' := done' + {k};
        i := i + 1;
      }
      forall k | k in level && k.side == expectedSide
        ensures k in done'
      {
        assert k.price in levels.keys;
      }
      ok := true;
    }

    lemma KeysOf(levels: PriceMap, side: Side)
      requires Containers() && levels == Levels(side)
      ensures forall p :: p in levels.keys <==> Key(side, p) in level
      ensures forall i, j | 0 <= i < j < |levels.keys| :: levels.keys[i] != levels.keys[j]
      ensures forall i | 0 <= i < |levels.keys| ::
                levels.keys[i] in levels.levels && Key(side, levels.keys[i]) in level
                && levels.levels[levels.keys[i]] == level[Key(side, levels.keys[i])]
    {
      hide PriceLevel.Linked;
      assert forall i | 0 <= i < |levels.keys| :: levels.keys[i] in levels.keys;
    }

    /** check_rep: walks the levels only, never the index, and yet decides the whole invariant: the
        orders it visits are distinct entries, so when they are as many as the index has, they are
        the index. */
    method CheckRep() returns (ok: bool)
      requires Containers()
      ensures ok <==> RepOk()
    {
      hide LevelSound, EntrySound, Containers, AllCounted;
      var total;
      ghost var seen: set<U64>, done: set<Key> := {}, {};
      NothingCounted();
      ok, total, seen, done := CheckSide(bids, Buy, 0, seen, done);
      if !ok {
        return false;
      }
      ok, total, seen, done := CheckSide(asks, Sell, total, seen, done);
      if !ok {
        return false;
      }
      assert done == level.Keys;
      CountedDecides(seen, done);
      assert |orders| == |orders.Keys|;
      ok := total == |orders|;
    }

    lemma NothingCounted()
      requires Containers()
      ensures AllCounted({}, {})
    {
    }

    // Pigeonhole: the entries visited are all of them exactly when they are as many.
    lemma CountedDecides(seen: set<U64>, done: set<Key>)
      requires Containers() && AllCounted(seen, done) && done == level.Keys
      ensures |seen| == |orders.Keys| <==> forall r | r in orders :: EntrySound(r)
    {
      SubsetSize(seen, orders.Keys);
      if forall r | r in orders :: EntrySound(r) {
        forall r | r in orders
          ensures r in seen
        {
          var k := Key(orders[r].side, orders[r].price);
          assert EntrySound(r) && k in done && orders[r].position in level[k].nodes;
        }
        assert seen == orders.Keys;
      }
    }

    // ------------------------------------------------------------------------------------------
    // The audit on a book that messages built
    // ------------------------------------------------------------------------------------------

    lemma ValidContainers()
      requires Valid()
      ensures Containers()
    {
      hide Coherent, PriceLevel.Linked, PriceLevel.Shows;
      forall k | k in level
        ensures level[k] in space && level[k].key == k && (forall n | n in level[k].nodes :: n in space)
                && level[k].Linked()
      {
        assert LevelIn(level[k], k, model.queues[k]);
      }
    }

    /** On a book that messages built, what check_rep decides is that no queued order is a stray: each
        is the one the index has for its reference. */
    lemma RepOkIsFaithful()
      requires Valid()
      ensures Containers() && (RepOk() <==> Faithful(model))
    {
      hide Coherent, EntriesHold, PriceLevel.Linked, LevelsHold, MapsHold;
      ValidContainers();
      forall r | r in orders
        ensures EntrySound(r)
      {
        EntryOk(r);
      }
      forall k | k in level
        ensures k in model.queues
        ensures LevelSound(k) <==> forall o | o in model.queues[k] :: Indexed(model, k, o)
      {
        LevelOk(k);
      }
      LevelsAreQueues();
    }

    lemma LevelsAreQueues()
      requires Valid()
      ensures level.Keys == model.queues.Keys
    {
    }

    lemma EntryOk(r: U64)
      requires Valid() && Containers() && r in orders
      ensures EntrySound(r)
    {
      hide PriceLevel.Linked;
      var i := EntryFacts(r);
      assert Lookup(model, r).value.reference == r;
      var k := Key(orders[r].side, orders[r].price);
      FindIsMember(model.queues[k], model.queues[k][i].arrival);
      assert orders[r].position.Value() == model.queues[k][i];
    }

    lemma LevelOk(k: Key)
      requires Valid() && Containers() && k in level
      ensures k in model.queues
      ensures LevelSound(k) <==> forall o | o in model.queues[k] :: Indexed(model, k, o)
    {
      hide PriceLevel.Linked;
      var l, q := level[k], model.queues[k];
      assert LevelIn(l, k, q);
      ShownSum(l.nodes, q);
      forall i | 0 <= i < |q|
        ensures NodeIndexed(k, l.nodes[i]) <==> Indexed(model, k, q[i])
      {
        NodeOk(k, i);
      }
    }

    lemma NodeOk(k: Key, i: nat)
      requires Valid() && k in level && k in model.queues && i < |level[k].nodes| == |model.queues[k]|
      ensures NodeIndexed(k, level[k].nodes[i]) <==> Indexed(model, k, model.queues[k][i])
    {
      var n, o := level[k].nodes[i], model.queues[k][i];
      assert LevelIn(level[k], k, model.queues[k]);
      assert n.Value() == o;
      if Indexed(model, k, o) {
        var j := EntryFacts(o.reference);
        assert level[k].nodes[j].arrival == level[k].nodes[i].arrival;
      }
    }

    lemma LevelFacts(k: Key)
      requires Valid()
      ensures k in level <==> k in model.queues
      ensures k in level <==> k.price in Levels(k.side).levels
      ensures if k in level then
                var l := level[k];
                l == Levels(k.side).levels[k.price] && l in space
                && (forall n | n in l.nodes :: n in space && n.arrival < model.arrivals)
                && l.Holds(k, model.queues[k]) && k in nodes && l.nodes == nodes[k]
              else k !in nodes
    {
      hide PriceLevel.Linked;
      if k in level {
        var l, q := level[k], model.queues[k];
        assert LevelIn(l, k, q);
        forall i | 0 <= i < |l.nodes|
          ensures l.nodes[i].arrival < model.arrivals
        {
          assert l.nodes[i].Value() == q[i] && q[i] in model.queues[k];
        }
      }
    }
  }

  // The order an entry points at, by its place, and the queue once shares are taken from it.
  lemma QueueAfter(b: Book, reference: U64, i: nat, removed: U32, all: bool)
    requires Coherent(b) && reference in b.orders && b.orders[reference].key in b.queues
    requires i < |b.queues[b.orders[reference].key]|
    requires b.queues[b.orders[reference].key][i].arrival == b.orders[reference].arrival
    ensures var k := b.orders[reference].key;
            var q := b.queues[k];
            && Lookup(b, reference) == Some(q[i])
            && var remaining := Remaining(q[i], removed, all);
               Reduce(b, reference, removed, all).queues == SetQueue(b.queues, k, Cut(q, i, remaining))
               && Reduce(b, reference, removed, all).orders
                  == if remaining == 0 then b.orders - {reference} else b.orders
  {
    var q := b.queues[b.orders[reference].key];
    ShrinkAt(q, i, Remaining(q[i], removed, all));
  }

  // Zeroing an order and then erasing it is erasing it.
  lemma CutTwice(queues: map<Key, seq<Order>>, k: Key, i: nat)
    requires k in queues && i < |queues[k]|
    ensures var q := queues[k];
            var q' := q[i := q[i].(shares := 0)];
            queues[k := q'][k := q'[..i] + q'[i + 1..]] == queues[k := q[..i] + q[i + 1..]]
            && queues[k := []] - {k} == queues - {k}
  {
    var q := queues[k];
    var q' := q[i := q[i].(shares := 0)];
    assert q'[..i] == q[..i] && q'[i + 1..] == q[i + 1..];
  }

  lemma MapsErase(level: map<Key, PriceLevel>, bids: map<U32, PriceLevel>, asks: map<U32, PriceLevel>, k: Key)
    requires MapsHold(level, bids, asks)
    ensures k.side.Buy? ==> MapsHold(level - {k}, bids - {k.price}, asks)
    ensures k.side.Sell? ==> MapsHold(level - {k}, bids, asks - {k.price})
  {
  }

  lemma EntriesRemove(orders: map<U64, OrderLocation>, b: Book, nodes: map<Key, seq<Node>>, reference: U64, i: nat)
    requires EntriesHold(orders, b.orders, nodes) && Coherent(b) && reference in orders
    requires b.orders[reference].key in nodes && i < |nodes[b.orders[reference].key]|
    requires nodes[b.orders[reference].key][i] == orders[reference].position
    ensures var k := b.orders[reference].key;
            var ns := nodes[k][..i] + nodes[k][i + 1..];
            && EntriesHold(orders - {reference}, b.orders - {reference}, nodes[k := ns])
            && (ns == [] ==> EntriesHold(orders - {reference}, b.orders - {reference}, nodes[k := ns] - {k}))
  {
    var k := b.orders[reference].key;
    var ns := nodes[k][..i] + nodes[k][i + 1..];
    forall r | r in orders && r != reference && b.orders[r].key == k
      ensures orders[r].position in ns
    {
      if orders[r].position == orders[reference].position {
        EntriesDistinct(b, r, reference);
      }
      var j :| 0 <= j < |nodes[k]| && nodes[k][j] == orders[r].position;
      assert ns[if j < i then j else j - 1] == orders[r].position;
    }
  }

  lemma InsertKeepsStats(b: Book, k: Key, reference: U64, shares: U32)
    ensures Insert(b, k, reference, shares).stats == b.stats && Insert(b, k, reference, shares).locate == b.locate
  {
  }

  lemma ReduceKeepsStats(b: Book, reference: U64, removed: U32, all: bool)
    ensures Reduce(b, reference, removed, all).stats == b.stats && Reduce(b, reference, removed, all).locate == b.locate
  {
  }

  lemma SameSize<K, V, W>(m: map<K, V>, n: map<K, W>)
    requires m.Keys == n.Keys
    ensures |m| == |n|
  {
    assert |m| == |m.Keys| && |n| == |n.Keys|;
  }

  ghost function NodeSum(nodes: seq<Node>): nat
    reads nodes
  {
    if nodes == [] then 0 else NodeSum(nodes[..|nodes| - 1]) + nodes[|nodes| - 1].shares
  }

  lemma {:induction false} ShownSum(nodes: seq<Node>, q: seq<Order>)
    requires |nodes| == |q| && forall i | 0 <= i < |q| :: nodes[i].Value() == q[i]
    ensures NodeSum(nodes) == Sum(q)
  {
    if q != [] {
      var n := |q| - 1;
      ShownSum(nodes[..n], q[..n]);
      assert nodes[n].Value() == q[n];
      assert q == q[..n] + [q[n]];
      FindAppend(q[..n], q[n], 0);
    }
  }

  lemma NodeSumStep(nodes: seq<Node>, i: nat)
    requires i < |nodes|
    ensures NodeSum(nodes[..i + 1]) == NodeSum(nodes[..i]) + nodes[i].shares
  {
    assert nodes[..i + 1][..i] == nodes[..i];
  }

  lemma SubsetSize<T>(a: set<T>, b: set<T>)
    requires a <= b
    ensures |a| <= |b| && (|a| == |b| ==> a == b)
  {
    assert |b - a| == |b| - |a|;
    assert a + (b - a) == b;
  }

  lemma MapsInsert(level: map<Key, PriceLevel>, bids: map<U32, PriceLevel>, asks: map<U32, PriceLevel>, k: Key,
                   l: PriceLevel)
    requires MapsHold(level, bids, asks)
    requires k in level ==> level[k] == l
    ensures k in level ==> MapsHold(level[k := l], bids, asks)
    ensures k.side.Buy? ==> MapsHold(level[k := l], bids[k.price := l], asks)
    ensures k.side.Sell? ==> MapsHold(level[k := l], bids, asks[k.price := l])
  {
    assert k in level ==> level[k := l] == level;
  }

  lemma EntriesInsert(orders: map<U64, OrderLocation>, b: Book, nodes: map<Key, seq<Node>>, k: Key, reference: U64,
                      shares: U32, node: Node)
    requires EntriesHold(orders, b.orders, nodes) && node.arrival == b.arrivals
    ensures var queue := (if k in nodes then nodes[k] else []) + [node];
            var orders' := if reference in orders then orders
                           else orders[reference := OrderLocation(k.side, k.price, node)];
            EntriesHold(orders', Insert(b, k, reference, shares).orders, nodes[k := queue])
  {
  }
}
