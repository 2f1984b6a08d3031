/** The order book as a value: what every operation of the book does to its queues and index.

    Each insertion is numbered by arrival. The number plays the part of the list iterator: it says
    which queued order an index entry points at, also when two orders share a reference. */
module BookModel {
  import opened Bytes
  import opened Messages

  datatype Key = Key(side: Side, price: U32)
  datatype Order = Order(arrival: nat, reference: U64, shares: U32)
  datatype Location = Location(key: Key, arrival: nat)
  datatype Stats = Stats(adds: nat, executions: nat, cancels: nat, deletes: nat, replacements: nat, trades: nat)

  datatype Book = Book(
    locate: U16, queues: map<Key, seq<Order>>, orders: map<U64, Location>, arrivals: nat, stats: Stats)

  const NO_STATS := Stats(0, 0, 0, 0, 0, 0)
  const EMPTY_BOOK := Book(0, map[], map[], 0, NO_STATS)

  /** What a top-of-book query reports: the best price of a side, with the 64-bit total of its level. */
  datatype BookLevel = BookLevel(price: U32, shares: U64)

  function QueueAt(b: Book, k: Key): seq<Order> {
    if k in b.queues then b.queues[k] else []
  }

  // A level is erased with its last order.
  function SetQueue(queues: map<Key, seq<Order>>, k: Key, q: seq<Order>): map<Key, seq<Order>> {
    if q == [] then queues - {k} else queues[k := q]
  }

  function Sum(q: seq<Order>): nat {
    if q == [] then 0 else q[0].shares + Sum(q[1..])
  }

  function Find(q: seq<Order>, arrival: nat): Option<Order> {
    if q == [] then None
    else if q[0].arrival == arrival then Some(q[0])
    else Find(q[1..], arrival)
  }

  /** The queue once the order that arrived as `arrival` has `remaining` shares: it keeps its place,
      or leaves when nothing remains. */
  function Shrink(q: seq<Order>, arrival: nat, remaining: U32): seq<Order> {
    if q == [] then []
    else if q[0].arrival == arrival then
      if remaining == 0 then q[1..] else [q[0].(shares := remaining)] + q[1..]
    else [q[0]] + Shrink(q[1..], arrival, remaining)
  }

  /** The order that the index has for a reference. */
  function Lookup(b: Book, reference: U64): Option<Order> {
    if reference in b.orders then Find(QueueAt(b, b.orders[reference].key), b.orders[reference].arrival) else None
  }

  // --------------------------------------------------------------------------------------------
  // Operations
  // --------------------------------------------------------------------------------------------

  // insert_order. emplace does not overwrite an entry that is already there.
  function Insert(b: Book, k: Key, reference: U64, shares: U32): Book {
    b.(queues := b.queues[k := QueueAt(b, k) + [Order(b.arrivals, reference, shares)]],
       orders := if reference in b.orders then b.orders else b.orders[reference := Location(k, b.arrivals)],
       arrivals := b.arrivals + 1)
  }

  // The shares left on an order; uint32_t subtraction wraps.
  function Remaining(o: Order, removed: U32, all: bool): U32 {
    if all then 0 else (o.shares - removed) % TWO_TO_THE_32
  }

  // What a reduction is asked to take off an order.
  function RemovedShares(o: Order, removed: U32, all: bool): U32 {
    if all then o.shares else removed
  }

  // reduce_or_remove. A reference the index does not have is a silent no-op.
  function Reduce(b: Book, reference: U64, removed: U32, all: bool): Book {
    match Lookup(b, reference)
    case None => b
    case Some(o) =>
      var location, remaining := b.orders[reference], Remaining(o, removed, all);
      b.(queues := SetQueue(b.queues, location.key, Shrink(QueueAt(b, location.key), location.arrival, remaining)),
         orders := if remaining == 0 then b.orders - {reference} else b.orders)
  }

  function OnAdd(b: Book, a: AddOrder): Book {
    if a.header.locate != b.locate then b
    else Insert(b, Key(a.side, a.price), a.reference, a.shares).(stats := b.stats.(adds := b.stats.adds + 1))
  }

  function OnExecuted(b: Book, e: OrderExecuted): Book {
    if e.header.locate != b.locate then b
    else
      Reduce(b, e.reference, e.executedShares, false).(stats := b.stats.(executions := b.stats.executions + 1))
  }

  function OnCancel(b: Book, c: OrderCancel): Book {
    if c.header.locate != b.locate then b
    else Reduce(b, c.reference, c.cancelledShares, false).(stats := b.stats.(cancels := b.stats.cancels + 1))
  }

  function OnDelete(b: Book, d: OrderDelete): Book {
    if d.header.locate != b.locate then b
    else Reduce(b, d.reference, 0, true).(stats := b.stats.(deletes := b.stats.deletes + 1))
  }

  // Unlike the others, a replace of an unknown reference is not counted.
  function OnReplace(b: Book, u: OrderReplace): Book {
    if u.header.locate != b.locate || u.original !in b.orders then b
    else
      var side := b.orders[u.original].key.side;
      Insert(Reduce(b, u.original, 0, true), Key(side, u.price), u.replacement, u.shares)
      .(stats := b.stats.(replacements := b.stats.replacements + 1))
  }

  function OnTrade(b: Book, t: TradeNonCross): Book {
    if t.header.locate != b.locate then b else b.(stats := b.stats.(trades := b.stats.trades + 1))
  }

  /** One message into the book. */
  function Step(b: Book, m: Message): Book {
    match m
    case AddMessage(a) => OnAdd(b, a)
    case AddWithMpidMessage(a) => OnAdd(b, a.order)
    case ExecutedMessage(e) => OnExecuted(b, e)
    case ExecutedWithPriceMessage(e) => OnExecuted(b, e.executed)
    case CancelMessage(c) => OnCancel(b, c)
    case DeleteMessage(d) => OnDelete(b, d)
    case ReplaceMessage(u) => OnReplace(b, u)
    case TradeMessage(t) => OnTrade(b, t)
    case SystemEventMessage(_) => b
    case DirectoryMessage(_) => b
    case OtherMessage(_, _) => b
  }

  /** What an accepted message does to queues and index, leaving the tallies aside. */
  function Bookkeeping(b: Book, m: Message): Book {
    match m
    case AddMessage(a) => Insert(b, Key(a.side, a.price), a.reference, a.shares)
    case AddWithMpidMessage(a) => Insert(b, Key(a.order.side, a.order.price), a.order.reference, a.order.shares)
    case ExecutedMessage(e) => Reduce(b, e.reference, e.executedShares, false)
    case ExecutedWithPriceMessage(e) => Reduce(b, e.executed.reference, e.executed.executedShares, false)
    case CancelMessage(c) => Reduce(b, c.reference, c.cancelledShares, false)
    case DeleteMessage(d) => Reduce(b, d.reference, 0, true)
    case ReplaceMessage(u) =>
      if u.original !in b.orders then b
      else Insert(Reduce(b, u.original, 0, true), Key(b.orders[u.original].key.side, u.price), u.replacement, u.shares)
    case _ => b
  }

  function Run(b: Book, ms: seq<Message>): Book {
    if ms == [] then b else Step(Run(b, ms[..|ms| - 1]), ms[|ms| - 1])
  }

  // --------------------------------------------------------------------------------------------
  // Hypotheses on the messages
  // --------------------------------------------------------------------------------------------

  /** A message for an order book, under this locate. */
  predicate Carries(m: Message, locate: U16) {
    match m
    case AddMessage(a) => a.header.locate == locate
    case AddWithMpidMessage(a) => a.order.header.locate == locate
    case ExecutedMessage(e) => e.header.locate == locate
    case ExecutedWithPriceMessage(e) => e.executed.header.locate == locate
    case CancelMessage(c) => c.header.locate == locate
    case DeleteMessage(d) => d.header.locate == locate
    case ReplaceMessage(u) => u.header.locate == locate
    case TradeMessage(t) => t.header.locate == locate
    case SystemEventMessage(_) => false
    case DirectoryMessage(_) => false
    case OtherMessage(_, _) => false
  }

  // The locate filter every operation starts with.
  predicate Accepts(b: Book, m: Message) {
    Carries(m, b.locate)
  }

  /** Fresh references: an inserted reference is not live, once a replaced original has left. */
  predicate Fresh(b: Book, m: Message) {
    Accepts(b, m) ==>
      match m
      case AddMessage(a) => a.reference !in b.orders
      case AddWithMpidMessage(a) => a.order.reference !in b.orders
      case ReplaceMessage(u) => u.original in b.orders ==> u.replacement !in b.orders || u.replacement == u.original
      case _ => true
  }

  predicate Covers(b: Book, reference: U64, removed: U32) {
    match Lookup(b, reference)
    case None => true
    case Some(o) => removed <= o.shares
  }

  /** No over-removal: the assert of reduce_or_remove_in. */
  predicate NoOverRemoval(b: Book, m: Message) {
    Accepts(b, m) ==>
      match m
      case ExecutedMessage(e) => Covers(b, e.reference, e.executedShares)
      case ExecutedWithPriceMessage(e) => Covers(b, e.executed.reference, e.executed.executedShares)
      case CancelMessage(c) => Covers(b, c.reference, c.cancelledShares)
      case _ => true
  }

  /** Positive shares: what an order is inserted with. */
  predicate PositiveShares(b: Book, m: Message) {
    Accepts(b, m) ==>
      match m
      case AddMessage(a) => a.shares > 0
      case AddWithMpidMessage(a) => a.order.shares > 0
      case ReplaceMessage(u) => u.original in b.orders ==> u.shares > 0
      case _ => true
  }

  // --------------------------------------------------------------------------------------------
  // Invariants
  // --------------------------------------------------------------------------------------------

  predicate Better(side: Side, p: U32, other: U32) {
    if side.Buy? then p > other else p < other
  }

  /** `best` is the top of a side: its best level and what rests there, or nothing if it is empty. */
  ghost predicate IsBest(b: Book, side: Side, best: Option<BookLevel>) {
    match best
    case None => forall k | k in b.queues :: k.side != side
    case Some(level) =>
      Key(side, level.price) in b.queues
      && (forall k | k in b.queues && k.side == side :: k.price == level.price || Better(side, level.price, k.price))
      && level.shares == Sum(b.queues[Key(side, level.price)]) % TWO_TO_THE_64
  }

  /** The prices of a side's levels. */
  function LevelPrices(b: Book, side: Side): set<U32> {
    set k | k in b.queues && k.side == side :: k.price
  }

  predicate Sorted(q: seq<Order>) {
    forall i, j | 0 <= i < j < |q| :: q[i].arrival < q[j].arrival
  }

  /** Holds in every reachable state, whatever the messages: no level is empty, every queue is in
      arrival order, and every index entry points at a queued order with its reference. */
  ghost predicate Coherent(b: Book) {
    && (forall k | k in b.queues :: b.queues[k] != [] && Sorted(b.queues[k]))
    && (forall k, o | k in b.queues && o in b.queues[k] :: o.arrival < b.arrivals)
    && (forall r | r in b.orders :: Lookup(b, r).Some? && Lookup(b, r).value.reference == r)
  }

  /** The full representation invariant: also, every queued order is the one the index has for its
      reference. */
  ghost predicate Faithful(b: Book) {
    Coherent(b) && forall k, o | k in b.queues && o in b.queues[k] :: Indexed(b, k, o)
  }

  predicate Indexed(b: Book, k: Key, o: Order) {
    o.reference in b.orders && b.orders[o.reference] == Location(k, o.arrival)
  }

  // --------------------------------------------------------------------------------------------
  // Queues
  // --------------------------------------------------------------------------------------------

  lemma {:induction false} FindIsMember(q: seq<Order>, arrival: nat)
    ensures Find(q, arrival).Some? ==> Find(q, arrival).value in q && Find(q, arrival).value.arrival == arrival
    ensures Sorted(q) ==> forall o | o in q && o.arrival == arrival :: Find(q, arrival) == Some(o)
  {
    if q != [] {
      assert forall o | o in q :: o == q[0] || o in q[1..];
      FindIsMember(q[1..], arrival);
    }
  }

  // Shrink, by position.
  function Cut(q: seq<Order>, i: nat, remaining: U32): seq<Order>
    requires i < |q|
  {
    if remaining == 0 then q[..i] + q[i + 1..] else q[i := q[i].(shares := remaining)]
  }

  lemma CutStep(q: seq<Order>, i: nat, remaining: U32)
    requires 0 < i < |q|
    ensures Cut(q, i, remaining) == [q[0]] + Cut(q[1..], i - 1, remaining)
  {
    if remaining == 0 {
      assert q[..i] == [q[0]] + q[1..][..i - 1];
      assert q[i + 1..] == q[1..][i..];
    }
  }

  lemma SumCons(o: Order, q: seq<Order>)
    ensures Sum([o] + q) == o.shares + Sum(q)
  {
    assert ([o] + q)[1..] == q;
  }

  lemma {:induction false} ShrinkAt(q: seq<Order>, i: nat, remaining: U32)
    requires Sorted(q) && i < |q|
    ensures Find(q, q[i].arrival) == Some(q[i])
    ensures Shrink(q, q[i].arrival, remaining) == Cut(q, i, remaining)
    ensures Sum(Cut(q, i, remaining)) == Sum(q) - q[i].shares + remaining
  {
    if i > 0 {
      assert q[i] == q[1..][i - 1] && q[0].arrival != q[i].arrival;
      ShrinkAt(q[1..], i - 1, remaining);
      CutStep(q, i, remaining);
      SumCons(q[0], Cut(q[1..], i - 1, remaining));
    } else if remaining == 0 {
      assert Cut(q, 0, remaining) == q[1..];
    } else {
      assert Cut(q, 0, remaining) == [q[0].(shares := remaining)] + q[1..];
      SumCons(q[0].(shares := remaining), q[1..]);
    }
  }

  lemma {:induction false} FindPosition(q: seq<Order>, arrival: nat) returns (i: nat)
    requires Find(q, arrival).Some?
    ensures i < |q| && q[i] == Find(q, arrival).value && q[i].arrival == arrival
  {
    if q[0].arrival == arrival {
      i := 0;
    } else {
      i := FindPosition(q[1..], arrival);
      i := i + 1;
    }
  }

  lemma CutMembers(q: seq<Order>, i: nat, remaining: U32)
    requires Sorted(q) && i < |q|
    ensures Sorted(Cut(q, i, remaining))
    ensures forall o :: o in Cut(q, i, remaining) <==>
              (o in q && o.arrival != q[i].arrival) || (remaining != 0 && o == q[i].(shares := remaining))
  {
    var c := Cut(q, i, remaining);
    if remaining == 0 {
      assert c == q[..i] + q[i + 1..];
      assert q == q[..i] + [q[i]] + q[i + 1..];
      assert forall o | o in q[..i] || o in q[i + 1..] :: o.arrival != q[i].arrival;
    } else {
      assert c == q[..i] + [q[i].(shares := remaining)] + q[i + 1..];
      assert q == q[..i] + [q[i]] + q[i + 1..];
      assert forall o | o in q[..i] || o in q[i + 1..] :: o.arrival != q[i].arrival;
    }
  }

  /** What shrinking does to the members of a queue in arrival order, and to its shares. */
  lemma ShrinkMembers(q: seq<Order>, arrival: nat, remaining: U32)
    requires Sorted(q) && Find(q, arrival).Some?
    ensures var s := Shrink(q, arrival, remaining);
            var o := Find(q, arrival).value;
            && Sorted(s)
            && (forall x :: x in s <==> (x in q && x.arrival != arrival)
                                        || (remaining != 0 && x == o.(shares := remaining)))
            && Sum(s) == Sum(q) - o.shares + remaining
  {
    var i := FindPosition(q, arrival);
    ShrinkAt(q, i, remaining);
    CutMembers(q, i, remaining);
  }

  lemma ShrinkFind(q: seq<Order>, arrival: nat, remaining: U32, other: nat)
    requires Sorted(q) && Find(q, arrival).Some?
    ensures Find(Shrink(q, arrival, remaining), other)
         == if other != arrival then Find(q, other)
            else if remaining == 0 then None else Some(Find(q, arrival).value.(shares := remaining))
  {
    ShrinkMembers(q, arrival, remaining);
    FindIsMember(q, other);
    FindIsMember(q, arrival);
    FindIsMember(Shrink(q, arrival, remaining), other);
  }

  lemma {:induction false} FindAppend(q: seq<Order>, o: Order, arrival: nat)
    ensures Find(q + [o], arrival)
         == if Find(q, arrival).Some? then Find(q, arrival) else if o.arrival == arrival then Some(o) else None
    ensures Sum(q + [o]) == Sum(q) + o.shares
  {
    if q == [] {
      assert q + [o] == [o] && [o][1..] == [];
    } else {
      assert (q + [o])[1..] == q[1..] + [o];
      FindAppend(q[1..], o, arrival);
    }
  }

  // --------------------------------------------------------------------------------------------
  // Every operation keeps the book coherent
  // --------------------------------------------------------------------------------------------

  lemma LookupInsert(b: Book, k: Key, reference: U64, shares: U32, r: U64)
    requires Coherent(b)
    ensures Lookup(Insert(b, k, reference, shares), r)
         == if r == reference && r !in b.orders then Some(Order(b.arrivals, r, shares)) else Lookup(b, r)
  {
    var b' := Insert(b, k, reference, shares);
    if r in b'.orders {
      var l := b'.orders[r];
      FindAppend(QueueAt(b, k), Order(b.arrivals, reference, shares), l.arrival);
      if r !in b.orders {
        FindIsMember(QueueAt(b, k), b.arrivals);
      }
    }
  }

  lemma LookupReduce(b: Book, reference: U64, removed: U32, all: bool, r: U64)
    requires Coherent(b) && Lookup(b, reference).Some?
    ensures var remaining := Remaining(Lookup(b, reference).value, removed, all);
            Lookup(Reduce(b, reference, removed, all), r) ==
            (if r != reference then Lookup(b, r)
             else if remaining == 0 then None else Some(Lookup(b, reference).value.(shares := remaining)))
  {
    var o, l := Lookup(b, reference).value, b.orders[reference];
    var remaining := Remaining(o, removed, all);
    if r in b.orders && b.orders[r].key == l.key {
      ShrinkFind(QueueAt(b, l.key), l.arrival, remaining, b.orders[r].arrival);
      if r != reference {
        // Entries of one queue point at orders of different references.
        assert Lookup(b, r).value.reference == r && o.reference == reference;
        assert b.orders[r].arrival != l.arrival;
      }
    }
  }

  // Two entries never point at the same queued order.
  lemma EntriesDistinct(b: Book, r: U64, r': U64)
    requires Coherent(b) && r in b.orders && r' in b.orders && b.orders[r] == b.orders[r']
    ensures r == r'
  {
    assert Lookup(b, r).value.reference == r && Lookup(b, r').value.reference == r';
  }

  lemma InsertCoherent(b: Book, k: Key, reference: U64, shares: U32)
    requires Coherent(b)
    ensures Coherent(Insert(b, k, reference, shares))
  {
    var b' := Insert(b, k, reference, shares);
    var q := QueueAt(b, k);
    assert forall o | o in b'.queues[k] :: o in q || o == Order(b.arrivals, reference, shares);
    assert forall i | 0 <= i < |q| :: q[i] in q;
    forall r | r in b'.orders
      ensures Lookup(b', r).Some? && Lookup(b', r).value.reference == r
    {
      LookupInsert(b, k, reference, shares, r);
    }
  }

  lemma QueuesAfterReduce(b: Book, reference: U64, removed: U32, all: bool)
    requires Coherent(b) && Lookup(b, reference).Some?
    ensures var b' := Reduce(b, reference, removed, all);
            forall k | k in b'.queues ::
              && b'.queues[k] != [] && Sorted(b'.queues[k])
              && (forall o | o in b'.queues[k] :: o.arrival < b.arrivals)
  {
    hide Shrink, Sum;
    var l := b.orders[reference];
    ShrinkMembers(b.queues[l.key], l.arrival, Remaining(Lookup(b, reference).value, removed, all));
    FindIsMember(b.queues[l.key], l.arrival);
    hide Sorted, Find;
  }

  lemma ReduceCoherent(b: Book, reference: U64, removed: U32, all: bool)
    requires Coherent(b)
    ensures Coherent(Reduce(b, reference, removed, all))
  {
    if Lookup(b, reference).Some? {
      QueuesAfterReduce(b, reference, removed, all);
      forall r | r in Reduce(b, reference, removed, all).orders
        ensures var o := Lookup(Reduce(b, reference, removed, all), r); o.Some? && o.value.reference == r
      {
        LookupReduce(b, reference, removed, all, r);
      }
    }
  }

  lemma ReplaceCoherent(b: Book, original: U64, k: Key, replacement: U64, shares: U32)
    requires Coherent(b)
    ensures Coherent(Insert(Reduce(b, original, 0, true), k, replacement, shares))
  {
    ReduceCoherent(b, original, 0, true);
    InsertCoherent(Reduce(b, original, 0, true), k, replacement, shares);
  }

  // The tallies and the locate play no part in the representation.
  predicate SameBook(b: Book, b': Book) {
    b'.queues == b.queues && b'.orders == b.orders && b'.arrivals == b.arrivals
  }

  lemma SameBookCoherent(b: Book, b': Book)
    requires SameBook(b, b')
    ensures forall r :: Lookup(b', r) == Lookup(b, r)
    ensures Coherent(b) ==> Coherent(b')
  {
  }

  /** Coherence needs no hypothesis on the messages: not fresh references, not bounded removals. */
  lemma StepCoherent(b: Book, m: Message)
    requires Coherent(b)
    ensures Coherent(Step(b, m))
  {
    if Accepts(b, m) {
      var p := Bookkeeping(b, m);
      match m {
        case AddMessage(a) => InsertCoherent(b, Key(a.side, a.price), a.reference, a.shares);
        case AddWithMpidMessage(a) =>
          InsertCoherent(b, Key(a.order.side, a.order.price), a.order.reference, a.order.shares);
        case ExecutedMessage(e) => ReduceCoherent(b, e.reference, e.executedShares, false);
        case ExecutedWithPriceMessage(e) => ReduceCoherent(b, e.executed.reference, e.executed.executedShares, false);
        case CancelMessage(c) => ReduceCoherent(b, c.reference, c.cancelledShares, false);
        case DeleteMessage(d) => ReduceCoherent(b, d.reference, 0, true);
        case ReplaceMessage(u) =>
          if u.original in b.orders {
            ReplaceCoherent(b, u.original, Key(b.orders[u.original].key.side, u.price), u.replacement, u.shares);
          }
        case TradeMessage(_) =>
      }
      SameBookCoherent(p, Step(b, m));
    }
  }

  lemma {:induction false} RunCoherent(b: Book, ms: seq<Message>)
    requires Coherent(b)
    ensures Coherent(Run(b, ms))
  {
    if ms != [] {
      RunCoherent(b, ms[..|ms| - 1]);
      StepCoherent(Run(b, ms[..|ms| - 1]), ms[|ms| - 1]);
    }
  }
}
