/** Laws of the book's operations, as equalities of whole books: queues with their order, index,
    tallies. */
module BookAlgebra {
  import opened Bytes
  import opened Messages
  import opened BookModel
  import opened PriceTimePriority

  // --------------------------------------------------------------------------------------------
  // Queues
  // --------------------------------------------------------------------------------------------

  lemma {:induction false} ShrinksCommute(q: seq<Order>, a: nat, x: U32, a': nat, x': U32)
    requires a != a'
    ensures Shrink(Shrink(q, a, x), a', x') == Shrink(Shrink(q, a', x'), a, x)
  {
    if q != [] {
      ShrinksCommute(q[1..], a, x, a', x');
      ShrinkCons(q[0], Shrink(q[1..], a, x), a', x');
      ShrinkCons(q[0], Shrink(q[1..], a', x'), a, x);
      if q[0].arrival == a && x != 0 {
        ShrinkCons(q[0].(shares := x), q[1..], a', x');
      }
      if q[0].arrival == a' && x' != 0 {
        ShrinkCons(q[0].(shares := x'), q[1..], a, x);
      }
    }
  }

  lemma ShrinkCons(o: Order, q: seq<Order>, a: nat, x: U32)
    ensures Shrink([o] + q, a, x)
         == if o.arrival != a then [o] + Shrink(q, a, x) else if x == 0 then q else [o.(shares := x)] + q
  {
    assert ([o] + q)[1..] == q;
  }

  lemma {:induction false} ShrinkTwice(q: seq<Order>, a: nat, x: U32, y: U32)
    requires x != 0
    ensures Shrink(Shrink(q, a, x), a, y) == Shrink(q, a, y)
  {
    if q != [] {
      ShrinkTwice(q[1..], a, x, y);
      ShrinkCons(q[0], Shrink(q[1..], a, x), a, y);
      ShrinkCons(q[0].(shares := x), q[1..], a, y);
    }
  }

  lemma {:induction false} ShrinkLast(q: seq<Order>, o: Order)
    requires Find(q, o.arrival).None?
    ensures Shrink(q + [o], o.arrival, 0) == q
  {
    if q == [] {
      assert q + [o] == [o] && [o][1..] == [];
    } else {
      assert q + [o] == [q[0]] + (q[1..] + [o]);
      ShrinkCons(q[0], q[1..] + [o], o.arrival, 0);
      ShrinkLast(q[1..], o);
    }
  }

  // --------------------------------------------------------------------------------------------
  // Reductions commute
  // --------------------------------------------------------------------------------------------

  // Reduce on a reference the index has, given its order and what will remain of it.
  function Reduced(b: Book, reference: U64, remaining: U32): Book
    requires reference in b.orders
  {
    var l := b.orders[reference];
    b.(queues := SetQueue(b.queues, l.key, Shrink(QueueAt(b, l.key), l.arrival, remaining)),
       orders := if remaining == 0 then b.orders - {reference} else b.orders)
  }

  lemma ReduceIsReduced(b: Book, reference: U64, removed: U32, all: bool)
    ensures match Lookup(b, reference)
            case None => Reduce(b, reference, removed, all) == b
            case Some(o) =>
              reference in b.orders
              && Reduce(b, reference, removed, all) == Reduced(b, reference, Remaining(o, removed, all))
  {
  }

  lemma SetQueues(queues: map<Key, seq<Order>>, k: Key, q: seq<Order>, k': Key, q': seq<Order>)
    ensures k != k' ==> SetQueue(SetQueue(queues, k, q), k', q') == SetQueue(SetQueue(queues, k', q'), k, q)
    ensures SetQueue(SetQueue(queues, k, q), k, q') == SetQueue(queues, k, q')
  {
  }

  lemma QueueAfterSet(b: Book, reference: U64, remaining: U32, k: Key)
    requires reference in b.orders
    ensures var l := b.orders[reference];
            QueueAt(Reduced(b, reference, remaining), k)
            == (if k == l.key then Shrink(QueueAt(b, k), l.arrival, remaining) else QueueAt(b, k))
  {
  }

  lemma ReducedCommute(b: Book, r: U64, x: U32, r': U64, x': U32)
    requires r in b.orders && r' in b.orders && r != r' && b.orders[r] != b.orders[r']
    ensures Reduced(Reduced(b, r, x), r', x') == Reduced(Reduced(b, r', x'), r, x)
  {
    hide Shrink, SetQueue;
    var l, l' := b.orders[r], b.orders[r'];
    QueueAfterSet(b, r, x, l'.key);
    QueueAfterSet(b, r', x', l.key);
    if l.key == l'.key {
      ShrinksCommute(QueueAt(b, l.key), l.arrival, x, l'.arrival, x');
    }
    SetQueues(b.queues, l.key, Shrink(QueueAt(b, l.key), l.arrival, x), l'.key,
              QueueAt(Reduced(Reduced(b, r, x), r', x'), l'.key));
    SetQueues(b.queues, l.key, Shrink(QueueAt(b, l.key), l.arrival, x),
              l'.key, Shrink(QueueAt(b, l'.key), l'.arrival, x'));
    SetQueues(b.queues, l'.key, Shrink(QueueAt(b, l'.key), l'.arrival, x'), l.key,
              Shrink(Shrink(QueueAt(b, l.key), l.arrival, x), l'.arrival, x'));
    SetQueues(b.queues, l.key, Shrink(QueueAt(b, l.key), l.arrival, x), l.key,
              Shrink(Shrink(QueueAt(b, l.key), l.arrival, x), l'.arrival, x'));
    var before := Reduced(Reduced(b, r, x), r', x').orders;
    var after := Reduced(Reduced(b, r', x'), r, x).orders;
    assert before == after;
  }

  /** Reductions of different references commute on the whole book. */
  lemma ReductionsCommute(b: Book, r: U64, n: U32, all: bool, r': U64, n': U32, all': bool)
    requires Coherent(b) && r != r'
    ensures Reduce(Reduce(b, r, n, all), r', n', all') == Reduce(Reduce(b, r', n', all'), r, n, all)
  {
    hide Coherent, Lookup, Reduce, Reduced, Remaining;
    var b1, b2 := Reduce(b, r, n, all), Reduce(b, r', n', all');
    ReduceIsReduced(b, r, n, all);
    ReduceIsReduced(b, r', n', all');
    ReduceIsReduced(b1, r', n', all');
    ReduceIsReduced(b2, r, n, all);
    if Lookup(b, r).Some? && Lookup(b, r').Some? {
      LookupReduce(b, r, n, all, r');
      LookupReduce(b, r', n', all', r);
      if b.orders[r] == b.orders[r'] {
        EntriesDistinct(b, r, r');
      }
      ReducedCommute(b, r, Remaining(Lookup(b, r).value, n, all), r', Remaining(Lookup(b, r').value, n', all'));
    } else if Lookup(b, r).Some? {
      LookupReduce(b, r, n, all, r');
    } else if Lookup(b, r').Some? {
      LookupReduce(b, r', n', all', r);
    }
  }

  /** The reference an E, C, X or D message reduces. */
  function ReducedReference(m: Message): Option<U64> {
    match m
    case ExecutedMessage(e) => Some(e.reference)
    case ExecutedWithPriceMessage(e) => Some(e.executed.reference)
    case CancelMessage(c) => Some(c.reference)
    case DeleteMessage(d) => Some(d.reference)
    case _ => None
  }

  function ReducedShares(m: Message): U32 {
    match m
    case ExecutedMessage(e) => e.executedShares
    case ExecutedWithPriceMessage(e) => e.executed.executedShares
    case CancelMessage(c) => c.cancelledShares
    case _ => 0
  }

  function Tallied(stats: Stats, m: Message): Stats {
    match m
    case ExecutedMessage(_) => stats.(executions := stats.executions + 1)
    case ExecutedWithPriceMessage(_) => stats.(executions := stats.executions + 1)
    case CancelMessage(_) => stats.(cancels := stats.cancels + 1)
    case DeleteMessage(_) => stats.(deletes := stats.deletes + 1)
    case _ => stats
  }

  lemma StepIsReduce(b: Book, m: Message)
    requires ReducedReference(m).Some?
    ensures Step(b, m) == if !Accepts(b, m) then b
                          else Reduce(b, ReducedReference(m).value, ReducedShares(m), m.DeleteMessage?)
                               .(stats := Tallied(b.stats, m))
  {
  }

  lemma ReduceIgnoresStats(b: Book, stats: Stats, r: U64, n: U32, all: bool)
    ensures Reduce(b.(stats := stats), r, n, all) == Reduce(b, r, n, all).(stats := stats)
    ensures Reduce(b, r, n, all).stats == b.stats && Reduce(b, r, n, all).locate == b.locate
  {
  }

  /** Executions, cancels and deletes of different orders can arrive in either order: queues, index
      and tallies end the same. */
  lemma ReducingMessagesCommute(b: Book, m: Message, m': Message)
    requires Coherent(b) && ReducedReference(m).Some? && ReducedReference(m').Some?
    requires ReducedReference(m) != ReducedReference(m')
    ensures Step(Step(b, m), m') == Step(Step(b, m'), m)
  {
    hide Coherent, Reduce, Step;
    StepIsReduce(b, m);
    StepIsReduce(b, m');
    StepIsReduce(Step(b, m), m');
    StepIsReduce(Step(b, m'), m);
    var r, n, all := ReducedReference(m).value, ReducedShares(m), m.DeleteMessage?;
    var r', n', all' := ReducedReference(m').value, ReducedShares(m'), m'.DeleteMessage?;
    ReductionsCommute(b, r, n, all, r', n', all');
    ReduceIgnoresStats(b, b.stats, r, n, all);
    ReduceIgnoresStats(b, b.stats, r', n', all');
    ReduceIgnoresStats(Reduce(b, r, n, all), Tallied(b.stats, m), r', n', all');
    ReduceIgnoresStats(Reduce(b, r', n', all'), Tallied(b.stats, m'), r, n, all);
    StepKeepsLocate(b, m);
    StepKeepsLocate(b, m');
  }

  // --------------------------------------------------------------------------------------------
  // Reductions compose
  // --------------------------------------------------------------------------------------------

  lemma ReducedTwice(b: Book, r: U64, x: U32, y: U32)
    requires r in b.orders && x != 0
    ensures r in Reduced(b, r, x).orders && Reduced(Reduced(b, r, x), r, y) == Reduced(b, r, y)
  {
    hide Shrink, SetQueue;
    var l := b.orders[r];
    QueueAfterSet(b, r, x, l.key);
    ShrinkTwice(QueueAt(b, l.key), l.arrival, x, y);
    SetQueues(b.queues, l.key, Shrink(QueueAt(b, l.key), l.arrival, x), l.key,
              Shrink(QueueAt(b, l.key), l.arrival, y));
  }

  /** Removing x and then y is removing x + y, as long as that much rests; also when x alone already
      takes the order away. */
  lemma ReductionsCompose(b: Book, r: U64, x: U32, y: U32)
    requires Coherent(b) && Lookup(b, r).Some? && x + y <= Lookup(b, r).value.shares
    ensures Reduce(Reduce(b, r, x, false), r, y, false) == Reduce(b, r, x + y, false)
  {
    hide Coherent, Lookup, Reduce, Reduced;
    ReduceIsReduced(b, r, x, false);
    ReduceIsReduced(b, r, x + y, false);
    ReduceIsReduced(Reduce(b, r, x, false), r, y, false);
    LookupReduce(b, r, x, false, r);
    var shares := Lookup(b, r).value.shares;
    if x < shares {
      ReducedTwice(b, r, shares - x, shares - x - y);
    }
  }

  /** Cancelling every remaining share leaves the book a delete leaves. */
  lemma CancelAllIsDelete(b: Book, r: U64)
    requires Lookup(b, r).Some?
    ensures Reduce(b, r, Lookup(b, r).value.shares, false) == Reduce(b, r, 0, true)
  {
    hide Lookup;
  }

  /** A cancel of resting shares leaves its order on the book exactly when it takes fewer than all. */
  lemma CancelKeepsOrderExactly(b: Book, c: OrderCancel)
    requires Coherent(b) && c.header.locate == b.locate && c.reference in b.orders
    requires Covers(b, c.reference, c.cancelledShares)
    ensures c.reference in Step(b, CancelMessage(c)).orders
       <==> c.cancelledShares < Lookup(b, c.reference).value.shares
  {
    hide Find, Shrink;
    assert Lookup(b, c.reference).Some?;
  }

  /** Inserting a fresh order and deleting it restores every level, queue and index entry; only the
      arrival count has moved on. */
  lemma InsertDeleteRestores(b: Book, k: Key, r: U64, shares: U32)
    requires Coherent(b) && r !in b.orders
    ensures Reduce(Insert(b, k, r, shares), r, 0, true) == b.(arrivals := b.arrivals + 1)
  {
    hide Find, Shrink, Sorted;
    var b1 := Insert(b, k, r, shares);
    var o := Order(b.arrivals, r, shares);
    LookupInsert(b, k, r, shares, r);
    ReduceIsReduced(b1, r, 0, true);
    FindIsMember(QueueAt(b, k), b.arrivals);
    ShrinkLast(QueueAt(b, k), o);
    assert b1.orders - {r} == b.orders;
    assert SetQueue(b1.queues, k, QueueAt(b, k)) == b.queues;
  }
}
