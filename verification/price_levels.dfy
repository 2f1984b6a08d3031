/** The two containers of the book: a price level with its FIFO queue as a doubly linked list, and
    a price-ordered map of levels. */
module PriceLevels {
  import opened Bytes
  import opened Messages
  import opened BookModel

  datatype OrderLocation = OrderLocation(side: Side, price: U32, position: Node)

  /** A list node holding one RestingOrder. Its identity is what an iterator denotes: it is never
      moved or copied, and belongs to one level for its whole life. */
  class Node {
    const reference: U64
    var shares: U32
    var prev: Node?
    var next: Node?
    ghost const home: PriceLevel
    ghost const arrival: nat

    constructor (reference: U64, shares: U32, ghost home: PriceLevel, ghost arrival: nat)
      ensures this.reference == reference && this.shares == shares && prev == null && next == null
      ensures this.home == home && this.arrival == arrival
    {
      this.reference, this.shares := reference, shares;
      this.prev, this.next := null, null;
      this.home, this.arrival := home, arrival;
    }

    ghost function Value(): Order
      reads this
    {
      Order(arrival, reference, shares)
    }
  }

  /** One price level: its resting orders, oldest first, and their total shares. */
  class PriceLevel {
    ghost const key: Key
    var head: Node?
    var tail: Node?
    var totalShares: U64
    ghost var nodes: seq<Node>

    constructor (ghost key: Key)
      ensures this.key == key && nodes == [] && totalShares == 0 && Linked()
    {
      this.key := key;
      head, tail, totalShares := null, null, 0;
      nodes := [];
    }

    // What std::list guarantees: the links run through `nodes`, in order, both ways.
    ghost predicate Linked()
      reads this, nodes
    {
      && (forall i | 0 <= i < |nodes| :: nodes[i].home == this)
      && (forall i, j {:trigger nodes[i].arrival, nodes[j].arrival} | 0 <= i < j < |nodes| ::
            nodes[i].arrival < nodes[j].arrival)
      && head == (if nodes == [] then null else nodes[0])
      && tail == (if nodes == [] then null else nodes[|nodes| - 1])
      && (forall i {:trigger nodes[i].next} | 0 <= i < |nodes| ::
            nodes[i].next == (if i == |nodes| - 1 then null else nodes[i + 1]))
      && (forall i {:trigger nodes[i].prev} | 0 <= i < |nodes| ::
            nodes[i].prev == (if i == 0 then null else nodes[i - 1]))
    }

    ghost predicate Shows(q: seq<Order>)
      reads this, nodes
    {
      |nodes| == |q| && forall i | 0 <= i < |nodes| :: nodes[i].Value() == q[i]
    }

    /** This is the level of `k`, its queue is `q`, and its total is the sum of `q` in 64 bits. */
    ghost predicate Holds(k: Key, q: seq<Order>)
      reads this, nodes
    {
      key == k && Linked() && Shows(q) && totalShares == Sum(q) % TWO_TO_THE_64
    }

    // list::push_back, and the shares added to the total (uint64_t wraps). Nodes already queued keep
    // their identity, place and shares.
    method PushBack(reference: U64, shares: U32, ghost arrival: nat) returns (node: Node)
      requires Linked() && forall n | n in nodes :: n.arrival < arrival
      modifies this, nodes
      ensures Linked() && fresh(node)
      ensures nodes == old(nodes) + [node]
      ensures node.Value() == Order(arrival, reference, shares)
      ensures forall n | n in old(nodes) :: n.shares == old(n.shares)
      ensures totalShares == (old(totalShares) + shares) % TWO_TO_THE_64
    {
      node := new Node(reference, shares, this, arrival);
      node.prev := tail;
      ghost var was := nodes;
      forall j | 0 <= j < |was|
        ensures was[j] == tail ==> j == |was| - 1
      {
        assert was[j] == tail ==> was[j].arrival == was[|was| - 1].arrival;
      }
      if tail == null {
        head := node;
      } else {
        tail.next := node;
      }
      tail := node;
      totalShares := (totalShares + shares) % TWO_TO_THE_64;
      nodes := was + [node];
      forall j | 0 <= j < |nodes|
        ensures nodes[j].next == (if j == |nodes| - 1 then null else nodes[j + 1])
        ensures nodes[j].prev == (if j == 0 then null else nodes[j - 1])
      {
        assert j < |was| ==> nodes[j] == was[j] && nodes[j].prev == old(was[j].prev);
      }
    }

    // The level's part of insert_order.
    method Append(reference: U64, shares: U32, ghost arrival: nat, ghost k: Key, ghost q: seq<Order>)
      returns (node: Node)
      requires Holds(k, q) && forall n | n in nodes :: n.arrival < arrival
      modifies this, nodes
      ensures fresh(node) && node.home == this && node.arrival == arrival && nodes == old(nodes) + [node]
      ensures Holds(k, q + [Order(arrival, reference, shares)])
    {
      FindAppend(q, Order(arrival, reference, shares), 0);
      AddModulo(Sum(q), shares);
      node := PushBack(reference, shares, arrival);
      forall i | 0 <= i < |nodes|
        ensures nodes[i].Value() == (q + [Order(arrival, reference, shares)])[i]
      {
        assert i < |q| ==> nodes[i] == old(nodes[i]) && old(nodes[i].Value()) == q[i];
      }
    }

    // The level's part of reduce_or_remove_in: both decrements, the queue left alone.
    method Deduct(resting: Node, removed: U32, ghost i: nat, ghost k: Key, ghost q: seq<Order>)
      requires Holds(k, q) && i < |nodes| && nodes[i] == resting
      requires removed <= resting.shares
      modifies this, resting
      ensures nodes == old(nodes)
      ensures Holds(k, q[i := q[i].(shares := old(resting.shares) - removed)])
      ensures resting.shares == old(resting.shares) - removed
    {
      hide Sum;
      assert resting.Value() == q[i];
      SumUpdate(q, i, resting.shares - removed);
      SubtractModulo(Sum(q), removed);
      totalShares := (totalShares - removed) % TWO_TO_THE_64;
      SetShares(resting, resting.shares - removed, i, q);
    }

    method SetShares(resting: Node, shares: U32, ghost i: nat, ghost q: seq<Order>)
      requires Linked() && Shows(q) && i < |nodes| && nodes[i] == resting
      modifies resting
      ensures Linked() && Shows(q[i := q[i].(shares := shares)]) && resting.shares == shares
    {
      ghost var q' := q[i := q[i].(shares := shares)];
      resting.shares := shares;
      forall j | 0 <= j < |nodes|
        ensures nodes[j].Value() == q'[j]
      {
        assert old(nodes[j].Value()) == q[j];
        assert nodes[j] == resting ==> nodes[j].arrival == nodes[i].arrival;
      }
    }

    // The level's part of erasing an order with no shares left.
    method Drop(position: Node, ghost i: nat, ghost k: Key, ghost q: seq<Order>)
      requires Holds(k, q) && i < |nodes| && nodes[i] == position && position.shares == 0
      modifies this, nodes
      ensures nodes == old(nodes[..i] + nodes[i + 1..]) && (head == null <==> nodes == [])
      ensures Holds(k, q[..i] + q[i + 1..])
    {
      assert position.Value() == q[i];
      SumRemove(q, i);
      Erase(position, i);
      forall j | 0 <= j < |nodes|
        ensures nodes[j].Value() == (q[..i] + q[i + 1..])[j]
      {
        ghost var j' := if j < i then j else j + 1;
        assert nodes[j] == old(nodes[j']) && old(nodes[j'].Value()) == q[j'];
      }
    }

    static lemma AddModulo(sum: nat, shares: nat)
      ensures (sum % TWO_TO_THE_64 + shares) % TWO_TO_THE_64 == (sum + shares) % TWO_TO_THE_64
    {
    }

    static lemma SubtractModulo(sum: nat, removed: nat)
      ensures (sum % TWO_TO_THE_64 - removed) % TWO_TO_THE_64 == (sum - removed) % TWO_TO_THE_64
    {
    }

    static lemma {:induction false} SumUpdate(q: seq<Order>, i: nat, shares: U32)
      requires i < |q|
      ensures Sum(q[i := q[i].(shares := shares)]) == Sum(q) - q[i].shares + shares
    {
      var q' := q[i := q[i].(shares := shares)];
      if i == 0 {
        assert q'[1..] == q[1..];
      } else {
        SumUpdate(q[1..], i - 1, shares);
        assert q'[1..] == q[1..][i - 1 := q[i].(shares := shares)];
      }
    }

    static lemma {:induction false} SumRemove(q: seq<Order>, i: nat)
      requires i < |q|
      ensures Sum(q[..i] + q[i + 1..]) == Sum(q) - q[i].shares
    {
      var q' := q[..i] + q[i + 1..];
      if i == 0 {
        assert q' == q[1..];
      } else {
        SumRemove(q[1..], i - 1);
        assert q'[1..] == q[1..][..i - 1] + q[1..][i..];
      }
    }

    // list::erase. Every other iterator stays valid: only links change, and only next to the node.
    method Erase(position: Node, ghost i: nat)
      requires Linked() && i < |nodes| && nodes[i] == position
      modifies this, nodes
      ensures Linked()
      ensures nodes == old(nodes[..i] + nodes[i + 1..])
      ensures forall n | n in old(nodes) :: n.shares == old(n.shares)
      ensures totalShares == old(totalShares)
    {
      var before, after := position.prev, position.next;
      assert before == (if i == 0 then null else nodes[i - 1]);
      assert after == (if i == |nodes| - 1 then null else nodes[i + 1]);
      forall j | 0 <= j < |nodes|
        ensures nodes[j] == before ==> j == i - 1
        ensures nodes[j] == after ==> j == i + 1
      {
        assert i > 0 && nodes[j] == before ==> nodes[j].arrival == nodes[i - 1].arrival;
        assert i < |nodes| - 1 && nodes[j] == after ==> nodes[j].arrival == nodes[i + 1].arrival;
      }
      if before == null {
        head := after;
      } else {
        before.next := after;
      }
      if after == null {
        tail := before;
      } else {
        after.prev := before;
      }
      RemoveAt(i);
    }

    // The ghost half of an erase: once the links skip the node, so does `nodes`.
    ghost method RemoveAt(i: nat)
      requires i < |nodes|
      requires forall j | 0 <= j < |nodes| :: nodes[j].home == this
      requires forall j, k {:trigger nodes[j].arrival, nodes[k].arrival} | 0 <= j < k < |nodes| ::
                 nodes[j].arrival < nodes[k].arrival
      requires head == (if i > 0 then nodes[0] else if |nodes| > 1 then nodes[1] else null)
      requires tail == (if i < |nodes| - 1 then nodes[|nodes| - 1] else if i > 0 then nodes[i - 1] else null)
      requires forall j {:trigger nodes[j].next} | 0 <= j < |nodes| && j != i ::
                 nodes[j].next == (var k := if j + 1 == i then i + 1 else j + 1;
                                   if k < |nodes| then nodes[k] else null)
      requires forall j {:trigger nodes[j].prev} | 0 <= j < |nodes| && j != i ::
                 nodes[j].prev == (var k := if j - 1 == i then i - 1 else j - 1; if k >= 0 then nodes[k] else null)
      modifies this`nodes
      ensures Linked() && nodes == old(nodes[..i] + nodes[i + 1..])
    {
      var was := nodes;
      nodes := was[..i] + was[i + 1..];
      forall j | 0 <= j < |nodes|
        ensures nodes[j].next == (if j == |nodes| - 1 then null else nodes[j + 1])
        ensures nodes[j].prev == (if j == 0 then null else nodes[j - 1])
      {
        assert nodes[j] == was[if j < i then j else j + 1];
      }
    }
  }

  ghost predicate LevelIn(l: PriceLevel, k: Key, q: seq<Order>)
    reads l, l.nodes
  {
    (forall i | 0 <= i < |l.nodes| :: l.nodes[i].home == l) && l.Holds(k, q)
  }

  /** `level` is the set of levels of a book: each holds its queue in its own nodes. `space` has every
      level and node. Said of maps rather than of the book object, so that nothing the book itself
      changes can disturb it. */
  ghost predicate LevelsHold(level: map<Key, PriceLevel>, nodes: map<Key, seq<Node>>, queues: map<Key, seq<Order>>,
                             space: set<object>)
    reads space
  {
    level.Keys == queues.Keys == nodes.Keys
    && forall k | k in level ::
         level[k] in space && level[k].nodes == nodes[k] && (forall n | n in nodes[k] :: n in space)
         && LevelIn(level[k], k, queues[k])
  }

  /** Every index entry names the level it is at and holds a node of its queue. */
  ghost predicate EntriesHold(orders: map<U64, OrderLocation>, locations: map<U64, Location>,
                              nodes: map<Key, seq<Node>>)
  {
    orders.Keys == locations.Keys
    && forall r | r in orders ::
         var k := Key(orders[r].side, orders[r].price);
         locations[r] == Location(k, orders[r].position.arrival) && k in nodes && orders[r].position in nodes[k]
  }

  /** The two price maps hold the levels of `level` between them. */
  ghost predicate MapsHold(level: map<Key, PriceLevel>, bids: map<U32, PriceLevel>, asks: map<U32, PriceLevel>) {
    && (forall p :: p in bids <==> Key(Buy, p) in level)
    && (forall p :: p in asks <==> Key(Sell, p) in level)
    && (forall p | p in bids :: bids[p] == level[Key(Buy, p)])
    && (forall p | p in asks :: asks[p] == level[Key(Sell, p)])
  }

  // Append, seen from the whole book: the other levels are not disturbed.
  method AppendIn(l: PriceLevel, reference: U64, shares: U32, ghost arrival: nat, ghost k: Key, ghost q: seq<Order>,
                  ghost level: map<Key, PriceLevel>, ghost nodes: map<Key, seq<Node>>,
                  ghost queues: map<Key, seq<Order>>, ghost space: set<object>)
    returns (node: Node)
    requires LevelsHold(level, nodes, queues, space)
    requires l.Holds(k, q) && (forall n | n in l.nodes :: n.arrival < arrival)
    requires if k in level then level[k] == l else l.nodes == []
    modifies l, l.nodes
    ensures fresh(node) && node.arrival == arrival && l.nodes == old(l.nodes) + [node]
    ensures LevelsHold(level[k := l], nodes[k := l.nodes], queues[k := q + [Order(arrival, reference, shares)]],
                       space + {l, node})
  {
    hide PriceLevel.Linked, PriceLevel.Shows;
    node := l.Append(reference, shares, arrival, k, q);
  }

  // Deduct, seen from the whole book.
  method DeductIn(l: PriceLevel, resting: Node, removed: U32, ghost i: nat, ghost k: Key,
                  ghost level: map<Key, PriceLevel>, ghost nodes: map<Key, seq<Node>>,
                  ghost queues: map<Key, seq<Order>>, ghost space: set<object>)
    requires LevelsHold(level, nodes, queues, space) && k in level && level[k] == l
    requires i < |nodes[k]| && nodes[k][i] == resting && i < |queues[k]|
    requires removed <= resting.shares
    modifies l, resting
    ensures l.nodes == old(l.nodes) && resting.shares == old(resting.shares) - removed
    ensures LevelsHold(level, nodes, queues[k := queues[k][i := queues[k][i].(shares := resting.shares)]], space)
  {
    hide PriceLevel.Linked, PriceLevel.Shows;
    l.Deduct(resting, removed, i, k, queues[k]);
  }

  // Drop, seen from the whole book.
  method DropIn(l: PriceLevel, position: Node, ghost i: nat, ghost k: Key,
                ghost level: map<Key, PriceLevel>, ghost nodes: map<Key, seq<Node>>,
                ghost queues: map<Key, seq<Order>>, ghost space: set<object>)
    requires LevelsHold(level, nodes, queues, space) && k in level && level[k] == l
    requires i < |nodes[k]| && nodes[k][i] == position && i < |queues[k]|
    requires position.shares == 0
    modifies l, l.nodes
    ensures l.nodes == nodes[k][..i] + nodes[k][i + 1..] && (l.head == null <==> l.nodes == [])
    ensures LevelsHold(level, nodes[k := l.nodes], queues[k := queues[k][..i] + queues[k][i + 1..]], space)
  {
    hide PriceLevel.Linked, PriceLevel.Shows;
    l.Drop(position, i, k, queues[k]);
  }

  lemma LevelErased(level: map<Key, PriceLevel>, nodes: map<Key, seq<Node>>, queues: map<Key, seq<Order>>,
                    space: set<object>, k: Key)
    requires LevelsHold(level, nodes, queues, space)
    ensures LevelsHold(level - {k}, nodes - {k}, queues - {k}, space)
  {
    hide PriceLevel.Holds;
  }

  /** std::map<PriceTicks, PriceLevel, Compare>: levels by price, iterated in the order of a
      comparator. Bids run from the highest price down, asks from the lowest up. */
  class PriceMap {
    const descending: bool
    var keys: seq<U32>
    var levels: map<U32, PriceLevel>

    constructor (descending: bool)
      ensures this.descending == descending && keys == [] && levels == map[]
    {
      this.descending := descending;
      keys, levels := [], map[];
    }

    predicate Before(p: U32, q: U32) {
      if descending then p > q else p < q
    }

    ghost predicate Valid()
      reads this
    {
      && (forall i, j | 0 <= i < j < |keys| :: Before(keys[i], keys[j]))
      && (forall p :: p in keys <==> p in levels)
    }

    // operator[]: the level at a price, created empty in its place if there is none.
    method Subscript(price: U32, ghost side: Side) returns (level: PriceLevel)
      requires Valid()
      modifies this
      ensures Valid()
      ensures price in old(levels) ==> level == old(levels)[price] && levels == old(levels)
      ensures price !in old(levels) ==>
                fresh(level) && levels == old(levels)[price := level]
                && level.Holds(Key(side, price), []) && level.nodes == []
    {
      if price in levels {
        return levels[price];
      }
      level := new PriceLevel(Key(side, price));
      var i := 0;
      while i < |keys| && Before(keys[i], price)
        invariant 0 <= i <= |keys|
        invariant forall j | 0 <= j < i :: Before(keys[j], price)
      {
        i := i + 1;
      }
      keys := keys[..i] + [price] + keys[i..];
      levels := levels[price := level];
    }

    // erase, by the position of the level's price.
    method Erase(price: U32)
      requires Valid() && price in levels
      modifies this
      ensures Valid()
      ensures levels == old(levels) - {price}
    {
      var i := 0;
      while keys[i] != price
        invariant 0 <= i < |keys|
        invariant forall j | 0 <= j < i :: keys[j] != price
        invariant exists j | i <= j < |keys| :: keys[j] == price
      {
        i := i + 1;
      }
      keys := keys[..i] + keys[i + 1..];
      levels := levels - {price};
    }

    /** The first key is before every other: begin() is the best price. */
    lemma FirstIsBest(p: U32)
      requires Valid() && p in levels
      ensures keys != [] && (p == keys[0] || Before(keys[0], p))
    {
      assert p in keys;
    }
  }
}
