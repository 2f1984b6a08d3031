/** One symbol out of a session: what the replay keeps is what carries the book's locate. */
module Projection {
  import opened Bytes
  import opened MessageTable
  import opened Messages
  import opened BookModel
  import opened PriceTimePriority
  import opened Replay

  function LocateOf(r: seq<Byte>): U16
    requires Deliverable(r)
  {
    DecodeHeader(r).locate
  }

  /** The records of a session that carry a locate, in order. */
  function Filtered(rs: seq<seq<Byte>>, locate: U16): seq<seq<Byte>>
    requires AllDeliverable(rs)
  {
    if rs == [] then []
    else Filtered(rs[..|rs| - 1], locate) + if LocateOf(rs[|rs| - 1]) == locate then [rs[|rs| - 1]] else []
  }

  lemma {:induction false} FilteredAppend(a: seq<seq<Byte>>, b: seq<seq<Byte>>, locate: U16)
    requires AllDeliverable(a) && AllDeliverable(b)
    ensures AllDeliverable(a + b) && Filtered(a + b, locate) == Filtered(a, locate) + Filtered(b, locate)
  {
    hide Deliverable, LocateOf;
    if b == [] {
      assert a + b == a;
    } else {
      FilteredAppend(a, b[..|b| - 1], locate);
      assert (a + b)[..|a + b| - 1] == a + b[..|b| - 1];
    }
  }

  /** Filtering keeps every record that carries the locate, as often as it occurs, and no other. With
      FilteredAppend it keeps their order too. */
  lemma {:induction false} FilteredKeepsExactly(rs: seq<seq<Byte>>, locate: U16, r: seq<Byte>)
    requires AllDeliverable(rs) && Deliverable(r)
    ensures multiset(Filtered(rs, locate))[r] == if LocateOf(r) == locate then multiset(rs)[r] else 0
  {
    hide ValidRecord, SideByteOk, DecodeHeader;
    if rs != [] {
      var n := |rs| - 1;
      FilteredKeepsExactly(rs[..n], locate, r);
      assert rs == rs[..n] + [rs[n]];
    }
  }

  /** The locate is the two-byte integer behind the type. */
  lemma LocateIsField(r: seq<Byte>)
    requires Deliverable(r)
    ensures LocateOf(r) == BigEndianValue(r[1..3])
  {
    hide LoadBigEndian, BigEndianValue;
    LoadIsPositional(r[1..3]);
  }

  lemma HeaderIsDecoded(r: seq<Byte>)
    requires Deliverable(r)
    ensures HeaderOf(Decode(r)) == DecodeHeader(r)
  {
    hide ReadU16, ReadU32, ReadU48, ReadU64;
  }

  lemma OtherLocateIgnored(b: Book, m: Message)
    requires m.OtherMessage? ==> |m.record| >= HEADER_LENGTH
    requires HeaderOf(m).locate != b.locate
    ensures Step(b, m) == b && !Accepts(b, m)
  {
  }

  lemma ReplayKeeps(st: ReplayState, symbol: seq<Byte>, m: Message)
    requires st.resolved
    ensures ReplayMessage(st, symbol, m).resolved && ReplayMessage(st, symbol, m).book.locate == st.book.locate
  {
    StepKeepsLocate(st.book, m);
  }

  /** Once resolved, running a session is running only the messages that carry the book's locate:
      book and tallies end the same, and the locate is never set again. */
  lemma {:induction false} LocateProjection(st: ReplayState, symbol: seq<Byte>, rs: seq<seq<Byte>>)
    requires st.resolved && AllDeliverable(rs)
    ensures AllDeliverable(Filtered(rs, st.book.locate))
    ensures ReplayRecords(st, symbol, rs) == ReplayRecords(st, symbol, Filtered(rs, st.book.locate))
    ensures ReplayRecords(st, symbol, rs).resolved && ReplayRecords(st, symbol, rs).book.locate == st.book.locate
  {
    hide ValidRecord, SideByteOk, Decode, ReplayMessage, DecodeHeader;
    if rs != [] {
      var before, r := rs[..|rs| - 1], rs[|rs| - 1];
      LocateProjection(st, symbol, before);
      var mid := ReplayRecords(st, symbol, before);
      ReplayKeeps(mid, symbol, Decode(r));
      var kept := Filtered(before, st.book.locate);
      if LocateOf(r) == st.book.locate {
        ReplaySnoc(st, symbol, kept, r);
      } else {
        OtherLocateUndelivered(mid, symbol, r);
        assert kept + [] == kept;
      }
    }
  }

  lemma ReplaySnoc(st: ReplayState, symbol: seq<Byte>, rs: seq<seq<Byte>>, r: seq<Byte>)
    requires AllDeliverable(rs) && Deliverable(r)
    ensures AllDeliverable(rs + [r])
    ensures ReplayRecords(st, symbol, rs + [r]) == ReplayMessage(ReplayRecords(st, symbol, rs), symbol, Decode(r))
  {
    hide ValidRecord, SideByteOk, ReplayMessage, Decode;
    assert (rs + [r])[..|rs|] == rs && (rs + [r])[|rs|] == r;
  }

  lemma OtherLocateUndelivered(st: ReplayState, symbol: seq<Byte>, r: seq<Byte>)
    requires st.resolved && Deliverable(r) && LocateOf(r) != st.book.locate
    ensures ReplayMessage(st, symbol, Decode(r)) == st
  {
    hide Decode, DecodeHeader, Step;
    HeaderIsDecoded(r);
    OthersKeepTheirRecord(r);
    OtherLocateIgnored(st.book, Decode(r));
  }

  lemma OthersKeepTheirRecord(r: seq<Byte>)
    requires Deliverable(r)
    ensures Decode(r).OtherMessage? ==> Decode(r).record == r && |r| >= HEADER_LENGTH
  {
  }

  /** Interleaving the streams of other symbols in any way changes nothing. */
  lemma InterleavingIsIrrelevant(st: ReplayState, symbol: seq<Byte>, rs: seq<seq<Byte>>, rs': seq<seq<Byte>>)
    requires st.resolved && AllDeliverable(rs) && AllDeliverable(rs')
    requires Filtered(rs, st.book.locate) == Filtered(rs', st.book.locate)
    ensures ReplayRecords(st, symbol, rs) == ReplayRecords(st, symbol, rs')
  {
    LocateProjection(st, symbol, rs);
    LocateProjection(st, symbol, rs');
  }

  lemma {:induction false} ReplayAppend(st: ReplayState, symbol: seq<Byte>, a: seq<seq<Byte>>, b: seq<seq<Byte>>)
    requires AllDeliverable(a) && AllDeliverable(b)
    ensures AllDeliverable(a + b)
    ensures ReplayRecords(st, symbol, a + b) == ReplayRecords(ReplayRecords(st, symbol, a), symbol, b)
  {
    hide ValidRecord, SideByteOk, ReplayMessage, Decode;
    if b == [] {
      assert a + b == a;
    } else {
      ReplayAppend(st, symbol, a, b[..|b| - 1]);
      assert (a + b)[..|a + b| - 1] == a + b[..|b| - 1];
    }
  }

  // --------------------------------------------------------------------------------------------
  // Before resolution
  // --------------------------------------------------------------------------------------------

  /** The messages a book ignores: those its locate filter rejects, and replaces of orders it does not
      have. */
  predicate Ignored(b: Book, m: Message) {
    !Accepts(b, m) || (m.ReplaceMessage? && m.replace.original !in b.orders)
  }

  function TallySum(s: Stats): nat {
    s.adds + s.executions + s.cancels + s.deletes + s.replacements + s.trades
  }

  /** A message leaves the book as it was exactly when it is ignored, and otherwise shows in the
      tallies. An unresolved book is no exception: its filter compares against 0 like any other locate. */
  lemma IgnoredExactly(b: Book, m: Message)
    ensures Step(b, m) == b <==> Ignored(b, m)
    ensures TallySum(Step(b, m).stats) == TallySum(b.stats) + if Ignored(b, m) then 0 else 1
  {
    hide Insert, Reduce;
  }

  /** Whether a message leaves an unresolved handler unresolved and the empty book empty. */
  predicate Passed(symbol: seq<Byte>, m: Message) {
    Ignored(EMPTY_BOOK, m) && !Announces(false, symbol, m)
  }

  // What has left the unresolved state never comes back to it.
  predicate UnresolvedOrTraced(st: ReplayState) {
    st == UNRESOLVED || st.resolved || TallySum(st.book.stats) > 0
  }

  lemma PassesOrLeavesTrace(st: ReplayState, symbol: seq<Byte>, m: Message)
    requires UnresolvedOrTraced(st)
    ensures UnresolvedOrTraced(ReplayMessage(st, symbol, m))
    ensures ReplayMessage(st, symbol, m) == UNRESOLVED <==> st == UNRESOLVED && Passed(symbol, m)
  {
    hide Step, Ignored, Trim, TallySum;
    IgnoredExactly(st.book, m);
    NoTallies();
  }

  lemma NoTallies()
    ensures TallySum(NO_STATS) == 0
  {
  }

  /** Records leave no trace at all before the announcement exactly when each of them is ignored by
      itself: what an unresolved book once accepted stays in its tallies. */
  lemma {:induction false} UnresolvedIgnoresExactly(symbol: seq<Byte>, rs: seq<seq<Byte>>)
    requires AllDeliverable(rs)
    ensures ReplayRecords(UNRESOLVED, symbol, rs) == UNRESOLVED
       <==> forall i | 0 <= i < |rs| :: Passed(symbol, Decode(rs[i]))
    ensures UnresolvedOrTraced(ReplayRecords(UNRESOLVED, symbol, rs))
  {
    hide ValidRecord, SideByteOk, Decode, ReplayMessage, Passed;
    if rs != [] {
      var before, r := rs[..|rs| - 1], rs[|rs| - 1];
      UnresolvedIgnoresExactly(symbol, before);
      PassesOrLeavesTrace(ReplayRecords(UNRESOLVED, symbol, before), symbol, Decode(r));
      assert forall i | 0 <= i < |before| :: before[i] == rs[i];
    }
  }

  /** A whole session: nothing before the announcing record counts, the locate is the one it carries,
      and after it only the records with that locate do. */
  lemma ReplayIsProjection(symbol: seq<Byte>, before: seq<seq<Byte>>, r: seq<Byte>, after: seq<seq<Byte>>)
    requires AllDeliverable(before + [r] + after)
    requires AllDeliverable(before) && AllDeliverable(after) && Deliverable(r)
    requires forall i | 0 <= i < |before| :: Passed(symbol, Decode(before[i]))
    requires Announces(false, symbol, Decode(r))
    ensures AllDeliverable(Filtered(after, LocateOf(r)))
    ensures var start := ReplayState(EMPTY_BOOK.(locate := LocateOf(r)), true);
            ReplayRecords(UNRESOLVED, symbol, before + [r] + after)
            == ReplayRecords(start, symbol, Filtered(after, LocateOf(r)))
  {
    hide ValidRecord, SideByteOk, Decode, DecodeHeader, Step;
    var start := ReplayState(EMPTY_BOOK.(locate := LocateOf(r)), true);
    UnresolvedIgnoresExactly(symbol, before);
    HeaderIsDecoded(r);
    assert [r][..0] == [];
    assert ReplayRecords(UNRESOLVED, symbol, [r]) == start;
    ReplayAppend(UNRESOLVED, symbol, before, [r]);
    ReplayAppend(UNRESOLVED, symbol, before + [r], after);
    LocateProjection(start, symbol, after);
  }
}
