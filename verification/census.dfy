/** The census of one session: counts by type, and the two facts that need no book. */
module Census {
  import opened Bytes
  import opened MessageTable
  import opened Messages
  import opened Framer
  import opened PythonWalk

  function TimestampOf(r: seq<Byte>): U48 {
    if |r| >= HEADER_LENGTH then DecodeHeader(r).timestamp else 0
  }

  function Timestamps(records: seq<seq<Byte>>): (ts: seq<U48>)
    ensures |ts| == |records| && forall i | 0 <= i < |ts| :: ts[i] == TimestampOf(records[i])
  {
    seq(|records|, i requires 0 <= i < |records| => TimestampOf(records[i]))
  }

  /** How many timestamps are below the one before. */
  function Descents(ts: seq<U48>): nat {
    if |ts| < 2 then 0 else Descents(ts[..|ts| - 1]) + if ts[|ts| - 1] < ts[|ts| - 2] then 1 else 0
  }

  ghost predicate NonDecreasing(ts: seq<U48>) {
    forall i, j | 0 <= i < j < |ts| :: ts[i] <= ts[j]
  }

  /** No adjacent descent means that the whole session is in order, and the other way round. */
  lemma {:induction false} NoDescentsIffSorted(ts: seq<U48>)
    ensures Descents(ts) == 0 <==> NonDecreasing(ts)
  {
    if |ts| >= 2 {
      var n := |ts| - 1;
      NoDescentsIffSorted(ts[..n]);
      if Descents(ts) == 0 {
        forall i | 0 <= i < n
          ensures ts[i] <= ts[n]
        {
          assert ts[i] == ts[..n][i] && ts[n - 1] == ts[..n][n - 1];
        }
        assert forall i, j | 0 <= i < j < n :: ts[..n][i] <= ts[..n][j];
      }
    }
  }

  /** The timestamp is the six-byte integer behind the two two-byte fields of the header. */
  lemma TimestampIsField(r: seq<Byte>)
    requires ValidRecord(r)
    ensures TimestampOf(r) == BigEndianValue(r[5..11])
  {
    hide LoadU48, BigEndianValue;
    LoadU48IsPositional(r[5..11]);
  }

  predicate StepsBack(ts: seq<U48>, i: int) {
    1 <= i < |ts| && ts[i] < ts[i - 1]
  }

  /** Each step backwards is counted, and counted once. */
  lemma {:induction false} DescentsAreSteps(ts: seq<U48>)
    ensures Descents(ts) == |set i | 1 <= i < |ts| && StepsBack(ts, i)|
  {
    var steps := set i | 1 <= i < |ts| && StepsBack(ts, i);
    if |ts| < 2 {
      assert steps == {};
    } else {
      var n := |ts| - 1;
      DescentsAreSteps(ts[..n]);
      var before := set i | 1 <= i < n && StepsBack(ts[..n], i);
      assert steps == before + if StepsBack(ts, n) then {n} else {};
    }
  }

  /** Every defined length covers the header, so on_other may read it. */
  lemma HeaderInBounds(r: seq<Byte>)
    requires ValidRecord(r)
    ensures |r| >= HEADER_LENGTH + 1
    ensures HeaderOf(Decode(r)) == DecodeHeader(r)
  {
    hide ReadU16, ReadU32, ReadU48, ReadU64;
  }

  function CountsBelow(records: seq<seq<Byte>>, n: nat): nat
    requires n <= 256
  {
    if n == 0 then 0 else CountsBelow(records, n - 1) + CountOf(records, n - 1)
  }

  lemma {:induction false} CountsBelowStep(records: seq<seq<Byte>>, n: nat)
    requires n <= 256 && records != []
    ensures CountsBelow(records, n) == CountsBelow(records[..|records| - 1], n)
                                       + if records[|records| - 1] != [] && records[|records| - 1][0] < n then 1 else 0
  {
    if n > 0 {
      CountsBelowStep(records, n - 1);
    }
  }

  /** The 256 counters add up to the number of records. */
  lemma {:induction false} CountersSumToTotal(records: seq<seq<Byte>>)
    requires forall i | 0 <= i < |records| :: ValidRecord(records[i])
    ensures CountsBelow(records, 256) == |records|
  {
    if records == [] {
      NoCounts(256);
    } else {
      CountersSumToTotal(records[..|records| - 1]);
      CountsBelowStep(records, 256);
    }
  }

  lemma {:induction false} NoCounts(n: nat)
    requires n <= 256
    ensures CountsBelow([], n) == 0
  {
    if n > 0 {
      NoCounts(n - 1);
    }
  }

  class SessionCensus {
    const counts: array<nat>
    var total: nat
    var backwardsTimestamps: nat
    var firstTimestamp: U48
    var lastTimestamp: U48
    var systemEvents: seq<Byte>
    ghost var noted: seq<seq<Byte>>

    constructor ()
      ensures Valid() && noted == [] && fresh(counts)
    {
      counts := new nat[256](_ => 0);
      total, backwardsTimestamps, firstTimestamp, lastTimestamp := 0, 0, 0, 0;
      systemEvents, noted := [], [];
    }

    ghost predicate Noted()
      reads this, counts
    {
      && counts.Length == 256 && (forall t: Byte :: counts[t] == CountOf(noted, t))
      && total == |noted|
      && backwardsTimestamps == Descents(Timestamps(noted))
      && (noted != [] ==> firstTimestamp == TimestampOf(noted[0]) && lastTimestamp == TimestampOf(noted[|noted| - 1]))
    }

    ghost predicate Valid()
      reads this, counts
    {
      Noted() && systemEvents == EventsOf(noted)
    }

    method Note(header: Header, ghost r: seq<Byte>)
      requires Noted() && ValidRecord(r) && header == DecodeHeader(r)
      modifies this, counts
      ensures Noted() && noted == old(noted) + [r] && systemEvents == old(systemEvents)
    {
      ghost var next := noted + [r];
      assert next[..|next| - 1] == noted;
      assert Timestamps(next)[..|noted|] == Timestamps(noted);
      counts[header.messageType] := counts[header.messageType] + 1;
      if total == 0 {
        firstTimestamp := header.timestamp;
      } else if header.timestamp < lastTimestamp {
        backwardsTimestamps := backwardsTimestamps + 1;
      }
      lastTimestamp := header.timestamp;
      total := total + 1;
      noted := next;
    }

    method OnSystemEvent(message: SystemEvent, ghost r: seq<Byte>)
      requires Valid() && ValidRecord(r) && r[0] == SYSTEM_EVENT && message == DecodeSystemEvent(r)
      modifies this, counts
      ensures Valid() && noted == old(noted) + [r]
    {
      ghost var before := noted;
      Note(message.header, r);
      assert noted[..|noted| - 1] == before;
      systemEvents := systemEvents + [message.eventCode];
    }

    // dispatch_record into the census.
    method Dispatch(record: seq<Byte>)
      requires Valid() && ValidRecord(record)
      modifies this, counts
      ensures Valid() && noted == old(noted) + [record]
    {
      hide Noted, ReadU16, ReadU32, ReadU48, ReadU64;
      ghost var next := noted + [record];
      assert next[..|next| - 1] == noted;
      HeaderInBounds(record);
      match Decode(record) {
        case SystemEventMessage(message) =>
          OnSystemEvent(message, record);
        case AddMessage(message) => Note(message.header, record);
        case AddWithMpidMessage(message) => Note(message.order.header, record);
        case ExecutedMessage(message) => Note(message.header, record);
        case ExecutedWithPriceMessage(message) => Note(message.executed.header, record);
        case CancelMessage(message) => Note(message.header, record);
        case DeleteMessage(message) => Note(message.header, record);
        case ReplaceMessage(message) => Note(message.header, record);
        case TradeMessage(message) => Note(message.header, record);
        case DirectoryMessage(message) => Note(message.header, record);
        case OtherMessage(_, raw) => Note(DecodeHeader(raw), record);
      }
    }

    /** parse_all with the census as its handler, on any file: no side byte plays a part. */
    method ParseAll(file: seq<Byte>) returns (outcome: FrameOutcome)
      requires Valid() && noted == []
      modifies this, counts
      ensures Valid() && noted == Records(file) && total == outcome.messages
      ensures IsOutcome(file, outcome)
    {
      hide Valid, Walked, Records;
      outcome := FrameOutcome(0, 0, None, 0, 0);
      var offset := 0;
      WalkBegins(file);
      while offset < |file|
        invariant offset <= |file| && Valid() && Walked(file, offset, noted)
        invariant outcome == FrameOutcome(|noted|, offset, None, 0, 0)
      {
        var turn := FrameTurn(file, offset);
        match turn {
          case Stop(error, errorType) =>
            outcome := outcome.(error := Some(error), errorOffset := offset, errorType := errorType);
            WalkOutcome(file, offset, noted, outcome);
            TotalIsNoted();
            return;
          case Deliver(record) =>
            Delivered(file, offset, record);
            Dispatch(record);
            offset := offset + 2 + |record|;
            outcome := outcome.(messages := outcome.messages + 1, bytesConsumed := offset);
        }
      }
      WalkOutcome(file, offset, noted, outcome);
      TotalIsNoted();
    }

    lemma TotalIsNoted()
      requires Valid()
      ensures total == |noted|
    {
    }

    lemma Delivered(file: seq<Byte>, offset: nat, r: seq<Byte>)
      requires Walked(file, offset, noted) && offset < |file| && FirstRecord(file[offset..]) == Some(r)
      ensures ValidRecord(r) && r in Records(file)
      ensures offset + 2 + |r| <= |file| && Walked(file, offset + 2 + |r|, noted + [r])
    {
      WalkOn(file, offset, noted, r);
      assert (noted + [r])[|noted|] == r;
      assert Records(file)[|noted|] == r;
    }
  }

  /** itch_count and reference_count on any file: both describe its records, with the same total, the
      same count of every type, the same event codes, and a stop at the same byte, for corresponding
      reasons. */
  method CrossCount(file: seq<Byte>)
    returns (census: SessionCensus, outcome: FrameOutcome, healthy: bool, counts: map<Byte, nat>,
             systemEvents: seq<Byte>, total: nat, consumed: nat, error: Option<PyError>)
    ensures fresh(census) && census.Valid() && census.counts.Length == 256
    ensures census.noted == Records(file) && IsOutcome(file, outcome) && IsPyEnd(file, consumed, error)
    ensures census.total == total == outcome.messages && census.systemEvents == systemEvents == EventsOf(Records(file))
    ensures census.backwardsTimestamps == Descents(Timestamps(Records(file)))
    ensures total > 0 ==>
              && census.firstTimestamp == TimestampOf(Records(file)[0])
              && census.lastTimestamp == TimestampOf(Records(file)[total - 1])
    ensures forall t: Byte :: census.counts[t] == if t in counts then counts[t] else 0
    ensures outcome.bytesConsumed == consumed <= |file| && (outcome.error.Some? <==> error.Some?)
    ensures outcome.error.Some? ==>
              outcome.errorOffset == consumed && ErrorHolds(outcome.error.value, file[consumed..])
              && error == Some(PyErrorOf(outcome.error.value, file[consumed..]))
    ensures healthy <==> FramedAll(Records(file)) == file && NonDecreasing(Timestamps(Records(file)))
  {
    census := new SessionCensus();
    outcome := census.ParseAll(file);
    counts, systemEvents, total, consumed, error := PyCensus(file);
    WalksAgree(file, outcome, consumed, error);
    NoDescentsIffSorted(Timestamps(Records(file)));
    OutcomeIsExact(file, outcome);
    healthy := outcome.error.None? && outcome.bytesConsumed == |file| && census.total == outcome.messages
               && census.backwardsTimestamps == 0;
  }
}
