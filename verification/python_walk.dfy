/** The Python framing walk, shared by both scripts, against the C++ framer; and the Python census. */
module PythonWalk {
  import opened Bytes
  import opened MessageTable
  import opened Messages
  import opened Framer

  // The type string is empty when the declared length is zero.
  datatype PyError =
    | PyTruncatedPrefix
    | PyTruncatedRecord
    | PyUnknownType(typeString: seq<Byte>)
    | PyBadLength(messageType: Byte, declared: nat, expected: nat)

  /** Each Python error as a property of the bytes where the walk stopped. */
  predicate PyErrorHolds(error: PyError, suffix: seq<Byte>) {
    match error
    case PyTruncatedPrefix => |suffix| == 1
    case PyTruncatedRecord => |suffix| >= 2 && DeclaredLength(suffix) > |suffix| - 2
    case PyUnknownType(t) =>
      |suffix| >= 2 && DeclaredLength(suffix) <= |suffix| - 2
      && t == (if DeclaredLength(suffix) == 0 then [] else [suffix[2]])
      && (t == [] || SpecLength(t[0]) == 0)
    case PyBadLength(t, declared, expected) =>
      |suffix| >= 2 && 0 < DeclaredLength(suffix) <= |suffix| - 2 && t == suffix[2]
      && declared == DeclaredLength(suffix) && expected == SpecLength(t) && expected != 0 && expected != declared
  }

  /** What the Python walk calls the error that the C++ framer reports: a zero length is the unknown
      empty type. */
  function PyErrorOf(error: FrameError, suffix: seq<Byte>): PyError
    requires ErrorHolds(error, suffix)
  {
    match error
    case TruncatedPrefix => PyTruncatedPrefix
    case ZeroLength => PyUnknownType([])
    case TruncatedRecord => PyTruncatedRecord
    case UnknownType => PyUnknownType([suffix[2]])
    case LengthMismatch => PyBadLength(suffix[2], DeclaredLength(suffix), SpecLength(suffix[2]))
  }

  /** On the same bytes the two walks fail for corresponding reasons, and each for one only. */
  lemma ErrorsCorrespond(error: FrameError, suffix: seq<Byte>)
    requires ErrorHolds(error, suffix)
    ensures forall e :: PyErrorHolds(e, suffix) <==> e == PyErrorOf(error, suffix)
  {
  }

  datatype PyTurn = PyDeliver(record: seq<Byte>) | PyStop(error: PyError)

  // file.read(n) from a position.
  function Read(file: seq<Byte>, position: nat, n: nat): seq<Byte>
    requires position <= |file|
  {
    if position + n <= |file| then file[position..position + n] else file[position..]
  }

  /** One turn of the walk: the scripts' checks, in their order. */
  method WalkTurn(file: seq<Byte>, consumed: nat) returns (turn: PyTurn)
    requires consumed < |file|
    ensures match turn
            case PyDeliver(r) => FirstRecord(file[consumed..]) == Some(r)
            case PyStop(e) => FirstRecord(file[consumed..]).None? && PyErrorHolds(e, file[consumed..])
  {
    ghost var suffix := file[consumed..];
    var prefix := Read(file, consumed, 2);
    if |prefix| < 2 {
      return PyStop(PyTruncatedPrefix);
    }
    assert prefix == suffix[..2];
    var declared := BigEndianValue(prefix);
    var record := Read(file, consumed + 2, declared);
    if |record| < declared {
      return PyStop(PyTruncatedRecord);
    }
    assert record == suffix[2..2 + declared];
    var messageType := if declared == 0 then [] else record[..1];
    assert declared > 0 ==> messageType == [record[0]] && record[0] == suffix[2];
    if declared > 0 {
      TablesAgree(record[0]);
    } else {
      TablesAgree(0);
    }
    if messageType !in PYTHON_LENGTHS {
      return PyStop(PyUnknownType(messageType));
    }
    var expected := PYTHON_LENGTHS[messageType];
    if expected != declared {
      return PyStop(PyBadLength(record[0], declared, expected));
    }
    return PyDeliver(record);
  }

  /** Where a walk of the whole file ends. */
  ghost predicate IsPyEnd(file: seq<Byte>, consumed: nat, error: Option<PyError>) {
    consumed == |FramedAll(Records(file))| <= |file|
    && match error
       case None => consumed == |file|
       case Some(e) => PyErrorHolds(e, file[consumed..])
  }

  /** The framer and the walk stop at the same byte of every file, and fail or not together, for
      corresponding reasons. */
  lemma WalksAgree(file: seq<Byte>, outcome: FrameOutcome, consumed: nat, error: Option<PyError>)
    requires IsOutcome(file, outcome) && IsPyEnd(file, consumed, error)
    ensures consumed == outcome.bytesConsumed
    ensures error.Some? <==> outcome.error.Some?
    ensures outcome.error.Some? ==>
              consumed == outcome.errorOffset && error == Some(PyErrorOf(outcome.error.value, file[consumed..]))
  {
    if outcome.error.Some? {
      ErrorsCorrespond(outcome.error.value, file[consumed..]);
    }
  }

  // --------------------------------------------------------------------------------------------
  // reference_count.census
  // --------------------------------------------------------------------------------------------

  predicate HasType(r: seq<Byte>, messageType: Byte) {
    r != [] && r[0] == messageType
  }

  /** How many records are of a type. */
  function CountOf(records: seq<seq<Byte>>, messageType: Byte): nat {
    if records == [] then 0
    else CountOf(records[..|records| - 1], messageType) + if HasType(records[|records| - 1], messageType) then 1 else 0
  }

  /** The event codes of the S records, in order. */
  function EventsOf(records: seq<seq<Byte>>): seq<Byte> {
    if records == [] then []
    else
      var last := records[|records| - 1];
      EventsOf(records[..|records| - 1]) + if |last| > 11 && HasType(last, 'S' as int) then [last[11]] else []
  }

  /** The count of a type is the number of places that hold it. */
  lemma {:induction false} CountIsPlaces(records: seq<seq<Byte>>, messageType: Byte)
    ensures CountOf(records, messageType) == |set i | 0 <= i < |records| && HasType(records[i], messageType)|
  {
    var places := set i | 0 <= i < |records| && HasType(records[i], messageType);
    if records == [] {
      assert places == {};
    } else {
      var n := |records| - 1;
      CountIsPlaces(records[..n], messageType);
      var before := set i | 0 <= i < n && HasType(records[..n][i], messageType);
      assert places == before + if HasType(records[n], messageType) then {n} else {};
    }
  }

  /** There is one event code for each S record, at that record's place among them. */
  lemma {:induction false} EventsAreInOrder(records: seq<seq<Byte>>, i: nat)
    requires forall j | 0 <= j < |records| :: ValidRecord(records[j])
    ensures |EventsOf(records)| == CountOf(records, 'S' as int)
    ensures i < |records| && HasType(records[i], 'S' as int) ==>
              var place := CountOf(records[..i], 'S' as int);
              place < |EventsOf(records)| && |records[i]| == 12 && EventsOf(records)[place] == records[i][11]
    decreases |records|
  {
    if records != [] {
      var n := |records| - 1;
      EventsAreInOrder(records[..n], i);
      assert i < n ==> records[..n][..i] == records[..i];
    }
  }

  ghost predicate CountsMatch(counts: map<Byte, nat>, records: seq<seq<Byte>>) {
    forall t: Byte :: (t in counts <==> CountOf(records, t) > 0) && (t in counts ==> counts[t] == CountOf(records, t))
  }

  lemma CountRecord(counts: map<Byte, nat>, records: seq<seq<Byte>>, r: seq<Byte>)
    requires CountsMatch(counts, records) && ValidRecord(r)
    ensures CountsMatch(counts[r[0] := (if r[0] in counts then counts[r[0]] else 0) + 1], records + [r])
    ensures EventsOf(records + [r]) == EventsOf(records) + if r[0] == 'S' as int then [r[11]] else []
  {
    var next := records + [r];
    assert next[..|next| - 1] == records;
  }

  lemma NoneCounted()
    ensures CountsMatch(map[], []) && EventsOf([]) == []
  {
  }

  method PyCensus(file: seq<Byte>)
    returns (counts: map<Byte, nat>, systemEvents: seq<Byte>, total: nat, consumed: nat, error: Option<PyError>)
    ensures IsPyEnd(file, consumed, error)
    ensures total == |Records(file)|
    ensures CountsMatch(counts, Records(file))
    ensures systemEvents == EventsOf(Records(file))
  {
    hide Walked, CountsMatch, EventsOf, Records, FramedAll, PyErrorHolds;
    counts, systemEvents, total, consumed, error := map[], [], 0, 0, None;
    ghost var delivered: seq<seq<Byte>> := [];
    WalkBegins(file);
    NoneCounted();
    while consumed < |file|
      invariant consumed <= |file| && Walked(file, consumed, delivered)
      invariant total == |delivered| && error.None?
      invariant CountsMatch(counts, delivered) && systemEvents == EventsOf(delivered)
    {
      var turn := WalkTurn(file, consumed);
      match turn {
        case PyStop(e) =>
          WalkEnds(file, consumed, delivered);
          error := Some(e);
          return;
        case PyDeliver(record) =>
          WalkOn(file, consumed, delivered, record);
          CountRecord(counts, delivered, record);
          counts := counts[record[0] := (if record[0] in counts then counts[record[0]] else 0) + 1];
          if record[0] == 'S' as int {
            systemEvents := systemEvents + [record[11]];
          }
          delivered := delivered + [record];
          total := total + 1;
          consumed := consumed + 2 + |record|;
      }
    }
    WalkEnds(file, consumed, delivered);
  }
}
