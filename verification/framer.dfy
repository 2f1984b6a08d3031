/** BinaryFILE framing: a file is a run of records, each behind a two-byte big-endian length. */
module Framer {
  import opened Bytes
  import opened MessageTable
  import opened Messages
  import opened Codec

  datatype FrameError = TruncatedPrefix | ZeroLength | TruncatedRecord | UnknownType | LengthMismatch

  datatype FrameOutcome = FrameOutcome(
    messages: nat, bytesConsumed: nat, error: Option<FrameError>, errorOffset: nat, errorType: Byte)

  // --------------------------------------------------------------------------------------------
  // What a framing of a file is
  // --------------------------------------------------------------------------------------------

  function FramedAll(records: seq<seq<Byte>>): seq<Byte> {
    if records == [] then [] else Framed(records[0]) + FramedAll(records[1..])
  }

  /** `records` are records of the standard whose framed bytes begin the file. */
  predicate IsFraming(file: seq<Byte>, records: seq<seq<Byte>>) {
    (forall r | r in records :: ValidRecord(r)) && FramedAll(records) <= file
  }

  function DeclaredLength(suffix: seq<Byte>): nat
    requires |suffix| >= 2
  {
    BigEndianValue(suffix[..2])
  }

  /** The valid record a suffix begins with, if it begins with one. */
  function FirstRecord(suffix: seq<Byte>): Option<seq<Byte>> {
    if |suffix| >= 2 && 2 + DeclaredLength(suffix) <= |suffix|
       && ValidRecord(suffix[2..2 + DeclaredLength(suffix)])
    then Some(suffix[2..2 + DeclaredLength(suffix)])
    else None
  }

  function Records(file: seq<Byte>): seq<seq<Byte>> {
    match FirstRecord(file)
    case None => []
    case Some(r) => [r] + Records(file[2 + |r|..])
  }

  /** The five error classes, each as a property of the bytes where framing stopped. */
  predicate ErrorHolds(error: FrameError, suffix: seq<Byte>) {
    match error
    case TruncatedPrefix => |suffix| == 1
    case ZeroLength => |suffix| >= 2 && DeclaredLength(suffix) == 0
    case TruncatedRecord => |suffix| >= 2 && DeclaredLength(suffix) > |suffix| - 2
    case UnknownType =>
      |suffix| >= 2 && 0 < DeclaredLength(suffix) <= |suffix| - 2 && SpecLength(suffix[2]) == 0
    case LengthMismatch =>
      |suffix| >= 2 && 0 < DeclaredLength(suffix) <= |suffix| - 2
      && SpecLength(suffix[2]) != 0 && SpecLength(suffix[2]) != DeclaredLength(suffix)
  }

  function ErrorTypeAt(error: FrameError, suffix: seq<Byte>): Byte
    requires ErrorHolds(error, suffix)
  {
    if error.UnknownType? || error.LengthMismatch? then suffix[2] else 0
  }

  /** A suffix is empty, or begins with a valid record, or has exactly one error class. */
  lemma SuffixTrichotomy(suffix: seq<Byte>)
    ensures (suffix != [] && FirstRecord(suffix).None?) <==> exists e :: ErrorHolds(e, suffix)
    ensures forall e, e' | ErrorHolds(e, suffix) && ErrorHolds(e', suffix) :: e == e'
  {
    if suffix != [] && FirstRecord(suffix).None? {
      var e := if |suffix| == 1 then TruncatedPrefix
               else if DeclaredLength(suffix) == 0 then ZeroLength
               else if DeclaredLength(suffix) > |suffix| - 2 then TruncatedRecord
               else if SpecLength(suffix[2]) == 0 then UnknownType else LengthMismatch;
      assert ErrorHolds(e, suffix);
    }
  }

  lemma FramedIsFirst(r: seq<Byte>, suffix: seq<Byte>)
    requires ValidRecord(r) && Framed(r) <= suffix
    ensures FirstRecord(suffix) == Some(r)
  {
    assert suffix[..2] == Framed(r)[..2] == BigEndianBytes(|r|, 2);
    EncodeThenDecode(|r|, 2);
    Pow256Widths();
    assert suffix[2..2 + |r|] == Framed(r)[2..] == r;
  }

  lemma FirstIsFramed(suffix: seq<Byte>)
    requires FirstRecord(suffix).Some?
    ensures var r := FirstRecord(suffix).value;
            ValidRecord(r) && Framed(r) <= suffix && suffix == Framed(r) + suffix[2 + |r|..]
  {
    DecodeThenEncode(suffix[..2]);
  }

  // --------------------------------------------------------------------------------------------
  // The records of a file
  // --------------------------------------------------------------------------------------------

  /** The records delivered are a framing of the file... */
  lemma {:induction false} RecordsAreFraming(file: seq<Byte>)
    ensures IsFraming(file, Records(file))
  {
    if FirstRecord(file).Some? {
      var r := FirstRecord(file).value;
      FirstIsFramed(file);
      RecordsAreFraming(file[2 + |r|..]);
    }
  }

  lemma PeelRecord(file: seq<Byte>, records: seq<seq<Byte>>)
    requires IsFraming(file, records) && records != []
    ensures var r := records[0];
            FirstRecord(file) == Some(r) && 2 + |r| <= |file| && IsFraming(file[2 + |r|..], records[1..])
  {
    var r, rest := records[0], records[1..];
    assert Framed(r) <= FramedAll(records) <= file;
    FramedIsFirst(r, file);
    assert FramedAll(rest) == FramedAll(records)[2 + |r|..] <= file[2 + |r|..];
  }

  /** ...and every framing of the file is a prefix of them: they are the unique longest one. */
  lemma {:induction false} RecordsAreLongest(file: seq<Byte>, records: seq<seq<Byte>>)
    requires IsFraming(file, records)
    ensures records <= Records(file)
  {
    if records != [] {
      var r, rest := records[0], records[1..];
      PeelRecord(file, records);
      RecordsAreLongest(file[2 + |r|..], rest);
      assert records == [r] + rest;
    }
  }

  lemma {:induction false} FramedAllAppend(a: seq<seq<Byte>>, b: seq<seq<Byte>>)
    ensures FramedAll(a + b) == FramedAll(a) + FramedAll(b)
  {
    if a == [] {
      assert a + b == b;
    } else {
      assert (a + b)[1..] == a[1..] + b;
      FramedAllAppend(a[1..], b);
    }
  }

  lemma Skip(file: seq<Byte>, m: nat, n: nat)
    requires m + n <= |file|
    ensures file[m..][n..] == file[m + n..]
  {
  }

  lemma Regroup(a: seq<seq<Byte>>, b: seq<seq<Byte>>)
    requires a != []
    ensures [a[0]] + (a[1..] + b) == a + b
  {
  }

  lemma PrefixExtends(file: seq<Byte>, p: seq<Byte>, x: seq<Byte>)
    requires p <= file && x <= file[|p|..]
    ensures p + x <= file
  {
    assert file == p + file[|p|..];
  }

  lemma {:induction false} RecordsAfterPrefix(records: seq<seq<Byte>>, file: seq<Byte>)
    requires IsFraming(file, records)
    ensures Records(file) == records + Records(file[|FramedAll(records)|..])
  {
    if records == [] {
      assert file[0..] == file;
    } else {
      var r, rest := records[0], records[1..];
      PeelRecord(file, records);
      var tail := file[2 + |r|..];
      var left := file[|FramedAll(records)|..];
      assert tail[|FramedAll(rest)|..] == left by {
        assert |FramedAll(records)| == 2 + |r| + |FramedAll(rest)|;
        Skip(file, 2 + |r|, |FramedAll(rest)|);
      }
      RecordsAfterPrefix(rest, tail);
      Regroup(records, Records(left));
    }
  }

  /** Any valid records at all are what the framer makes of their framed bytes. */
  lemma FramingRoundTrip(records: seq<seq<Byte>>)
    requires forall i | 0 <= i < |records| :: ValidRecord(records[i])
    ensures Records(FramedAll(records)) == records
  {
    hide ValidRecord, FramedAll;
    RecordsAfterPrefix(records, FramedAll(records));
    assert FramedAll(records)[|FramedAll(records)|..] == [];
    NothingFramed();
  }

  lemma NothingFramed()
    ensures Records([]) == [] && FramedAll([]) == []
  {
  }

  /** The framer checks only lengths, while the decoders of A, F and P also assert the side byte: it
      delivers records that do not satisfy them. */
  lemma FramedRecordMayBreakSideAssert() returns (r: seq<Byte>, file: seq<Byte>)
    ensures ValidRecord(r) && r[0] == ADD_ORDER && !SideByteOk(r)
    ensures file == Framed(r) && Records(file) == [r] && FramedAll(Records(file)) == file
  {
    r := [ADD_ORDER] + seq(35, _ => 0);
    file := Framed(r);
    assert FramedAll([r]) == file by {
      NothingFramed();
    }
    hide FramedAll, Records, Framed;
    FramingRoundTrip([r]);
  }

  /** What dispatch needs of a file, exactly: beyond what the framer guarantees, a valid side byte in
      every A, F and P record. */
  lemma DispatchIsSafeExactly(file: seq<Byte>)
    ensures (forall r | r in Records(file) :: DecoderAssertsHold(r))
       <==> (forall r | r in Records(file) :: SideByteOk(r))
  {
    hide SpecLength, Records, SideByteOk;
    RecordsAreFraming(file);
    forall r | r in Records(file)
      ensures DecoderAssertsHold(r) <==> SideByteOk(r)
    {
      if !IsDecoded(r[0]) {
        OthersHaveNoSide(r);
      }
    }
  }

  lemma OthersHaveNoSide(r: seq<Byte>)
    requires r != [] && !IsDecoded(r[0])
    ensures SideByteOk(r)
  {
  }

  // --------------------------------------------------------------------------------------------
  // The outcome
  // --------------------------------------------------------------------------------------------

  ghost predicate IsOutcome(file: seq<Byte>, outcome: FrameOutcome) {
    && outcome.messages == |Records(file)|
    && outcome.bytesConsumed == |FramedAll(Records(file))| <= |file|
    && (match outcome.error
        case None => outcome.bytesConsumed == |file| && outcome.errorOffset == 0 && outcome.errorType == 0
        case Some(e) =>
          && outcome.errorOffset == outcome.bytesConsumed
          && ErrorHolds(e, file[outcome.bytesConsumed..])
          && outcome.errorType == ErrorTypeAt(e, file[outcome.bytesConsumed..]))
  }

  /** The outcome of a file read off its bytes: where each error class stops, and the type byte reported
      with the two that have one. */
  lemma OutcomeInBytes(file: seq<Byte>, outcome: FrameOutcome)
    requires IsOutcome(file, outcome) && outcome.error.Some?
    ensures var o := outcome.errorOffset;
            var left := |file| - o;
            && 1 <= left <= |file| && (outcome.error.value.TruncatedPrefix? <==> left == 1)
            && (left > 1 ==>
                  var declared := file[o] as int * 256 + file[o + 1] as int;
                  match outcome.error.value
                  case TruncatedPrefix => false
                  case ZeroLength => declared == 0
                  case TruncatedRecord => declared > left - 2
                  case UnknownType => 0 < declared <= left - 2 && SpecLength(file[o + 2]) == 0
                  case LengthMismatch => 0 < declared <= left - 2 && SpecLength(file[o + 2]) !in {0, declared})
            && (if outcome.error.value.UnknownType? || outcome.error.value.LengthMismatch?
                then left > 2 && outcome.errorType == file[o + 2]
                else outcome.errorType == 0)
  {
    hide Records, FramedAll, SpecLength, BigEndianValue;
    var o := outcome.errorOffset;
    if |file| - o > 1 {
      assert file[o..][..2] == [file[o], file[o + 1]];
      TwoByteValue(file[o], file[o + 1]);
    }
  }

  /** A framed record in bytes: its length, high byte first, and the record. */
  lemma FramedInBytes(r: seq<Byte>)
    ensures Framed(r) == [|r| / 256 % 256, |r| % 256] + r
  {
    TwoBytes(|r|);
  }

  /** Framing is complete exactly when the framed records are the whole file; otherwise the error is
      the one class that holds of the rest. The file determines the outcome. */
  lemma OutcomeIsExact(file: seq<Byte>, outcome: FrameOutcome)
    requires IsOutcome(file, outcome)
    ensures outcome.error.None? <==> FramedAll(Records(file)) == file
    ensures forall e :: outcome.error == Some(e) <==> ErrorHolds(e, file[outcome.bytesConsumed..])
    ensures forall other | IsOutcome(file, other) :: other == outcome
  {
    RecordsAreFraming(file);
    SuffixTrichotomy(file[outcome.bytesConsumed..]);
    if outcome.error.None? {
      assert file[..outcome.bytesConsumed] == file;
    }
  }

  /** Framing `a + b` where `a` frames completely is framing `a`, then `b` with offsets shifted. */
  lemma FramingConcatenates(a: seq<Byte>, b: seq<Byte>, outA: FrameOutcome, outB: FrameOutcome, out: FrameOutcome)
    requires IsOutcome(a, outA) && IsOutcome(b, outB) && IsOutcome(a + b, out)
    requires outA.error.None?
    ensures Records(a + b) == Records(a) + Records(b)
    ensures out.messages == outA.messages + outB.messages && out.bytesConsumed == |a| + outB.bytesConsumed
    ensures out.error == outB.error && out.errorType == outB.errorType
    ensures out.error.Some? ==> out.errorOffset == |a| + outB.errorOffset
  {
    OutcomeIsExact(a, outA);
    RecordsAreFraming(a);
    assert (a + b)[|a|..] == b;
    RecordsAfterPrefix(Records(a), a + b);
    FramedAllAppend(Records(a), Records(b));
    assert (a + b)[out.bytesConsumed..] == b[outB.bytesConsumed..];
    OutcomeIsExact(b, outB);
    OutcomeIsExact(a + b, out);
    if outB.error.Some? {
      assert ErrorHolds(outB.error.value, (a + b)[out.bytesConsumed..]);
    }
  }

  // --------------------------------------------------------------------------------------------
  // The loop
  // --------------------------------------------------------------------------------------------

  datatype Turn = Deliver(record: seq<Byte>) | Stop(error: FrameError, errorType: Byte)

  /** One turn of frame_all's loop, up to the callback: the checks at `offset`. */
  method FrameTurn(file: seq<Byte>, offset: nat) returns (turn: Turn)
    requires offset < |file|
    ensures match turn
            case Deliver(r) => FirstRecord(file[offset..]) == Some(r)
            case Stop(e, t) => FirstRecord(file[offset..]).None? && ErrorHolds(e, file[offset..])
                               && t == ErrorTypeAt(e, file[offset..])
  {
    ghost var suffix := file[offset..];
    if |file| - offset < 2 {
      return Stop(TruncatedPrefix, 0);
    }
    var declared := file[offset] as int * 256 + file[offset + 1] as int;
    assert declared == DeclaredLength(suffix) by {
      assert suffix[..2] == [file[offset], file[offset + 1]];
      TwoByteValue(file[offset], file[offset + 1]);
    }
    if declared == 0 {
      return Stop(ZeroLength, 0);
    }
    if |file| - offset - 2 < declared {
      return Stop(TruncatedRecord, 0);
    }
    var record := file[offset + 2..offset + 2 + declared];
    assert record == suffix[2..2 + declared] && record[0] == suffix[2];
    var expected := SpecLength(record[0]);
    if expected == 0 {
      return Stop(UnknownType, record[0]);
    }
    if expected != declared {
      return Stop(LengthMismatch, record[0]);
    }
    return Deliver(record);
  }

  lemma TwoByteValue(hi: Byte, lo: Byte)
    ensures BigEndianValue([hi, lo]) == hi * 256 + lo
  {
    Pow256Widths();
    assert [hi, lo][1..] == [lo];
    assert BigEndianValue([lo]) == lo;
  }

  /** The loop's invariant: what has been delivered so far, and what is left of the file. */
  ghost predicate Walked(file: seq<Byte>, offset: nat, delivered: seq<seq<Byte>>) {
    && offset <= |file|
    && IsFraming(file, delivered)
    && offset == |FramedAll(delivered)|
    && Records(file) == delivered + Records(file[offset..])
  }

  lemma WalkOn(file: seq<Byte>, offset: nat, delivered: seq<seq<Byte>>, r: seq<Byte>)
    requires Walked(file, offset, delivered) && offset < |file| && FirstRecord(file[offset..]) == Some(r)
    ensures offset + 2 + |r| <= |file| && Walked(file, offset + 2 + |r|, delivered + [r])
  {
    hide Framed, ValidRecord, FirstRecord, Records;
    FirstIsFramed(file[offset..]);
    FramedAllAppend(delivered, [r]);
    assert FramedAll([r]) == Framed(r);
    PrefixExtends(file, FramedAll(delivered), Framed(r));
    RecordsAfterPrefix(delivered + [r], file);
  }

  lemma WalkBegins(file: seq<Byte>)
    ensures Walked(file, 0, [])
  {
    assert file[0..] == file;
  }

  lemma WalkEnds(file: seq<Byte>, offset: nat, delivered: seq<seq<Byte>>)
    requires Walked(file, offset, delivered) && FirstRecord(file[offset..]).None?
    ensures delivered == Records(file) && offset == |FramedAll(Records(file))| <= |file|
  {
  }

  /** Where the loop returns, whatever its callback does: the outcome is that of the whole file. */
  lemma WalkOutcome(file: seq<Byte>, offset: nat, delivered: seq<seq<Byte>>, outcome: FrameOutcome)
    requires Walked(file, offset, delivered) && FirstRecord(file[offset..]).None?
    requires outcome.messages == |delivered| && outcome.bytesConsumed == offset
    requires match outcome.error
             case None => offset == |file| && outcome.errorOffset == 0 && outcome.errorType == 0
             case Some(e) => outcome.errorOffset == offset && ErrorHolds(e, file[offset..])
                             && outcome.errorType == ErrorTypeAt(e, file[offset..])
    ensures delivered == Records(file) && IsOutcome(file, outcome)
  {
    WalkEnds(file, offset, delivered);
  }

  /** frame_all, with the callback's deliveries collected in order. */
  method FrameAll(file: seq<Byte>) returns (outcome: FrameOutcome, delivered: seq<seq<Byte>>)
    ensures delivered == Records(file)
    ensures IsOutcome(file, outcome)
  {
    hide Walked, Records, ErrorHolds, IsOutcome;
    outcome := FrameOutcome(0, 0, None, 0, 0);
    delivered := [];
    var offset := 0;
    WalkBegins(file);
    while offset < |file|
      invariant offset <= |file| && Walked(file, offset, delivered)
      invariant outcome == FrameOutcome(|delivered|, offset, None, 0, 0)
    {
      var turn := FrameTurn(file, offset);
      match turn {
        case Stop(error, errorType) =>
          outcome := outcome.(error := Some(error), errorOffset := offset, errorType := errorType);
          WalkOutcome(file, offset, delivered, outcome);
          return;
        case Deliver(record) =>
          WalkOn(file, offset, delivered, record);
          delivered := delivered + [record];
          offset := offset + 2 + |record|;
          outcome := outcome.(messages := outcome.messages + 1, bytesConsumed := offset);
      }
    }
    WalkOutcome(file, offset, delivered, outcome);
  }
}
