/** The Python replay: the walk, the announcing record, and the reference book. */
module PythonReplay {
  import opened Bytes
  import opened Messages
  import opened Framer
  import opened ReferenceBooks
  import opened PythonWalk

  datatype PyReplay = PyReplay(book: PyBook, resolved: bool)

  const PY_UNRESOLVED := PyReplay(EMPTY_PY_BOOK, false)

  predicate AllValid(rs: seq<seq<Byte>>) {
    forall i | 0 <= i < |rs| :: ValidRecord(rs[i])
  }

  /** One record; None is an uncaught KeyError. */
  function PyReplayRecord(st: PyReplay, target: seq<Byte>, r: seq<Byte>): Option<PyReplay>
    requires ValidRecord(r)
  {
    var locate := UnpackU16(r, 1);
    if r[0] == 'R' as int then
      if !st.resolved && r[11..19] == target then Some(PyReplay(st.book.(locate := Some(locate)), true)) else Some(st)
    else if st.resolved && Some(locate) == st.book.locate then
      var book :- PyApply(st.book, r);
      Some(st.(book := book))
    else Some(st)
  }

  function PyReplayRecords(st: PyReplay, target: seq<Byte>, rs: seq<seq<Byte>>): Option<PyReplay>
    requires AllValid(rs)
  {
    if rs == [] then Some(st)
    else
      var before :- PyReplayRecords(st, target, rs[..|rs| - 1]);
      PyReplayRecord(before, target, rs[|rs| - 1])
  }

  lemma {:induction false} RaisedStaysRaised(st: PyReplay, target: seq<Byte>, rs: seq<seq<Byte>>, n: nat)
    requires AllValid(rs) && n <= |rs| && PyReplayRecords(st, target, rs[..n]).None?
    ensures PyReplayRecords(st, target, rs).None?
    decreases |rs|
  {
    hide ValidRecord, PyReplayRecord;
    if n == |rs| {
      assert rs[..n] == rs;
    } else {
      assert rs[..|rs| - 1][..n] == rs[..n];
      RaisedStaysRaised(st, target, rs[..|rs| - 1], n);
    }
  }

  /** replay: reads the file record by record into a new book. */
  method Replay(file: seq<Byte>, symbol: seq<Byte>)
    returns (book: ReferenceBook, resolved: bool, consumed: nat, error: Option<PyError>, raised: bool)
    ensures fresh(book) && AllValid(Records(file))
    ensures match PyReplayRecords(PY_UNRESOLVED, Ljust(symbol, 8), Records(file))
            case None => raised
            case Some(end) => !raised && PyReplay(book.State(), resolved) == end && IsPyEnd(file, consumed, error)
  {
    hide Walked, Records, PyReplayRecord, AllValid, ValidRecord;
    book := new ReferenceBook();
    var target := Ljust(symbol, 8);
    resolved, consumed, error, raised := false, 0, None, false;
    ghost var delivered: seq<seq<Byte>> := [];
    WalkBegins(file);
    NoneValid();
    while consumed < |file|
      invariant consumed <= |file| && Walked(file, consumed, delivered) && AllValid(delivered)
      invariant fresh(book) && !raised && error.None?
      invariant PyReplayRecords(PY_UNRESOLVED, target, delivered) == Some(PyReplay(book.State(), resolved))
    {
      var turn := WalkTurn(file, consumed);
      match turn {
        case PyStop(e) =>
          error := Some(e);
          WalkOver(file, consumed, delivered);
          return;
        case PyDeliver(record) =>
          ghost var before := PyReplay(book.State(), resolved);
          WalkOnce(file, consumed, delivered, record);
          ReplayOnce(PY_UNRESOLVED, target, delivered, record);
          resolved, raised := HandleRecord(book, resolved, target, record);
          if raised {
            RaisedAt(file, consumed + 2 + |record|, delivered + [record], target);
            return;
          }
          delivered := delivered + [record];
          consumed := consumed + 2 + |record|;
      }
    }
    WalkOver(file, consumed, delivered);
  }

  // The part of the loop after the checks.
  method HandleRecord(book: ReferenceBook, wasResolved: bool, target: seq<Byte>, record: seq<Byte>)
    returns (resolved: bool, raised: bool)
    requires ValidRecord(record)
    modifies book
    ensures match PyReplayRecord(PyReplay(old(book.State()), wasResolved), target, record)
            case None => raised
            case Some(next) => !raised && PyReplay(book.State(), resolved) == next
  {
    hide PyApply;
    resolved, raised := wasResolved, false;
    var locate := UnpackU16(record, 1);
    if record[0] == 'R' as int {
      if !resolved && record[11..19] == target {
        book.locate := Some(locate);
        resolved := true;
      }
    } else if resolved && Some(locate) == book.locate {
      raised := book.Apply(record);
    }
  }

  lemma NoneValid()
    ensures AllValid([])
  {
  }

  lemma WalkOnce(file: seq<Byte>, offset: nat, delivered: seq<seq<Byte>>, r: seq<Byte>)
    requires Walked(file, offset, delivered) && offset < |file| && FirstRecord(file[offset..]) == Some(r)
    requires AllValid(delivered)
    ensures offset + 2 + |r| <= |file| && Walked(file, offset + 2 + |r|, delivered + [r])
    ensures ValidRecord(r) && AllValid(delivered + [r])
  {
    WalkOn(file, offset, delivered, r);
  }

  lemma ReplayOnce(st: PyReplay, target: seq<Byte>, delivered: seq<seq<Byte>>, r: seq<Byte>)
    requires AllValid(delivered) && ValidRecord(r) && PyReplayRecords(st, target, delivered).Some?
    ensures AllValid(delivered + [r])
    ensures PyReplayRecords(st, target, delivered + [r])
         == PyReplayRecord(PyReplayRecords(st, target, delivered).value, target, r)
  {
    hide PyReplayRecord, ValidRecord;
    assert (delivered + [r])[..|delivered|] == delivered;
  }

  lemma AllRecordsValid(file: seq<Byte>)
    ensures AllValid(Records(file))
  {
    RecordsAreFraming(file);
  }

  lemma WalkOver(file: seq<Byte>, consumed: nat, delivered: seq<seq<Byte>>)
    requires Walked(file, consumed, delivered) && FirstRecord(file[consumed..]).None?
    ensures delivered == Records(file) && AllValid(Records(file))
    ensures consumed == |FramedAll(Records(file))| <= |file|
  {
    AllRecordsValid(file);
    WalkEnds(file, consumed, delivered);
  }

  lemma RaisedAt(file: seq<Byte>, consumed: nat, delivered: seq<seq<Byte>>, target: seq<Byte>)
    requires Walked(file, consumed, delivered) && AllValid(delivered)
    requires PyReplayRecords(PY_UNRESOLVED, target, delivered).None?
    ensures AllValid(Records(file)) && PyReplayRecords(PY_UNRESOLVED, target, Records(file)).None?
  {
    hide PyReplayRecords;
    AllRecordsValid(file);
    assert Records(file)[..|delivered|] == delivered;
    RaisedStaysRaised(PY_UNRESOLVED, target, Records(file), |delivered|);
  }
}
