/** The resumable pull protocol both table functions share: per range, the records the
    row decoder seals (up to the first failure); the fetch loop that reads ranges until a
    batch is pending; and the emitter that hands out at most `STANDARD_VECTOR_SIZE`
    records per pull. Everything here is generic in the record type. */
module BatchEmitter {
  import opened Wrappers
  import opened Bigtable

  /** DuckDB's `STANDARD_VECTOR_SIZE`: the capacity of one output chunk. */
  const STANDARD_VECTOR_SIZE: nat := 2048

  /** What reading one range yields: the records sealed before the scan stopped, and the
      failure that stopped it, if any. */
  datatype Scan<R> = Scan(records: seq<R>, failure: Option<Failure>)

  /** Reading the rows of one range in order: a failed `StatusOr` or a row that does not
      decode ends the scan; the records of the rows before it are kept. */
  function ScanRows<R>(rows: seq<RowResult>, decode: Row -> Result<seq<R>>): Scan<R>
    decreases |rows|
  {
    if rows == [] then Scan([], None)
    else
      var s := ScanRows(rows[..|rows| - 1], decode);
      if s.failure.Some? then s
      else match rows[|rows| - 1]
        case FailedStatus(msg) => Scan(s.records, Some(StoreError(msg)))
        case Fetched(row) =>
          match decode(row)
          case Ok(recs) => Scan(s.records + recs, None)
          case Err(f) => Scan(s.records, Some(f))
  }

  lemma AppendAssociative<T>(a: seq<T>, b: seq<T>, c: seq<T>)
    ensures (a + b) + c == a + (b + c)
  {
  }

  /** What one more row contributes to a scan that has not failed: its records, or the
      failure that ends the scan. */
  function ScanNext<R>(result: RowResult, decode: Row -> Result<seq<R>>): Scan<R>
  {
    match result
    case FailedStatus(msg) => Scan([], Some(StoreError(msg)))
    case Fetched(row) =>
      match decode(row)
      case Ok(recs) => Scan(recs, None)
      case Err(f) => Scan([], Some(f))
  }

  /** One more row: how the scan of `rows[..i + 1]` follows from the scan of `rows[..i]`. */
  lemma ScanRowsNext<R>(rows: seq<RowResult>, decode: Row -> Result<seq<R>>, i: nat)
    requires i < |rows| && ScanRows(rows[..i], decode).failure.None?
    ensures ScanRows(rows[..i + 1], decode)
         == Scan(ScanRows(rows[..i], decode).records + ScanNext(rows[i], decode).records, ScanNext(rows[i], decode).failure)
  {
    assert rows[..i + 1][..i] == rows[..i];
  }

  /** Once a prefix of the rows has failed, the rows after it are never looked at. */
  lemma {:induction false} ScanRowsStops<R>(rows: seq<RowResult>, decode: Row -> Result<seq<R>>, k: nat)
    requires k <= |rows|
    requires ScanRows(rows[..k], decode).failure.Some?
    ensures ScanRows(rows, decode) == ScanRows(rows[..k], decode)
    decreases |rows| - k
  {
    if k < |rows| {
      assert rows[..k + 1][..k] == rows[..k];
      ScanRowsStops(rows, decode, k + 1);
    } else {
      assert rows[..k] == rows;
    }
  }

  /** Where every row arrives and decodes, a range yields the concatenation of its rows'
      records, in row order. */
  ghost predicate AllDecode<R>(rows: seq<RowResult>, decode: Row -> Result<seq<R>>)
  {
    forall i :: 0 <= i < |rows| ==> rows[i].Fetched? && decode(rows[i].row).Ok?
  }

  function RowsRecords<R>(rows: seq<RowResult>, decode: Row -> Result<seq<R>>): seq<R>
    requires AllDecode(rows, decode)
    decreases |rows|
  {
    if rows == [] then [] else decode(rows[0].row).value + RowsRecords(rows[1..], decode)
  }

  lemma {:induction false} RowsRecordsSnoc<R>(rows: seq<RowResult>, decode: Row -> Result<seq<R>>)
    requires rows != [] && AllDecode(rows, decode)
    ensures RowsRecords(rows, decode)
         == RowsRecords(rows[..|rows| - 1], decode) + decode(rows[|rows| - 1].row).value
    decreases |rows|
  {
    if |rows| > 1 {
      assert rows[1..][..|rows[1..]| - 1] == rows[..|rows| - 1][1..];
      RowsRecordsSnoc(rows[1..], decode);
    }
  }

  lemma {:induction false} ScanRowsComplete<R>(rows: seq<RowResult>, decode: Row -> Result<seq<R>>)
    requires AllDecode(rows, decode)
    ensures ScanRows(rows, decode) == Scan(RowsRecords(rows, decode), None)
    decreases |rows|
  {
    if rows != [] {
      ScanRowsComplete(rows[..|rows| - 1], decode);
      RowsRecordsSnoc(rows, decode);
    }
  }

  /** The cursors a `ProductFunctionData` or `SearchFunctionData` carries from pull to
      pull: the next range to read, the sealed records, and the next record to emit. */
  datatype Cursors<R> = Cursors(rangesIdx: nat, remainder: seq<R>, remainderIdx: nat)

  ghost predicate Valid<R>(scans: seq<Scan<R>>, st: Cursors<R>)
  {
    st.rangesIdx <= |scans| && st.remainderIdx <= |st.remainder|
  }

  function Pending<R>(st: Cursors<R>): nat
    requires st.remainderIdx <= |st.remainder|
  {
    |st.remainder| - st.remainderIdx
  }

  /** All records of a sequence of range scans, in range order. */
  function AllRecords<R>(scans: seq<Scan<R>>): seq<R>
    decreases |scans|
  {
    if scans == [] then [] else scans[0].records + AllRecords(scans[1..])
  }

  lemma {:induction false} AllRecordsAppend<R>(a: seq<Scan<R>>, b: seq<Scan<R>>)
    ensures AllRecords(a + b) == AllRecords(a) + AllRecords(b)
    decreases |a|
  {
    if a != [] {
      assert (a + b)[1..] == a[1..] + b;
      AllRecordsAppend(a[1..], b);
    } else {
      assert a + b == b;
    }
  }

  predicate NoFailure<R>(scans: seq<Scan<R>>)
  {
    forall i :: 0 <= i < |scans| ==> scans[i].failure.None?
  }

  lemma NoFailureCons<R>(s: Scan<R>, rest: seq<Scan<R>>)
    requires s.failure.None? && NoFailure(rest)
    ensures NoFailure([s] + rest)
  {
    forall k | 0 <= k < |[s] + rest|
      ensures ([s] + rest)[k].failure.None?
    {
      if k > 0 {
        assert ([s] + rest)[k] == rest[k - 1];
      }
    }
  }

  /** The fetch loop: while ranges remain and fewer than one chunk of records is pending,
      read the next range and append what it sealed; a failure ends the loop (the C++
      code throws out of the table function). `scans[i]` is what reading range i yields. */
  function Fetch<R>(scans: seq<Scan<R>>, st: Cursors<R>): (r: (Cursors<R>, Option<Failure>))
    requires Valid(scans, st)
    ensures Valid(scans, r.0)
    decreases |scans| - st.rangesIdx
  {
    if st.rangesIdx < |scans| && Pending(st) < STANDARD_VECTOR_SIZE then
      var s := scans[st.rangesIdx];
      var next := Cursors(st.rangesIdx + 1, st.remainder + s.records, st.remainderIdx);
      if s.failure.Some? then (next, s.failure) else Fetch(scans, next)
    else (st, None)
  }

  /** One range read by the fetch loop. */
  lemma FetchStep<R>(scans: seq<Scan<R>>, st: Cursors<R>)
    requires Valid(scans, st) && st.rangesIdx < |scans| && Pending(st) < STANDARD_VECTOR_SIZE
    ensures var s := scans[st.rangesIdx];
      var next := Cursors(st.rangesIdx + 1, st.remainder + s.records, st.remainderIdx);
      Fetch(scans, st) == if s.failure.Some? then (next, s.failure) else Fetch(scans, next)
  {
  }

  /** The fetch loop only moves the range cursor forward and appends, in order, the
      records of exactly the ranges it read; the emit cursor is untouched. */
  lemma {:induction false} FetchAppends<R>(scans: seq<Scan<R>>, st: Cursors<R>)
    requires Valid(scans, st)
    ensures var f := Fetch(scans, st).0;
      && st.rangesIdx <= f.rangesIdx <= |scans|
      && f.remainder == st.remainder + AllRecords(scans[st.rangesIdx..f.rangesIdx])
      && f.remainderIdx == st.remainderIdx
    decreases |scans| - st.rangesIdx
  {
    var i := st.rangesIdx;
    if i < |scans| && Pending(st) < STANDARD_VECTOR_SIZE {
      var s := scans[i];
      var next := Cursors(i + 1, st.remainder + s.records, st.remainderIdx);
      assert scans[i..i + 1] == [s];
      assert AllRecords([s]) == s.records by { assert [s][1..] == []; }
      if s.failure.None? {
        FetchAppends(scans, next);
        var j := Fetch(scans, next).0.rangesIdx;
        assert scans[i..j] == [s] + scans[i + 1..j];
        AllRecordsAppend([s], scans[i + 1..j]);
        AppendAssociative(st.remainder, s.records, AllRecords(scans[i + 1..j]));
      }
    } else {
      assert scans[i..i] == [];
    }
  }

  /** Without a failure the fetch loop stops only once the ranges are exhausted or a whole
      chunk is pending, and none of the ranges it read failed; with one, the last range
      it read is the one that failed and none before it did. */
  lemma {:induction false} FetchStops<R>(scans: seq<Scan<R>>, st: Cursors<R>)
    requires Valid(scans, st)
    ensures var (f, failure) := Fetch(scans, st);
      && st.rangesIdx <= f.rangesIdx <= |scans|
      && (failure.None? ==>
            && (f.rangesIdx == |scans| || Pending(f) >= STANDARD_VECTOR_SIZE)
            && NoFailure(scans[st.rangesIdx..f.rangesIdx]))
      && (failure.Some? ==>
            && st.rangesIdx < f.rangesIdx
            && scans[f.rangesIdx - 1].failure == failure
            && NoFailure(scans[st.rangesIdx..f.rangesIdx - 1]))
    decreases |scans| - st.rangesIdx
  {
    var i := st.rangesIdx;
    if i < |scans| && Pending(st) < STANDARD_VECTOR_SIZE {
      var s := scans[i];
      var next := Cursors(i + 1, st.remainder + s.records, st.remainderIdx);
      if s.failure.None? {
        FetchStops(scans, next);
        var j := Fetch(scans, next).0.rangesIdx;
        if Fetch(scans, next).1.Some? {
          assert scans[i..j - 1] == [s] + scans[i + 1..j - 1];
          NoFailureCons(s, scans[i + 1..j - 1]);
        } else {
          assert scans[i..j] == [s] + scans[i + 1..j];
          NoFailureCons(s, scans[i + 1..j]);
        }
      } else {
        assert scans[i..i] == [];
      }
    } else {
      assert scans[i..i] == [];
    }
  }

  /** Both halves of what the fetch loop promises, in one statement. */
  lemma FetchSpec<R>(scans: seq<Scan<R>>, st: Cursors<R>)
    requires Valid(scans, st)
    ensures var (f, failure) := Fetch(scans, st);
      && st.rangesIdx <= f.rangesIdx <= |scans|
      && f.remainder == st.remainder + AllRecords(scans[st.rangesIdx..f.rangesIdx])
      && f.remainderIdx == st.remainderIdx
      && (failure.None? ==>
            && (f.rangesIdx == |scans| || Pending(f) >= STANDARD_VECTOR_SIZE)
            && NoFailure(scans[st.rangesIdx..f.rangesIdx]))
      && (failure.Some? ==>
            && st.rangesIdx < f.rangesIdx
            && scans[f.rangesIdx - 1].failure == failure
            && NoFailure(scans[st.rangesIdx..f.rangesIdx - 1]))
  {
    FetchAppends(scans, st);
    FetchStops(scans, st);
  }

  /** The emitter: copy the pending records, in order, until a chunk is full. */
  function Emit<R>(st: Cursors<R>): (r: (Cursors<R>, seq<R>))
    requires st.remainderIdx <= |st.remainder|
    ensures r.0.remainderIdx <= |r.0.remainder|
    ensures r.0.remainder == st.remainder
    ensures |r.1| <= STANDARD_VECTOR_SIZE
    ensures |r.1| == STANDARD_VECTOR_SIZE || r.0.remainderIdx == |st.remainder|
    ensures r.0.remainderIdx == st.remainderIdx + |r.1|
    ensures r.1 + st.remainder[r.0.remainderIdx..] == st.remainder[st.remainderIdx..]
  {
    var n := if Pending(st) < STANDARD_VECTOR_SIZE then Pending(st) else STANDARD_VECTOR_SIZE;
    var i := st.remainderIdx;
    (Cursors(st.rangesIdx, st.remainder, i + n), st.remainder[i..i + n])
  }

  /** Emitting `n` records: a whole chunk, or everything that is pending. */
  lemma EmitCount<R>(st: Cursors<R>, n: nat)
    requires st.remainderIdx + n <= |st.remainder| && n <= STANDARD_VECTOR_SIZE
    requires n == STANDARD_VECTOR_SIZE || st.remainderIdx + n == |st.remainder|
    ensures Emit(st)
         == (Cursors(st.rangesIdx, st.remainder, st.remainderIdx + n), st.remainder[st.remainderIdx..st.remainderIdx + n])
  {
  }

  /** The result of one call of a table function: an output chunk, or the exception that
      aborts the query. */
  datatype Pulled<R> = Chunk(records: seq<R>) | Aborted(failure: Failure)

  /** One call of `ProductFunction` or `SearchFunction`: fetch, then emit. */
  function Pull<R>(scans: seq<Scan<R>>, st: Cursors<R>): (r: (Cursors<R>, Pulled<R>))
    requires Valid(scans, st)
    ensures Valid(scans, r.0)
  {
    var (f, failure) := Fetch(scans, st);
    if failure.Some? then (f, Aborted(failure.value))
    else var (e, batch) := Emit(f); (e, Chunk(batch))
  }

  /** The cursors only move forward and sealed records are never dropped or rewritten. */
  lemma PullMonotone<R>(scans: seq<Scan<R>>, st: Cursors<R>)
    requires Valid(scans, st)
    ensures var st' := Pull(scans, st).0;
      && st.rangesIdx <= st'.rangesIdx
      && st.remainderIdx <= st'.remainderIdx
      && st.remainder <= st'.remainder
  {
    FetchSpec(scans, st);
  }

  predicate Exhausted<R>(scans: seq<Scan<R>>, st: Cursors<R>)
  {
    st.rangesIdx == |scans| && st.remainderIdx == |st.remainder|
  }

  /** Once both cursors are at the end, a pull returns an empty chunk and changes nothing,
      and an empty chunk is returned only then. */
  lemma PullEmptyIffExhausted<R>(scans: seq<Scan<R>>, st: Cursors<R>)
    requires Valid(scans, st)
    ensures Exhausted(scans, st) ==> Pull(scans, st) == (st, Chunk([]))
    ensures Pull(scans, st).1 == Chunk([]) ==> Exhausted(scans, Pull(scans, st).0)
  {
    FetchSpec(scans, st);
  }

  /** Each pull after which the stream is not over makes progress. */
  lemma PullProgress<R>(scans: seq<Scan<R>>, st: Cursors<R>)
    requires Valid(scans, st)
    requires Pull(scans, st).1.Chunk? && Pull(scans, st).1.records != []
    ensures var st' := Pull(scans, st).0;
      || st'.rangesIdx > st.rangesIdx
      || (st'.rangesIdx == st.rangesIdx && Pending(st') < Pending(st))
  {
    FetchSpec(scans, st);
  }

  /** The chunks a consumer receives by pulling until an empty chunk, when no range fails. */
  function Drain<R>(scans: seq<Scan<R>>, st: Cursors<R>): (chunks: seq<seq<R>>)
    requires Valid(scans, st) && NoFailure(scans)
    ensures forall k :: 0 <= k < |chunks| ==> 0 < |chunks[k]| <= STANDARD_VECTOR_SIZE
    decreases |scans| - st.rangesIdx, Pending(st)
  {
    var (st', pulled) := Pull(scans, st);
    FetchSpec(scans, st);
    if pulled.Aborted? || pulled.records == [] then []
    else
      PullProgress(scans, st);
      [pulled.records] + Drain(scans, st')
  }

  function Flatten<R>(chunks: seq<seq<R>>): seq<R>
  {
    if chunks == [] then [] else chunks[0] + Flatten(chunks[1..])
  }

  lemma FetchNoFailure<R>(scans: seq<Scan<R>>, st: Cursors<R>)
    requires Valid(scans, st) && NoFailure(scans)
    ensures Fetch(scans, st).1.None?
  {
    FetchSpec(scans, st);
  }

  /** The chunks of a stream without failures: the first pull's chunk, then the rest. */
  lemma DrainUnfold<R>(scans: seq<Scan<R>>, st: Cursors<R>)
    requires Valid(scans, st) && NoFailure(scans)
    ensures Pull(scans, st).1.Chunk?
    ensures Pull(scans, st).1.records == [] ==> Drain(scans, st) == []
    ensures Pull(scans, st).1.records != [] ==>
      Drain(scans, st) == [Pull(scans, st).1.records] + Drain(scans, Pull(scans, st).0)
  {
    FetchNoFailure(scans, st);
  }

  /** A pull on a stream without failures, in one statement: the chunk followed by what
      is still pending afterwards is what was pending before followed by the records of
      the ranges read; an empty chunk means every range has been read. */
  lemma PullSpec<R>(scans: seq<Scan<R>>, st: Cursors<R>, st': Cursors<R>, chunk: seq<R>)
    requires Valid(scans, st) && NoFailure(scans)
    requires Pull(scans, st) == (st', Chunk(chunk))
    ensures st.rangesIdx <= st'.rangesIdx <= |scans| && st'.remainderIdx <= |st'.remainder|
    ensures chunk + st'.remainder[st'.remainderIdx..]
         == st.remainder[st.remainderIdx..] + AllRecords(scans[st.rangesIdx..st'.rangesIdx])
    ensures chunk == [] ==> st'.rangesIdx == |scans| && st'.remainderIdx == |st'.remainder|
    ensures chunk != [] ==>
      st'.rangesIdx > st.rangesIdx || (st'.rangesIdx == st.rangesIdx && Pending(st') < Pending(st))
  {
    FetchSpec(scans, st);
    FetchNoFailure(scans, st);
    var f := Fetch(scans, st).0;
    assert f.remainder[st.remainderIdx..]
        == st.remainder[st.remainderIdx..] + AllRecords(scans[st.rangesIdx..f.rangesIdx]);
  }

  lemma FlattenCons<R>(c: seq<R>, cs: seq<seq<R>>)
    ensures Flatten([c] + cs) == c + Flatten(cs)
  {
    assert ([c] + cs)[1..] == cs;
  }

  /** No record is lost or duplicated: pulling until the stream ends hands out exactly the
      pending records followed by every record of every range not yet read, in order. */
  lemma {:induction false} DrainComplete<R>(scans: seq<Scan<R>>, st: Cursors<R>)
    requires Valid(scans, st) && NoFailure(scans)
    ensures Flatten(Drain(scans, st)) == st.remainder[st.remainderIdx..] + AllRecords(scans[st.rangesIdx..])
    decreases |scans| - st.rangesIdx, Pending(st)
  {
    DrainUnfold(scans, st);
    var st', chunk := Pull(scans, st).0, Pull(scans, st).1.records;
    PullSpec(scans, st, st', chunk);
    var i, j := st.rangesIdx, st'.rangesIdx;
    var pending := st.remainder[st.remainderIdx..];
    var a, b := AllRecords(scans[i..j]), AllRecords(scans[j..]);
    assert AllRecords(scans[i..]) == a + b by {
      assert scans[i..] == scans[i..j] + scans[j..];
      AllRecordsAppend(scans[i..j], scans[j..]);
    }
    var rest := st'.remainder[st'.remainderIdx..];
    if chunk == [] {
      assert scans[j..] == [] && rest == [];
      assert pending + a == [];
    } else {
      DrainComplete(scans, st');
      FlattenCons(chunk, Drain(scans, st'));
      assert Flatten(Drain(scans, st)) == chunk + (rest + b);
      AppendAssociative(chunk, rest, b);
      AppendAssociative(pending, a, b);
    }
  }

  /** From the state the bind function leaves, pulling until the stream ends hands out
      every record of every range, in range order. */
  lemma DrainFromStart<R>(scans: seq<Scan<R>>)
    requires NoFailure(scans)
    ensures Flatten(Drain(scans, Cursors(0, [], 0))) == AllRecords(scans)
  {
    DrainComplete(scans, Cursors(0, [], 0));
    assert scans[0..] == scans;
  }
}
