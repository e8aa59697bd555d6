/**
 * The paging arithmetic of the readers: which records of a source a requested window
 * holds, whether the end of the source was reached, where the last page starts, and the
 * reload of an empty window. LinesReader and VariableBytesReader count records and
 * reload; FixedBytesReader computes its window from the file size and never reloads.
 */
module Windowing {
  import opened Wrappers
  import opened JavaLang

  /**
   * The records [first, end) of the source a load returns, whether the read loop met the
   * end of the source, and the offset the returned set reports.
   */
  datatype Page = Page(first: nat, end: nat, eof: bool, offset: int)

  /** Whether record i of a source of n records belongs to the window requested by offset and maxRecords. */
  predicate InWindow(n: nat, offset: int, maxRecords: int, i: int) {
    0 <= i < n && offset <= i && (maxRecords <= 0 || i < offset + maxRecords)
  }

  /**
   * One pass of the read loop over a source of n records: a record is kept when its index
   * is at least offset and, for a positive maxRecords, below offset + maxRecords; the loop
   * stops early (without reaching the end) at the first index past that bound.
   */
  function Scan(n: nat, offset: int, maxRecords: int): (p: Page)
    ensures p.first <= p.end <= n && p.offset == offset
    ensures forall i: int :: InWindow(n, offset, maxRecords, i) <==> p.first <= i < p.end
    ensures p.eof <==> maxRecords <= 0 || n <= Max(offset + maxRecords, 0)
  {
    var first := Min(Max(offset, 0), n);
    var end := if 0 < maxRecords then Max(first, Min(n, Max(offset + maxRecords, 0))) else n;
    Page(first, end, !(0 < maxRecords && Max(offset + maxRecords, 0) < n), offset)
  }

  /**
   * getLastPageOffset: the record count rounded down to a multiple of maxRecords with
   * Java's truncating division; a zero maxRecords divides by zero.
   */
  function LastPageOffset(n: nat, maxRecords: int): (r: Result<int>)
    ensures maxRecords == 0 <==> r == Err(Arithmetic)
    ensures r.Ok? ==> r.value == (n / Abs(maxRecords)) * Abs(maxRecords)
  {
    if maxRecords == 0 then Err(Arithmetic) else Ok(JavaDiv(n, maxRecords) * maxRecords)
  }

  /** The condition under which load reloads with offset -1: end reached, a non-empty source, nothing kept. */
  predicate Reloads(n: nat, p: Page) {
    p.eof && n != 0 && p.first == p.end
  }

  /**
   * The recursion of load as written, unrolled at most fuel times; None when the fuel
   * runs out before load returns. Offset -1 is first replaced by the last-page offset.
   */
  function LoadUnrolled(n: nat, offset: int, maxRecords: int, fuel: nat): (r: Option<Result<Page>>)
    ensures r.Some? && r.value.Ok? ==> r.value.value.end <= n && !Reloads(n, r.value.value)
    ensures r.Some? && r.value.Err? ==> r.value.error == Arithmetic && maxRecords == 0
    decreases fuel
  {
    if fuel == 0 then None
    else
      var o := if offset == -1 then LastPageOffset(n, maxRecords) else Ok(offset);
      if o.Err? then Some(Err(o.error))
      else if Reloads(n, Scan(n, o.value, maxRecords)) then LoadUnrolled(n, -1, maxRecords, fuel - 1)
      else Some(Ok(Scan(n, o.value, maxRecords)))
  }

  /**
   * What load(path, format, offset, maxRecords) of LinesReader and VariableBytesReader
   * returns over a source of n records. A reload whose own window is empty calls load
   * with the very same arguments again, so it never returns: the Java stack overflows.
   */
  function PagedLoad(n: nat, offset: int, maxRecords: int): (r: Result<Page>)
    ensures r.Ok? ==> r.value.end <= n && !Reloads(n, r.value)
    ensures r.Ok? && offset != -1 && r.value.offset != offset ==> Reloads(n, Scan(n, offset, maxRecords))
    ensures r.Err? ==> r.error == StackOverflow || (r.error == Arithmetic && maxRecords == 0)
  {
    if offset != -1 && !Reloads(n, Scan(n, offset, maxRecords)) then Ok(Scan(n, offset, maxRecords))
    else match LastPageOffset(n, maxRecords)
      case Err(e) => Err(e)
      case Ok(o) => if Reloads(n, Scan(n, o, maxRecords)) then Err(StackOverflow) else Ok(Scan(n, o, maxRecords))
  }

  /** A reload from offset -1 that again needs a reload never returns, whatever the fuel. */
  lemma {:induction false} ReloadNeverReturns(n: nat, maxRecords: int, fuel: nat)
    requires LastPageOffset(n, maxRecords).Ok?
    requires Reloads(n, Scan(n, LastPageOffset(n, maxRecords).value, maxRecords))
    ensures LoadUnrolled(n, -1, maxRecords, fuel) == None
    decreases fuel
  {
    if fuel > 0 {
      ReloadNeverReturns(n, maxRecords, fuel - 1);
    }
  }

  /**
   * PagedLoad is the recursion of load: where it answers, two levels of the recursion give
   * the same answer; where it says StackOverflow, no depth of the recursion returns.
   */
  lemma PagedLoadIsLoad(n: nat, offset: int, maxRecords: int, fuel: nat)
    ensures PagedLoad(n, offset, maxRecords) == Err(StackOverflow) ==> LoadUnrolled(n, offset, maxRecords, fuel) == None
    ensures PagedLoad(n, offset, maxRecords) != Err(StackOverflow) && fuel >= 2 ==>
              LoadUnrolled(n, offset, maxRecords, fuel) == Some(PagedLoad(n, offset, maxRecords))
  {
    var lp := LastPageOffset(n, maxRecords);
    if lp.Ok? && Reloads(n, Scan(n, lp.value, maxRecords)) {
      ReloadNeverReturns(n, maxRecords, fuel);
      if fuel > 0 {
        ReloadNeverReturns(n, maxRecords, fuel - 1);
      }
    }
  }

  /** The last-page offset is the largest multiple of |maxRecords| not above n; it equals n exactly when |maxRecords| divides n. */
  lemma LastPageShape(n: nat, maxRecords: int)
    requires maxRecords != 0
    ensures var o := LastPageOffset(n, maxRecords).value;
            0 <= o <= n && n - o < Abs(maxRecords) && (o == n <==> n % Abs(maxRecords) == 0)
  {
    var m := Abs(maxRecords);
    var q, r := n / m, n % m;
    assert n == q * m + r && 0 <= r < m;
    if n < m {
      assert q == 0;
    }
    assert r <= n;
    assert LastPageOffset(n, maxRecords).value == n - r;
  }

  /**
   * The hazard of the last page: from offset -1, load never returns exactly when the source
   * is non-empty and its record count is a multiple of |maxRecords|; it divides by zero
   * when maxRecords is 0.
   */
  lemma LastPageDiverges(n: nat, maxRecords: int)
    ensures maxRecords == 0 ==> PagedLoad(n, -1, maxRecords) == Err(Arithmetic)
    ensures maxRecords != 0 ==>
              (PagedLoad(n, -1, maxRecords) == Err(StackOverflow) <==> n > 0 && n % Abs(maxRecords) == 0)
  {
    if maxRecords != 0 {
      LastPageShape(n, maxRecords);
      var o := LastPageOffset(n, maxRecords).value;
      var p := Scan(n, o, maxRecords);
      if o < n {
        assert p.first <= o < p.end;
      }
    }
  }

  /** For example, 20 lines read 10 at a time from the last page: the reload recurses without end. */
  lemma TwentyLinesByTen()
    ensures PagedLoad(20, -1, 10) == Err(StackOverflow)
    ensures PagedLoad(20, 25, 10) == Err(StackOverflow)
    ensures PagedLoad(21, -1, 10) == Ok(Page(20, 21, true, 20))
  {
    LastPageDiverges(20, 10);
    LastPageDiverges(21, 10);
  }

  /**
   * A window inside the source: records [offset, min(n, offset + maxRecords)) in order, eof
   * exactly when no record lies beyond the window, and the requested offset reported.
   */
  lemma WindowInside(n: nat, offset: int, maxRecords: int)
    requires 0 <= offset < n && 0 < maxRecords
    ensures PagedLoad(n, offset, maxRecords) == Ok(Page(offset, Min(n, offset + maxRecords), n <= offset + maxRecords, offset))
  {
    var p := Scan(n, offset, maxRecords);
    assert p.first <= offset < p.end;
  }

  /** Every window PagedLoad answers is the scan of its own offset, so it lies inside the source. */
  lemma PagedLoadIsScan(n: nat, offset: int, maxRecords: int)
    requires PagedLoad(n, offset, maxRecords).Ok?
    ensures var p := PagedLoad(n, offset, maxRecords).value;
            p == Scan(n, p.offset, maxRecords) && p.first <= p.end <= n
  {
    if offset == -1 || Reloads(n, Scan(n, offset, maxRecords)) {
      var o := LastPageOffset(n, maxRecords).value;
      assert PagedLoad(n, offset, maxRecords).value == Scan(n, o, maxRecords);
    }
  }

  /** A maxRecords of zero or less reads every record from offset to the end, and reaches it. */
  lemma UnboundedWindow(n: nat, offset: int, maxRecords: int)
    requires 0 <= offset < n && maxRecords <= 0
    ensures PagedLoad(n, offset, maxRecords) == Ok(Page(offset, n, true, offset))
  {
    var p := Scan(n, offset, maxRecords);
    assert p.first <= offset < p.end;
  }

  /** An empty source gives an empty window that reached the end, with no reload. */
  lemma EmptySource(offset: int, maxRecords: int)
    requires offset != -1 || maxRecords != 0
    ensures PagedLoad(0, offset, maxRecords).Ok?
    ensures var p := PagedLoad(0, offset, maxRecords).value; p.first == p.end == 0 && p.eof
  {
  }

  /** An offset at or past the end of a non-empty source is served as the last page. */
  lemma OffsetPastEnd(n: nat, offset: int, maxRecords: int)
    requires 0 < n <= offset
    ensures PagedLoad(n, offset, maxRecords) == PagedLoad(n, -1, maxRecords)
  {
    assert Reloads(n, Scan(n, offset, maxRecords));
  }

  /**
   * The corrected last page: the start of the page that holds the last record, that is the
   * same rounding applied to n - 1, and 0 for an empty source.
   */
  function LastRecordPage(n: nat, maxRecords: int): (o: nat)
    requires maxRecords > 0
    ensures n > 0 ==> o < n && n - o <= maxRecords && Ok(o as int) == LastPageOffset(n - 1, maxRecords)
  {
    if n == 0 then 0
    else
      var q := (n - 1) / maxRecords;
      assert n - 1 == q * maxRecords + (n - 1) % maxRecords;
      q * maxRecords
  }

  /** With the corrected last page the window from -1 is never empty, so the reload ends. */
  lemma LastRecordPageNeverReloads(n: nat, maxRecords: int)
    requires maxRecords > 0
    ensures !Reloads(n, Scan(n, LastRecordPage(n, maxRecords), maxRecords))
    ensures n > 0 ==> Scan(n, LastRecordPage(n, maxRecords), maxRecords).end == n
  {
    var o := LastRecordPage(n, maxRecords);
    if n > 0 {
      var p := Scan(n, o, maxRecords);
      assert p.first <= o < p.end;
      assert p.first <= n - 1 < p.end;
    }
  }

  /** The records a FixedBytesReader window holds: count records from index offset, and whether the end was read. */
  datatype FixedPage = FixedPage(offset: int, count: nat, eof: bool)

  /**
   * The windowed load of FixedBytesReader over a file of size bytes, for a recordSize that
   * parsed: a negative size fails allocating the buffer; offset -1, or an offset whose start
   * lies beyond the file, becomes max(size / recordSize - maxRecords, 0) (dividing by zero
   * for a zero recordSize); then full records are read from the offset until a short read
   * or maxRecords of them. An offset below -1 is kept, but skipping a negative count skips
   * nothing, so its window holds the first records of the file. A zero recordSize reads
   * empty records without end unless maxRecords bounds them.
   */
  function FixedLoad(size: nat, recordSize: int, offset: int, maxRecords: int): (r: Result<FixedPage>)
    ensures recordSize < 0 ==> r == Err(NegativeArraySize)
  {
    if recordSize < 0 then Err(NegativeArraySize)
    else if (offset == -1 || size < offset * recordSize) && recordSize == 0 then Err(Arithmetic)
    else
      var o := AdjustedOffset(size, recordSize, offset, maxRecords);
      if recordSize == 0 && maxRecords <= 0 then Err(NonTermination)
      else Ok(FixedRun(size, recordSize, o, maxRecords))
  }

  /** The offset the fixed load starts from: offset -1 or one past the file is moved to the last page. */
  function AdjustedOffset(size: nat, recordSize: nat, offset: int, maxRecords: int): (o: int)
    requires !((offset == -1 || size < offset * recordSize) && recordSize == 0)
    ensures offset == -1 || size < offset * recordSize ==> 0 <= o
    ensures 0 <= offset && offset * recordSize <= size ==> o == offset
    ensures o < 0 ==> o == offset < -1
  {
    if offset == -1 || size < offset * recordSize then Max(size / recordSize - maxRecords, 0) else offset
  }

  /** The record the stream stands at after skipping o records: a negative count skips nothing. */
  function SkipTo(o: int): nat {
    if o < 0 then 0 else o
  }

  /**
   * The read loop of the fixed load for offset o: full records from record SkipTo(o) until a
   * short read or maxRecords of them, and whether the short read came first.
   */
  function FixedRun(size: nat, recordSize: nat, o: int, maxRecords: int): (p: FixedPage)
    requires recordSize == 0 ==> 0 < maxRecords
    ensures p.offset == o && (0 < maxRecords ==> p.count <= maxRecords)
    ensures recordSize > 0 && p.count > 0 ==> SkipTo(o) + p.count <= size / recordSize
    ensures recordSize > 0 && !p.eof ==> SkipTo(o) + p.count < size / recordSize
  {
    if recordSize == 0 then FixedPage(o, maxRecords, false)
    else
      var total := size / recordSize;
      var start := SkipTo(o);
      var end := if 0 < maxRecords then Min(total, start + maxRecords) else total;
      FixedPage(o, Max(end - start, 0), !(0 < maxRecords && start + maxRecords < total))
  }

  /**
   * Inside the file, a fixed window holds min(maxRecords, total - offset) records (all of
   * the rest for maxRecords <= 0) and reaches the end exactly when no full record lies beyond it.
   */
  lemma FixedWindowInside(size: nat, recordSize: int, offset: int, maxRecords: int)
    requires recordSize > 0 && 0 <= offset && offset * recordSize <= size
    ensures var total := size / recordSize;
            offset <= total &&
            FixedLoad(size, recordSize, offset, maxRecords) ==
              Ok(FixedPage(offset, if 0 < maxRecords then Min(maxRecords, total - offset) else total - offset,
                           maxRecords <= 0 || total <= offset + maxRecords))
  {
    OffsetWithin(size, recordSize, offset);
  }

  lemma OffsetWithin(size: nat, recordSize: int, offset: int)
    requires recordSize > 0 && 0 <= offset && offset * recordSize <= size
    ensures offset <= size / recordSize
  {
    var t := size / recordSize;
    assert size == t * recordSize + size % recordSize;
    if offset > t {
      MulMonotone(t + 1, offset, recordSize);
    }
  }

  /** A full record at index i exists exactly when i is below the count of full records. */
  lemma FullRecordAt(size: nat, recordSize: int, i: int)
    requires recordSize > 0 && i >= 0
    ensures (i + 1) * recordSize <= size <==> i < size / recordSize
  {
    var t := size / recordSize;
    assert size == t * recordSize + size % recordSize;
    if (i + 1) * recordSize <= size {
      OffsetWithin(size, recordSize, i + 1);
    }
    if i < t {
      MulMonotone(i + 1, t, recordSize);
    }
  }

  /**
   * Every record of a fixed window is a full record of the file (a negative maxRecords can
   * start an empty one past the end), and only an offset below -1 gives a negative window offset.
   */
  lemma FixedPageWithinFile(size: nat, recordSize: int, offset: int, maxRecords: int)
    requires recordSize > 0 && FixedLoad(size, recordSize, offset, maxRecords).Ok?
    ensures var p := FixedLoad(size, recordSize, offset, maxRecords).value;
            (0 <= p.offset || p.offset == offset < -1) &&
            (p.count > 0 ==> SkipTo(p.offset) + p.count <= size / recordSize)
  {
    var total := size / recordSize;
    assert 0 <= total;
    var o := AdjustedOffset(size, recordSize, offset, maxRecords);
    if offset == -1 || size < offset * recordSize {
      assert o == Max(total - maxRecords, 0);
    } else if offset >= 0 {
      assert o == offset;
      OffsetWithin(size, recordSize, offset);
    } else {
      assert o == offset < -1;
    }
    assert FixedLoad(size, recordSize, offset, maxRecords).value == FixedRun(size, recordSize, o, maxRecords);
  }

  lemma MulMonotone(a: int, b: int, c: int)
    requires a <= b && c >= 0
    ensures a * c <= b * c
  {
    assert b * c - a * c == (b - a) * c;
  }

  /**
   * The last page of a fixed file: offset -1 starts max(total - maxRecords, 0) records in,
   * holds the last min(maxRecords, total) records and reaches the end; it never reloads.
   */
  lemma FixedLastPage(size: nat, recordSize: int, maxRecords: int)
    requires recordSize > 0 && maxRecords > 0
    ensures var total := size / recordSize;
            FixedLoad(size, recordSize, -1, maxRecords) ==
              Ok(FixedPage(Max(total - maxRecords, 0), Min(maxRecords, total), true))
  {
  }

  /**
   * An offset equal to the number of full records is not adjusted: the window is empty
   * and reached the end.
   */
  lemma FixedOffsetAtEnd(size: nat, recordSize: int, maxRecords: int)
    requires recordSize > 0
    ensures var total := size / recordSize;
            FixedLoad(size, recordSize, total, maxRecords) == Ok(FixedPage(total, 0, true))
  {
    var total := size / recordSize;
    assert total * recordSize <= size;
  }

  /**
   * An offset below -1 is neither adjusted nor skipped to: the window keeps that offset and
   * holds the first min(maxRecords, total) records of the file (all of them for maxRecords <= 0).
   */
  lemma FixedNegativeOffset(size: nat, recordSize: int, offset: int, maxRecords: int)
    requires recordSize > 0 && offset < -1
    ensures var total := size / recordSize;
            FixedLoad(size, recordSize, offset, maxRecords) ==
              Ok(FixedPage(offset, if 0 < maxRecords then Min(maxRecords, total) else total,
                           maxRecords <= 0 || total <= maxRecords))
  {
    assert offset * recordSize < 0;
  }

  /** For example, 4-byte records in a 10-byte file: two records in all, or one with more to come. */
  lemma TenBytesOfFours()
    ensures FixedLoad(10, 4, 0, 0) == Ok(FixedPage(0, 2, true))
    ensures FixedLoad(10, 4, 0, 1) == Ok(FixedPage(0, 1, false))
    ensures FixedLoad(10, 4, -2, 1) == Ok(FixedPage(-2, 1, false))
  {
  }
}
