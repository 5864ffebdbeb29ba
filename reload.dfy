/** Reading the live server's log back at startup. The header row is skipped; every row
    with at least three fields becomes a record `{ts=row[0], lat=row[1], lon=row[2]}`; shorter
    rows are passed over. The `try` surrounds the whole loop, so the first row whose number
    does not parse ends the reload and keeps what was loaded before it. */
module Reload {
  import opened Wrappers
  import opened Records

  /** A row long enough to be loaded whose latitude or longitude does not parse. */
  predicate Breaks(row: Row, rt: Runtime) {
    |row| >= 3 && (rt.parse(row[1]).None? || rt.parse(row[2]).None?)
  }

  /** The records loaded from the data rows (the rows after the header). */
  function LoadData(rows: seq<Row>, rt: Runtime): (r: seq<Coord>)
    ensures |r| <= |rows|
    ensures AllLocated(r)
  {
    if rows == [] then []
    else if |rows[0]| < 3 then LoadData(rows[1..], rt)
    else
      match (rt.parse(rows[0][1]), rt.parse(rows[0][2]))
      case (Some(lat), Some(lon)) => [Coord(rows[0][0], lat, Some(lon))] + LoadData(rows[1..], rt)
      case _ => []
  }

  predicate NoBreak(rows: seq<Row>, rt: Runtime) {
    forall j | 0 <= j < |rows| :: !Breaks(rows[j], rt)
  }

  /** Index of the first row that fails to parse, or |rows|. */
  function FirstBreak(rows: seq<Row>, rt: Runtime): (k: nat)
    ensures k <= |rows| && NoBreak(rows[..k], rt)
    ensures k < |rows| ==> Breaks(rows[k], rt)
  {
    if rows == [] then 0
    else if Breaks(rows[0], rt) then 0
    else
      var k := 1 + FirstBreak(rows[1..], rt);
      assert forall j | 1 <= j < k :: rows[..k][j] == rows[1..][..k - 1][j - 1];
      k
  }

  /** The rows with at least three fields, in order. */
  function LongRows(rows: seq<Row>): (r: seq<Row>)
    ensures |r| <= |rows|
    ensures forall i | 0 <= i < |r| :: |r[i]| >= 3 && r[i] in rows
  {
    if rows == [] then []
    else (if |rows[0]| >= 3 then [rows[0]] else []) + LongRows(rows[1..])
  }

  /** The record a long row stands for, when its numbers parse. */
  function RowCoord(row: Row, rt: Runtime): Coord
    requires |row| >= 3 && !Breaks(row, rt)
  {
    Coord(row[0], rt.parse(row[1]).value, rt.parse(row[2]))
  }

  /** Reference for a reload with no failing row: every long row, read as its record, in
      file order, and nothing else. */
  function Loaded(rows: seq<Row>, rt: Runtime): seq<Coord>
    requires NoBreak(rows, rt)
  {
    var long := LongRows(rows);
    seq(|long|, i requires 0 <= i < |long| => RowCoord(long[i], rt))
  }

  /** The whole reload: the first row, whatever it holds, is taken as the header; after it,
      every long row becomes its record, up to the first row that fails to parse. */
  function ReloadLog(file: seq<Row>, rt: Runtime): (r: seq<Coord>)
    ensures |file| <= 1 ==> r == []
    ensures |file| > 1 ==>
      var data := file[1..];
      r == Loaded(data[..FirstBreak(data, rt)], rt)
  {
    if file == [] then []
    else
      LoadMatchesReference(file[1..], rt);
      LoadData(file[1..], rt)
  }

  /** Loading two runs of rows one after the other: the second run is read only
      when nothing in the first run stopped the reload. */
  lemma {:induction false} LoadConcat(a: seq<Row>, b: seq<Row>, rt: Runtime)
    ensures NoBreak(a, rt) ==> LoadData(a + b, rt) == LoadData(a, rt) + LoadData(b, rt)
    ensures !NoBreak(a, rt) ==> LoadData(a + b, rt) == LoadData(a, rt)
  {
    if a == [] {
      assert a + b == b;
    } else {
      assert (a + b)[0] == a[0] && (a + b)[1..] == a[1..] + b;
      LoadConcat(a[1..], b, rt);
      assert forall j | 1 <= j < |a| :: a[j] == a[1..][j - 1];
      assert NoBreak(a, rt) <==> !Breaks(a[0], rt) && NoBreak(a[1..], rt);
    }
  }

  /** A row that fails to parse ends the reload: the rows after it are never loaded,
      and the rows before it are kept. */
  lemma ParseFailureStops(before: seq<Row>, bad: Row, after: seq<Row>, rt: Runtime)
    requires NoBreak(before, rt) && Breaks(bad, rt)
    ensures LoadData(before + [bad] + after, rt) == LoadData(before, rt)
  {
    LoadConcat(before, [bad] + after, rt);
    assert before + [bad] + after == before + ([bad] + after);
  }

  /** A row with fewer than three fields is passed over, and loading goes on. */
  lemma ShortRowSkipped(before: seq<Row>, short: Row, after: seq<Row>, rt: Runtime)
    requires |short| < 3
    ensures LoadData(before + [short] + after, rt) == LoadData(before + after, rt)
  {
    LoadConcat(before, [short] + after, rt);
    LoadConcat(before, after, rt);
    assert before + [short] + after == before + ([short] + after);
    assert ([short] + after)[1..] == after;
  }

  /** With no failing row, loading is the reference: each long row as its record. */
  lemma {:induction false} LoadNoBreak(rows: seq<Row>, rt: Runtime)
    requires NoBreak(rows, rt)
    ensures LoadData(rows, rt) == Loaded(rows, rt)
  {
    if rows != [] {
      LoadedCons(rows, rt);
      LoadNoBreak(rows[1..], rt);
    }
  }

  /** The reference, one row at a time. */
  lemma LoadedCons(rows: seq<Row>, rt: Runtime)
    requires NoBreak(rows, rt) && rows != []
    ensures NoBreak(rows[1..], rt) && !Breaks(rows[0], rt)
    ensures Loaded(rows, rt) ==
      (if |rows[0]| >= 3 then [RowCoord(rows[0], rt)] else []) + Loaded(rows[1..], rt)
  {
    assert forall j | 0 <= j < |rows| - 1 :: rows[1..][j] == rows[j + 1];
    var long := LongRows(rows);
    var rest := LongRows(rows[1..]);
    if |rows[0]| >= 3 {
      assert long == [rows[0]] + rest;
      var a := Loaded(rows, rt);
      var b := [RowCoord(rows[0], rt)] + Loaded(rows[1..], rt);
      assert |a| == |b|;
      forall i | 0 <= i < |a| ensures a[i] == b[i] {
        if i > 0 { assert long[i] == rest[i - 1]; }
      }
    } else {
      assert long == rest;
    }
  }

  /** Loading is the reference applied to the rows before the first failing row. */
  lemma LoadMatchesReference(rows: seq<Row>, rt: Runtime)
    ensures LoadData(rows, rt) == Loaded(rows[..FirstBreak(rows, rt)], rt)
  {
    var k := FirstBreak(rows, rt);
    LoadConcat(rows[..k], rows[k..], rt);
    assert rows[..k] + rows[k..] == rows;
    LoadNoBreak(rows[..k], rt);
    if k < |rows| {
      assert rows[k..][0] == rows[k];
    } else {
      assert rows[k..] == [];
    }
  }

  /** Loading the rows the live server wrote for a history gives the history back, as
      long as every record has a longitude and its numbers read back from their printed form. */
  lemma {:induction false} LoadWritten(h: seq<Coord>, rt: Runtime)
    requires ReadsBack(h, rt) && AllLocated(h)
    ensures LoadData(LogRows(h, rt), rt) == h
  {
    if h != [] {
      var rows := LogRows(h, rt);
      assert rows[0] == LogRow(h[0], rt);
      assert rows[1..] == LogRows(h[1..], rt);
      assert forall i | 0 <= i < |h| - 1 :: h[1..][i] == h[i + 1];
      LoadWritten(h[1..], rt);
    }
  }

  /** A record without longitude is written with an empty longitude field. Since the
      empty string is not a number, reloading stops at that row: only the records before
      the first one without longitude come back. */
  lemma {:induction false} LoadWrittenMissingLon(h: seq<Coord>, rt: Runtime)
    requires ReadsBack(h, rt) && rt.parse("").None?
    ensures LoadData(LogRows(h, rt), rt) == h[..FirstMissingLon(h)]
  {
    if h != [] {
      var rows := LogRows(h, rt);
      assert rows[0] == LogRow(h[0], rt);
      assert rows[1..] == LogRows(h[1..], rt);
      assert forall i | 0 <= i < |h| - 1 :: h[1..][i] == h[i + 1];
      if h[0].lon.Some? {
        LoadWrittenMissingLon(h[1..], rt);
        assert h[..FirstMissingLon(h)] == [h[0]] + h[1..][..FirstMissingLon(h[1..])];
      }
    }
  }

  /** A log with a header and two good rows reloads both records, in file order. */
  lemma ReloadTwoRows(rt: Runtime)
    requires rt.parse("1.0") == Some(1.0) && rt.parse("2.0") == Some(2.0)
    requires rt.parse("1.1") == Some(1.1) && rt.parse("2.1") == Some(2.1)
    ensures ReloadLog([ServerHeader,
                       ["2024-01-01 00:00:00", "1.0", "2.0"],
                       ["2024-01-01 00:01:00", "1.1", "2.1"]], rt) ==
            [Coord("2024-01-01 00:00:00", 1.0, Some(2.0)), Coord("2024-01-01 00:01:00", 1.1, Some(2.1))]
  {
    var data: seq<Row> := [["2024-01-01 00:00:00", "1.0", "2.0"], ["2024-01-01 00:01:00", "1.1", "2.1"]];
    assert data[1..][1..] == [];
    assert LoadData(data[1..], rt) == [Coord("2024-01-01 00:01:00", 1.1, Some(2.1))];
    assert LoadData(data, rt) == [Coord("2024-01-01 00:00:00", 1.0, Some(2.0))] + LoadData(data[1..], rt);
  }

  /** No dedup on reload: two rows with the same time stamp both come back, so a restored
      history can hold neighbouring records with equal time stamps. */
  lemma ReloadKeepsRepeats(t: string, rt: Runtime)
    requires rt.parse("1.0") == Some(1.0) && rt.parse("2.0") == Some(2.0)
    ensures var h := ReloadLog([ServerHeader, [t, "1.0", "2.0"], [t, "1.0", "2.0"]], rt);
      h == [Coord(t, 1.0, Some(2.0)), Coord(t, 1.0, Some(2.0))] && h[0].ts == h[1].ts
  {
    var data: seq<Row> := [[t, "1.0", "2.0"], [t, "1.0", "2.0"]];
    assert data[1..][1..] == [];
    assert LoadData(data[1..], rt) == [Coord(t, 1.0, Some(2.0))];
    assert LoadData(data, rt) == [Coord(t, 1.0, Some(2.0))] + LoadData(data[1..], rt);
  }
}
