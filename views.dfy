/**
 * What each map view shows: which count columns it reads (counted from the
 * end of a row), when it skips a row, the count a bubble is scaled by and
 * the bubble colour. The markers a view places are specified here as a
 * function of the rows; the map application's methods are proved against it.
 */
module Views {
  import opened Wrappers
  import opened Text
  import opened Csv

  /** A bubble colour as red, green, blue and alpha components. */
  datatype Rgba = Rgba(red: int, green: int, blue: int, alpha: int)

  const BLUE: Rgba := Rgba(0, 0, 255, 127)
  const GREEN: Rgba := Rgba(0, 255, 0, 127)
  const RED: Rgba := Rgba(255, 0, 0, 127)
  const TEAL: Rgba := Rgba(0, 255, 239, 127)
  const DARK_GREEN: Rgba := Rgba(2, 162, 0, 127)

  /**
   * A bubble on the map: its location as the latitude and longitude tokens
   * of the row, the count its radius is proportional to, and its colour.
   */
  datatype Marker = Marker(lat: string, lng: string, count: int, color: Rgba)

  // ---------------------------------------------------------------------------
  // Count and colour helpers

  /** The strings pedCount accepts without Integer.parseInt throwing. */
  predicate Countable(s: string) {
    IsBlank(s) || IsCount(s)
  }

  /** pedCount: a blank field counts 0, any other field the number it spells. */
  function PedCount(count: string): (r: int)
    requires Countable(count)
    ensures 0 <= r <= INT_MAX
    ensures IsBlank(count) ==> r == 0
    ensures !IsBlank(count) ==> r == DecimalValue(count)
  {
    if !IsBlank(count) then DecimalValue(count) else 0
  }

  /** pedCount reads back every count written in decimal. */
  lemma PedCountOfDecimal(n: nat)
    requires n <= INT_MAX
    ensures Countable(Decimal(n)) && PedCount(Decimal(n)) == n
  {
    DecimalIsCount(n);
    CountIsNotBlank(Decimal(n));
  }

  /** colorDecider: green exactly when the first count is the greater, red otherwise (ties too). */
  function ColorDecider(count1: int, count2: int): (r: Rgba)
    ensures r == GREEN <==> count1 > count2
    ensures r == RED <==> count1 <= count2
  {
    if count1 > count2 then GREEN else RED
  }

  // ---------------------------------------------------------------------------
  // Java int arithmetic

  /** Processing's abs(int), exact on every value this model feeds it. */
  function Abs(x: int): (r: int)
    ensures r >= 0 && (r == x || r == -x)
  {
    if x < 0 then -x else x
  }

  /**
   * A sum of at most three Java `int` counts reduced to a 32-bit
   * two's-complement `int`: past INT_MAX it wraps around by 2^32.
   */
  function Wrap32(x: int): (r: int)
    requires -0x8000_0000 <= x < 0x1_8000_0000
    ensures -0x8000_0000 <= r <= INT_MAX
    ensures x <= INT_MAX ==> r == x
    ensures INT_MAX < x ==> r == x - 0x1_0000_0000
  {
    if x <= INT_MAX then x else x - 0x1_0000_0000
  }

  /** Java's `/` on `int`: the quotient truncated toward zero. */
  function TruncDiv(a: int, d: int): (q: int)
    requires d > 0
    ensures Abs(q) == Abs(a) / d
    ensures a >= 0 ==> q >= 0
    ensures a < 0 ==> q <= 0
  {
    if a >= 0 then a / d else -((-a) / d)
  }

  /**
   * `(c1 + c2 + c3) / 3` on Java ints: the sum wraps around past INT_MAX
   * before the truncating division.
   */
  function Average3(c1: int, c2: int, c3: int): (r: int)
    requires 0 <= c1 <= INT_MAX && 0 <= c2 <= INT_MAX && 0 <= c3 <= INT_MAX
    ensures -715827882 <= r <= 715827882
  {
    TruncDiv(Wrap32(c1 + c2 + c3), 3)
  }

  /**
   * For sums that fit in an int the average is the plain rounded-down
   * average; larger sums wrap around modulo 2^32 first.
   */
  lemma Average3OfSum(c1: int, c2: int, c3: int)
    requires 0 <= c1 <= INT_MAX && 0 <= c2 <= INT_MAX && 0 <= c3 <= INT_MAX
    ensures c1 + c2 + c3 <= INT_MAX ==> Average3(c1, c2, c3) == (c1 + c2 + c3) / 3
    ensures c1 + c2 + c3 > INT_MAX ==> Average3(c1, c2, c3) == TruncDiv(c1 + c2 + c3 - 0x1_0000_0000, 3)
  {
  }

  // ---------------------------------------------------------------------------
  // Rows and the rules of the views

  /** The field `offset` places from the end of the row: `day[day.length - offset]`. */
  function FromEnd(row: Row, offset: int): string
    requires 1 <= offset <= |row|
  {
    row[|row| - offset]
  }

  /**
   * How a view turns a row into a marker: one column shown as is in a fixed
   * colour (showCounts), the May 2021 evening-minus-morning difference, or
   * the May 2021 versus May 2019 averages.
   */
  datatype Rule = Single(offset: int, color: Rgba) | EveningMinusMorning | YearOverYear

  /**
   * The rows a view can process without an exception: every field it
   * indexes exists, in the order its guard evaluates them, and every field
   * it hands to pedCount parses.
   */
  predicate Readable(row: Row, rule: Rule)
    ensures Readable(row, rule) && rule.Single? ==> 1 <= rule.offset <= |row|
    ensures Readable(row, rule) && rule.EveningMinusMorning? ==> 3 <= |row|
    ensures Readable(row, rule) && rule.YearOverYear? ==> 7 <= |row|
  {
    match rule
    case Single(offset, _) =>
      1 <= offset <= |row| &&
      (IsBlank(FromEnd(row, offset)) || (2 <= |row| && IsCount(FromEnd(row, offset))))
    case EveningMinusMorning =>
      3 <= |row| &&
      (IsBlank(FromEnd(row, 3)) || IsBlank(FromEnd(row, 2)) ||
       (IsCount(FromEnd(row, 2)) && IsCount(FromEnd(row, 3))))
    case YearOverYear =>
      7 <= |row| &&
      (IsBlank(FromEnd(row, 7)) ||
       (8 <= |row| &&
        (IsBlank(FromEnd(row, 8)) ||
         (9 <= |row| &&
          (IsBlank(FromEnd(row, 9)) ||
           (IsCount(FromEnd(row, 7)) && IsCount(FromEnd(row, 8)) && IsCount(FromEnd(row, 9)) &&
            Countable(FromEnd(row, 1)) && Countable(FromEnd(row, 2)) && Countable(FromEnd(row, 3))))))))
  }

  /**
   * A row with the two coordinates and at least nine count columns, all of
   * them blank or decimal ints, can be shown by every view.
   */
  lemma CountableRowReadable(row: Row, v: View)
    requires |row| >= 11
    requires forall k :: 2 <= k < |row| ==> Countable(row[k])
    ensures Readable(row, ViewRule(v))
  {
    forall k | 1 <= k <= 9
      ensures Countable(FromEnd(row, k))
    {
      assert FromEnd(row, k) == row[|row| - k];
    }
    if ViewRule(v).Single? {
      var offset := ViewRule(v).offset;
      assert Countable(FromEnd(row, offset));
    }
  }

  /**
   * A row read with one empty column missing at its end: every offset from
   * the end lands one column further right than on the row as written, and
   * showCounts at offset k shows the written row's field at offset k + 1.
   */
  lemma MissingLastColumnShiftsOffsets(row: Row, k: int, color: Rgba)
    requires 2 <= |row| && 1 <= k <= |row|
    ensures FromEnd(row, k) == FromEnd(row + [""], k + 1)
    ensures Readable(row, Single(k, color)) <==> Readable(row + [""], Single(k + 1, color))
    ensures Readable(row, Single(k, color)) ==>
      CountMarker(row, k, color) == CountMarker(row + [""], k + 1, color)
  {
    var written := row + [""];
    assert FromEnd(row, k) == FromEnd(written, k + 1);
    assert written[0] == row[0] && written[1] == row[1];
  }

  /**
   * A file line whose last count column is empty: the row the views see
   * lacks that column, so a view reading offset k reads the line's column
   * at offset k + 1 (and MissingLastColumnShiftsOffsets says what showCounts
   * then shows).
   */
  lemma TrailingEmptyColumnShiftsOffsets(head: string, lng: string, lat: string, counts: seq<string>, k: int)
    requires ' ' !in head && ' ' !in lng && ' ' !in lat
    requires ',' !in head && ',' !in lng && ',' !in lat
    requires forall j :: 0 <= j < |counts| ==> ',' !in counts[j]
    requires counts != [] && counts[|counts| - 1] != ""
    requires 1 <= k <= |counts|
    ensures var line := Join([PointText(head, lng, lat)] + counts + [""], ',');
      ParseRow(line) == Some([lng, lat] + counts) &&
      FromEnd([lng, lat] + counts, k) == FromEnd([lng, lat] + counts + [""], k + 1)
  {
    ParseRowEmptyLastColumn(head, lng, lat, counts);
    MissingLastColumnShiftsOffsets([lng, lat] + counts, k, BLUE);
  }

  predicate AllReadable(rows: seq<Row>, rule: Rule) {
    forall i :: 0 <= i < |rows| ==> Readable(rows[i], rule)
  }

  /** showCounts on one row: skipped when the chosen field is blank. */
  function CountMarker(row: Row, offset: int, color: Rgba): (r: Option<Marker>)
    requires Readable(row, Single(offset, color))
    ensures r.Some? <==> !IsBlank(FromEnd(row, offset))
    ensures r.Some? ==> r.value == Marker(row[1], row[0], DecimalValue(FromEnd(row, offset)), color)
  {
    var field := FromEnd(row, offset);
    if IsBlank(field) then None
    else Some(Marker(row[1], row[0], PedCount(field), color))
  }

  /**
   * The evening-minus-morning view on one row: skipped when either May 2021
   * weekday count is blank; the bubble shows the size of the difference and
   * is green when the evening count is the greater. Both counts are
   * non-negative ints, so their difference never overflows.
   */
  function DifferenceMarker(row: Row): (r: Option<Marker>)
    requires Readable(row, EveningMinusMorning)
    ensures r.Some? <==> !IsBlank(FromEnd(row, 3)) && !IsBlank(FromEnd(row, 2))
    ensures r.Some? ==> r.value.lat == row[1] && r.value.lng == row[0]
    ensures r.Some? ==>
      var evening := DecimalValue(FromEnd(row, 2));
      var morning := DecimalValue(FromEnd(row, 3));
      && (evening >= morning ==> r.value.count == evening - morning)
      && (evening < morning ==> r.value.count == morning - evening)
      && (r.value.color == GREEN <==> evening > morning)
      && (r.value.color == RED <==> evening <= morning)
  {
    if IsBlank(FromEnd(row, 3)) || IsBlank(FromEnd(row, 2)) then None
    else
      var eveningCount := PedCount(FromEnd(row, 2));
      var morningCount := PedCount(FromEnd(row, 3));
      Some(Marker(row[1], row[0], Abs(eveningCount - morningCount), ColorDecider(eveningCount, morningCount)))
  }

  /**
   * The 2021-versus-2019 view on one row: skipped only when one of the three
   * 2019 columns (offsets 7 to 9) is blank; a blank 2021 column counts 0.
   * The bubble shows how far apart the two truncated averages are and is
   * green when the 2021 average is the greater.
   */
  function YearMarker(row: Row): (r: Option<Marker>)
    requires Readable(row, YearOverYear)
    ensures r.Some? <==> !IsBlank(FromEnd(row, 7)) && !IsBlank(FromEnd(row, 8)) && !IsBlank(FromEnd(row, 9))
    ensures r.Some? ==> r.value.lat == row[1] && r.value.lng == row[0]
    ensures r.Some? ==> 0 <= r.value.count <= INT_MAX && (r.value.color == GREEN || r.value.color == RED)
  {
    if IsBlank(FromEnd(row, 7)) || IsBlank(FromEnd(row, 8)) || IsBlank(FromEnd(row, 9)) then None
    else
      var count2019 := Average3(PedCount(FromEnd(row, 7)), PedCount(FromEnd(row, 8)), PedCount(FromEnd(row, 9)));
      var count2021 := Average3(PedCount(FromEnd(row, 1)), PedCount(FromEnd(row, 2)), PedCount(FromEnd(row, 3)));
      Some(Marker(row[1], row[0], Abs(count2019 - count2021), ColorDecider(count2021, count2019)))
  }

  /** The difference-view marker of a row that is not skipped, field by field (a helper for loops). */
  lemma DifferenceMarkerOfRow(row: Row)
    requires Readable(row, EveningMinusMorning)
    requires !(IsBlank(FromEnd(row, 3)) || IsBlank(FromEnd(row, 2)))
    ensures |row| >= 3 && Countable(FromEnd(row, 2)) && Countable(FromEnd(row, 3))
    ensures
      var eveningCount := PedCount(FromEnd(row, 2));
      var morningCount := PedCount(FromEnd(row, 3));
      RowMarker(row, EveningMinusMorning)
        == Some(Marker(row[1], row[0], Abs(eveningCount - morningCount), ColorDecider(eveningCount, morningCount)))
  {
  }

  /** A row the yearly view does not skip has the nine fields it reads, all parsable. */
  lemma YearRowFields(row: Row)
    requires Readable(row, YearOverYear)
    requires !(IsBlank(FromEnd(row, 7)) || IsBlank(FromEnd(row, 8)) || IsBlank(FromEnd(row, 9)))
    ensures 9 <= |row|
    ensures Countable(FromEnd(row, 7)) && Countable(FromEnd(row, 8)) && Countable(FromEnd(row, 9))
    ensures Countable(FromEnd(row, 1)) && Countable(FromEnd(row, 2)) && Countable(FromEnd(row, 3))
  {
  }

  /** The yearly-view marker of a row that is not skipped, from its two averages (a helper for loops). */
  lemma YearMarkerOfRow(row: Row, count2019: int, count2021: int)
    requires Readable(row, YearOverYear)
    requires !(IsBlank(FromEnd(row, 7)) || IsBlank(FromEnd(row, 8)) || IsBlank(FromEnd(row, 9)))
    requires count2019 == Average3(PedCount(FromEnd(row, 7)), PedCount(FromEnd(row, 8)), PedCount(FromEnd(row, 9)))
    requires count2021 == Average3(PedCount(FromEnd(row, 1)), PedCount(FromEnd(row, 2)), PedCount(FromEnd(row, 3)))
    ensures RowMarker(row, YearOverYear) == Some(Marker(row[1], row[0], Abs(count2019 - count2021), ColorDecider(count2021, count2019)))
  {
  }

  /**
   * For yearly sums that fit in an int the 2021-versus-2019 bubble is the
   * plain distance between the rounded-down averages, green exactly when
   * 2021's average is the greater (ties are red).
   */
  lemma YearMarkerAverages(row: Row)
    requires Readable(row, YearOverYear) && YearMarker(row).Some?
    ensures
      var sum2019 := DecimalValue(FromEnd(row, 7)) + DecimalValue(FromEnd(row, 8)) + DecimalValue(FromEnd(row, 9));
      var sum2021 := PedCount(FromEnd(row, 1)) + PedCount(FromEnd(row, 2)) + PedCount(FromEnd(row, 3));
      var m := YearMarker(row).value;
      sum2019 <= INT_MAX && sum2021 <= INT_MAX ==>
        && m.count == Abs(sum2019 / 3 - sum2021 / 3)
        && (m.color == GREEN <==> sum2021 / 3 > sum2019 / 3)
  {
    YearRowFields(row);
    var p7, p8, p9 := PedCount(FromEnd(row, 7)), PedCount(FromEnd(row, 8)), PedCount(FromEnd(row, 9));
    var p1, p2, p3 := PedCount(FromEnd(row, 1)), PedCount(FromEnd(row, 2)), PedCount(FromEnd(row, 3));
    var sum2019 := DecimalValue(FromEnd(row, 7)) + DecimalValue(FromEnd(row, 8)) + DecimalValue(FromEnd(row, 9));
    assert p7 + p8 + p9 == sum2019;
    var count2019, count2021 := Average3(p7, p8, p9), Average3(p1, p2, p3);
    assert YearMarker(row).value == Marker(row[1], row[0], Abs(count2019 - count2021), ColorDecider(count2021, count2019));
    if sum2019 <= INT_MAX && p1 + p2 + p3 <= INT_MAX {
      Average3OfSum(p7, p8, p9);
      Average3OfSum(p1, p2, p3);
      assert count2019 == sum2019 / 3;
      assert count2021 == (p1 + p2 + p3) / 3;
    }
  }

  /** The marker a rule places for one row, if any. */
  function RowMarker(row: Row, rule: Rule): (r: Option<Marker>)
    requires Readable(row, rule)
    ensures r.Some? ==> |row| >= 2 && r.value.lat == row[1] && r.value.lng == row[0]
    ensures r.Some? ==> 0 <= r.value.count <= INT_MAX
    ensures r.Some? && rule.Single? ==> r.value.color == rule.color
    ensures r.Some? && !rule.Single? ==> r.value.color == GREEN || r.value.color == RED
  {
    match rule
    case Single(offset, color) => CountMarker(row, offset, color)
    case EveningMinusMorning => DifferenceMarker(row)
    case YearOverYear => YearMarker(row)
  }

  /** The values of the present results, in order. */
  function Collect<T>(results: seq<Option<T>>): (r: seq<T>)
    ensures |r| <= |results|
  {
    if results == [] then []
    else Collect(results[..|results| - 1]) + ToSeq(results[|results| - 1])
  }

  /** Collecting one more result of a prefix appends that result's value, if any. */
  lemma CollectPrefixStep<T>(results: seq<Option<T>>, i: int)
    requires 0 <= i < |results|
    ensures Collect(results[..i + 1]) == Collect(results[..i]) + ToSeq(results[i])
  {
    assert results[..i + 1][..i] == results[..i];
  }

  /** The marker, if any, that a rule places for each row. */
  function RowMarkers(rows: seq<Row>, rule: Rule): (r: seq<Option<Marker>>)
    requires AllReadable(rows, rule)
    ensures |r| == |rows| && forall i :: 0 <= i < |rows| ==> r[i] == RowMarker(rows[i], rule)
  {
    seq(|rows|, i requires 0 <= i < |rows| => RowMarker(rows[i], rule))
  }

  /**
   * The markers a view leaves on the map: one per row it does not skip, in
   * row order.
   */
  function Markers(rows: seq<Row>, rule: Rule): (r: seq<Marker>)
    requires AllReadable(rows, rule)
    ensures |r| <= |rows|
  {
    Collect(RowMarkers(rows, rule))
  }

  /**
   * The marker of each row, stated row by row, whose values collected are
   * the view's markers (a helper for the view loops).
   */
  lemma RowResults(rows: seq<Row>, rule: Rule) returns (results: seq<Option<Marker>>)
    requires AllReadable(rows, rule)
    ensures |results| == |rows|
    ensures forall k {:trigger RowMarker(rows[k], rule)} :: 0 <= k < |rows| ==> results[k] == RowMarker(rows[k], rule)
    ensures Collect(results) == Markers(rows, rule)
  {
    results := RowMarkers(rows, rule);
  }

  // ---------------------------------------------------------------------------
  // Properties of the markers of a view

  lemma {:induction false} CollectAppend<T>(a: seq<Option<T>>, b: seq<Option<T>>)
    ensures Collect(a + b) == Collect(a) + Collect(b)
  {
    if b == [] {
      assert a + b == a;
    } else {
      var init := b[..|b| - 1];
      assert (a + b)[..|a + b| - 1] == a + init;
      CollectAppend(a, init);
    }
  }

  lemma {:induction false} CollectMember<T>(results: seq<Option<T>>, x: T)
    ensures x in Collect(results) <==> Some(x) in results
  {
    if results != [] {
      var init := results[..|results| - 1];
      CollectMember(init, x);
      assert results == init + [results[|results| - 1]];
    }
  }

  lemma {:induction false} CollectAllPresent<T>(results: seq<Option<T>>)
    requires forall i :: 0 <= i < |results| ==> results[i].Some?
    ensures |Collect(results)| == |results|
    ensures forall i :: 0 <= i < |results| ==> Some(Collect(results)[i]) == results[i]
  {
    if results != [] {
      CollectAllPresent(results[..|results| - 1]);
    }
  }

  lemma {:induction false} CollectAllAbsent<T>(results: seq<Option<T>>)
    requires forall i :: 0 <= i < |results| ==> results[i].None?
    ensures Collect(results) == []
  {
    if results != [] {
      CollectAllAbsent(results[..|results| - 1]);
    }
  }

  /** The markers of consecutive runs of rows follow each other: order is kept. */
  lemma MarkersAppend(a: seq<Row>, b: seq<Row>, rule: Rule)
    requires AllReadable(a + b, rule)
    ensures AllReadable(a, rule) && AllReadable(b, rule)
    ensures Markers(a + b, rule) == Markers(a, rule) + Markers(b, rule)
  {
    forall i | 0 <= i < |a| ensures Readable(a[i], rule) {
      assert a[i] == (a + b)[i];
    }
    forall i | 0 <= i < |b| ensures Readable(b[i], rule) {
      assert b[i] == (a + b)[|a| + i];
    }
    var ra, rb, rab := RowMarkers(a, rule), RowMarkers(b, rule), RowMarkers(a + b, rule);
    forall i | 0 <= i < |rab| ensures rab[i] == (ra + rb)[i] {
      if i < |a| {
        assert (a + b)[i] == a[i];
      } else {
        assert (a + b)[i] == b[i - |a|];
      }
    }
    assert rab == ra + rb;
    CollectAppend(RowMarkers(a, rule), RowMarkers(b, rule));
  }

  /** A marker is on the map exactly when some row produces it. */
  lemma MarkersMember(rows: seq<Row>, rule: Rule, m: Marker)
    requires AllReadable(rows, rule)
    ensures m in Markers(rows, rule) <==> exists i :: 0 <= i < |rows| && RowMarker(rows[i], rule) == Some(m)
  {
    var results := RowMarkers(rows, rule);
    CollectMember(results, m);
    if Some(m) in results {
      var i :| 0 <= i < |results| && results[i] == Some(m);
      assert RowMarker(rows[i], rule) == Some(m);
    }
  }

  /** When no row is skipped, the i-th marker is the i-th row's. */
  lemma MarkersNoneSkipped(rows: seq<Row>, rule: Rule)
    requires AllReadable(rows, rule)
    requires forall i :: 0 <= i < |rows| ==> RowMarker(rows[i], rule).Some?
    ensures |Markers(rows, rule)| == |rows|
    ensures forall i :: 0 <= i < |rows| ==> Some(Markers(rows, rule)[i]) == RowMarker(rows[i], rule)
  {
    CollectAllPresent(RowMarkers(rows, rule));
  }

  /** When every row is skipped, the map is left empty. */
  lemma MarkersAllSkipped(rows: seq<Row>, rule: Rule)
    requires AllReadable(rows, rule)
    requires forall i :: 0 <= i < |rows| ==> RowMarker(rows[i], rule).None?
    ensures Markers(rows, rule) == []
  {
    CollectAllAbsent(RowMarkers(rows, rule));
  }

  /**
   * Every marker of a view sits at the latitude and longitude of some row,
   * has a count between 0 and INT_MAX, and has the view's colour: the fixed
   * one for a single-column view, green or red for a difference view.
   */
  lemma MarkerShape(rows: seq<Row>, rule: Rule, m: Marker)
    requires AllReadable(rows, rule)
    requires m in Markers(rows, rule)
    ensures exists i :: 0 <= i < |rows| && |rows[i]| >= 2 && m.lat == rows[i][1] && m.lng == rows[i][0]
    ensures 0 <= m.count <= INT_MAX
    ensures rule.Single? ==> m.color == rule.color
    ensures !rule.Single? ==> m.color == GREEN || m.color == RED
  {
    MarkersMember(rows, rule, m);
    var i :| 0 <= i < |rows| && RowMarker(rows[i], rule) == Some(m);
  }

  // ---------------------------------------------------------------------------
  // The six views and the keys that select them

  datatype View =
    | May2021Morning
    | May2021Evening
    | May2021EveningMorningDifference
    | May2021VersusMay2019
    | October2020Weekend
    | May2021Weekend

  /** The rule of each view: the column offsets and colours of the show methods. */
  function ViewRule(v: View): (r: Rule)
    ensures r.Single? <==> v !in {May2021EveningMorningDifference, May2021VersusMay2019}
    ensures r.Single? ==> 1 <= r.offset <= 4
  {
    match v
    case May2021Morning => Single(3, BLUE)
    case May2021Evening => Single(2, BLUE)
    case May2021EveningMorningDifference => EveningMinusMorning
    case May2021VersusMay2019 => YearOverYear
    case October2020Weekend => Single(4, TEAL)
    case May2021Weekend => Single(1, DARK_GREEN)
  }

  /** The title each view puts at the bottom of the map. */
  function ViewTitle(v: View): (r: string)
    ensures |r| >= 34
  {
    match v
    case May2021Morning => "May 2021 Morning Pedestrian Counts"
    case May2021Evening => "May 2021 Evening Pedestrian Counts"
    case May2021EveningMorningDifference => "Difference Between May 2021 Evening and Morning Pedestrian Counts"
    case May2021VersusMay2019 => "Difference Between May 2021 and May 2019 Pedestrian Counts"
    case October2020Weekend => "October 2020 Weekend Pedestrian Counts"
    case May2021Weekend => "May 2021 Weekend Pedestrian Counts"
  }

  /** keyPressed's switch: keys 1 to 6 select the views in order; every other key selects none. */
  function KeyView(key: char): (r: Option<View>)
    ensures r.Some? <==> '1' <= key <= '6'
  {
    match key
    case '1' => Some(May2021Morning)
    case '2' => Some(May2021Evening)
    case '3' => Some(May2021EveningMorningDifference)
    case '4' => Some(May2021VersusMay2019)
    case '5' => Some(October2020Weekend)
    case '6' => Some(May2021Weekend)
    case _ => None
  }

  /** Different views show different things. */
  lemma ViewRulesDistinct(v: View, w: View)
    requires v != w
    ensures ViewRule(v) != ViewRule(w)
  {
  }

  /** Different views have different titles, so the title tells which view is on the map. */
  lemma ViewTitlesDistinct(v: View, w: View)
    requires v != w
    ensures ViewTitle(v) != ViewTitle(w)
  {
    TitleSignature(v);
    TitleSignature(w);
  }

  /** A title's length and its tenth character, which together tell the titles apart. */
  lemma TitleSignature(v: View)
    ensures var r := ViewTitle(v);
      match v
      case May2021Morning => |r| == 34 && r[9] == 'M'
      case May2021Evening => |r| == 34 && r[9] == 'E'
      case May2021EveningMorningDifference => |r| == 65
      case May2021VersusMay2019 => |r| == 58
      case October2020Weekend => |r| == 38
      case May2021Weekend => |r| == 34 && r[9] == 'W'
  {
  }
}
