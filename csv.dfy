/**
 * Loading the pedestrian-count CSV: the lines of the file without its header,
 * each line split on commas, and the leading `POINT (<lng> <lat>)` column
 * replaced by its two coordinate tokens.
 */
module Csv {
  import opened Wrappers
  import opened Text

  /** One data line: longitude token, latitude token, then the count columns as written. */
  type Row = seq<string>

  /**
   * getLinesFromFile without the file system: `file` holds the lines a
   * Scanner reads, or None when the file cannot be opened (the error is
   * only logged). The header line is discarded and every other line trimmed.
   */
  method LinesFromFile(file: Option<seq<string>>) returns (lines: seq<string>)
    ensures file.None? ==> lines == []
    ensures file.Some? ==> |lines| == if file.value == [] then 0 else |file.value| - 1
    ensures file.Some? ==> forall i :: 0 <= i < |lines| ==> lines[i] == Trim(file.value[i + 1])
  {
    var fullText: seq<string> := [];
    if file.Some? {
      var scn := file.value;
      var next := 0;
      if next < |scn| {
        next := next + 1;  // the first line is the header
      }
      while next < |scn|
        invariant next <= |scn| && (scn != [] ==> next >= 1)
        invariant |fullText| == if next == 0 then 0 else next - 1
        invariant forall i :: 0 <= i < |fullText| ==> fullText[i] == Trim(scn[i + 1])
      {
        fullText := fullText + [Trim(scn[next])];
        next := next + 1;
      }
    }
    lines := fullText;
  }

  /**
   * parsePoint: splits `POINT (<lng> <lat>)` on spaces and returns the second
   * token without its first char and the third without its last char. None
   * stands for the index exceptions Java throws when there are fewer than
   * three tokens or one of those two tokens is empty.
   */
  function ParsePoint(location: string): (r: Option<seq<string>>)
    ensures r.Some? ==> |r.value| == 2 && ' ' !in r.value[0] && ' ' !in r.value[1]
    ensures r.Some? <==> |JavaSplit(location, ' ')| >= 3 && JavaSplit(location, ' ')[1] != []
                         && JavaSplit(location, ' ')[2] != []
  {
    var geom := JavaSplit(location, ' ');
    if |geom| < 3 || |geom[1]| < 1 || |geom[2]| < 1 then None
    else
      var lng := geom[1][1..];
      var lat := geom[2][..|geom[2]| - 1];
      assert forall c :: c in lng ==> c in geom[1];
      assert forall c :: c in lat ==> c in geom[2];
      Some([lng, lat])
  }

  /** The point text written by the data source, whatever its first word. */
  function PointText(head: string, lng: string, lat: string): string {
    head + " (" + lng + " " + lat + ")"
  }

  lemma PointTextHasNoComma(head: string, lng: string, lat: string)
    requires ',' !in head && ',' !in lng && ',' !in lat
    ensures ',' !in PointText(head, lng, lat)
  {
  }

  /** parsePoint recovers the two coordinate tokens of a point text. */
  lemma ParsePointRoundTrip(head: string, lng: string, lat: string)
    requires ' ' !in head && ' ' !in lng && ' ' !in lat
    ensures ParsePoint(PointText(head, lng, lat)) == Some([lng, lat])
  {
    var pieces := [head, "(" + lng, lat + ")"];
    assert pieces[1..][1..] == [lat + ")"];
    assert Join(pieces[1..], ' ') == "(" + lng + " " + lat + ")";
    assert Join(pieces, ' ') == PointText(head, lng, lat);
    JavaSplitJoin(pieces, ' ');
    assert ("(" + lng)[1..] == lng;
    assert (lat + ")")[..|lat + ")"| - 1] == lat;
  }

  /**
   * One iteration of getDataFromLines: the comma split of `line` with its
   * first field replaced by the two coordinates. None stands for the
   * exception thrown when the split is empty or parsePoint fails.
   */
  function ParseRow(line: string): (r: Option<Row>)
    ensures r.Some? <==> |JavaSplit(line, ',')| >= 1 && ParsePoint(JavaSplit(line, ',')[0]).Some?
    ensures r.Some? ==> |JavaSplit(line, ',')| >= 1 && |r.value| == |JavaSplit(line, ',')| + 1
                        && r.value[..2] == ParsePoint(JavaSplit(line, ',')[0]).value
                        && r.value[2..] == JavaSplit(line, ',')[1..]
  {
    var splitData := JavaSplit(line, ',');
    if |splitData| == 0 then None
    else
      match ParsePoint(splitData[0])
      case None => None
      case Some(coordinates) => Some(coordinates + splitData[1..])
  }

  /**
   * A well-formed line reads back as its coordinates followed by its count
   * columns, unchanged, provided the last column is not empty.
   */
  lemma ParseRowRoundTrip(head: string, lng: string, lat: string, counts: seq<string>)
    requires ' ' !in head && ' ' !in lng && ' ' !in lat
    requires ',' !in head && ',' !in lng && ',' !in lat
    requires forall k :: 0 <= k < |counts| ==> ',' !in counts[k]
    requires counts == [] || counts[|counts| - 1] != ""
    ensures ParseRow(Join([PointText(head, lng, lat)] + counts, ',')) == Some([lng, lat] + counts)
  {
    var point := PointText(head, lng, lat);
    PointTextHasNoComma(head, lng, lat);
    var pieces := [point] + counts;
    forall k | 0 <= k < |pieces|
      ensures ',' !in pieces[k]
    {
      if k > 0 {
        assert pieces[k] == counts[k - 1];
      }
    }
    assert pieces[|pieces| - 1] != "" by {
      if counts != [] {
        assert pieces[|pieces| - 1] == counts[|counts| - 1];
      }
    }
    JavaSplitJoin(pieces, ',');
    var line := Join(pieces, ',');
    assert JavaSplit(line, ',') == pieces;
    ParsePointRoundTrip(head, lng, lat);
    assert pieces[1..] == counts;
  }

  /**
   * A trailing comma changes nothing: empty columns at the end of a line are
   * lost, so such a row is shorter and its offsets from the end move.
   */
  lemma ParseRowTrailingEmpty(line: string)
    requires line != []
    ensures ParseRow(line + ",") == ParseRow(line)
  {
    TrailingSeparatorIgnored(line, ',');
  }

  /** A line whose last column is empty reads back without that column. */
  lemma ParseRowEmptyLastColumn(head: string, lng: string, lat: string, counts: seq<string>)
    requires ' ' !in head && ' ' !in lng && ' ' !in lat
    requires ',' !in head && ',' !in lng && ',' !in lat
    requires forall k :: 0 <= k < |counts| ==> ',' !in counts[k]
    requires counts == [] || counts[|counts| - 1] != ""
    ensures ParseRow(Join([PointText(head, lng, lat)] + counts + [""], ',')) == Some([lng, lat] + counts)
  {
    var pieces := [PointText(head, lng, lat)] + counts;
    JoinEmptyLast(pieces, ',');
    ParseRowRoundTrip(head, lng, lat, counts);
    ParseRowTrailingEmpty(Join(pieces, ','));
  }

  /** The sample line below, as a point text joined with its count columns. */
  lemma SampleLineIsJoin(line: string)
    requires line == "POINT (-73.99 40.72),1,,5"
    ensures line == Join([PointText("POINT", "-73.99", "40.72")] + ["1", "", "5"], ',')
  {
    var counts := ["1", "", "5"];
    var point := PointText("POINT", "-73.99", "40.72");
    assert point == "POINT (-73.99 40.72)";
    assert Join(["5"], ',') == "5";
    assert Join(["", "5"], ',') == ",5";
    assert Join(counts, ',') == "1,,5";
    assert Join([point] + counts, ',') == point + "," + Join(counts, ',');
  }

  /** The line `POINT (-73.99 40.72),1,,5` gives the row `-73.99`, `40.72`, `1`, ``, `5`. */
  lemma ParseRowExample(line: string)
    requires line == "POINT (-73.99 40.72),1,,5"
    ensures ParseRow(line) == Some(["-73.99", "40.72", "1", "", "5"])
  {
    var counts := ["1", "", "5"];
    SampleLineIsJoin(line);
    assert forall k :: 0 <= k < |counts| ==> ',' !in counts[k];
    ParseRowRoundTrip("POINT", "-73.99", "40.72", counts);
    assert ["-73.99", "40.72"] + counts == ["-73.99", "40.72", "1", "", "5"];
  }

  /**
   * getDataFromLines: one row per line, in order. The first line that
   * throws aborts the whole conversion (None).
   */
  method GetDataFromLines(lines: seq<string>) returns (data: Option<seq<Row>>)
    ensures data.Some? <==> forall i :: 0 <= i < |lines| ==> ParseRow(lines[i]).Some?
    ensures data.Some? ==> |data.value| == |lines|
    ensures data.Some? ==> forall i :: 0 <= i < |lines| ==> Some(data.value[i]) == ParseRow(lines[i])
  {
    var allLines := new Row[|lines|];
    for i := 0 to |lines|
      invariant forall k :: 0 <= k < i ==> Some(allLines[k]) == ParseRow(lines[k])
    {
      var row := ParseRow(lines[i]);
      if row.None? {
        return None;
      }
      allLines[i] := row.value;
    }
    return Some(allLines[..]);
  }
}
