/**
 * The map application's state and its views: the title shown under the map
 * and the list of bubble markers on it, both replaced whenever a view is
 * selected by a key press.
 */
module PedestrianMap {
  import opened Wrappers
  import opened Text
  import opened Csv
  import opened Views

  class App {
    /** The rows loaded from the CSV file. */
    var data: seq<Row>
    /** The title drawn under the map. */
    var mapTitle: string
    /** The markers on the map, in the order they were added. */
    var markers: seq<Marker>

    /** The map shows view `v` of `rows`: its title and exactly its markers. */
    ghost predicate Shows(v: View, rows: seq<Row>)
      reads this
      requires AllReadable(rows, ViewRule(v))
    {
      mapTitle == ViewTitle(v) && markers == Markers(rows, ViewRule(v))
    }

    constructor (data: seq<Row>)
      ensures this.data == data && mapTitle == "" && markers == []
    {
      this.data := data;
      mapTitle := "";
      markers := [];
    }

    /** clearMap: removes every marker. */
    method ClearMap()
      modifies this`markers
      ensures markers == []
    {
      markers := [];
    }

    /**
     * showCounts: replaces the markers with one bubble of the given colour
     * per row whose field `offset` places from the end is not blank, sized
     * by that field's count, and sets the title.
     */
    method ShowCounts(data: seq<Row>, title: string, offset: int, bubbleColor: Rgba)
      requires AllReadable(data, Single(offset, bubbleColor))
      modifies this`markers, this`mapTitle
      ensures mapTitle == title
      ensures markers == Markers(data, Single(offset, bubbleColor))
    {
      ClearMap();
      mapTitle := title;
      ghost var results := RowMarkers(data, Single(offset, bubbleColor));
      for i := 0 to |data|
        invariant mapTitle == title
        invariant markers == Collect(results[..i])
      {
        var day := data[i];
        CollectPrefixStep(results, i);
        if IsBlank(FromEnd(day, offset)) {
          continue;  // a blank field gives no marker
        }
        var lng := day[0];
        var lat := day[1];
        var pedestrianCount := PedCount(FromEnd(day, offset));
        markers := markers + [Marker(lat, lng, pedestrianCount, bubbleColor)];
      }
      assert results[..|data|] == results;
    }

    /** Morning counts of May 2021: the third field from the end, in blue. */
    method ShowMay2021MorningCounts(data: seq<Row>)
      requires AllReadable(data, ViewRule(May2021Morning))
      modifies this`markers, this`mapTitle
      ensures Shows(May2021Morning, data)
    {
      ShowCounts(data, "May 2021 Morning Pedestrian Counts", 3, Rgba(0, 0, 255, 127));
    }

    /** Evening counts of May 2021: the second field from the end, in blue. */
    method ShowMay2021EveningCounts(data: seq<Row>)
      requires AllReadable(data, ViewRule(May2021Evening))
      modifies this`markers, this`mapTitle
      ensures Shows(May2021Evening, data)
    {
      ShowCounts(data, "May 2021 Evening Pedestrian Counts", 2, Rgba(0, 0, 255, 127));
    }

    /**
     * Evening minus morning counts of May 2021: rows with either count blank
     * are skipped; the bubble is sized by the absolute difference, green
     * when the evening count is the greater and red otherwise.
     */
    method ShowMay2021EveningMorningCountsDifference(data: seq<Row>)
      requires AllReadable(data, ViewRule(May2021EveningMorningDifference))
      modifies this`markers, this`mapTitle
      ensures Shows(May2021EveningMorningDifference, data)
    {
      ClearMap();
      mapTitle := "Difference Between May 2021 Evening and Morning Pedestrian Counts";
      ghost var results := RowMarkers(data, EveningMinusMorning);
      for i := 0 to |data|
        invariant mapTitle == ViewTitle(May2021EveningMorningDifference)
        invariant markers == Collect(results[..i])
      {
        var day := data[i];
        CollectPrefixStep(results, i);
        assert Readable(day, EveningMinusMorning);
        if IsBlank(FromEnd(day, 3)) || IsBlank(FromEnd(day, 2)) {
          continue;
        }
        DifferenceMarkerOfRow(day);
        var lng := day[0];
        var lat := day[1];
        var eveningCount := PedCount(FromEnd(day, 2));
        var morningCount := PedCount(FromEnd(day, 3));
        var pedestrianCount := Abs(eveningCount - morningCount);
        var markerColor := ColorDecider(eveningCount, morningCount);
        assert RowMarker(day, EveningMinusMorning) == Some(Marker(lat, lng, pedestrianCount, markerColor));
        markers := markers + [Marker(lat, lng, pedestrianCount, markerColor)];
      }
      assert results[..|data|] == results;
    }

    /**
     * May 2021 against May 2019: rows with a blank 2019 count are skipped;
     * the bubble is sized by the distance between the two yearly averages
     * (Java int arithmetic), green when 2021's is the greater.
     */
    method ShowMay2021VersusMay2019Counts(data: seq<Row>)
      requires AllReadable(data, ViewRule(May2021VersusMay2019))
      modifies this`markers, this`mapTitle
      ensures Shows(May2021VersusMay2019, data)
    {
      ClearMap();
      mapTitle := "Difference Between May 2021 and May 2019 Pedestrian Counts";
      ghost var results := RowResults(data, YearOverYear);
      for i := 0 to |data|
        invariant mapTitle == ViewTitle(May2021VersusMay2019)
        invariant markers == Collect(results[..i])
      {
        var day := data[i];
        CollectPrefixStep(results, i);
        assert results[i] == RowMarker(day, YearOverYear);
        assert Readable(day, YearOverYear);
        if IsBlank(FromEnd(day, 7)) || IsBlank(FromEnd(day, 8)) || IsBlank(FromEnd(day, 9)) {
          continue;
        }
        var marker := YearOverYearMarker(day);
        markers := markers + [marker];
      }
      assert results[..|data|] == results;
    }

    /**
     * The bubble of a row the yearly view does not skip: the 2019 and 2021
     * averages of its three counts each, their distance as the count and
     * green when 2021's average is the greater.
     */
    static method YearOverYearMarker(day: Row) returns (marker: Marker)
      requires Readable(day, YearOverYear)
      requires !(IsBlank(FromEnd(day, 7)) || IsBlank(FromEnd(day, 8)) || IsBlank(FromEnd(day, 9)))
      ensures RowMarker(day, YearOverYear) == Some(marker)
    {
      YearRowFields(day);
      var lng := day[0];
      var lat := day[1];
      var count2019 := Average3(PedCount(FromEnd(day, 7)), PedCount(FromEnd(day, 8)), PedCount(FromEnd(day, 9)));
      var count2021 := Average3(PedCount(FromEnd(day, 1)), PedCount(FromEnd(day, 2)), PedCount(FromEnd(day, 3)));
      var pedestrianCount := Abs(count2019 - count2021);
      var markerColor := ColorDecider(count2021, count2019);
      YearMarkerOfRow(day, count2019, count2021);
      marker := Marker(lat, lng, pedestrianCount, markerColor);
    }

    /** Weekend counts of October 2020: the fourth field from the end, in teal. */
    method ShowOcotober2020WeekendCounts(data: seq<Row>)
      requires AllReadable(data, ViewRule(October2020Weekend))
      modifies this`markers, this`mapTitle
      ensures Shows(October2020Weekend, data)
    {
      ShowCounts(data, "October 2020 Weekend Pedestrian Counts", 4, Rgba(0, 255, 239, 127));
    }

    /** Weekend counts of May 2021: the last field, in dark green. */
    method ShowMay2021WeekendCounts(data: seq<Row>)
      requires AllReadable(data, ViewRule(May2021Weekend))
      modifies this`markers, this`mapTitle
      ensures Shows(May2021Weekend, data)
    {
      ShowCounts(data, "May 2021 Weekend Pedestrian Counts", 1, Rgba(2, 162, 0, 127));
    }

    /**
     * keyPressed: keys 1 to 6 show their view of the loaded rows; any other
     * key leaves the title and the markers as they were.
     */
    method KeyPressed(key: char)
      requires KeyView(key).Some? ==> AllReadable(data, ViewRule(KeyView(key).value))
      modifies this`markers, this`mapTitle
      ensures KeyView(key).Some? ==> Shows(KeyView(key).value, data)
      ensures KeyView(key).None? ==> markers == old(markers) && mapTitle == old(mapTitle)
    {
      match key {
        case '1' => ShowMay2021MorningCounts(data);
        case '2' => ShowMay2021EveningCounts(data);
        case '3' => ShowMay2021EveningMorningCountsDifference(data);
        case '4' => ShowMay2021VersusMay2019Counts(data);
        case '5' => ShowOcotober2020WeekendCounts(data);
        case '6' => ShowMay2021WeekendCounts(data);
        case _ =>
      }
    }
  }
}
