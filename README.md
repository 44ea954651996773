# Pedestrian counts map: a Dafny model of its data and view logic

The application draws New York City pedestrian counts as coloured bubbles on a
map. It reads a CSV file whose first column is a point text
`POINT (<lng> <lat>)` and whose other columns are counts for different
periods. A key press from `1` to `6` selects one of six views. Each view
clears the map, sets the map title, and walks the rows in order. It skips a
row when a count it needs is blank. Otherwise it adds one bubble at the row's
coordinates, sized by a count and coloured by the view.

This project models that logic from `src/App.java`:

- loading: dropping the header line, trimming lines, splitting on commas, and
  reading the point text (module `Csv`, with the JDK string operations in
  module `Text`);
- the count and colour helpers, and what each view makes of one row (module
  `Views`). `Views.Markers` is the specification of the marker list a view
  leaves on the map;
- the application state: the loaded rows, the title and the marker list, as
  the class `PedestrianMap.App`. Its `show…` methods and its `KeyPressed`
  method are proved against `Views.Markers`.

The model follows the code where the code and its comments disagree:

- The morning view reads the third field from the end, not the second-to-last
  as its comment says.
- The 2021-versus-2019 view skips a row only when a 2019 column is blank.
  Blank 2021 columns count 0.
- A line whose point text cannot be split as expected throws in
  `getDataFromLines`. Nothing catches that exception before `setup`, so one bad
  line aborts the whole load instead of being skipped. `Csv.GetDataFromLines`
  returns None in that case.
- `String.split` drops trailing empty strings. A line that ends in empty count
  columns therefore gives a shorter row, and its offsets from the end point to
  other columns. `Csv.ParseRowTrailingEmpty` and
  `Views.TrailingEmptyColumnShiftsOffsets` state this, and
  `Views.MissingLastColumnShiftsOffsets` gives the marker `showCounts` then
  shows.

Java exceptions that the model keeps become `Option` values. Indexing past the
end of a row and `Integer.parseInt` failures are excluded by preconditions
(`Views.Readable`). Those preconditions follow the order in which the Java
guards evaluate the fields.

## Model

| member | source | states |
|---|---|---|
| Text.Trim | src/App.java:99 | the trimmed string is no longer than the input, and neither starts nor ends with a char at or below U+0020 |
| Text.TrimIsInfix | src/App.java:265 | `trim` keeps an infix that neither starts nor ends with a char at or below U+0020, and everything it cuts off on either side is such a char |
| Text.TrimEmptyIffBlank | src/App.java:99 | `s.trim().isEmpty()` holds exactly when every char of `s` is at or below U+0020 |
| Text.JavaSplit | src/App.java:295 | `split` on one char: a string without the separator comes back whole; otherwise the pieces between separators, in order, with only the empty pieces at the end dropped; no piece contains the separator |
| Text.JavaSplitJoin | src/App.java:276 | splitting separator-free pieces joined by the separator gives the pieces back when the last one is not empty |
| Text.TrailingSeparatorIgnored | src/App.java:295 | a separator appended to a non-empty string does not change its split |
| Text.DecimalValue | src/App.java:100 | the number a digit string spells is a natural number, zero exactly when every digit is `0` |
| Text.DecimalValueOfDecimal | src/App.java:100 | reading back the decimal notation of a number gives that number |
| Text.CountIsNotBlank | src/App.java:99-100 | a string `parseInt` accepts is never blank, so `pedCount` parses it |
| Csv.LinesFromFile | src/App.java:257-272 | an unreadable file gives no lines; otherwise one line per file line after the first, in order, each trimmed |
| Csv.ParsePoint | src/App.java:275-281 | succeeds exactly when the space split has at least three pieces and the second and third are non-empty; the two tokens it returns contain no space |
| Csv.ParsePointRoundTrip | src/App.java:275-281 | `POINT (<lng> <lat>)`, whatever its first word, gives back `[lng, lat]` |
| Csv.ParseRow | src/App.java:295-299 | a line parses exactly when its comma split has a first piece and `parsePoint` accepts that piece; a parsed row is one longer than the split, its first two fields are `parsePoint`'s longitude and latitude tokens, and its fields from the third on are the split's fields from the second on, unchanged |
| Csv.ParseRowRoundTrip | src/App.java:292-302 | a line made of a point text and comma-free count columns, the last one non-empty, reads back as the coordinates followed by those columns |
| Csv.ParseRowTrailingEmpty | src/App.java:295 | a trailing comma changes nothing, so empty trailing columns are lost |
| Csv.ParseRowEmptyLastColumn | src/App.java:295-299 | a line of a point text and comma-free columns whose last column is empty reads back as the coordinates and the columns without that last one |
| Csv.ParseRowExample | src/App.java:295-299 | `POINT (-73.99 40.72),1,,5` gives `-73.99`, `40.72`, `1`, an empty field, `5` |
| Csv.GetDataFromLines | src/App.java:292-302 | succeeds exactly when every line parses, and then gives one row per line, in order, each the parse of its line |
| Views.PedCount | src/App.java:98-104 | a blank field counts 0; any other field counts the number it spells; the result is a non-negative int |
| Views.PedCountOfDecimal | src/App.java:98-104 | `pedCount` reads back every non-negative int written in decimal |
| Views.Abs | src/App.java:192 | Processing's `abs`: the result is non-negative and is the argument or its negation |
| Views.ColorDecider | src/App.java:113-119 | green exactly when the first count is greater; red exactly when it is not, ties included |
| Views.Wrap32 | src/App.java:218-221 | a sum of int counts as a Java int: unchanged up to INT_MAX, wrapped by 2^32 above it |
| Views.TruncDiv | src/App.java:218-221 | Java's `/`: the magnitude is the magnitude of the dividend divided down, with the dividend's sign |
| Views.Average3 | src/App.java:218-221 | the average of three int counts lies within ±715827882 |
| Views.Average3OfSum | src/App.java:218-221 | when the sum fits in an int, the average is the rounded-down plain average; otherwise the sum wraps around before the division |
| Views.Readable | src/App.java:131-226 | a row a view can read without an exception has the fields the view indexes: its offset for a single-column view, at least 3 fields for the evening-minus-morning view, at least 7 for the 2021-versus-2019 view |
| Views.CountableRowReadable | src/App.java:134-146 | a row with its two coordinates and at least nine count columns, each blank or a decimal int, can be shown by every view |
| Views.MissingLastColumnShiftsOffsets | src/App.java:135-145 | on a row whose empty last column was dropped, offset k is the written row's offset k + 1, and `showCounts` at offset k shows the marker it would show at offset k + 1 on the written row |
| Views.TrailingEmptyColumnShiftsOffsets | src/App.java:295-299 | a line whose last column is empty parses to its coordinates and columns without that column, so offset k reads the line's column at offset k + 1 |
| Views.CountMarker | src/App.java:135-145 | a row is skipped exactly when the chosen field is blank; otherwise its marker is at `(row[1], row[0])`, counts the field's number and has the given colour |
| Views.DifferenceMarker | src/App.java:184-196 | skipped exactly when the morning or the evening field is blank; otherwise the count is the distance between the two, green exactly when the evening count is greater and red exactly when it is not |
| Views.YearMarker | src/App.java:211-226 | skipped exactly when one of the three 2019 fields is blank; otherwise the marker is at `(row[1], row[0])` with a non-negative int count, coloured green or red |
| Views.YearMarkerAverages | src/App.java:218-224 | when both yearly sums fit in an int, the count is the distance between the two rounded-down averages, green exactly when the 2021 average is greater |
| Views.RowMarker | src/App.java:134-146 | every view's marker for a row is at `(row[1], row[0])` with a count in 0..INT_MAX; a single-column view uses its fixed colour, a difference view green or red |
| Views.Markers | src/App.java:134-146 | a view leaves at most one marker per row |
| Views.MarkersAppend | src/App.java:134 | the markers of two consecutive runs of rows follow each other, so row order is kept |
| Views.MarkersMember | src/App.java:134-146 | a marker is on the map exactly when some row produces it |
| Views.MarkersNoneSkipped | src/App.java:134-146 | when no row is skipped, the i-th marker is the i-th row's |
| Views.MarkersAllSkipped | src/App.java:134-137 | when every row is skipped, the map is empty |
| Views.MarkerShape | src/App.java:138-145 | every marker sits at some row's coordinates, has a count in 0..INT_MAX and has the view's colour |
| Views.ViewRule | src/App.java:158-245 | the morning, evening, October 2020 weekend and May 2021 weekend views show one column, at an offset from 1 to 4 from the end; the two difference views do not |
| Views.ViewRulesDistinct | src/App.java:158-246 | different views show different things |
| Views.ViewTitle | src/App.java:158-245 | every view's title is at least 34 chars long |
| Views.ViewTitlesDistinct | src/App.java:158-246 | different views set different titles, so the title tells which view is shown |
| Views.KeyView | src/App.java:68-88 | keys `1` to `6` select a view; every other key selects none |
| PedestrianMap.App.constructor | src/App.java:31-37 | the application starts with the given rows, an empty title and no markers |
| PedestrianMap.App.ClearMap | src/App.java:366-368 | removes every marker |
| PedestrianMap.App.ShowCounts | src/App.java:131-147 | sets the title and replaces the markers with exactly the markers of the single-column rule for the given offset and colour, in row order |
| PedestrianMap.App.ShowMay2021MorningCounts | src/App.java:157-159 | shows the third field from the end in blue under its title |
| PedestrianMap.App.ShowMay2021EveningCounts | src/App.java:169-171 | shows the second field from the end in blue under its title |
| PedestrianMap.App.ShowMay2021EveningMorningCountsDifference | src/App.java:180-198 | sets the title and replaces the markers with exactly the evening-minus-morning markers of the rows, in row order |
| PedestrianMap.App.ShowMay2021VersusMay2019Counts | src/App.java:207-228 | sets the title and replaces the markers with exactly the 2021-versus-2019 markers of the rows, in row order |
| PedestrianMap.App.YearOverYearMarker | src/App.java:215-226 | the bubble the yearly view's loop builds for a row it does not skip is that row's 2021-versus-2019 marker |
| PedestrianMap.App.ShowOcotober2020WeekendCounts | src/App.java:235-237 | shows the fourth field from the end in teal under its title |
| PedestrianMap.App.ShowMay2021WeekendCounts | src/App.java:244-246 | shows the last field in dark green under its title |
| PedestrianMap.App.KeyPressed | src/App.java:68-90 | keys `1` to `6` show their view of the loaded rows; any other key leaves the title and the markers unchanged |

## Left out

- The Processing and Unfolding plumbing: `setup`, `getMap`, `draw`, `drawTitle`, and the `MarkerBubble` objects and `map.addMarker`. The map's marker list is the `markers` field.
- `setup`'s calls that load the file and show the morning view are not modelled as one operation. `Csv.LinesFromFile`, `Csv.GetDataFromLines` and `PedestrianMap.App.ShowMay2021MorningCounts` model its steps.
- The file system and `Scanner`: `Csv.LinesFromFile` takes the file's lines as a parameter, or None when the file cannot be opened. The message printed in that case is left out.
- The JDK version check in `main` and the messages printed by `keyPressed` and `setup`.
- `Float.parseFloat` of the coordinates: markers keep the coordinate tokens as strings, so a token that is not a float is not rejected.
- The bubble radius `count * 0.0002f`: a marker keeps the integer count it is scaled from.
- Views.PedCount: the input must be a blank field or a string of ASCII decimal digits within int range. `Integer.parseInt` also accepts a leading `-` or `+` and non-ASCII decimal digits (such as Arabic-Indic digits). The precondition excludes those fields, so a negative field, which would give a negative count in `showCounts`, is not modelled. Overflow and other input throw and are excluded as well.
- A null count field and the initially null `mapTitle`: strings are never null here, and the title starts empty.
- Views.ViewTitle: its contract gives only a lower bound on the length. The six titles are its body, and `Views.ViewTitlesDistinct` states that they differ.
- Views.Wrap32: it only accepts values from -2^31 up to 3 × 2^31, which covers every sum of three non-negative int counts, instead of wrapping any integer.
- Processing's `abs` on the smallest int: the differences passed to it are never that value here.
- `keyPressed` on rows that were never loaded (a null `data` after a failed load) throws in Java; the model always has a row sequence.
- Strings are sequences of Unicode chars, while Java's `substring`, `trim` and `split` count UTF-16 code units. The two agree for the ASCII text of the data file; for chars outside the Basic Multilingual Plane the model's indices differ from Java's.
- Trimmed lines are modelled, but Java's splitting of the file into lines by the `Scanner` is not.
