# Plate lookup and route table of the licence-plate demo, in Dafny

The application (`Wonder2.py`) is a desktop demo. It photographs a car, reads
its licence plate with an OCR library and looks the plate up in a small car
table. It also reports a fixed driving distance between two cities. Only two
parts of it are logic of its own, and this project models those two:

* **Plate lookup and advisories** (`find_car_details`). The plate text is
  normalised by deleting spaces and upper-casing it. The car rows are then
  scanned in order, and the first row whose normalised `Car_Number` equals
  the normalised query wins. The details text is `Age: … years, Months
  without Servicing: …`. An old-car warning line is added when the age is
  above 10. A service reminder line is added when the months without
  servicing are above 6. Without a match the answer is
  `Car details not found.`
* **Route table and route query** (`__init__`, `find_and_display_shortest_route`).
  Ten (start, destination) legs carry distances in km. The table is updated
  with every leg reversed, which makes it symmetric. A query does nothing
  unless both raw entries are non-empty. Otherwise it strips and title-cases
  both names and looks the pair up. It reports `Distance from A to B: d km`
  when the lookup gives a truthy (non-zero) distance, and `No direct route
  found between A and B.` otherwise.

Modules:

| file | module | contents |
|---|---|---|
| options.dfy | `Options` | `Option`, `dict.get`, Python truthiness of an optional int |
| ascii.dfy | `Ascii` | `replace(" ", "")`, `upper()`, `strip()`, `title()` over ASCII |
| decimal.dfy | `Decimal` | `str(n)` and `int(s)` for decimal digits, with their round trip |
| lines.dfy | `Lines` | splitting a label text at line breaks, and joining it back |
| car_lookup.dfy | `CarLookup` | car rows, plate key, first-match scan, details text, advisory rules |
| car_examples.dfy | `CarExamples` | the three rows Cars.csv is created with, and lookups against them |
| route_table.dfy | `RouteTable` | the distance table, the mirroring update, the route query |
| route_examples.dfy | `RouteExamples` | queries against the application's own table |

Where the application's intended design and its code differ, the model follows the code:

* Plate numbers are meant to be unique in the car table. The code does
  not enforce it: the first matching row in file order wins. The model states
  the first-match rule (`CarLookup.FindCarDetails`). It proves uniqueness only
  for the three default rows (`CarExamples.DefaultPlatesDistinct`).
* The emptiness test in the route query looks at the raw entry text, before
  `strip()`. So an entry of only blanks passes the test, and the lookup is
  made with the empty name (`RouteTable.RouteResultBlankEntry`).

## Model

| member | source | states |
|---|---|---|
| `Options.Get` | Wonder2.py:221 | `dict.get` gives a value exactly for keys in the map, and that value is the stored one |
| `Ascii.DeleteSpaces` | Wonder2.py:180 | `replace(" ", "")` leaves no space character and never lengthens the text |
| `Ascii.DeleteSpacesNone` | Wonder2.py:180 | deleting spaces from a text without spaces changes nothing |
| `Ascii.DeleteSpacesAppend` | Wonder2.py:180 | deleting spaces from a concatenation is the concatenation of the two results |
| `Ascii.Upper` | Wonder2.py:180-182 | `upper()` keeps the length and maps each character through the one-character ASCII case mapping |
| `Ascii.UpperCharEqualIff` | Wonder2.py:182-183 | two characters upper-case to the same character exactly when they are equal or the two cases of one ASCII letter |
| `Ascii.Strip` | Wonder2.py:219-220 | `strip()` returns a contiguous middle part with no whitespace at either end, and everything cut off either side is whitespace |
| `Ascii.StripTrimmed` | Wonder2.py:219-220 | stripping a text with no whitespace at its ends changes nothing |
| `Ascii.StripAllSpace` | Wonder2.py:219-220 | a text of whitespace only strips to the empty text |
| `Ascii.Title` | Wonder2.py:219-220 | `title()` keeps the length; a letter that starts a word becomes upper case, a letter after a letter becomes lower case, and other characters are unchanged |
| `Ascii.TitleKeepsShape` | Wonder2.py:219-220 | `title()` keeps which positions hold letters and which hold whitespace |
| `Ascii.TitleIdempotent` | Wonder2.py:219-220 | applying `title()` twice gives the same text as applying it once |
| `Decimal.NatToString` | Wonder2.py:184 | the printed form of a number is a non-empty run of digits, with a leading zero only for 0 itself |
| `Decimal.IntToString` | Wonder2.py:223 | the printed distance starts with `-` exactly for negative numbers; the digits, after the sign if any, read back as the number's magnitude |
| `Decimal.IntToStringInjective` | Wonder2.py:223 | different integers are printed differently |
| `Decimal.ParseNatToString` | Wonder2.py:184-187 | reading the printed digits back with `int()` gives the number printed |
| `Decimal.NatToStringInjective` | Wonder2.py:184 | different numbers are printed differently |
| `CarLookup.PlateKey` | Wonder2.py:180-182 | a normalised plate has no space and no lower-case ASCII letter |
| `CarLookup.PlateKeyIdempotent` | Wonder2.py:180-182 | normalising twice gives the same key as normalising once |
| `CarLookup.PlateKeyEqualIff` | Wonder2.py:180-183 | two plates have equal keys exactly when they differ only in spacing and ASCII letter case |
| `CarLookup.FirstMatch` | Wonder2.py:181-183 | the scan returns a position only if its row matches and no earlier row does; it finds nothing only if no row matches |
| `CarLookup.FindCarDetails` | Wonder2.py:179-190 | without a matching row the answer is the not-found text; otherwise it is the details of the first matching row in list order |
| `CarLookup.LookupIgnoresSpacingAndCase` | Wonder2.py:180-183 | two queries that differ only in spacing and letter case get identical answers |
| `CarLookup.LookupFindsRow` | Wonder2.py:181-189 | a query matching a row up to spacing and case, with no earlier row sharing its key, gets that row's details |
| `CarLookup.DetailsLines` | Wonder2.py:184-188 | the details text (`Details`) splits into the summary line, then the warning line if the age is above 10, then the reminder line if the months are above 6 |
| `CarLookup.AdvisoryRules` | Wonder2.py:185-188 | the warning appears if and only if the age is above 10; the reminder appears if and only if the months are above 6; when both appear, the warning comes first |
| `CarLookup.DetailsNotNotFound` | Wonder2.py:184-190 | a found car's details never equal the not-found text |
| `CarLookup.SummaryReadsBack` | Wonder2.py:184-187 | whatever digit runs stand between the labels of the summary line (`Summary`) read back as the age and the months the thresholds compare |
| `CarExamples.DefaultPlatesDistinct` | Wonder2.py:13-17 | the three default rows have pairwise different plate keys |
| `CarExamples.DefaultLookupOldCar` | Wonder2.py:15 | `mh12ab 1234` finds the 11-year-old row unserviced for 7 months, with the warning and then the reminder |
| `CarExamples.DefaultLookupYoungCar` | Wonder2.py:14 | `it20 bom` finds the young, recently serviced row, and its details are the summary line alone |
| `RouteTable.Mirrored` | Wonder2.py:48 | the mirrored table holds a leg exactly when the original holds its reverse, with the reverse's distance |
| `RouteTable.MirrorUpdate` | Wonder2.py:48 | after the update, a leg is present exactly when it or its reverse was; a reverse overrides; otherwise the original value stays |
| `RouteTable.MirrorUpdateSymmetric` | Wonder2.py:48 | if no leg disagrees with its reverse, the updated table is symmetric |
| `RouteTable.MirrorUpdateKeepsEntries` | Wonder2.py:36-48 | under the same condition, the update keeps every original entry and adds only reversed legs |
| `RouteTable.MirrorUpdateOfSymmetric` | Wonder2.py:48 | updating an already symmetric table changes nothing |
| `RouteTable.MirrorUpdateConflict` | Wonder2.py:48 | a leg listed both ways with different distances has both entries overwritten by each other's value, and the result is not symmetric |
| `RouteTable.BaseRoutesOneDirection` | Wonder2.py:36-47 | the written table lists no leg in both directions, and no city name is empty |
| `RouteTable.RoutesTable` | Wonder2.py:36-48 | the queried table is symmetric, keeps every written distance, adds only reversed legs, and has no empty city name |
| `RouteTable.NormalizeCity` | Wonder2.py:219-220 | a normalised city name is the stripped entry title-cased position by position, so it has the stripped entry's length and no whitespace at its ends |
| `RouteTable.NormalizeCityIdempotent` | Wonder2.py:219-220 | normalising a normalised name changes nothing |
| `RouteTable.RouteResult` | Wonder2.py:217-226 | with an empty raw entry the result is unchanged; otherwise it is the distance text when the normalised pair maps to a non-zero distance, and the no-route text in every other case, a zero distance included; both texts (`DistanceMessage`, `NoRouteMessage`) carry the normalised names |
| `RouteTable.RouteResultReportsDistanceIff` | Wonder2.py:221-225 | with both entries filled, the result starts with `Distance from ` if and only if the normalised pair has a non-zero distance |
| `RouteTable.DistanceMessageInjective` | Wonder2.py:223 | two distance texts (`DistanceMessage`) for the same cities are equal only for equal distances |
| `RouteTable.RouteResultSymmetric` | Wonder2.py:221-225 | on a symmetric table, querying (a, b) reports distance d exactly when querying (b, a) does, and no route exactly when the other does |
| `RouteTable.RouteResultNormalizedInputs` | Wonder2.py:218-221 | entering already normalised, non-empty names gives the same result as the raw entries |
| `RouteTable.RouteResultBlankEntry` | Wonder2.py:218-225 | a start entry of blanks only passes the emptiness test and gets the no-route text with an empty start name |
| `RouteExamples.ChennaiToMumbai` | Wonder2.py:42 | `chennai` to ` mUMBAI ` is tidied to Chennai and Mumbai and reports 1330 km |
| `RouteExamples.MumbaiToChennai` | Wonder2.py:48 | the reverse leg, which is not written in the table, reports the same 1330 km |
| `RouteExamples.ChennaiPune` | Wonder2.py:221-225 | a city missing from the table gives the no-route text |
| `RouteExamples.EmptyEntryKeepsResult` | Wonder2.py:218 | an empty start or destination leaves the previous result unchanged |

## Left out

- The tkinter window, buttons, dialogs and label updates (Wonder2.py:65-98, 192-215). These are UI. The route query is modelled as the new value of the result text, and writing it into the label is left out.
- Camera capture, image loading, the OpenCV contour pipeline, the mask and crop, and EasyOCR (Wonder2.py:100-177). These are foreign library calls over images. The OCR text is simply the query string of `CarLookup.FindCarDetails`.
- Creating and reading Cars.csv (Wonder2.py:11-23, 54-63). This is file I/O. The rows are an in-memory sequence with natural-number age and months. A failing `int()` on malformed CSV text is not modelled.
- The details text prints the CSV cell text, and the thresholds compare `int()` of it. The model prints the canonical decimal form of the number, so cells such as `05` or ` 5` are not modelled.
- Unicode case mapping and whitespace: `upper()`, `title()` and `strip()` are modelled on ASCII only. Other characters are treated as uncased and as not whitespace. The Tamil reminder text is an opaque constant.
- Ascii.DeleteSpaces: the contract states only that no space remains and the length does not grow. It does not state that the other characters keep their order, which the body shows.
