# GSM tower map: the tower-to-marker pipeline of `NavigationBar`

`project_GSM.py` is a desktop tool. It reads a spreadsheet of cell towers,
given as (CID, LAC) pairs. It looks each tower up at a cell search web
service under the mobile network code (MNC) of the carrier picked in the "MNC" menu. It then builds a
Leaflet map page with one marker per tower the service located. This
project models the part of `NavigationBar` that carries state and builds
text:

- the page accumulator: `htmlcode`, `count_marker`, `add_marker`, and the
  text `writehtml` appends;
- the `openfile` loop over the rows. For each row it covers the lookup URL,
  the two `re.findall` extractions, the skip rule, the `self.lat.extend`
  quirk, the pop-up text and the call to `add_marker`;
- the carrier table `code_mnc`, the menu, and the initial selection;
- the backslash escape `excelread` applies to the chosen path.

Modules:

- `Options`: an option type.
- `Decimal`: how `format` writes an `int`, with a parser as its inverse.
- `Text`: `join` and `split`, and the concatenation facts the page proofs use.
- `Operators`: the carrier menu and `code_mnc`.
- `Paths`: the `excelread` path escape.
- `Urls`: the lookup request.
- `Extract`: the greedy lookbehind/lookahead `findall`.
- `Popup`: the pop-up text.
- `MapDocument`: the page text, described by the sequence of events that
  produced it. The constant `Preamble` is the literal `htmlcode` starts with
  (project_GSM.py:130-150), and `ClosingTail` is the literal `writehtml`
  appends (project_GSM.py:205-208).
- `Pipeline`: the row loop as a reference function `RunRows`. It also holds
  the class `NavigationBar`, whose methods update the page in place and are
  proved against that function.

The network and the spreadsheet library are parameters:

- `fetch` maps a URL to the decoded response body, or to `None` where
  `requests.get` or `.decode()` raises.
- `read` maps a path to the spreadsheet's (CID, LAC) records, or to `None`
  where `pandas.read_excel` raises.

## Model

| member | source | states |
|---|---|---|
| `Decimal.NatToString` | project_GSM.py:200-202 | the marker number is written as decimal digits without leading zeros |
| `Decimal.IntToString` | project_GSM.py:181-182 | an `int` in the URL or pop-up is written as digits with an optional leading '-' |
| `Decimal.NatRoundTrip` | project_GSM.py:200-202 | reading back the text of a marker number gives that number |
| `Decimal.IntRoundTrip` | project_GSM.py:181-182 | reading back the text of an `int` gives that `int` |
| `Decimal.NatToStringInjective` | project_GSM.py:200-202 | different counter values print differently, so marker names never repeat |
| `Operators.Code` | project_GSM.py:182 | `code_mnc[selected]` does not raise for a name from the menu; it is the table's entry |
| `Operators.MenuMatchesTable` | project_GSM.py:152-155 | the menu and `code_mnc` name exactly the same seven carriers |
| `Operators.DefaultSelection` | project_GSM.py:152-155 | the initial selection 'IR-MCI' is in the menu, and its code is 11 |
| `Operators.CodesDistinct` | project_GSM.py:155 | no two carriers share a network code |
| `Paths.EscapePath` | project_GSM.py:196 | every backslash is doubled: the length grows by the number of backslashes, and the count of backslashes doubles |
| `Paths.EscapeRoundTrip` | project_GSM.py:196 | reading doubled backslashes back as one gives the chosen file name |
| `Paths.EscapeWithoutBackslash` | project_GSM.py:196 | a path without backslashes reaches the reader unchanged |
| `Urls.LookupUrl` | project_GSM.py:180-182 | the request goes to the cell search endpoint; the text after its first '?' is the parameters mcc, mnc, lac and cid joined by '&' |
| `Urls.LookupUrlPairs` | project_GSM.py:181-182 | the query of a lookup URL splits at '&' into exactly the four `key=value` parameters, in order |
| `Urls.LookupUrlValues` | project_GSM.py:181-182 | the URL's parameters mcc, mnc, lac and cid have the texts "432", str(mnc), str(lac) and str(cid) |
| `Urls.LookupUrlParams` | project_GSM.py:181-182 | the four parameters of a lookup URL read back as the numbers 432, mnc, lac and cid |
| `Extract.LineEnd` | project_GSM.py:183 | `.` stops at the end of the line: no '\n' lies between a position and its line end, and a '\n' or the end of the text lies at it |
| `Extract.LastAhead` | project_GSM.py:183 | greedy `.*` backs off to the last place on the line where the lookahead text begins |
| `Extract.MatchEnd` | project_GSM.py:183 | an attempt at p succeeds exactly when the lookbehind holds at p and the lookahead holds later on p's line; a success is a greedy match |
| `Extract.Scan` | project_GSM.py:183-184 | every reported span is a greedy match; the spans come in text order, do not overlap and do not repeat |
| `Extract.ScanSkipsNothing` | project_GSM.py:183-184 | the scan passes over no position where a match could start |
| `Extract.FindAll` | project_GSM.py:183-184 | `re.findall` with one group: every capture is the text of a greedy match, with the lookbehind text right before it and the lookahead text right after it on its line |
| `Extract.Lats` | project_GSM.py:183 | `self.lat` is empty exactly when no line of the response has `Lat=` followed, later on that line, by ` Lon` |
| `Extract.Lons` | project_GSM.py:184 | `self.lon` is empty exactly when no line of the response has `Lon=` followed, later on that line, by `</a><br/>` |
| `Extract.CaptureInContext` | project_GSM.py:183-184 | each capture holds no '\n'; in the body it stands right after `Lat=` (`Lon=`) and right before ` Lon` (`</a><br/>`) |
| `Extract.FindAllEmptyIff` | project_GSM.py:183-184 | the result is empty exactly when no line has the lookbehind text followed, later on that line, by the lookahead text |
| `Extract.FirstCaptureIsEarliest` | project_GSM.py:183-184 | `lat[0]` and `lon[0]` are the matches at the earliest position where a match can start |
| `Extract.NextMatchSameLine` | project_GSM.py:183-184 | a match starting after another on the same line is empty and starts where the first ended |
| `Extract.OneNonEmptyMatchPerLine` | project_GSM.py:183-184 | consecutive captures lie on different lines, except for an empty capture directly after a non-empty one; so each line yields at most one non-empty capture |
| `Popup.Information` | project_GSM.py:189-190 | cut at '<', the pop-up gives back its MCC line, then its MNC, LAC and CID lines, each behind the rest of a `<br>` |
| `Popup.InformationNumbers` | project_GSM.py:189-190 | the pop-up shows 432 and the row's MNC, LAC and CID, as numbers that read back exactly |
| `Popup.InformationCoordinates` | project_GSM.py:189-190 | when the captured coordinates hold no '<', the pop-up has seven lines and shows `lat[0]` and `lon[0]` as captured |
| `MapDocument.MarkerStatement` | project_GSM.py:200-202 | the text `add_marker` appends: `var marker<n>` placed at the coordinates, the `bindPopup` call with the pop-up, and the indentation for the next statement; its properties are in `DeclaredIdOf` and `DistinctIdsDistinctStatements` |
| `MapDocument.DeclaredIdOf` | project_GSM.py:201-202 | the marker number can be read back from the statement `add_marker` appends |
| `MapDocument.DistinctIdsDistinctStatements` | project_GSM.py:201-202 | statements for different counter values differ |
| `MapDocument.FragmentsAppend` | project_GSM.py:199-202 | markers placed in two batches are numbered on from the first batch |
| `MapDocument.FragmentOfKth` | project_GSM.py:199-202 | marker k of a batch gets number count + k + 1, with its statement between those of the markers before and after it |
| `MapDocument.RenderPlacements` | project_GSM.py:199-202 | placing markers appends their statements, numbered on from the page's count, and raises the count by their number |
| `MapDocument.ClosingTailNonEmpty` | project_GSM.py:205-208 | the closing tail is non-empty and ends with '>' |
| `MapDocument.ClosedThenPlaced` | project_GSM.py:204-208 | closing changes the page, so writing is not idempotent; markers placed later follow the tail and continue the numbering |
| `Pipeline.RequestFor` | project_GSM.py:180-182 | every request carries mcc=432, the carrier's code as mnc, the row's second column (`data[1]`) as lac and its first (`data[0]`) as cid |
| `Pipeline.MarkerOf` | project_GSM.py:188-191 | the marker handed to `add_marker` sits at `lat[0]` and `lon[0]`, and its pop-up shows the row's LAC and CID as numbers that read back exactly |
| `Pipeline.MarkerUsesFirstCaptures` | project_GSM.py:188-191 | only `lat[0]` and `lon[0]` reach the marker; `self.lat.extend(self.lon)` leaves `lat[0]` in front |
| `Pipeline.ReplyTo` | project_GSM.py:180-184 | a row's reply is missing exactly when the request or its decoding raised |
| `Pipeline.RepliesOf` | project_GSM.py:180-184 | a row's reply is missing exactly when fetching its request URL raised; otherwise it holds the latitude and longitude captures of the decoded body |
| `Pipeline.Located` | project_GSM.py:185-190 | a row yields a marker exactly when its lookup answered and both capture lists are non-empty; the marker is at the first latitude and longitude captures |
| `Pipeline.LocatedFromAnswer` | project_GSM.py:183-190 | an answered row is located exactly when both capture lists are non-empty; its marker has the first captures and the pop-up built from them |
| `Pipeline.LocatedMarkers` | project_GSM.py:179-191 | the rows yield at most one marker each |
| `Pipeline.LocatedMarkersAppend` | project_GSM.py:179-191 | the markers of two batches of rows are those of the first, then those of the second |
| `Pipeline.SkippedRowAddsNothing` | project_GSM.py:185-187 | a row that is not located contributes nothing: the rows around it yield the same markers without it |
| `Pipeline.AllLocated` | project_GSM.py:179-191 | the marker count equals the row count exactly when every row is located |
| `Pipeline.Answer` | project_GSM.py:183-191 | one pass keeps the captures in `self.lat`/`self.lon`; it adds a marker and a location iff both lists are non-empty; a skipped row leaves `self.lat` as captured, and a located row leaves it extended by the longitude captures |
| `Pipeline.Step` | project_GSM.py:180-191 | one pass fails exactly when the lookup raised; otherwise it sets `self.lon` to the longitude captures and places at most one marker, after those already placed |
| `Pipeline.StepPlacesLocated` | project_GSM.py:179-191 | a pass fails exactly when the lookup raised; otherwise it adds the row's marker, if it has one, after those already placed |
| `Pipeline.RunRows` | project_GSM.py:179-191 | the loop only appends markers, at most one per row, and counts one location per marker |
| `Pipeline.RunCompletes` | project_GSM.py:179-192 | the loop reaches `writehtml` exactly when every lookup answers |
| `Pipeline.RunPlacesLocatedMarkers` | project_GSM.py:179-191 | a completed loop places exactly the markers of the located rows, in row order, and counts one location each |
| `Pipeline.RunStopsAtFirstFailure` | project_GSM.py:179-192 | a failed loop stopped at a row whose lookup raised, after every earlier row answered; the markers placed before it stay |
| `Pipeline.FailedRunStays` | project_GSM.py:179-192 | after a lookup raises, the remaining rows change nothing |
| `Pipeline.SourceOf` | project_GSM.py:176-179 | a chosen file is read through its escaped path and is unreadable exactly when the reader raises, otherwise its rows are used; with no file chosen the rows loaded before are used, and with none loaded the rows are missing |
| `Pipeline.NavigationBar.constructor` | project_GSM.py:130-157 | the page is the preamble, the counter is 0, no spreadsheet is loaded, and 'IR-MCI' (code 11) is selected |
| `Pipeline.NavigationBar.Select` | project_GSM.py:170-171 | a radio button stores one of the menu's carriers |
| `Pipeline.NavigationBar.AddMarker` | project_GSM.py:199-202 | the counter grows by exactly 1; the old page is a strict prefix of the new one; the appended statement uses `lat[0]`, `lon[0]` and the new counter as the marker's number |
| `Pipeline.NavigationBar.WriteHtml` | project_GSM.py:204-208 | the closing tail is appended, and the page returned is the whole text |
| `Pipeline.NavigationBar.ExcelRead` | project_GSM.py:195-197 | the reader gets the escaped path; on success `listdata` holds its rows, and on failure nothing changes |
| `Pipeline.NavigationBar.PlacedSince` | project_GSM.py:199-202 | after markers ms are placed, the page and the counter show exactly them |
| `Pipeline.NavigationBar.PlaceAnswer` | project_GSM.py:183-191 | one loop pass in place agrees with `Answer`; a row with an empty capture list leaves the page and the counter unchanged |
| `Pipeline.NavigationBar.PlaceRows` | project_GSM.py:179-191 | the loop in place agrees with `RunRows`: the counter grows by the number of markers, and the page gains their statements with consecutive numbers |
| `Pipeline.NavigationBar.LocateAndWrite` | project_GSM.py:179-192 | the loop followed by `writehtml`, or the exception of the first lookup that raises, with the markers placed so far kept |
| `Pipeline.NavigationBar.OpenFile` | project_GSM.py:175-192 | chosen file or rows loaded before; read failure and missing rows change nothing; otherwise the loop, then the closing tail unless a lookup raised |
| `Pipeline.Rerun` | project_GSM.py:175-192 | with the dialog cancelled and every lookup answering, the page gains the located rows' markers, numbered on from the counter, and one closing tail |
| `Pipeline.RerunTwice` | project_GSM.py:204-208 | a second run appends its markers and a second tail after the first page, numbering on from the first run; the first page is a strict prefix of the second |

## Left out

- The Tk window, menus and geometry (project_GSM.py:27-77, 160-173). Only the radio buttons' effect, storing a carrier name, is modelled (`Select`).
- The embedded browser, its message loop and `reload` (project_GSM.py:80-124, 193, 214-242). These are foreign library calls.
- `requests.get` and `.decode()`. They become the `fetch` parameter. The program never checks the HTTP status, and neither does the model.
- `pandas.read_excel` and `to_records`. They become the `read` parameter, and each record is two `int` columns. Text or float cells, and their printed forms, are not modelled.
- Opening, truncating, writing and closing `mymap.html` (project_GSM.py:209-212). `WriteHtml` returns the text that would be written.
- The `print` of a skipped row (project_GSM.py:186).
- `self.listlocations`. It only ever receives `None`, so it is modelled as its length.
- `self.lat` and `self.lon` before the first lookup. The program never sets them before then; they start as empty lists here.
- Pipeline.Rerun: requires every lookup to answer. A rerun with a raising lookup is covered by `OpenFile`.
- Pipeline.RerunTwice: requires every lookup to answer, as `Rerun` does.

Behaviour of the code worth knowing:

- A raising lookup ends the run. No `try` surrounds `requests.get` (project_GSM.py:180-182), so the exception leaves `openfile`. Markers placed before it stay in `htmlcode`, and no closing tail is written.
- A second run appends to the page. Nothing resets `htmlcode` or `count_marker`, so a second run appends its markers, numbered on from the first run, and a second closing tail.
- A cancelled dialog still runs the loop, over the rows loaded before. `self.listdata` is only set in `excelread` (project_GSM.py:197); with no rows loaded it does not exist and `openfile` raises.
- `findall` can report an empty capture right after a non-empty one on the same line: on `Lat=Lat= Lon` it reports `Lat=` and then the empty string. An empty match may start where a non-empty match ended.
