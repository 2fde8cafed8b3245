/**
  The tower-to-marker pipeline of `NavigationBar` (project_GSM.py:156-208):
  `openfile` loads a spreadsheet of (cid, lac) rows, looks each row up at the
  cell search service under the selected operator's network code, and places a
  marker on the page for every row whose answer carries both a latitude and a
  longitude; then the page is closed and written out.

  The network round trip is the parameter `fetch` (the decoded body of a GET,
  or None where `requests.get` or `.decode()` raises) and the spreadsheet
  reader is the parameter `read` (the records of the file at a path, or None
  where `pandas.read_excel` raises).
 */
module Pipeline {
  import opened Options
  import opened Text
  import opened Decimal
  import opened Operators
  import opened Urls
  import opened Extract
  import opened Paths
  import opened MapDocument
  import opened Popup

  /** One spreadsheet record: `data[0]` is the cell id, `data[1]` the location area code. */
  datatype Row = Row(cid: int, lac: int)

  /** The decoded body of a GET on a URL, or None when the request or the decoding raises. */
  type Fetch = string -> Option<string>

  /** The records of the spreadsheet at a path, or None when reading it raises. */
  type Reader = string -> Option<seq<Row>>

  /**
    The lookup request for a row under network code mnc: the row's second
    column goes out as lac and its first as cid.
   */
  function RequestFor(mnc: int, row: Row): (url: string)
    ensures IntParam(url, "mcc") == Some(Mcc) && IntParam(url, "mnc") == Some(mnc)
    ensures IntParam(url, "lac") == Some(row.lac) && IntParam(url, "cid") == Some(row.cid)
  {
    LookupUrlParams(mnc, row.lac, row.cid);
    LookupUrl(mnc, row.lac, row.cid)
  }

  /**
    The marker for a located row: at the first latitude and longitude
    captures, with a pop-up that shows the row's LAC and CID.
   */
  function MarkerOf(mnc: int, row: Row, lats: seq<string>, lons: seq<string>): (m: Marker)
    requires |lats| > 0 && |lons| > 0
    ensures m.lat == lats[0] && m.lon == lons[0]
    ensures Field(m.info, 2).Some? && ParseInt(Field(m.info, 2).value) == Some(row.lac)
    ensures Field(m.info, 3).Some? && ParseInt(Field(m.info, 3).value) == Some(row.cid)
  {
    InformationNumbers(mnc, row.lac, row.cid, lats[0], lons[0]);
    Marker(lats[0], lons[0], Information(mnc, row.lac, row.cid, lats[0], lons[0]))
  }

  /**
    Only the first capture of each list reaches the marker: further captures
    are ignored, and `self.lat.extend(self.lon)` leaves the first latitude in
    front.
   */
  lemma MarkerUsesFirstCaptures(mnc: int, row: Row, lats: seq<string>, lons: seq<string>)
    requires |lats| > 0 && |lons| > 0
    ensures MarkerOf(mnc, row, lats, lons) == MarkerOf(mnc, row, lats[..1], lons[..1])
    ensures MarkerOf(mnc, row, lats + lons, lons) == MarkerOf(mnc, row, lats, lons)
  {
  }

  // ----- what a lookup gives the loop -----

  /** The outcome of one row's lookup: it raised, or it answered and these are the captures of the answer. */
  datatype Reply = Unanswered | Captured(lats: seq<string>, lons: seq<string>)

  /** The reply each row gets. */
  type Replies = Row -> Reply

  /** The captures of a decoded answer, or Unanswered when the lookup raised. */
  function ReplyTo(response: Option<string>): (r: Reply)
    ensures r.Unanswered? <==> response.None?
  {
    match response
    case None => Unanswered
    case Some(body) => Captured(Lats(body), Lons(body))
  }

  /** The reply of every row under network code mnc: the captures of the answer to its lookup URL. */
  function RepliesOf(mnc: int, fetch: Fetch): (replies: Replies)
    ensures forall row :: replies(row).Unanswered? <==> fetch(RequestFor(mnc, row)).None?
    ensures forall row :: fetch(RequestFor(mnc, row)).Some? ==>
      replies(row) == Captured(Lats(fetch(RequestFor(mnc, row)).value), Lons(fetch(RequestFor(mnc, row)).value))
  {
    row => ReplyTo(fetch(RequestFor(mnc, row)))
  }

  // ----- reference: which rows produce which markers -----

  /**
    The marker a row yields: None when its lookup raised or the answer lacks a
    latitude or a longitude; otherwise the marker at the first captures.
   */
  function Located(mnc: int, row: Row, replies: Replies): (r: Option<Marker>)
    ensures r.Some? <==> replies(row).Captured? && |replies(row).lats| > 0 && |replies(row).lons| > 0
    ensures r.Some? ==> r.value.lat == replies(row).lats[0] && r.value.lon == replies(row).lons[0]
  {
    match replies(row)
    case Unanswered => None
    case Captured(lats, lons) => if |lats| == 0 || |lons| == 0 then None else Some(MarkerOf(mnc, row, lats, lons))
  }

  /**
    A row whose lookup answers is located exactly when the answer has a
    latitude and a longitude capture, and its marker is at the first of each.
   */
  lemma LocatedFromAnswer(mnc: int, row: Row, fetch: Fetch, body: string)
    requires fetch(RequestFor(mnc, row)) == Some(body)
    ensures Located(mnc, row, RepliesOf(mnc, fetch)).Some? <==> |Lats(body)| > 0 && |Lons(body)| > 0
    ensures Located(mnc, row, RepliesOf(mnc, fetch)).Some? ==>
      var m := Located(mnc, row, RepliesOf(mnc, fetch)).value;
      m.lat == Lats(body)[0] && m.lon == Lons(body)[0]
      && m.info == Information(mnc, row.lac, row.cid, Lats(body)[0], Lons(body)[0])
  {
    assert RepliesOf(mnc, fetch)(row) == Captured(Lats(body), Lons(body));
  }

  /** The markers one row yields: its marker when it is located, none otherwise. */
  function MarkersAt(mnc: int, row: Row, replies: Replies): seq<Marker> {
    match Located(mnc, row, replies)
    case Some(m) => [m]
    case None => []
  }

  /** The markers of the located rows, in row order. */
  function LocatedMarkers(mnc: int, rows: seq<Row>, replies: Replies): (ms: seq<Marker>)
    ensures |ms| <= |rows|
  {
    if rows == [] then []
    else MarkersAt(mnc, rows[0], replies) + LocatedMarkers(mnc, rows[1..], replies)
  }

  /** Every lookup of rows gets an answer (none raises). */
  predicate Answered(rows: seq<Row>, replies: Replies) {
    forall k :: 0 <= k < |rows| ==> replies(rows[k]).Captured?
  }

  lemma {:induction false} LocatedMarkersAppend(mnc: int, rows1: seq<Row>, rows2: seq<Row>, replies: Replies)
    ensures LocatedMarkers(mnc, rows1 + rows2, replies) == LocatedMarkers(mnc, rows1, replies) + LocatedMarkers(mnc, rows2, replies)
    decreases |rows1|
  {
    if rows1 == [] {
      assert rows1 + rows2 == rows2;
    } else {
      var rows := rows1 + rows2;
      assert rows[0] == rows1[0];
      assert rows[1..] == rows1[1..] + rows2;
      LocatedMarkersAppend(mnc, rows1[1..], rows2, replies);
      AppendAssoc(MarkersAt(mnc, rows1[0], replies), LocatedMarkers(mnc, rows1[1..], replies), LocatedMarkers(mnc, rows2, replies));
    }
  }

  /** A row that is not located contributes nothing: the rows around it yield the same markers without it. */
  lemma SkippedRowAddsNothing(mnc: int, before: seq<Row>, row: Row, after: seq<Row>, replies: Replies)
    requires Located(mnc, row, replies).None?
    ensures LocatedMarkers(mnc, before + [row] + after, replies) == LocatedMarkers(mnc, before + after, replies)
  {
    LocatedMarkersAppend(mnc, before + [row], after, replies);
    LocatedMarkersAppend(mnc, before, [row], replies);
    LocatedMarkersAppend(mnc, before, after, replies);
  }

  /** Every row is located exactly when each yields a marker. */
  lemma {:induction false} AllLocated(mnc: int, rows: seq<Row>, replies: Replies)
    ensures |LocatedMarkers(mnc, rows, replies)| == |rows|
        <==> forall k :: 0 <= k < |rows| ==> Located(mnc, rows[k], replies).Some?
  {
    if rows != [] {
      AllLocated(mnc, rows[1..], replies);
      if Located(mnc, rows[0], replies).Some? {
        forall k | 0 < k < |rows| ensures rows[k] == rows[1..][k - 1] { }
      }
    }
  }

  // ----- the loop of `openfile`, row by row -----

  /** What the loop carries from row to row: the markers placed, `self.lat`, `self.lon` and `len(self.listlocations)`. */
  datatype Progress = Progress(markers: seq<Marker>, lat: seq<string>, lon: seq<string>, located: nat)

  /** The loop body once the lookup of row has answered with these captures. */
  function Answer(mnc: int, row: Row, lats: seq<string>, lons: seq<string>, pr: Progress): (r: Progress)
    ensures var located := if |lats| == 0 || |lons| == 0 then [] else [MarkerOf(mnc, row, lats, lons)];
      && r.markers == pr.markers + located
      && r.located == pr.located + |located|
      && r.lon == lons
      && (located == [] ==> r.lat == lats)
      && (located != [] ==> r.lat == lats + lons)
  {
    if |lats| == 0 || |lons| == 0 then pr.(lat := lats, lon := lons)
    else Progress(pr.markers + [MarkerOf(mnc, row, lats, lons)], lats + lons, lons, pr.located + 1)
  }

  /** A pass adds its marker after those already placed; the rest of what it leaves does not depend on them. */
  lemma AnswerAfter(mnc: int, row: Row, lats: seq<string>, lons: seq<string>, pr: Progress)
    ensures var a := Answer(mnc, row, lats, lons, pr);
      var b := Answer(mnc, row, lats, lons, Progress([], pr.lat, pr.lon, pr.located));
      a.lat == b.lat && a.lon == b.lon && a.located == b.located && a.markers == pr.markers + b.markers
  {
  }

  /**
    One pass of the loop body; None when the lookup raised.  A pass that
    answers sets `self.lon` to the longitude captures and places at most one
    marker, after those already placed.
   */
  function Step(mnc: int, row: Row, replies: Replies, pr: Progress): (r: Option<Progress>)
    ensures r.None? <==> replies(row).Unanswered?
    ensures r.Some? ==> r.value.lon == replies(row).lons
    ensures r.Some? ==> pr.markers <= r.value.markers && |r.value.markers| <= |pr.markers| + 1
  {
    match replies(row)
    case Unanswered => None
    case Captured(lats, lons) => Some(Answer(mnc, row, lats, lons, pr))
  }

  /** A pass adds the row's marker, if it has one, after those already placed. */
  lemma StepPlacesLocated(mnc: int, row: Row, replies: Replies, pr: Progress)
    ensures Step(mnc, row, replies, pr).None? <==> replies(row).Unanswered?
    ensures Step(mnc, row, replies, pr).Some? ==>
      var located := MarkersAt(mnc, row, replies);
      && Step(mnc, row, replies, pr).value.markers == pr.markers + located
      && Step(mnc, row, replies, pr).value.located == pr.located + |located|
  {
  }

  /** Where the loop stands after some rows: its progress, and whether a lookup raised and ended it. */
  datatype Run = Run(progress: Progress, failed: bool)

  /**
    The loop over rows from start: it stops at the first lookup that raises.
    It only appends markers, at most one per row, and counts one location per
    marker.
   */
  function RunRows(mnc: int, rows: seq<Row>, replies: Replies, start: Progress): (run: Run)
    ensures start.markers <= run.progress.markers
    ensures |run.progress.markers| <= |start.markers| + |rows|
    ensures run.progress.located - start.located == |run.progress.markers| - |start.markers|
    decreases |rows|
  {
    if rows == [] then Run(start, false)
    else
      var before := RunRows(mnc, rows[..|rows| - 1], replies, start);
      if before.failed then before
      else match Step(mnc, rows[|rows| - 1], replies, before.progress)
        case None => Run(before.progress, true)
        case Some(p) => Run(p, false)
  }

  /** A non-empty list of rows is its rows but the last, then the last. */
  lemma LastRow(rows: seq<Row>)
    requires rows != []
    ensures rows == rows[..|rows| - 1] + [rows[|rows| - 1]]
  {
  }

  /** The loop runs to completion exactly when every lookup gets an answer. */
  lemma {:induction false} RunCompletes(mnc: int, rows: seq<Row>, replies: Replies, start: Progress)
    ensures !RunRows(mnc, rows, replies, start).failed <==> Answered(rows, replies)
    decreases |rows|
  {
    if rows != [] {
      var init := rows[..|rows| - 1];
      var last := rows[|rows| - 1];
      RunCompletes(mnc, init, replies, start);
      LastRow(rows);
      if RunRows(mnc, init, replies, start).failed {
        var k :| 0 <= k < |init| && replies(init[k]).Unanswered?;
        assert rows[k] == init[k];
      } else if replies(last).Unanswered? {
        assert rows[|rows| - 1] == last;
      } else {
        assert Answered(rows, replies);
      }
    }
  }

  /**
    Run to completion, the loop places exactly the markers of the located rows,
    in row order, and counts one location per marker.
   */
  lemma {:induction false} RunPlacesLocatedMarkers(mnc: int, rows: seq<Row>, replies: Replies, start: Progress)
    requires !RunRows(mnc, rows, replies, start).failed
    ensures var run := RunRows(mnc, rows, replies, start);
      && run.progress.markers == start.markers + LocatedMarkers(mnc, rows, replies)
      && run.progress.located == start.located + |LocatedMarkers(mnc, rows, replies)|
    decreases |rows|
  {
    if rows != [] {
      var init := rows[..|rows| - 1];
      var last := rows[|rows| - 1];
      var before := RunRows(mnc, init, replies, start);
      RunPlacesLocatedMarkers(mnc, init, replies, start);
      LastRow(rows);
      var located := MarkersAt(mnc, last, replies);
      StepPlacesLocated(mnc, last, replies, before.progress);
      LocatedMarkersAppend(mnc, init, [last], replies);
      assert LocatedMarkers(mnc, [last], replies) == located;
      AppendAssoc(start.markers, LocatedMarkers(mnc, init, replies), located);
    }
  }

  /** The lookup of row j raises, all before it answer, and the loop ends with the progress it had before row j. */
  predicate FailsAt(mnc: int, rows: seq<Row>, replies: Replies, start: Progress, j: int) {
    && 0 <= j < |rows|
    && replies(rows[j]).Unanswered?
    && Answered(rows[..j], replies)
    && RunRows(mnc, rows, replies, start) == Run(RunRows(mnc, rows[..j], replies, start).progress, true)
  }

  /**
    When a lookup raises, the loop ends there: the markers of the located rows
    before it stay placed and no later row is looked up.
   */
  lemma {:induction false} RunStopsAtFirstFailure(mnc: int, rows: seq<Row>, replies: Replies, start: Progress)
    requires RunRows(mnc, rows, replies, start).failed
    ensures exists j :: FailsAt(mnc, rows, replies, start, j)
    decreases |rows|
  {
    var init := rows[..|rows| - 1];
    var before := RunRows(mnc, init, replies, start);
    if before.failed {
      RunStopsAtFirstFailure(mnc, init, replies, start);
      var j :| FailsAt(mnc, init, replies, start, j);
      assert init[..j] == rows[..j];
      assert rows[j] == init[j];
      assert FailsAt(mnc, rows, replies, start, j);
    } else {
      RunCompletes(mnc, init, replies, start);
      assert rows[..|rows| - 1] == init;
      assert FailsAt(mnc, rows, replies, start, |rows| - 1);
    }
  }

  /** One more row whose lookup answers: the loop takes one pass on the captures. */
  lemma RunRowsAnswered(mnc: int, rows: seq<Row>, i: nat, replies: Replies, start: Progress)
    requires i < |rows|
    requires !RunRows(mnc, rows[..i], replies, start).failed
    requires replies(rows[i]).Captured?
    ensures RunRows(mnc, rows[..i + 1], replies, start)
         == Run(Answer(mnc, rows[i], replies(rows[i]).lats, replies(rows[i]).lons, RunRows(mnc, rows[..i], replies, start).progress), false)
  {
    assert rows[..i + 1][..i] == rows[..i] && rows[..i + 1][i] == rows[i];
  }

  /** One more row whose lookup raises: the loop ends where it stood. */
  lemma RunRowsRaised(mnc: int, rows: seq<Row>, i: nat, replies: Replies, start: Progress)
    requires i < |rows|
    requires !RunRows(mnc, rows[..i], replies, start).failed
    requires replies(rows[i]).Unanswered?
    ensures RunRows(mnc, rows[..i + 1], replies, start) == Run(RunRows(mnc, rows[..i], replies, start).progress, true)
  {
    assert rows[..i + 1][..i] == rows[..i] && rows[..i + 1][i] == rows[i];
  }

  /** Once the loop has ended on a raising lookup, the remaining rows change nothing. */
  lemma {:induction false} FailedRunStays(mnc: int, rows: seq<Row>, i: nat, replies: Replies, start: Progress)
    requires i <= |rows|
    requires RunRows(mnc, rows[..i], replies, start).failed
    ensures RunRows(mnc, rows, replies, start) == RunRows(mnc, rows[..i], replies, start)
    decreases |rows| - i
  {
    if i < |rows| {
      assert rows[..i + 1][..i] == rows[..i];
      FailedRunStays(mnc, rows, i + 1, replies, start);
    } else {
      assert rows[..i] == rows;
    }
  }

  // ----- the page owner -----

  /** How `openfile` ends: the page text written out, or the exception that ended it. */
  datatype Outcome = Written(page: string) | Raised(error: Error)

  datatype Error =
    | ReadFailed     // `pandas.read_excel` raised on the chosen file
    | NoSpreadsheet  // no file chosen and none loaded before: `self.listdata` does not exist
    | LookupFailed   // a lookup request or its decoding raised

  /** Where the rows of an `openfile` call come from. */
  datatype Source = Unreadable | NoRows | Rows(rows: seq<Row>)

  /** A chosen file is read (its path escaped); with no file chosen, the rows loaded before are used again. */
  function SourceOf(listdata: Option<seq<Row>>, filename: string, read: Reader): (src: Source)
    ensures filename != "" ==> (src.Unreadable? <==> read(EscapePath(filename)).None?)
    ensures filename != "" && src.Rows? ==> read(EscapePath(filename)) == Some(src.rows)
    ensures filename == "" ==> (src.NoRows? <==> listdata.None?)
    ensures filename == "" && src.Rows? ==> listdata == Some(src.rows)
    ensures src.Unreadable? ==> filename != ""
  {
    if filename != "" then
      match read(EscapePath(filename))
      case None => Unreadable
      case Some(rows) => Rows(rows)
    else
      match listdata
      case None => NoRows
      case Some(rows) => Rows(rows)
  }

  class NavigationBar {
    /** The page built so far. */
    var htmlcode: string
    /** Markers placed so far; the last marker placed is named after it. */
    var countMarker: nat
    /** The carrier chosen in the "MNC" menu. */
    var selected: string
    /** The rows of the last spreadsheet read, once one has been. */
    var listdata: Option<seq<Row>>
    /** The latitude captures of the last answer, followed by its longitude captures once the row was located. */
    var lat: seq<string>
    /** The longitude captures of the last answer. */
    var lon: seq<string>
    /** Length of `self.listlocations`, which receives one `None` per located row. */
    var listlocations: nat
    /** What has happened to the page. */
    ghost var events: seq<Event>
    /** The text the page was created with: the preamble. */
    ghost const head: string

    /** The page is the preamble followed by what happened to it, and the counter is the number of markers on it. */
    ghost predicate Valid()
      reads this`htmlcode, this`countMarker, this`events
    {
      && htmlcode == head + Render(events)
      && countMarker == MarkerCount(events)
    }

    /** The selection is one of the menu's carriers: only the menu's radio buttons set it. */
    predicate MenuChoice()
      reads this`selected
    {
      selected in Menu
    }

    constructor()
      ensures Valid() && MenuChoice()
      ensures htmlcode == Preamble && head == Preamble && countMarker == 0 && events == []
      ensures selected == DefaultOperator && Code(selected) == 11
      ensures listdata == None && lat == [] && lon == [] && listlocations == 0
    {
      AppendEmpty(Preamble);
      head := Preamble;
      htmlcode := Preamble;
      countMarker := 0;
      selected := DefaultOperator;
      listdata := None;
      lat := [];
      lon := [];
      listlocations := 0;
      events := [];
    }

    /** A radio button of the "MNC" menu stores its carrier name. */
    method Select(name: string)
      requires name in Menu
      modifies this`selected
      ensures MenuChoice() && selected == name
    {
      selected := name;
    }

    /** `add_marker`: count one more marker and append its statement, named after the new count. */
    method AddMarker(lats: seq<string>, lons: seq<string>, info: string)
      requires Valid()
      requires |lats| > 0 && |lons| > 0
      modifies this`htmlcode, this`countMarker, this`events
      ensures Valid()
      ensures countMarker == old(countMarker) + 1
      ensures htmlcode == old(htmlcode) + MarkerStatement(Marker(lats[0], lons[0], info), countMarker)
      ensures old(htmlcode) < htmlcode
      ensures events == old(events) + [Placed(Marker(lats[0], lons[0], info))]
    {
      var m := Marker(lats[0], lons[0], info);
      var statement := MarkerStatement(m, countMarker + 1);
      ghost var placed := events + [Placed(m)];
      PlaceOnto(head, events, m);
      StatementNonEmpty(m, countMarker + 1);
      ProperPrefix(htmlcode, statement);
      assert htmlcode + statement == head + Render(placed) && countMarker + 1 == MarkerCount(placed);
      countMarker := countMarker + 1;
      htmlcode := htmlcode + statement;
      events := placed;
    }

    /** `writehtml`: append the closing tail; the page text is what goes to the file. */
    method WriteHtml() returns (page: string)
      requires Valid()
      modifies this`htmlcode, this`events
      ensures Valid()
      ensures htmlcode == old(htmlcode) + ClosingTail && page == htmlcode
      ensures events == old(events) + [Closed]
    {
      RenderClosed(events);
      AppendAssoc(head, Render(events), ClosingTail);
      htmlcode := htmlcode + ClosingTail;
      events := events + [Closed];
      page := htmlcode;
    }

    /** `excelread`: read the spreadsheet at the escaped path; on failure nothing changes. */
    method ExcelRead(filename: string, read: Reader) returns (ok: bool)
      modifies this`listdata
      ensures ok <==> read(EscapePath(filename)).Some?
      ensures listdata == if ok then read(EscapePath(filename)) else old(listdata)
    {
      var records := read(EscapePath(filename));
      if records.None? {
        return false;
      }
      listdata := records;
      ok := true;
    }

    /** Once markers ms are placed after events0, the page and the counter show them. */
    lemma PlacedSince(events0: seq<Event>, ms: seq<Marker>)
      requires Valid() && events == events0 + Placements(ms)
      ensures htmlcode == head + Render(events0) + Fragments(ms, MarkerCount(events0))
      ensures countMarker == MarkerCount(events0) + |ms|
    {
      RenderPlacements(events0, ms);
      AppendAssoc(head, Render(events0), Fragments(ms, MarkerCount(events0)));
    }

    /**
      The `openfile` loop body once the lookup of row under network code mnc
      has answered with these captures: keep them in `self.lat` and
      `self.lon`, and place a marker when both are non-empty.
     */
    method PlaceAnswer(mnc: int, row: Row, lats: seq<string>, lons: seq<string>)
      requires Valid()
      modifies this`lat, this`lon, this`listlocations, this`htmlcode, this`countMarker, this`events
      ensures Valid()
      ensures var p := Answer(mnc, row, lats, lons, Progress([], old(lat), old(lon), old(listlocations)));
        && lat == p.lat && lon == p.lon && listlocations == p.located
        && events == old(events) + Placements(p.markers)
      ensures |lats| == 0 || |lons| == 0 ==> htmlcode == old(htmlcode) && countMarker == old(countMarker)
    {
      ghost var p := Answer(mnc, row, lats, lons, Progress([], lat, lon, listlocations));
      lat := lats;
      lon := lons;
      if |lat| > 0 && |lon| > 0 {
        ghost var m := MarkerOf(mnc, row, lats, lons);
        assert p == Progress([m], lats + lons, lons, listlocations + 1);
        listlocations := listlocations + 1;
        lat := lat + lon;
        var info := Information(mnc, row.lac, row.cid, lat[0], lon[0]);
        assert m == Marker(lat[0], lon[0], info);
        AddMarker(lat, lon, info);
        assert Placements([m]) == [Placed(m)];
      } else {
        assert p.markers == [] && p.located == listlocations;
        assert Placements([]) == [];
        AppendEmpty(events);
      }
    }

    /**
      The loop of `openfile` over rows under network code mnc: one lookup
      (`replies`) and one pass per row, ending early when a lookup raises.
     */
    method PlaceRows(mnc: int, rows: seq<Row>, replies: Replies) returns (failed: bool)
      requires Valid()
      modifies this`lat, this`lon, this`listlocations, this`htmlcode, this`countMarker, this`events
      ensures Valid()
      ensures var run := RunRows(mnc, rows, replies, Progress([], old(lat), old(lon), old(listlocations)));
        var ms := run.progress.markers;
        && failed == run.failed
        && lat == run.progress.lat && lon == run.progress.lon && listlocations == run.progress.located
        && countMarker == old(countMarker) + |ms|
        && htmlcode == old(htmlcode) + Fragments(ms, old(countMarker))
        && events == old(events) + Placements(ms)
    {
      ghost var start := Progress([], lat, lon, listlocations);
      ghost var events0 := events;
      var i := 0;
      while i < |rows|
        invariant i <= |rows|
        invariant Valid()
        invariant var run := RunRows(mnc, rows[..i], replies, start);
          && !run.failed
          && lat == run.progress.lat && lon == run.progress.lon && listlocations == run.progress.located
          && events == events0 + Placements(run.progress.markers)
      {
        ghost var before := RunRows(mnc, rows[..i], replies, start).progress;
        var reply := replies(rows[i]);
        if reply.Unanswered? {
          RunRowsRaised(mnc, rows, i, replies, start);
          FailedRunStays(mnc, rows, i + 1, replies, start);
          PlacedSince(events0, before.markers);
          return true;
        }
        RunRowsAnswered(mnc, rows, i, replies, start);
        ghost var added := Answer(mnc, rows[i], reply.lats, reply.lons, Progress([], before.lat, before.lon, before.located));
        AnswerAfter(mnc, rows[i], reply.lats, reply.lons, before);
        PlaceAnswer(mnc, rows[i], reply.lats, reply.lons);
        PlacementsAppend(before.markers, added.markers);
        AppendAssoc(events0, Placements(before.markers), Placements(added.markers));
        i := i + 1;
      }
      assert rows[..i] == rows;
      PlacedSince(events0, RunRows(mnc, rows, replies, start).progress.markers);
      failed := false;
    }

    /**
      The rest of `openfile` once the rows are loaded: the loop over them
      under network code mnc, then `writehtml` unless a lookup raised.
     */
    method LocateAndWrite(mnc: int, rows: seq<Row>, replies: Replies) returns (outcome: Outcome)
      requires Valid()
      modifies this`lat, this`lon, this`listlocations, this`htmlcode, this`countMarker, this`events
      ensures Valid()
      ensures var run := RunRows(mnc, rows, replies, Progress([], old(lat), old(lon), old(listlocations)));
        var ms := run.progress.markers;
        && lat == run.progress.lat && lon == run.progress.lon && listlocations == run.progress.located
        && countMarker == old(countMarker) + |ms|
        && htmlcode == old(htmlcode) + Fragments(ms, old(countMarker)) + (if run.failed then "" else ClosingTail)
        && events == old(events) + Placements(ms) + (if run.failed then [] else [Closed])
        && outcome == (if run.failed then Raised(LookupFailed) else Written(htmlcode))
    {
      ghost var run := RunRows(mnc, rows, replies, Progress([], lat, lon, listlocations));
      ghost var placed := old(htmlcode) + Fragments(run.progress.markers, old(countMarker));
      var failed := PlaceRows(mnc, rows, replies);
      assert htmlcode == placed;
      if failed {
        AppendEmpty(htmlcode);
        AppendEmpty(events);
        return Raised(LookupFailed);
      }
      var page := WriteHtml();
      assert htmlcode == placed + ClosingTail;
      outcome := Written(page);
    }

    /** `openfile` for the file name the dialog returned ("" when it was cancelled). */
    method OpenFile(filename: string, read: Reader, fetch: Fetch) returns (outcome: Outcome)
      requires Valid() && MenuChoice()
      modifies this
      ensures Valid() && selected == old(selected)
      ensures SourceOf(old(listdata), filename, read).Unreadable? ==> outcome == Raised(ReadFailed) && unchanged(this)
      ensures SourceOf(old(listdata), filename, read).NoRows? ==> outcome == Raised(NoSpreadsheet) && unchanged(this)
      ensures SourceOf(old(listdata), filename, read).Rows? ==>
        var rows := SourceOf(old(listdata), filename, read).rows;
        var mnc := Code(old(selected));
        var run := RunRows(mnc, rows, RepliesOf(mnc, fetch), Progress([], old(lat), old(lon), old(listlocations)));
        var ms := run.progress.markers;
        && listdata == Some(rows)
        && lat == run.progress.lat && lon == run.progress.lon && listlocations == run.progress.located
        && countMarker == old(countMarker) + |ms|
        && htmlcode == old(htmlcode) + Fragments(ms, old(countMarker)) + (if run.failed then "" else ClosingTail)
        && events == old(events) + Placements(ms) + (if run.failed then [] else [Closed])
        && outcome == (if run.failed then Raised(LookupFailed) else Written(htmlcode))
    {
      if filename != "" {
        var ok := ExcelRead(filename, read);
        if !ok {
          return Raised(ReadFailed);
        }
      }
      if listdata.None? {
        return Raised(NoSpreadsheet);
      }
      var mnc := Code(selected);
      outcome := LocateAndWrite(mnc, listdata.value, RepliesOf(mnc, fetch));
    }
  }

  /**
    `openfile` with the dialog cancelled, on loaded rows whose every lookup
    answers: the page gets the markers of exactly the located rows, in row
    order, numbered on from the counter, followed by the closing tail.
   */
  method Rerun(nav: NavigationBar, read: Reader, fetch: Fetch) returns (outcome: Outcome)
    requires nav.Valid() && nav.MenuChoice() && nav.listdata.Some?
    requires Answered(nav.listdata.value, RepliesOf(Code(nav.selected), fetch))
    modifies nav
    ensures nav.Valid() && nav.MenuChoice()
    ensures nav.selected == old(nav.selected) && nav.listdata == old(nav.listdata)
    ensures var mnc := Code(old(nav.selected));
      var ms := LocatedMarkers(mnc, old(nav.listdata).value, RepliesOf(mnc, fetch));
      && nav.countMarker == old(nav.countMarker) + |ms|
      && outcome == Written(nav.htmlcode)
      && nav.htmlcode == old(nav.htmlcode) + Fragments(ms, old(nav.countMarker)) + ClosingTail
  {
    ghost var rows, mnc := nav.listdata.value, Code(nav.selected);
    ghost var ms := LocatedMarkers(mnc, rows, RepliesOf(mnc, fetch));
    RunCompletes(mnc, rows, RepliesOf(mnc, fetch), Progress([], nav.lat, nav.lon, nav.listlocations));
    RunPlacesLocatedMarkers(mnc, rows, RepliesOf(mnc, fetch), Progress([], nav.lat, nav.lon, nav.listlocations));
    assert [] + ms == ms;
    assert SourceOf(nav.listdata, "", read) == Rows(rows);
    outcome := nav.OpenFile("", read, fetch);
  }

  /**
    Two reruns in a row: the second looks the same rows up again and appends
    its markers and a second closing tail after the first page, numbering
    them on from the first run's markers.
   */
  method RerunTwice(nav: NavigationBar, read: Reader, fetch: Fetch) returns (first: Outcome, second: Outcome)
    requires nav.Valid() && nav.MenuChoice() && nav.listdata.Some?
    requires Answered(nav.listdata.value, RepliesOf(Code(nav.selected), fetch))
    modifies nav
    ensures var mnc := Code(old(nav.selected));
      var ms := LocatedMarkers(mnc, old(nav.listdata).value, RepliesOf(mnc, fetch));
      && first.Written? && second.Written?
      && first.page == old(nav.htmlcode) + Fragments(ms, old(nav.countMarker)) + ClosingTail
      && second.page == first.page + Fragments(ms, old(nav.countMarker) + |ms|) + ClosingTail
      && first.page < second.page
  {
    ghost var ms := LocatedMarkers(Code(nav.selected), nav.listdata.value, RepliesOf(Code(nav.selected), fetch));
    ghost var c1 := nav.countMarker + |ms|;
    first := Rerun(nav, read, fetch);
    second := Rerun(nav, read, fetch);
    ClosingTailNonEmpty();
    AppendAssoc(first.page, Fragments(ms, c1), ClosingTail);
    ProperPrefix(first.page, Fragments(ms, c1) + ClosingTail);
  }
}
