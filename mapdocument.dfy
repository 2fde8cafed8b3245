/**
  The map page that `NavigationBar` accumulates in `htmlcode`
  (project_GSM.py:130-150, 199-208): a fixed HTML/JavaScript preamble, then
  one Leaflet marker statement per located tower, numbered by `count_marker`,
  and a closing tail each time the page is written out.
 */
module MapDocument {
  import opened Options
  import opened Decimal
  import opened Text

  /** n spaces of indentation. */
  function Indent(n: nat): (r: string)
    ensures |r| == n
  {
    if n == 0 then "" else " " + Indent(n - 1)
  }

  /** The page text `htmlcode` starts with: head, map container and map set-up. */
  const Preamble: string :=
    "<!DOCTYPE html>\n" +
    "                <html lang=\"en\">\n" +
    "                <head>\n" +
    "                    <meta charset=\"UTF-8\">\n" +
    "                    <title>map</title>\n" +
    "                    <meta name=\"viewport\" content=\"width=device-width, initial-scale=1, shrink-to-fit=no\">\n" +
    "                    <link href=\"https://static.neshan.org/sdk/leaflet/1.4.0/leaflet.css\" rel=\"stylesheet\" type=\"text/css\">\n" +
    "                    <script src=\"https://static.neshan.org/sdk/leaflet/1.4.0/leaflet.js\" type=\"text/javascript\"></script>\n" +
    "                </head>\n" +
    "                <body>\n" +
    "                <div id=\"map\" style=\"width: 1340px; height: 700px; background: #eee; border: 2px solid #aaa;\"></div>\n" +
    "                <script type=\"text/javascript\">\n" +
    "                    var myMap = new L.Map('map', {\n" +
    "                        key: 'web.36brwPxDnkFUqnfEXYWIbDM9gKN96y39FfBb48Pr',\n" +
    "                        maptype: 'dreamy',\n" +
    "                        poi: true,\n" +
    "                        traffic: false,\n" +
    "                        center: [32.4971364,54.0498515],\n" +
    "                        zoom: 5.75\n" +
    "                    });\n" +
    "                "

  /** What `writehtml` appends: the end of the script, body and page. */
  const ClosingTail: string :=
    Indent(4) + "\n" + Indent(24) + "</script>\n" + Indent(24) + "</body>\n" + Indent(24) + "</html>"

  /** One tower on the map: its coordinates as captured text and its pop-up text. */
  datatype Marker = Marker(lat: string, lon: string, info: string)

  /** The text that opens every marker statement; the marker's number follows it. */
  const DeclPrefix: string := "\tvar marker"

  /** A marker statement after the number: placement, pop-up, and the indentation for the next one. */
  function StatementRest(m: Marker, id: nat): string {
    " = new L.marker([" + m.lat + "," + m.lon + "]).addTo(myMap);\n"
    + Indent(20) + "marker" + NatToString(id) + ".bindPopup('" + m.info + "').openPopup();\n\t\t\t\t"
  }

  /** What `add_marker` appends for marker m when the counter has just become id. */
  function MarkerStatement(m: Marker, id: nat): string {
    DeclPrefix + NatToString(id) + StatementRest(m, id)
  }

  /** The number of the marker a statement declares, read back from its text. */
  function DeclaredId(statement: string): Option<nat> {
    if |DeclPrefix| <= |statement| && statement[..|DeclPrefix|] == DeclPrefix
    then ParseNat(LeadingDigits(statement[|DeclPrefix|..]))
    else None
  }

  /**
    The statements stmt(m, n) for markers ms placed one after another when the
    counter stood at count: marker k of ms gets number count + k + 1.
   */
  function Numbered(ms: seq<Marker>, count: nat, stmt: (Marker, nat) -> string): string
    decreases |ms|
  {
    if ms == [] then ""
    else Numbered(ms[..|ms| - 1], count, stmt) + stmt(ms[|ms| - 1], count + |ms|)
  }

  /** What `add_marker` appends for markers ms placed in order after count earlier ones. */
  function Fragments(ms: seq<Marker>, count: nat): string {
    Numbered(ms, count, MarkerStatement)
  }

  /** What has happened to the page since it was created. */
  datatype Event = Placed(marker: Marker) | Closed

  /** The events of placing ms, in order. */
  function Placements(ms: seq<Marker>): (events: seq<Event>)
    ensures |events| == |ms|
    ensures forall k :: 0 <= k < |ms| ==> events[k] == Placed(ms[k])
  {
    seq(|ms|, k requires 0 <= k < |ms| => Placed(ms[k]))
  }

  /** Number of markers placed in events: the value `count_marker` has after them. */
  function MarkerCount(events: seq<Event>): nat {
    if events == [] then 0
    else MarkerCount(events[..|events| - 1]) + (if events[|events| - 1].Placed? then 1 else 0)
  }

  /** The text events append: stmt for each placed marker, numbered by the count it brings the counter to, tail for each close. */
  function Rendered(events: seq<Event>, stmt: (Marker, nat) -> string, tail: string): string {
    if events == [] then ""
    else
      var last := events[|events| - 1];
      Rendered(events[..|events| - 1], stmt, tail)
      + (if last.Placed? then stmt(last.marker, MarkerCount(events)) else tail)
  }

  /** The text appended to the preamble by events. */
  function Render(events: seq<Event>): string {
    Rendered(events, MarkerStatement, ClosingTail)
  }

  /** The marker's number can be read back from the statement that declares it. */
  lemma DeclaredIdOf(m: Marker, id: nat)
    ensures DeclaredId(MarkerStatement(m, id)) == Some(id)
  {
    var digits := NatToString(id);
    var rest := StatementRest(m, id);
    var statement := MarkerStatement(m, id);
    assert statement == DeclPrefix + (digits + rest);
    assert statement[|DeclPrefix|..] == digits + rest;
    assert rest[0] == ' ';
    LeadingDigitsOf(digits, rest);
    NatRoundTrip(id);
  }

  /** Statements for different numbers declare different markers. */
  lemma DistinctIdsDistinctStatements(m1: Marker, id1: nat, m2: Marker, id2: nat)
    requires id1 != id2
    ensures MarkerStatement(m1, id1) != MarkerStatement(m2, id2)
  {
    DeclaredIdOf(m1, id1);
    DeclaredIdOf(m2, id2);
  }

  lemma {:induction false} NumberedAppend(ms1: seq<Marker>, ms2: seq<Marker>, count: nat, stmt: (Marker, nat) -> string)
    ensures Numbered(ms1 + ms2, count, stmt) == Numbered(ms1, count, stmt) + Numbered(ms2, count + |ms1|, stmt)
    decreases |ms2|
  {
    if ms2 != [] {
      var init := ms2[..|ms2| - 1];
      assert (ms1 + ms2)[..|ms1 + ms2| - 1] == ms1 + init;
      NumberedAppend(ms1, init, count, stmt);
    } else {
      assert ms1 + ms2 == ms1;
    }
  }

  /** Placing ms1 and then ms2 numbers ms2 on from where ms1 left the counter. */
  lemma FragmentsAppend(ms1: seq<Marker>, ms2: seq<Marker>, count: nat)
    ensures Fragments(ms1 + ms2, count) == Fragments(ms1, count) + Fragments(ms2, count + |ms1|)
  {
    NumberedAppend(ms1, ms2, count, MarkerStatement);
  }

  lemma NumberedKth(ms: seq<Marker>, count: nat, k: nat, stmt: (Marker, nat) -> string)
    requires k < |ms|
    ensures Numbered(ms, count, stmt)
         == Numbered(ms[..k], count, stmt) + stmt(ms[k], count + k + 1) + Numbered(ms[k + 1..], count + k + 1, stmt)
  {
    assert ms == ms[..k] + ([ms[k]] + ms[k + 1..]);
    NumberedAppend(ms[..k], [ms[k]] + ms[k + 1..], count, stmt);
    NumberedAppend([ms[k]], ms[k + 1..], count + k, stmt);
    assert Numbered([ms[k]], count + k, stmt) == stmt(ms[k], count + k + 1);
  }

  /** Marker k of ms gets number count + k + 1, and its statement stands between those of the markers before and after it. */
  lemma FragmentOfKth(ms: seq<Marker>, count: nat, k: nat)
    requires k < |ms|
    ensures Fragments(ms, count)
         == Fragments(ms[..k], count) + MarkerStatement(ms[k], count + k + 1) + Fragments(ms[k + 1..], count + k + 1)
  {
    NumberedKth(ms, count, k, MarkerStatement);
  }

  /** The events of placing ms after events, as events, those of ms but the last, then the last. */
  lemma PlacementsLast(events: seq<Event>, ms: seq<Marker>)
    requires ms != []
    ensures events + Placements(ms) == (events + Placements(ms[..|ms| - 1])) + [Placed(ms[|ms| - 1])]
  {
    var init := ms[..|ms| - 1];
    assert ms == init + [ms[|ms| - 1]];
    PlacementsSnoc(init, ms[|ms| - 1]);
    AppendAssoc(events, Placements(init), [Placed(ms[|ms| - 1])]);
  }

  lemma {:induction false} MarkerCountPlacements(events: seq<Event>, ms: seq<Marker>)
    ensures MarkerCount(events + Placements(ms)) == MarkerCount(events) + |ms|
    decreases |ms|
  {
    if ms == [] {
      assert events + Placements(ms) == events;
    } else {
      var init := ms[..|ms| - 1];
      PlacementsLast(events, ms);
      MarkerCountPlacements(events, init);
      RenderedSnoc(events + Placements(init), Placed(ms[|ms| - 1]), MarkerStatement, ClosingTail);
    }
  }

  lemma NumberedLast(ms: seq<Marker>, count: nat, stmt: (Marker, nat) -> string)
    requires ms != []
    ensures Numbered(ms, count, stmt) == Numbered(ms[..|ms| - 1], count, stmt) + stmt(ms[|ms| - 1], count + |ms|)
  {
  }

  lemma {:induction false} RenderedPlacements(events: seq<Event>, ms: seq<Marker>, stmt: (Marker, nat) -> string, tail: string)
    ensures Rendered(events + Placements(ms), stmt, tail) == Rendered(events, stmt, tail) + Numbered(ms, MarkerCount(events), stmt)
    decreases |ms|
  {
    if ms == [] {
      assert events + Placements(ms) == events;
    } else {
      var init := ms[..|ms| - 1];
      var m := ms[|ms| - 1];
      var count := MarkerCount(events);
      PlacementsLast(events, ms);
      RenderedPlacements(events, init, stmt, tail);
      MarkerCountPlacements(events, init);
      var before := events + Placements(init);
      RenderedSnoc(before, Placed(m), stmt, tail);
      assert MarkerCount(before) + 1 == count + |ms|;
      assert Rendered(before + [Placed(m)], stmt, tail) == Rendered(before, stmt, tail) + stmt(m, count + |ms|);
      NumberedLast(ms, count, stmt);
      AppendAssoc(Rendered(events, stmt, tail), Numbered(init, count, stmt), stmt(m, count + |ms|));
    }
  }

  /** Placing markers on a page adds their statements, numbered on from the page's count. */
  lemma RenderPlacements(events: seq<Event>, ms: seq<Marker>)
    ensures Render(events + Placements(ms)) == Render(events) + Fragments(ms, MarkerCount(events))
    ensures MarkerCount(events + Placements(ms)) == MarkerCount(events) + |ms|
  {
    RenderedPlacements(events, ms, MarkerStatement, ClosingTail);
    MarkerCountPlacements(events, ms);
  }

  lemma PlacementsSnoc(ms: seq<Marker>, m: Marker)
    ensures Placements(ms + [m]) == Placements(ms) + [Placed(m)]
  {
  }

  lemma PlacementsAppend(ms1: seq<Marker>, ms2: seq<Marker>)
    ensures Placements(ms1 + ms2) == Placements(ms1) + Placements(ms2)
  {
  }

  lemma RenderedSnoc(events: seq<Event>, e: Event, stmt: (Marker, nat) -> string, tail: string)
    ensures MarkerCount(events + [e]) == MarkerCount(events) + (if e.Placed? then 1 else 0)
    ensures Rendered(events + [e], stmt, tail)
         == Rendered(events, stmt, tail) + (if e.Placed? then stmt(e.marker, MarkerCount(events) + 1) else tail)
  {
    assert (events + [e])[..|events|] == events;
  }

  /** Placing a marker appends its statement, numbered one past the count so far. */
  lemma RenderPlaced(events: seq<Event>, m: Marker)
    ensures MarkerCount(events + [Placed(m)]) == MarkerCount(events) + 1
    ensures Render(events + [Placed(m)]) == Render(events) + MarkerStatement(m, MarkerCount(events) + 1)
  {
    RenderedSnoc(events, Placed(m), MarkerStatement, ClosingTail);
  }

  /** A page showing events, with the statement of one more marker appended, shows events and that placement. */
  lemma PlaceOnto(head: string, events: seq<Event>, m: Marker)
    ensures MarkerCount(events + [Placed(m)]) == MarkerCount(events) + 1
    ensures head + Render(events) + MarkerStatement(m, MarkerCount(events) + 1) == head + Render(events + [Placed(m)])
  {
    RenderPlaced(events, m);
    AppendAssoc(head, Render(events), MarkerStatement(m, MarkerCount(events) + 1));
  }

  /** Closing the page appends the closing tail and places no marker. */
  lemma RenderClosed(events: seq<Event>)
    ensures MarkerCount(events + [Closed]) == MarkerCount(events)
    ensures Render(events + [Closed]) == Render(events) + ClosingTail
  {
    RenderedSnoc(events, Closed, MarkerStatement, ClosingTail);
  }

  lemma StatementNonEmpty(m: Marker, id: nat)
    ensures MarkerStatement(m, id) != []
  {
  }

  /** The closing tail is not empty, so every `writehtml` call lengthens the page. */
  lemma ClosingTailNonEmpty()
    ensures |ClosingTail| > 0 && ClosingTail[|ClosingTail| - 1] == '>'
  {
  }

  /**
    Writing the page is not idempotent: each `writehtml` appends another
    closing tail, and markers placed afterwards follow that tail, numbered on
    from the markers before it.
   */
  lemma ClosedThenPlaced(events: seq<Event>, ms: seq<Marker>)
    ensures Render(events + [Closed]) != Render(events)
    ensures Render(events + [Closed] + Placements(ms)) == Render(events) + ClosingTail + Fragments(ms, MarkerCount(events))
  {
    RenderClosed(events);
    ClosingTailNonEmpty();
    assert |Render(events + [Closed])| > |Render(events)|;
    RenderPlacements(events + [Closed], ms);
  }
}
