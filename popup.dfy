/**
  The pop-up text of a marker (project_GSM.py:189-190): the country code, the
  operator's network code, LAC and CID of the row, a blank line, and the first
  latitude and longitude captures, one per line, the lines separated by
  `<br>` breaks.  Read back, the text after each break's '<' names its value
  before a ':'.
 */
module Popup {
  import opened Options
  import opened Decimal
  import opened Text

  /** The line break of the pop-up. */
  const Br: string := "<br>"

  /** A line of the pop-up: a name, ':', the value. */
  function Entry(name: string, value: string): string {
    name + ":" + value
  }

  /** The lines of the pop-up of a located row, top to bottom; the fifth is the blank line of `<br><br>`. */
  function InformationLines(mnc: int, lac: int, cid: int, lat: string, lon: string): seq<string> {
    [Entry("MCC", "432"), Entry("MNC", IntToString(mnc)), Entry("LAC", IntToString(lac)), Entry("CID", IntToString(cid)),
     "", Entry("lat", lat), Entry("lon", lon)]
  }

  /**
    The `information` string `openfile` formats for a located row.  Cut at
    '<', it gives back its MCC line, then its MNC, LAC and CID lines, each
    behind the "br>" that remains of the break in front of it.
   */
  function Information(mnc: int, lac: int, cid: int, lat: string, lon: string): (info: string)
    ensures var pieces := Pieces(info);
      var lines := InformationLines(mnc, lac, cid, lat, lon);
      && |pieces| > 3 && pieces[0] == lines[0]
      && pieces[1] == "br>" + lines[1] && pieces[2] == "br>" + lines[2] && pieces[3] == "br>" + lines[3]
  {
    LinesHaveNoAngle(mnc, lac, cid, lat, lon, 3);
    assert Br == ['<'] + "br>";
    SplitJoin(InformationLines(mnc, lac, cid, lat, lon), '<', "br>", 3);
    Join(InformationLines(mnc, lac, cid, lat, lon), Br)
  }

  /** The pieces of a pop-up between its '<' characters. */
  function Pieces(info: string): seq<string> {
    Split(info, '<')
  }

  /** The value shown in piece k of a pop-up: the text after its first ':'. */
  function Field(info: string, k: nat): Option<string> {
    var pieces := Pieces(info);
    if k < |pieces| then Some(After(pieces[k], ':')) else None
  }

  /** The value of a line, read after the rest of the break in front of it. */
  lemma EntryValue(name: string, value: string)
    requires ':' !in name
    ensures After(Entry(name, value), ':') == value
    ensures After("br>" + Entry(name, value), ':') == value
  {
    BeforeAfterAt(name, ':', value);
    AfterPrefix("br>", ':', Entry(name, value));
  }

  lemma NumberHasNoAngle(i: int)
    ensures '<' !in IntToString(i) && ':' !in IntToString(i)
  {
  }

  /** No line of a pop-up holds a '<' of its own, as far as the captured coordinates hold none. */
  lemma LinesHaveNoAngle(mnc: int, lac: int, cid: int, lat: string, lon: string, k: nat)
    requires k < 7
    requires k >= 5 ==> '<' !in lat && '<' !in lon
    ensures forall j :: 0 <= j <= k ==> '<' !in InformationLines(mnc, lac, cid, lat, lon)[j]
  {
    var lines := InformationLines(mnc, lac, cid, lat, lon);
    NumberHasNoAngle(mnc);
    NumberHasNoAngle(lac);
    NumberHasNoAngle(cid);
    assert '<' !in lines[0] && '<' !in lines[1] && '<' !in lines[2] && '<' !in lines[3];
  }

  /** The pop-up shows the country code 432 and the row's network code, LAC and CID as numbers that read back exactly. */
  lemma InformationNumbers(mnc: int, lac: int, cid: int, lat: string, lon: string)
    ensures var info := Information(mnc, lac, cid, lat, lon);
      && Field(info, 0) == Some("432")
      && Field(info, 1).Some? && ParseInt(Field(info, 1).value) == Some(mnc)
      && Field(info, 2).Some? && ParseInt(Field(info, 2).value) == Some(lac)
      && Field(info, 3).Some? && ParseInt(Field(info, 3).value) == Some(cid)
  {
    EntryValue("MCC", "432");
    EntryValue("MNC", IntToString(mnc));
    EntryValue("LAC", IntToString(lac));
    EntryValue("CID", IntToString(cid));
    IntRoundTrip(mnc);
    IntRoundTrip(lac);
    IntRoundTrip(cid);
  }

  /** When the captured coordinates hold no '<', the pop-up has exactly seven pieces and shows them as captured. */
  lemma InformationCoordinates(mnc: int, lac: int, cid: int, lat: string, lon: string)
    requires '<' !in lat && '<' !in lon
    ensures var info := Information(mnc, lac, cid, lat, lon);
      |Pieces(info)| == 7 && Field(info, 5) == Some(lat) && Field(info, 6) == Some(lon)
  {
    var lines := InformationLines(mnc, lac, cid, lat, lon);
    LinesHaveNoAngle(mnc, lac, cid, lat, lon, 6);
    assert Br == ['<'] + "br>";
    SplitJoin(lines, '<', "br>", 6);
    EntryValue("lat", lat);
    EntryValue("lon", lon);
  }
}
