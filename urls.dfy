/**
  The lookup request of `openfile` (project_GSM.py:180-182): a GET on the
  cell search endpoint with the query `mcc=432&mnc=<code>&lac=<lac>&cid=<cid>`.
  The query reader below is the usual meaning of such a URL (text after '?',
  pairs split at '&', key and value split at the first '='); the lemmas show
  the four parameters come back as the numbers that were formatted in.
 */
module Urls {
  import opened Options
  import opened Decimal
  import opened Text

  /** The cell search service: its site, then the path of the search script. */
  const Endpoint: string := "https://cellphonetrackers.org" + "/gsm/classes/" + "Cell.Search.php"

  /** The mobile country code, fixed in the URL text. */
  const Mcc: int := 432

  /** A `key=value` query parameter. */
  function Param(key: string, value: string): string {
    key + "=" + value
  }

  /** The parameters of the lookup for one spreadsheet row, in URL order. */
  function LookupParams(mnc: int, lac: int, cid: int): seq<string> {
    [Param("mcc", "432"), Param("mnc", IntToString(mnc)), Param("lac", IntToString(lac)), Param("cid", IntToString(cid))]
  }

  /**
    The URL `openfile` requests for one spreadsheet row: a GET on the cell
    search endpoint whose query, the text after the first '?', is the four
    parameters joined by '&'.
   */
  function LookupUrl(mnc: int, lac: int, cid: int): (url: string)
    ensures url == Endpoint + "?" + Query(url)
    ensures Query(url) == Join(LookupParams(mnc, lac, cid), "&")
  {
    EndpointHasNoQuery();
    BeforeAfterAt(Endpoint, '?', Join(LookupParams(mnc, lac, cid), "&"));
    Endpoint + "?" + Join(LookupParams(mnc, lac, cid), "&")
  }

  /** The text after the first '?', or "" when there is none. */
  function Query(url: string): string {
    After(url, '?')
  }

  /** A `key=value` pair; a pair without '=' has an empty value. */
  function KeyValue(pair: string): (string, string) {
    (Before(pair, '='), After(pair, '='))
  }

  /** The value of the first parameter named key. */
  function Lookup(pairs: seq<string>, key: string): Option<string> {
    if pairs == [] then None
    else if KeyValue(pairs[0]).0 == key then Some(KeyValue(pairs[0]).1)
    else Lookup(pairs[1..], key)
  }

  /** The integer value of query parameter key of url, if it has one. */
  function IntParam(url: string, key: string): Option<int> {
    match Lookup(Split(Query(url), '&'), key)
    case Some(v) => ParseInt(v)
    case None => None
  }

  lemma EndpointHasNoQuery()
    ensures '?' !in Endpoint
  {
    assert '?' !in "https://cellphonetrackers.org";
    assert '?' !in "/gsm/classes/";
    assert '?' !in "Cell.Search.php";
  }

  lemma KeyValueOf(key: string, value: string)
    requires '=' !in key
    ensures KeyValue(Param(key, value)) == (key, value)
  {
    BeforeAfterAt(key, '=', value);
  }

  lemma NumberHasNoSeparator(i: int)
    ensures '&' !in IntToString(i) && '=' !in IntToString(i) && '?' !in IntToString(i)
  {
  }

  /** The query of a lookup URL is exactly its four `key=value` parameters, in order. */
  lemma LookupUrlPairs(mnc: int, lac: int, cid: int)
    ensures Split(Query(LookupUrl(mnc, lac, cid)), '&') == LookupParams(mnc, lac, cid)
  {
    var params := LookupParams(mnc, lac, cid);
    NumberHasNoSeparator(mnc);
    NumberHasNoSeparator(lac);
    NumberHasNoSeparator(cid);
    assert "&" == ['&'] + "";
    SplitJoin(params, '&', "", 3);
    var pieces := Split(Join(params, "&"), '&');
    forall j | 1 <= j <= 3
      ensures pieces[j] == params[j]
    {
      assert "" + params[j] == params[j];
    }
  }

  lemma LookupPairs(k1: string, v1: string, k2: string, v2: string, k3: string, v3: string, k4: string, v4: string)
    requires '=' !in k1 && '=' !in k2 && '=' !in k3 && '=' !in k4
    requires k1 != k2 && k1 != k3 && k1 != k4 && k2 != k3 && k2 != k4 && k3 != k4
    ensures var pairs := [Param(k1, v1), Param(k2, v2), Param(k3, v3), Param(k4, v4)];
      && Lookup(pairs, k1) == Some(v1) && Lookup(pairs, k2) == Some(v2)
      && Lookup(pairs, k3) == Some(v3) && Lookup(pairs, k4) == Some(v4)
  {
    var pairs := [Param(k1, v1), Param(k2, v2), Param(k3, v3), Param(k4, v4)];
    KeyValueOf(k1, v1);
    KeyValueOf(k2, v2);
    KeyValueOf(k3, v3);
    KeyValueOf(k4, v4);
    assert Lookup(pairs[3..], k4) == Some(v4);
    assert Lookup(pairs[2..], k3) == Some(v3);
    assert Lookup(pairs[2..], k4) == Some(v4);
    assert Lookup(pairs[1..], k2) == Some(v2);
  }

  /** The value of each query parameter of a lookup URL, as text. */
  lemma LookupUrlValues(mnc: int, lac: int, cid: int)
    ensures var pairs := Split(Query(LookupUrl(mnc, lac, cid)), '&');
      && Lookup(pairs, "mcc") == Some("432")
      && Lookup(pairs, "mnc") == Some(IntToString(mnc))
      && Lookup(pairs, "lac") == Some(IntToString(lac))
      && Lookup(pairs, "cid") == Some(IntToString(cid))
  {
    LookupUrlPairs(mnc, lac, cid);
    LookupPairs("mcc", "432", "mnc", IntToString(mnc), "lac", IntToString(lac), "cid", IntToString(cid));
  }

  /**
    Every request carries mcc=432, the operator's network code as mnc, the
    row's second column as lac and its first column as cid.
   */
  lemma LookupUrlParams(mnc: int, lac: int, cid: int)
    ensures IntParam(LookupUrl(mnc, lac, cid), "mcc") == Some(Mcc)
    ensures IntParam(LookupUrl(mnc, lac, cid), "mnc") == Some(mnc)
    ensures IntParam(LookupUrl(mnc, lac, cid), "lac") == Some(lac)
    ensures IntParam(LookupUrl(mnc, lac, cid), "cid") == Some(cid)
  {
    LookupUrlValues(mnc, lac, cid);
    Literal432();
    IntRoundTrip(mnc);
    IntRoundTrip(lac);
    IntRoundTrip(cid);
  }
}
