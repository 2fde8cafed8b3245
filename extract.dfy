/**
  The two coordinate extractions of `openfile` (project_GSM.py:183-184):
  `re.findall('(?<=Lat=)(.*)(?= Lon)', body)` and
  `re.findall('(?<=Lon=)(.*)(?=</a><br/>)', body)`.

  Both have the shape `(?<=pre)(.*)(?=post)`.  The scan below follows the
  regular-expression engine: it tries positions from left to right; a match
  at p needs `pre` to end at p; the greedy `.*` runs to the end of p's line
  (`.` does not match '\n') and backs off to the LAST place on that line where
  `post` begins; the next attempt starts where the match ended; right after an
  empty match no second empty match is taken at the same place.
 */
module Extract {
  import opened Options

  /** The lookbehind `(?<=pre)` holds at p: pre ends right before position p. */
  predicate Behind(s: string, p: nat, pre: string) {
    |pre| <= p <= |s| && s[p - |pre|..p] == pre
  }

  /** The lookahead `(?=post)` holds at q: post begins at position q. */
  predicate Ahead(s: string, q: nat, post: string) {
    q + |post| <= |s| && s[q..q + |post|] == post
  }

  /** The end of the line holding position p: the first '\n' at or after p, or |s|. */
  function LineEnd(s: string, p: nat): (e: nat)
    requires p <= |s|
    ensures p <= e <= |s|
    ensures forall k :: p <= k < e ==> s[k] != '\n'
    ensures e < |s| ==> s[e] == '\n'
    decreases |s| - p
  {
    if p == |s| || s[p] == '\n' then p else LineEnd(s, p + 1)
  }

  /** The last q in [lo, hi] where post begins. */
  function LastAhead(s: string, lo: nat, hi: nat, post: string): (r: Option<nat>)
    ensures r.Some? ==> lo <= r.value <= hi && Ahead(s, r.value, post)
    ensures r.Some? ==> forall q :: r.value < q <= hi ==> !Ahead(s, q, post)
    ensures r.None? ==> forall q :: lo <= q <= hi ==> !Ahead(s, q, post)
    decreases hi
  {
    if hi < lo then None
    else if Ahead(s, hi, post) then Some(hi)
    else if hi == 0 then None
    else LastAhead(s, lo, hi - 1, post)
  }

  /** The text matched by the group: from start to end. */
  datatype Span = Span(start: nat, end: nat)

  /**
    sp is a match of `(?<=pre)(.*)(?=post)` as the greedy engine takes it:
    pre ends at start, post begins at end, no line break lies in between, and
    post begins nowhere later on that line.
   */
  predicate IsMatch(s: string, sp: Span, pre: string, post: string) {
    && sp.start <= sp.end <= |s|
    && Behind(s, sp.start, pre)
    && Ahead(s, sp.end, post)
    && sp.end <= LineEnd(s, sp.start)
    && forall q :: sp.end < q <= LineEnd(s, sp.start) ==> !Ahead(s, q, post)
  }

  /** Some match can start at p: pre ends at p and post begins later on the same line. */
  predicate Opens(s: string, p: nat, pre: string, post: string) {
    Behind(s, p, pre) && exists q :: p <= q <= LineEnd(s, p) && Ahead(s, q, post)
  }

  /** The end of the match attempted at p, if the attempt succeeds with at least minLen characters. */
  function MatchEnd(s: string, p: nat, pre: string, post: string, minLen: nat): (r: Option<nat>)
    requires p <= |s|
    ensures r.Some? ==> IsMatch(s, Span(p, r.value), pre, post) && p + minLen <= r.value
    ensures r.None? ==> !Behind(s, p, pre) || forall q :: p + minLen <= q <= LineEnd(s, p) ==> !Ahead(s, q, post)
  {
    if Behind(s, p, pre) then LastAhead(s, p + minLen, LineEnd(s, p), post) else None
  }

  /**
    Each span ends before the next begins and no span is repeated: the only
    way two consecutive spans could be equal is as two empty matches at one place.
   */
  predicate Chained(spans: seq<Span>) {
    forall i :: 0 <= i < |spans| - 1 ==> spans[i].end <= spans[i + 1].start && spans[i] != spans[i + 1]
  }

  lemma ChainedCons(sp: Span, rest: seq<Span>)
    requires Chained(rest)
    requires rest != [] ==> sp.end <= rest[0].start && sp != rest[0]
    ensures Chained([sp] + rest)
  {
    forall i | 0 <= i < |rest|
      ensures ([sp] + rest)[i + 1] == rest[i]
    {
    }
  }

  /**
    The matches `findall` reports from position p on; afterEmpty says the
    previous match was empty and ended at p, so the attempt at p must not be
    empty again.
   */
  function Scan(s: string, p: nat, afterEmpty: bool, pre: string, post: string): (spans: seq<Span>)
    requires p <= |s|
    ensures forall i :: 0 <= i < |spans| ==> IsMatch(s, spans[i], pre, post) && p <= spans[i].start
    ensures Chained(spans)
    ensures afterEmpty && spans != [] && spans[0].start == p ==> p < spans[0].end
    decreases |s| - p, if afterEmpty then 0 else 1
  {
    match MatchEnd(s, p, pre, post, if afterEmpty then 1 else 0)
    case Some(q) =>
      var rest := Scan(s, q, q == p, pre, post);
      ChainedCons(Span(p, q), rest);
      [Span(p, q)] + rest
    case None => if p == |s| then [] else Scan(s, p + 1, false, pre, post)
  }

  /**
    `re.findall('(?<=pre)(.*)(?=post)', s)`: the group's text of every match,
    in order.  Each capture is the text of a greedy match.
   */
  function FindAll(s: string, pre: string, post: string): (caps: seq<string>)
    ensures forall k :: 0 <= k < |caps| ==> exists sp :: IsMatch(s, sp, pre, post) && caps[k] == s[sp.start..sp.end]
  {
    var spans := Scan(s, 0, false, pre, post);
    seq(|spans|, k requires 0 <= k < |spans| => s[spans[k].start..spans[k].end])
  }

  /**
    `self.lat`: the latitude captures of a lookup response.  There are none
    exactly when no line of the response has `Lat=` followed, later on that
    line, by ` Lon`.
   */
  function Lats(body: string): (lats: seq<string>)
    ensures lats == [] <==> forall p :: 0 <= p <= |body| ==> !Opens(body, p, "Lat=", " Lon")
  {
    FindAllEmptyIff(body, "Lat=", " Lon");
    FindAll(body, "Lat=", " Lon")
  }

  /**
    `self.lon`: the longitude captures of a lookup response.  There are none
    exactly when no line of the response has `Lon=` followed, later on that
    line, by `</a><br/>`.
   */
  function Lons(body: string): (lons: seq<string>)
    ensures lons == [] <==> forall p :: 0 <= p <= |body| ==> !Opens(body, p, "Lon=", "</a><br/>")
  {
    FindAllEmptyIff(body, "Lon=", "</a><br/>");
    FindAll(body, "Lon=", "</a><br/>")
  }

  lemma {:induction false} LineEndSame(s: string, p: nat, p': nat)
    requires p <= |s| && p <= p' <= LineEnd(s, p)
    ensures LineEnd(s, p') == LineEnd(s, p)
    decreases p' - p
  {
    if p < p' {
      LineEndSame(s, p + 1, p');
    }
  }

  lemma NoLineBreakWithin(s: string, a: nat, b: nat)
    requires a <= b <= |s| && b <= LineEnd(s, a)
    ensures '\n' !in s[a..b]
  {
    forall j | 0 <= j < b - a
      ensures s[a..b][j] != '\n'
    {
      assert s[a..b][j] == s[a + j];
    }
  }

  /**
    Every capture lies within one line, pre stands immediately before it in s
    and post immediately after it.
   */
  lemma CaptureInContext(s: string, pre: string, post: string, k: nat)
    requires k < |FindAll(s, pre, post)|
    ensures var c := FindAll(s, pre, post)[k];
      && '\n' !in c
      && exists p: nat, q: nat :: p <= q <= |s| && Behind(s, p, pre) && s[p..q] == c && Ahead(s, q, post)
  {
    var sp := CaptureSpan(s, pre, post, k);
    NoLineBreakWithin(s, sp.start, sp.end);
    assert Behind(s, sp.start, pre) && s[sp.start..sp.end] == FindAll(s, pre, post)[k] && Ahead(s, sp.end, post);
  }

  /** The span behind the k-th capture. */
  lemma CaptureSpan(s: string, pre: string, post: string, k: nat) returns (sp: Span)
    requires k < |FindAll(s, pre, post)|
    ensures IsMatch(s, sp, pre, post) && FindAll(s, pre, post)[k] == s[sp.start..sp.end]
  {
    sp := Scan(s, 0, false, pre, post)[k];
  }

  /** Opens is exactly "the attempt at p succeeds". */
  lemma MatchEndOpens(s: string, p: nat, pre: string, post: string)
    requires p <= |s|
    ensures MatchEnd(s, p, pre, post, 0).Some? <==> Opens(s, p, pre, post)
  {
    var r := MatchEnd(s, p, pre, post, 0);
    if r.Some? {
      assert p <= r.value <= LineEnd(s, p) && Ahead(s, r.value, post);
    }
  }

  /** The scan passes over no position where a match could start. */
  lemma {:induction false} ScanSkipsNothing(s: string, p: nat, afterEmpty: bool, pre: string, post: string)
    requires p <= |s|
    ensures var spans := Scan(s, p, afterEmpty, pre, post);
      && (spans == [] || p < spans[0].start ==> MatchEnd(s, p, pre, post, if afterEmpty then 1 else 0).None?)
      && forall q :: p < q <= |s| && (spans == [] || q < spans[0].start) ==> MatchEnd(s, q, pre, post, 0).None?
    decreases |s| - p, if afterEmpty then 0 else 1
  {
    var m := MatchEnd(s, p, pre, post, if afterEmpty then 1 else 0);
    if m.None? && p < |s| {
      ScanSkipsNothing(s, p + 1, false, pre, post);
    }
  }

  /** findall finds nothing exactly when no line has pre followed, later on that line, by post. */
  lemma FindAllEmptyIff(s: string, pre: string, post: string)
    ensures FindAll(s, pre, post) == [] <==> forall p :: 0 <= p <= |s| ==> !Opens(s, p, pre, post)
  {
    var spans := Scan(s, 0, false, pre, post);
    ScanSkipsNothing(s, 0, false, pre, post);
    forall p | 0 <= p <= |s| {
      MatchEndOpens(s, p, pre, post);
    }
    if spans != [] {
      var sp := spans[0];
      assert IsMatch(s, sp, pre, post);
      assert Opens(s, sp.start, pre, post);
      assert |FindAll(s, pre, post)| == |spans|;
    }
  }

  /**
    The first capture (the `lat[0]` / `lon[0]` the program uses) is the match
    at the earliest position where one can start, running to the last post on
    that line.
   */
  lemma FirstCaptureIsEarliest(s: string, pre: string, post: string)
    requires FindAll(s, pre, post) != []
    ensures exists sp :: IsMatch(s, sp, pre, post) && FindAll(s, pre, post)[0] == s[sp.start..sp.end]
                         && forall p :: 0 <= p < sp.start ==> !Opens(s, p, pre, post)
  {
    var spans := Scan(s, 0, false, pre, post);
    ScanSkipsNothing(s, 0, false, pre, post);
    forall p | 0 <= p <= |s| {
      MatchEndOpens(s, p, pre, post);
    }
    var sp := spans[0];
    assert IsMatch(s, sp, pre, post) && FindAll(s, pre, post)[0] == s[sp.start..sp.end];
  }

  /** A match that starts after another ends, on the same line, is the empty match right where the first ended. */
  lemma NextMatchSameLine(s: string, a: Span, b: Span, pre: string, post: string)
    requires IsMatch(s, a, pre, post) && IsMatch(s, b, pre, post) && a.end <= b.start
    requires b.start <= LineEnd(s, a.start)
    ensures a.end == b.start == b.end
  {
    LineEndSame(s, a.start, b.start);
  }

  /**
    Consecutive matches lie on different lines, except that an empty match may
    follow a non-empty one right where it ended (as in "Lat=Lat= Lon").  So a
    line yields at most one non-empty capture.
   */
  lemma OneNonEmptyMatchPerLine(s: string, p: nat, afterEmpty: bool, pre: string, post: string, i: nat)
    requires p <= |s|
    requires i + 1 < |Scan(s, p, afterEmpty, pre, post)|
    ensures var spans := Scan(s, p, afterEmpty, pre, post);
      || spans[i + 1].start > LineEnd(s, spans[i].start)
      || (spans[i].start < spans[i].end == spans[i + 1].start == spans[i + 1].end)
  {
    var spans := Scan(s, p, afterEmpty, pre, post);
    if spans[i + 1].start <= LineEnd(s, spans[i].start) {
      NextMatchSameLine(s, spans[i], spans[i + 1], pre, post);
    }
  }
}
