/**
  Text helpers shared by the lookup URL and the marker pop-up: Python's
  `sep.join(parts)` and `s.split(c)`, and the text before or after the first
  occurrence of a character.  The lemmas say when splitting undoes joining;
  the last three are facts about concatenation the page proofs cite.
 */
module Text {

  /** The text before the first c, or all of s when c does not occur. */
  function Before(s: string, c: char): (r: string)
    ensures r <= s && c !in r
  {
    if s == [] || s[0] == c then [] else [s[0]] + Before(s[1..], c)
  }

  /** The text after the first c, or "" when c does not occur. */
  function After(s: string, c: char): (r: string)
    ensures |r| < |s| || r == []
  {
    if s == [] then [] else if s[0] == c then s[1..] else After(s[1..], c)
  }

  /** s cut at every occurrence of sep (Python's `s.split(sep)`). */
  function Split(s: string, sep: char): (parts: seq<string>)
    ensures |parts| > 0
  {
    if s == [] then [""]
    else
      var rest := Split(s[1..], sep);
      if s[0] == sep then [""] + rest else [[s[0]] + rest[0]] + rest[1..]
  }

  /** The parts with sep between each two neighbours (Python's `sep.join(parts)`). */
  function Join(parts: seq<string>, sep: string): string
    requires |parts| > 0
    decreases |parts|
  {
    if |parts| == 1 then parts[0] else parts[0] + sep + Join(parts[1..], sep)
  }

  lemma {:induction false} BeforeAfterAt(a: string, c: char, b: string)
    requires c !in a
    ensures Before(a + [c] + b, c) == a && After(a + [c] + b, c) == b
  {
    if a != [] {
      assert (a + [c] + b)[1..] == a[1..] + [c] + b;
      BeforeAfterAt(a[1..], c, b);
    }
  }

  /** Text without c in front does not change what follows the first c. */
  lemma {:induction false} AfterPrefix(p: string, c: char, s: string)
    requires c !in p
    ensures After(p + s, c) == After(s, c)
  {
    if p != [] {
      assert (p + s)[1..] == p[1..] + s;
      AfterPrefix(p[1..], c, s);
    } else {
      assert p + s == s;
    }
  }

  lemma {:induction false} SplitNoSep(a: string, sep: char)
    requires sep !in a
    ensures Split(a, sep) == [a]
  {
    if a != [] {
      assert sep !in a[1..];
      SplitNoSep(a[1..], sep);
      assert [a[0]] + a[1..] == a;
    }
  }

  lemma {:induction false} SplitAt(a: string, sep: char, b: string)
    requires sep !in a
    ensures Split(a + [sep] + b, sep) == [a] + Split(b, sep)
  {
    if a == [] {
      assert (a + [sep] + b)[1..] == b;
    } else {
      assert (a + [sep] + b)[1..] == a[1..] + [sep] + b;
      assert sep !in a[1..];
      SplitAt(a[1..], sep, b);
      assert [a[0]] + a[1..] == a;
    }
  }

  /** Text in front of the first part is text in front of the whole join. */
  lemma JoinPrefix(p: string, parts: seq<string>, sep: string)
    requires |parts| > 0
    ensures Join([p + parts[0]] + parts[1..], sep) == p + Join(parts, sep)
  {
    var moved := [p + parts[0]] + parts[1..];
    if |parts| > 1 {
      assert moved[1..] == parts[1..];
    }
  }

  /**
    Splitting a join at the first character c of its separator gives back the
    parts, each but the first behind the rest of the separator, as far as the
    parts hold no c; all of them when none does.
   */
  lemma {:induction false} SplitJoin(parts: seq<string>, c: char, tail: string, k: nat)
    requires k < |parts|
    requires c !in tail
    requires forall j :: 0 <= j <= k ==> c !in parts[j]
    ensures var pieces := Split(Join(parts, [c] + tail), c);
      && |pieces| > k
      && pieces[0] == parts[0]
      && (forall j :: 1 <= j <= k ==> pieces[j] == tail + parts[j])
      && (k == |parts| - 1 ==> |pieces| == |parts|)
    decreases |parts|
  {
    var sep := [c] + tail;
    if |parts| == 1 {
      SplitNoSep(parts[0], c);
    } else {
      var rest := Join(parts[1..], sep);
      assert Join(parts, sep) == parts[0] + [c] + (tail + rest);
      SplitAt(parts[0], c, tail + rest);
      var pieces := Split(Join(parts, sep), c);
      assert pieces == [parts[0]] + Split(tail + rest, c);
      if k > 0 {
        var moved := [tail + parts[1]] + parts[2..];
        JoinPrefix(tail, parts[1..], sep);
        assert parts[1..][1..] == parts[2..];
        forall j | 0 <= j <= k - 1
          ensures c !in moved[j]
        {
          if j > 0 {
            assert moved[j] == parts[j + 1];
          }
        }
        SplitJoin(moved, c, tail, k - 1);
        forall j | 2 <= j <= k
          ensures pieces[j] == tail + parts[j]
        {
          assert moved[j - 1] == parts[j];
        }
      }
    }
  }

  // ----- concatenation -----

  lemma AppendEmpty<T>(a: seq<T>)
    ensures a + [] == a
  {
  }

  lemma AppendAssoc<T>(a: seq<T>, b: seq<T>, c: seq<T>)
    ensures a + b + c == a + (b + c)
  {
  }

  lemma ProperPrefix<T>(a: seq<T>, b: seq<T>)
    requires b != []
    ensures a < a + b
  {
  }
}
