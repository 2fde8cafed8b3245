/**
  The path handed to the spreadsheet reader: `excelread` doubles every
  backslash of the chosen file name (project_GSM.py:196).
 */
module Paths {

  const Backslash: char := '\\'

  /** Number of backslashes in s. */
  function Backslashes(s: string): nat {
    if s == [] then 0 else (if s[0] == Backslash then 1 else 0) + Backslashes(s[1..])
  }

  /** `filename.replace('\\', '\\\\')`: each backslash becomes two, every other character is kept. */
  function EscapePath(path: string): (r: string)
    ensures |r| == |path| + Backslashes(path)
    ensures Backslashes(r) == 2 * Backslashes(path)
  {
    if path == [] then []
    else (if path[0] == Backslash then [Backslash, Backslash] else [path[0]]) + EscapePath(path[1..])
  }

  /** Reads each doubled backslash back as one. */
  function UnescapePath(s: string): string {
    if s == [] then []
    else if |s| >= 2 && s[0] == Backslash && s[1] == Backslash then [Backslash] + UnescapePath(s[2..])
    else [s[0]] + UnescapePath(s[1..])
  }

  /** Escaping loses nothing: the original file name is recovered from the escaped path. */
  lemma {:induction false} EscapeRoundTrip(path: string)
    ensures UnescapePath(EscapePath(path)) == path
  {
    if path != [] {
      var rest := EscapePath(path[1..]);
      EscapeRoundTrip(path[1..]);
      if path[0] == Backslash {
        assert ([Backslash, Backslash] + rest)[2..] == rest;
      } else {
        assert ([path[0]] + rest)[1..] == rest;
      }
    }
  }

  /** A path without backslashes is passed on unchanged. */
  lemma {:induction false} EscapeWithoutBackslash(path: string)
    requires Backslash !in path
    ensures EscapePath(path) == path
  {
    if path != [] {
      assert Backslash !in path[1..];
      EscapeWithoutBackslash(path[1..]);
    }
  }
}
