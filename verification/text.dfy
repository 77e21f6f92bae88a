/** The Python string operations the header resolver uses: str.strip,
    str.strip(chars), str.rstrip(chars), str.split(sep) and sep.join. */
module Text {

  /** str.isspace for one character: the characters str.strip() removes by default. */
  predicate IsSpace(c: char)
  {
    || c == ' ' || ('\t' <= c <= '\r')
    || ('\U{1C}' <= c <= '\U{1F}') || c == '\U{85}' || c == '\U{A0}' || c == '\U{1680}'
    || ('\U{2000}' <= c <= '\U{200A}') || c == '\U{2028}' || c == '\U{2029}' || c == '\U{202F}'
    || c == '\U{205F}' || c == '\U{3000}'
  }

  predicate IsNul(c: char)
  {
    c == '\0'
  }

  /** Membership in '0123456789'. */
  predicate IsDigit(c: char)
  {
    '0' <= c <= '9'
  }

  /** s.lstrip(chars): drop the longest prefix whose characters all satisfy drop. */
  function TrimStart(s: string, drop: char -> bool): (r: string)
    ensures |r| <= |s| && r == s[|s| - |r|..]
    ensures forall i :: 0 <= i < |s| - |r| ==> drop(s[i])
    ensures |r| == 0 || !drop(r[0])
  {
    if |s| > 0 && drop(s[0]) then
      var r := TrimStart(s[1..], drop);
      assert forall i :: 1 <= i < |s| - |r| ==> s[i] == s[1..][i - 1];
      r
    else s
  }

  /** s.rstrip(chars): drop the longest suffix whose characters all satisfy drop. */
  function TrimEnd(s: string, drop: char -> bool): (r: string)
    ensures |r| <= |s| && r == s[..|r|]
    ensures forall i :: |r| <= i < |s| ==> drop(s[i])
    ensures |r| == 0 || !drop(r[|r| - 1])
  {
    if |s| > 0 && drop(s[|s| - 1]) then TrimEnd(s[..|s| - 1], drop) else s
  }

  /** s.strip(chars): both ends. */
  function Trim(s: string, drop: char -> bool): (r: string)
    ensures |r| == 0 || (!drop(r[0]) && !drop(r[|r| - 1]))
  {
    TrimEnd(TrimStart(s, drop), drop)
  }

  /** A string with nothing to strip at either end. */
  predicate Trimmed(s: string, drop: char -> bool)
  {
    |s| == 0 || (!drop(s[0]) && !drop(s[|s| - 1]))
  }

  /** Stripping a string that has nothing to strip leaves it alone. */
  lemma TrimOfTrimmed(s: string, drop: char -> bool)
    requires Trimmed(s, drop)
    ensures Trim(s, drop) == s
  {
  }

  /** str.split(sep): at least one part; parts contain no separator. */
  function Split(s: string, sep: char): (parts: seq<string>)
    ensures |parts| >= 1
    ensures forall i :: 0 <= i < |parts| ==> sep !in parts[i]
    decreases |s|
  {
    if sep !in s then [s]
    else
      var i := IndexOf(s, sep);
      [s[..i]] + Split(s[i + 1..], sep)
  }

  /** Position of the first occurrence of c in s. */
  function IndexOf(s: string, c: char): (i: nat)
    requires c in s
    ensures i < |s| && s[i] == c && c !in s[..i]
  {
    if s[0] == c then 0 else 1 + IndexOf(s[1..], c)
  }

  /** sep.join(parts). */
  function Join(parts: seq<string>, sep: char): string
  {
    if |parts| == 0 then ""
    else if |parts| == 1 then parts[0]
    else parts[0] + [sep] + Join(parts[1..], sep)
  }

  lemma JoinCons(part: string, rest: seq<string>, sep: char)
    requires |rest| >= 1
    ensures Join([part] + rest, sep) == part + [sep] + Join(rest, sep)
  {
    assert ([part] + rest)[1..] == rest;
  }

  lemma Reassemble(s: string, i: nat)
    requires i < |s|
    ensures s[..i] + [s[i]] + s[i + 1..] == s
  {
  }

  /** Splitting then joining restores the text. */
  lemma {:induction false} JoinSplit(s: string, sep: char)
    ensures Join(Split(s, sep), sep) == s
    decreases |s|
  {
    if sep in s {
      var i := IndexOf(s, sep);
      var rest := Split(s[i + 1..], sep);
      JoinSplit(s[i + 1..], sep);
      JoinCons(s[..i], rest, sep);
      Reassemble(s, i);
    }
  }

  /** Joining separator-free parts then splitting restores the parts. */
  lemma {:induction false} SplitJoin(parts: seq<string>, sep: char)
    requires |parts| >= 1
    requires forall i :: 0 <= i < |parts| ==> sep !in parts[i]
    ensures Split(Join(parts, sep), sep) == parts
  {
    if |parts| == 1 {
    } else {
      var tail := Join(parts[1..], sep);
      var s := parts[0] + [sep] + tail;
      assert sep in s by { assert s[|parts[0]|] == sep; }
      var i := IndexOf(s, sep);
      assert s[..|parts[0]|] == parts[0];
      assert i == |parts[0]|;
      assert s[..i] == parts[0];
      assert s[i + 1..] == tail;
      SplitJoin(parts[1..], sep);
    }
  }
}
