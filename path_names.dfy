/**
 * The string operations both scripts apply to directory entry names and to
 * the confirmation answer: pathlib's `suffix`, `str.lower()` and
 * `str.strip()`.
 */
module PathNames {

  /** Index of the last '.' in `s`, or -1 when there is none (Python's `str.rfind('.')`). */
  function LastDot(s: string): (r: int)
    ensures -1 <= r < |s|
    ensures r >= 0 ==> s[r] == '.'
    ensures forall k :: r < k < |s| ==> s[k] != '.'
  {
    if |s| == 0 then -1
    else if s[|s| - 1] == '.' then |s| - 1
    else LastDot(s[..|s| - 1])
  }

  /**
   * pathlib's `PurePath.suffix`: the text from the last '.' of the name,
   * or "" when the name has no dot, its only dot is the leading one, or it
   * ends in a dot.
   */
  function Suffix(name: string): (ext: string)
    ensures ext != [] ==> |ext| >= 2 && ext[0] == '.' && |ext| < |name| && ext == name[|name| - |ext|..]
    ensures forall k :: 0 < k < |ext| ==> ext[k] != '.'
  {
    var i := LastDot(name);
    if 0 < i < |name| - 1 then name[i..] else []
  }

  predicate NoDotAfter(s: string, k: int)
  {
    forall j :: 0 <= j < |s| && k < j ==> s[j] != '.'
  }

  /** A dot that is neither the first nor the last character, with no dot after it, starts the suffix. */
  lemma SuffixAt(name: string, k: int)
    requires 0 < k < |name| - 1 && name[k] == '.' && NoDotAfter(name, k)
    ensures Suffix(name) == name[k..]
  {
    assert LastDot(name) == k;
  }

  /** Only the last dot counts; a leading dot alone, a trailing dot or no dot gives no suffix. */
  lemma SuffixExamples()
    ensures Suffix("a.tar.gz") == ".gz"
    ensures Suffix(".hidden") == ""
    ensures Suffix("notes.") == ""
    ensures Suffix("README") == ""
  {
    SuffixAt("a.tar.gz", 5);
  }

  /** ASCII lower-casing of one character (`str.lower()` restricted to 'A'..'Z'). */
  function LowerChar(c: char): char
  {
    if 'A' <= c <= 'Z' then (c as int + 32) as char else c
  }

  /** `str.lower()` on ASCII: every upper-case letter replaced by its lower-case form. */
  function Lower(s: string): (r: string)
    ensures |r| == |s|
  {
    if s == [] then [] else Lower(s[..|s| - 1]) + [LowerChar(s[|s| - 1])]
  }

  lemma {:induction false} LowerAt(s: string, k: int)
    requires 0 <= k < |s|
    ensures Lower(s)[k] == LowerChar(s[k])
  {
    if k < |s| - 1 {
      LowerAt(s[..|s| - 1], k);
    }
  }

  /** Lower-casing twice is lower-casing once. */
  lemma {:induction false} LowerIdempotent(s: string)
    ensures Lower(Lower(s)) == Lower(s)
  {
    if s != [] {
      var p := s[..|s| - 1];
      LowerIdempotent(p);
      assert Lower(s)[..|s| - 1] == Lower(p);
    }
  }

  /** The strings that lower-case to "y" are "y" and "Y". */
  lemma LowerIsY(s: string)
    ensures Lower(s) == "y" <==> s == "y" || s == "Y"
  {
    if |s| == 1 {
      LowerAt(s, 0);
      assert s == [s[0]];
      assert Lower(s) == Lower([]) + [LowerChar(s[0])];
    }
  }

  /** The characters Python's `str.isspace()` accepts, which `str.strip()` removes. */
  const Whitespace: set<char> := {
    '\t', '\n', '\U{0b}', '\U{0c}', '\r', '\U{1c}', '\U{1d}', '\U{1e}', '\U{1f}', ' ',
    '\U{85}', '\U{a0}', '\U{1680}', '\U{2000}', '\U{2001}', '\U{2002}', '\U{2003}', '\U{2004}',
    '\U{2005}', '\U{2006}', '\U{2007}', '\U{2008}', '\U{2009}', '\U{200a}', '\U{2028}', '\U{2029}',
    '\U{202f}', '\U{205f}', '\U{3000}'
  }

  predicate AllIn(s: string, cs: set<char>)
  {
    forall k :: 0 <= k < |s| ==> s[k] in cs
  }

  /** Length of the longest prefix of `s` made of characters of `cs`. */
  function LeadingRun(s: string, cs: set<char>): (n: nat)
    ensures n <= |s| && AllIn(s[..n], cs)
    ensures n < |s| ==> s[n] !in cs
  {
    if s != [] && s[0] in cs then 1 + LeadingRun(s[1..], cs) else 0
  }

  /** Length of the longest suffix of `s` made of characters of `cs`. */
  function TrailingRun(s: string, cs: set<char>): (n: nat)
    ensures n <= |s| && AllIn(s[|s| - n..], cs)
    ensures n < |s| ==> s[|s| - n - 1] !in cs
  {
    if s != [] && s[|s| - 1] in cs then 1 + TrailingRun(s[..|s| - 1], cs) else 0
  }

  /** `str.strip(chars)`: characters of `cs` removed from both ends. */
  function StripChars(s: string, cs: set<char>): string
  {
    var front := s[LeadingRun(s, cs)..];
    front[..|front| - TrailingRun(front, cs)]
  }

  /** `str.strip()` with no argument: whitespace removed from both ends. */
  function Strip(s: string): string
  {
    StripChars(s, Whitespace)
  }

  /** Cutting `n` characters off the front and then `m` off the back splits `s` into three parts. */
  lemma Rejoin(s: string, n: nat, m: nat)
    requires n <= |s| && m <= |s[n..]|
    ensures s == s[..n] + s[n..][..|s[n..]| - m] + s[n..][|s[n..]| - m..]
  {
    var front := s[n..];
    calc {
      s;
    == { assert s == s[..n] + front; }
      s[..n] + front;
    == { assert front == front[..|front| - m] + front[|front| - m..]; }
      s[..n] + (front[..|front| - m] + front[|front| - m..]);
    }
  }

  /** The runs strip cuts: `s` is the leading run, what strip keeps, and the trailing run. */
  lemma StripParts(s: string, cs: set<char>) returns (p: string, q: string)
    ensures AllIn(p, cs) && AllIn(q, cs)
    ensures s == p + StripChars(s, cs) + q
  {
    var n := LeadingRun(s, cs);
    var front := s[n..];
    var m := TrailingRun(front, cs);
    Rejoin(s, n, m);
    p, q := s[..n], front[|front| - m..];
  }

  /** What strip keeps is `s` with a run of `cs` cut from each end. */
  lemma StripShape(s: string, cs: set<char>)
    ensures exists p, q :: AllIn(p, cs) && AllIn(q, cs) && s == p + StripChars(s, cs) + q
  {
    var p, q := StripParts(s, cs);
  }

  /** What strip keeps starts and ends outside `cs`. */
  lemma StripEnds(s: string, cs: set<char>)
    ensures var r := StripChars(s, cs); r != [] ==> r[0] !in cs && r[|r| - 1] !in cs
  {
  }

  /** A single character outside `cs` padded with runs of `cs` strips to that character. */
  lemma StripPadded(p: string, c: char, q: string, cs: set<char>)
    requires AllIn(p, cs) && AllIn(q, cs) && c !in cs
    ensures StripChars(p + [c] + q, cs) == [c]
  {
    var s := p + ([c] + q);
    assert s == p + [c] + q;
    LeadingOfPadded(p, [c] + q, cs);
    var front := s[|p|..];
    assert front == [c] + q;
    TrailingOfPadded([c], q, cs);
    assert front[..|front| - |q|] == [c];
  }

  /** `s` is the character `c` with runs of `cs` before and after it. */
  ghost predicate Padded(s: string, c: char, cs: set<char>)
  {
    exists p, q :: AllIn(p, cs) && AllIn(q, cs) && s == p + [c] + q
  }

  /** Stripping leaves the single character `c` exactly when `s` is `c` padded with `cs`. */
  lemma StripToOne(s: string, c: char, cs: set<char>)
    requires c !in cs
    ensures StripChars(s, cs) == [c] <==> Padded(s, c, cs)
  {
    if StripChars(s, cs) == [c] {
      StripShape(s, cs);
    }
    if Padded(s, c, cs) {
      var p, q :| AllIn(p, cs) && AllIn(q, cs) && s == p + [c] + q;
      StripPadded(p, c, q, cs);
    }
  }

  lemma {:induction false} LeadingOfPadded(p: string, rest: string, cs: set<char>)
    requires AllIn(p, cs) && rest != [] && rest[0] !in cs
    ensures LeadingRun(p + rest, cs) == |p|
  {
    if p != [] {
      assert (p + rest)[1..] == p[1..] + rest;
      LeadingOfPadded(p[1..], rest, cs);
    } else {
      assert p + rest == rest;
    }
  }

  lemma {:induction false} TrailingOfPadded(front: string, q: string, cs: set<char>)
    requires AllIn(q, cs) && front != [] && front[|front| - 1] !in cs
    ensures TrailingRun(front + q, cs) == |q|
  {
    if q != [] {
      assert (front + q)[..|front + q| - 1] == front + q[..|q| - 1];
      TrailingOfPadded(front, q[..|q| - 1], cs);
    } else {
      assert front + q == front;
    }
  }
}
