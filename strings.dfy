/** The handful of Python string operations the pipeline relies on. */
module Strings {

  /** Python's str.isspace(): the characters that `\s`, strip() and split()
      treat as whitespace. */
  predicate IsSpace(c: char) {
    || c == ' '
    || '\t' <= c <= '\r'
    || '\U{1C}' <= c <= '\U{1F}'
    || c == '\U{85}' || c == '\U{A0}' || c == '\U{1680}'
    || '\U{2000}' <= c <= '\U{200A}'
    || c == '\U{2028}' || c == '\U{2029}' || c == '\U{202F}' || c == '\U{205F}' || c == '\U{3000}'
  }

  predicate AllSpace(s: string) {
    forall i :: 0 <= i < |s| ==> IsSpace(s[i])
  }

  predicate NoNewline(s: string) {
    forall i :: 0 <= i < |s| ==> s[i] != '\n'
  }

  /** s is not empty and has no whitespace at either end: what strip()
      returns for a string that is not all whitespace. */
  predicate Trimmed(s: string) {
    s != [] && !IsSpace(s[0]) && !IsSpace(s[|s| - 1])
  }

  /** Length of the run of whitespace that starts s. */
  function LeadingSpaces(s: string): (n: nat)
    ensures n <= |s|
    ensures forall i :: 0 <= i < n ==> IsSpace(s[i])
    ensures n < |s| ==> !IsSpace(s[n])
  {
    if s == [] || !IsSpace(s[0]) then 0 else 1 + LeadingSpaces(s[1..])
  }

  /** Length of the run of whitespace that ends s. */
  function TrailingSpaces(s: string): (n: nat)
    ensures n <= |s|
    ensures forall i :: |s| - n <= i < |s| ==> IsSpace(s[i])
    ensures n < |s| ==> !IsSpace(s[|s| - n - 1])
  {
    if s == [] || !IsSpace(s[|s| - 1]) then 0 else 1 + TrailingSpaces(s[..|s| - 1])
  }

  /** str.strip() without argument: s with its leading and trailing
      whitespace removed. */
  function Strip(s: string): (r: string)
    ensures |r| <= |s| - LeadingSpaces(s)
    ensures r == s[LeadingSpaces(s)..LeadingSpaces(s) + |r|]
    ensures forall i :: LeadingSpaces(s) + |r| <= i < |s| ==> IsSpace(s[i])
    ensures r == [] || Trimmed(r)
  {
    var t := s[LeadingSpaces(s)..];
    t[..|t| - TrailingSpaces(t)]
  }

  /** Strip leaves alone a string that starts and ends with non-whitespace. */
  lemma StripKeeps(s: string)
    requires Trimmed(s)
    ensures Strip(s) == s
  {
    assert LeadingSpaces(s) == 0;
  }

  lemma StripNoNewline(s: string)
    requires NoNewline(s)
    ensures NoNewline(Strip(s))
  {
    var r := Strip(s);
    assert forall i :: 0 <= i < |r| ==> r[i] == s[LeadingSpaces(s) + i];
  }

  /** ASCII case folding of one character. */
  function LowerChar(c: char): char {
    if 'A' <= c <= 'Z' then (c as int + 32) as char else c
  }

  /** str.lower(), restricted to ASCII letters. */
  function Lower(s: string): (r: string)
    ensures |r| == |s|
    ensures forall i :: 0 <= i < |s| ==> r[i] == LowerChar(s[i])
  {
    seq(|s|, i requires 0 <= i < |s| => LowerChar(s[i]))
  }

  predicate EndsWith(s: string, suffix: string) {
    |suffix| <= |s| && s[|s| - |suffix|..] == suffix
  }

  /** Index of the first c in s, or |s| when s holds none. */
  function IndexOf(s: string, c: char): (k: nat)
    ensures k <= |s|
    ensures forall i :: 0 <= i < k ==> s[i] != c
    ensures k < |s| ==> s[k] == c
  {
    if s == [] || s[0] == c then 0 else 1 + IndexOf(s[1..], c)
  }

  /** Index of the last c in s, or -1 when s holds none (str.rfind). */
  function LastIndexOf(s: string, c: char): (k: int)
    ensures -1 <= k < |s|
    ensures k >= 0 ==> s[k] == c
    ensures forall i :: k < i < |s| ==> s[i] != c
  {
    if s == [] then -1
    else if s[|s| - 1] == c then |s| - 1
    else LastIndexOf(s[..|s| - 1], c)
  }

  /** str.splitlines(), with '\n' as the only line boundary: no trailing
      empty line, and no line at all for the empty string. */
  function SplitLines(s: string): (lines: seq<string>)
    ensures forall k :: 0 <= k < |lines| ==> NoNewline(lines[k])
    ensures |lines| <= |s|
    ensures s != [] ==> lines != []
    decreases |s|
  {
    if s == [] then []
    else
      var k := IndexOf(s, '\n');
      if k == |s| then [s] else [s[..k]] + SplitLines(s[k + 1..])
  }

  /** sep.join(parts). */
  function Join(parts: seq<string>, sep: string): string {
    if parts == [] then ""
    else if |parts| == 1 then parts[0]
    else parts[0] + sep + Join(parts[1..], sep)
  }

  /** "".join(parts). */
  function Concat(parts: seq<string>): string {
    if parts == [] then "" else parts[0] + Concat(parts[1..])
  }

  function DropFinalNewline(s: string): string {
    if s != [] && s[|s| - 1] == '\n' then s[..|s| - 1] else s
  }

  lemma JoinCons(first: string, rest: seq<string>, sep: string)
    requires rest != []
    ensures Join([first] + rest, sep) == first + sep + Join(rest, sep)
  {
    assert ([first] + rest)[1..] == rest;
  }

  /** Joining the lines of s with '\n' gives s back, less a final newline. */
  lemma {:induction false} JoinSplitLines(s: string)
    ensures Join(SplitLines(s), "\n") == DropFinalNewline(s)
    decreases |s|
  {
    if s != [] {
      var k := IndexOf(s, '\n');
      if k < |s| {
        var t := s[k + 1..];
        assert SplitLines(s) == [s[..k]] + SplitLines(t);
        if t == [] {
          assert s[..|s| - 1] == s[..k];
        } else {
          JoinSplitLines(t);
          JoinCons(s[..k], SplitLines(t), "\n");
          NewlineJoin(s, k);
        }
      }
    }
  }

  lemma NewlineJoin(s: string, k: nat)
    requires k + 1 < |s| && s[k] == '\n'
    ensures DropFinalNewline(s) == s[..k] + "\n" + DropFinalNewline(s[k + 1..])
  {
    var t := s[k + 1..];
    assert s == s[..k] + "\n" + t;
    if t[|t| - 1] == '\n' {
      assert s[..|s| - 1] == s[..k] + "\n" + t[..|t| - 1];
    }
  }

  /** A line, a newline and the rest split into the line and the lines
      of the rest. */
  lemma SplitLinesCons(line: string, rest: string)
    requires NoNewline(line)
    ensures SplitLines(line + "\n" + rest) == [line] + SplitLines(rest)
  {
    var s := line + "\n" + rest;
    assert s[|line|] == '\n';
    assert IndexOf(s, '\n') == |line|;
    assert s[..|line|] == line;
    assert s[|line| + 1..] == rest;
  }

  /** Splitting '\n'-joined lines gives them back, when no line holds a
      newline and the last one is not empty. */
  lemma {:induction false} SplitLinesJoin(parts: seq<string>)
    requires parts != [] && parts[|parts| - 1] != []
    requires forall k :: 0 <= k < |parts| ==> NoNewline(parts[k])
    ensures SplitLines(Join(parts, "\n")) == parts
  {
    if |parts| == 1 {
      assert IndexOf(parts[0], '\n') == |parts[0]|;
    } else {
      var rest := parts[1..];
      assert Join(parts, "\n") == parts[0] + "\n" + Join(rest, "\n");
      SplitLinesJoin(rest);
      SplitLinesCons(parts[0], Join(rest, "\n"));
      assert [parts[0]] + rest == parts;
    }
  }
}
