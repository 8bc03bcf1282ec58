/** The bullet parser (_bullet_re and _parse_bullets): reads the model's
    final reply line by line and keeps, in order, the lines of the form

        marker  bullet text  |  sentence ids

    as records; every other line is skipped without error. */
module BulletParser {
  import opened Errors
  import opened Strings

  /** One summary point and the numbers of the sentences cited for it. */
  datatype Bullet = Bullet(text: string, evidenceIds: seq<nat>)

  /** [•\-*] */
  predicate IsMarker(c: char) {
    c == '\U{2022}' || c == '-' || c == '*'
  }

  predicate IsDigit(c: char) {
    '0' <= c <= '9'
  }

  /** [\d,\s]: the characters of the id segment. */
  predicate IsIdChar(c: char) {
    IsDigit(c) || c == ',' || IsSpace(c)
  }

  /** [\s,]: the characters the id segment is split on. */
  predicate IsSeparator(c: char) {
    IsSpace(c) || c == ','
  }

  // ---------------------------------------------------------------------
  // The regular expression ^[•\-*]\s*(.+?)\s*\|\s*([\d,\s]+)$
  // ---------------------------------------------------------------------

  /** A way to read a line against the regular expression, by positions:
      the marker at 0, `\s*` on [1, start), group 1 on [start, stop), `\s*`
      on [stop, bar), the `|` at bar, `\s*` on (bar, ids), group 2 on
      [ids, |line|). */
  datatype Split = Split(start: nat, stop: nat, bar: nat, ids: nat)

  /** m is a way the whole line matches the regular expression. */
  predicate IsMatch(line: string, m: Split) {
    && 1 <= m.start < m.stop <= m.bar < m.ids < |line|
    && IsMarker(line[0])
    && (forall i :: 1 <= i < m.start ==> IsSpace(line[i]))
    && (forall i :: m.start <= i < m.stop ==> line[i] != '\n')
    && (forall i :: m.stop <= i < m.bar ==> IsSpace(line[i]))
    && line[m.bar] == '|'
    && (forall i :: m.bar < i < m.ids ==> IsSpace(line[i]))
    && (forall i :: m.ids <= i < |line| ==> IsIdChar(line[i]))
  }

  /** The backtracking matcher tries m no later than n: the greedy `\s*`
      before group 1 tries later starts first, the lazy group 1 earlier
      stops, the greedy `\s*` before `|` later bars, and the greedy `\s*`
      before group 2 later starts of group 2. */
  predicate TriedNoLater(m: Split, n: Split) {
    || m.start > n.start
    || (m.start == n.start && m.stop < n.stop)
    || (m.start == n.start && m.stop == n.stop && m.bar > n.bar)
    || (m.start == n.start && m.stop == n.stop && m.bar == n.bar && m.ids >= n.ids)
  }

  /** The match re.match reports for a line that holds no newline. The `|`
      is the last one of the line, since group 2 cannot hold one; group 1
      is what lies between the leading whitespace and the whitespace before
      the `|`, or, when nothing else lies there, the last blank before it. */
  function FindMatch(line: string): Option<Split>
    requires NoNewline(line)
  {
    var bar := LastIndexOf(line, '|');
    if |line| == 0 || !IsMarker(line[0]) || bar < 2 || bar + 1 == |line| then None
    else if !(forall i :: bar < i < |line| ==> IsIdChar(line[i])) then None
    else
      var lead := 1 + LeadingSpaces(line[1..]);
      var start := if lead < bar then lead else bar - 1;
      var stop := if lead < bar then bar - TrailingSpaces(line[lead..bar]) else bar;
      var ws := LeadingSpaces(line[bar + 1..]);
      var ids := if bar + 1 + ws < |line| then bar + 1 + ws else |line| - 1;
      Some(Split(start, stop, bar, ids))
  }

  /** What FindMatch reports is a match of the whole line. */
  lemma MatchIsSound(line: string)
    requires NoNewline(line)
    requires FindMatch(line).Some?
    ensures IsMatch(line, FindMatch(line).value)
  {
    var bar := LastIndexOf(line, '|');
    var lead := 1 + LeadingSpaces(line[1..]);
    LeadFacts(line, lead);
    if lead < bar {
      StopFacts(line, lead, bar, bar - TrailingSpaces(line[lead..bar]));
    }
    IdsFacts(line, bar, LeadingSpaces(line[bar + 1..]));
  }

  /** The blanks after the marker. */
  lemma LeadFacts(line: string, lead: nat)
    requires |line| >= 1 && lead == 1 + LeadingSpaces(line[1..])
    ensures lead <= |line|
    ensures forall i :: 1 <= i < lead ==> IsSpace(line[i])
    ensures lead < |line| ==> !IsSpace(line[lead])
  {
    var t := line[1..];
    assert forall i :: 0 <= i < |t| ==> t[i] == line[i + 1];
  }

  /** The blanks before the `|`, when group 1 starts on a non-blank. */
  lemma StopFacts(line: string, lead: nat, bar: nat, stop: int)
    requires 1 <= lead < bar <= |line| && !IsSpace(line[lead])
    requires stop == bar - TrailingSpaces(line[lead..bar])
    ensures lead < stop <= bar
    ensures forall i :: stop <= i < bar ==> IsSpace(line[i])
  {
    var t := line[lead..bar];
    assert t[0] == line[lead];
    assert forall i :: 0 <= i < |t| ==> t[i] == line[lead + i];
  }

  /** The blanks after the `|`. */
  lemma IdsFacts(line: string, bar: nat, ws: nat)
    requires bar + 1 < |line| && ws == LeadingSpaces(line[bar + 1..])
    ensures bar + 1 + ws <= |line|
    ensures forall i :: bar < i < bar + 1 + ws ==> IsSpace(line[i])
    ensures bar + 1 + ws < |line| ==> !IsSpace(line[bar + 1 + ws])
  {
    var t := line[bar + 1..];
    assert forall i :: 0 <= i < |t| ==> t[i] == line[bar + 1 + i];
  }

  /** FindMatch finds a match whenever the line has one, and the one it
      reports is the first the backtracking matcher tries. */
  lemma MatchIsFirst(line: string, n: Split)
    requires NoNewline(line)
    requires IsMatch(line, n)
    ensures FindMatch(line).Some?
    ensures TriedNoLater(FindMatch(line).value, n)
  {
    MatchBarIsLast(line, n);
    LeadReachesStart(line, n);
    StopReachesBack(line, n);
    IdsReachForward(line, n);
  }

  /** The `|` of any match is the last one of the line, and only id
      characters follow it. */
  lemma MatchBarIsLast(line: string, n: Split)
    requires IsMatch(line, n)
    ensures LastIndexOf(line, '|') == n.bar
    ensures forall i :: n.bar < i < |line| ==> IsIdChar(line[i])
  {
    forall i | n.bar < i < |line|
      ensures line[i] != '|' && IsIdChar(line[i])
    {
      if i < n.ids {
        assert IsSpace(line[i]);
      } else {
        assert IsIdChar(line[i]);
      }
    }
  }

  /** The greedy blanks after the marker reach at least to group 1 of any
      match. */
  lemma LeadReachesStart(line: string, n: Split)
    requires IsMatch(line, n)
    ensures 1 + LeadingSpaces(line[1..]) >= n.start
  {
    var t := line[1..];
    assert forall i :: 0 <= i < n.start - 1 ==> IsSpace(t[i]);
  }

  /** The blanks before the `|` reach back at least to the end of group 1
      of any match with the same start. */
  lemma StopReachesBack(line: string, n: Split)
    requires IsMatch(line, n)
    ensures n.bar - TrailingSpaces(line[n.start..n.bar]) <= n.stop
  {
    var t := line[n.start..n.bar];
    assert forall i :: n.stop - n.start <= i < |t| ==> IsSpace(t[i]);
  }

  /** The blanks after the `|` reach at least to group 2 of any match. */
  lemma IdsReachForward(line: string, n: Split)
    requires IsMatch(line, n)
    ensures var ws := LeadingSpaces(line[n.bar + 1..]);
            n.ids <= (if n.bar + 1 + ws < |line| then n.bar + 1 + ws else |line| - 1)
  {
    var t := line[n.bar + 1..];
    assert forall i :: 0 <= i < n.ids - n.bar - 1 ==> IsSpace(t[i]);
  }

  // ---------------------------------------------------------------------
  // The id segment: [int(x) for x in re.split(r"[\s,]+", ids) if x.isdigit()]
  // ---------------------------------------------------------------------

  /** Index of the first separator of s, or |s|. */
  function FirstSeparator(s: string): (k: nat)
    ensures k <= |s|
    ensures forall i :: 0 <= i < k ==> !IsSeparator(s[i])
    ensures k < |s| ==> IsSeparator(s[k])
  {
    if s == [] || IsSeparator(s[0]) then 0 else 1 + FirstSeparator(s[1..])
  }

  /** Length of the run of separators that starts s. */
  function SeparatorRun(s: string): (n: nat)
    ensures n <= |s|
    ensures forall i :: 0 <= i < n ==> IsSeparator(s[i])
    ensures n < |s| ==> !IsSeparator(s[n])
  {
    if s == [] || !IsSeparator(s[0]) then 0 else 1 + SeparatorRun(s[1..])
  }

  /** re.split(r"[\s,]+", s): the pieces between maximal runs of separators,
      with an empty piece before a leading run and after a trailing one. */
  function SplitIds(s: string): (pieces: seq<string>)
    ensures pieces != []
    decreases |s|
  {
    var k := FirstSeparator(s);
    if k == |s| then [s]
    else [s[..k]] + SplitIds(s[k + SeparatorRun(s[k..])..])
  }

  /** s with every comma and whitespace character removed. */
  function NonSeparators(s: string): string {
    if s == [] then []
    else (if IsSeparator(s[0]) then [] else [s[0]]) + NonSeparators(s[1..])
  }

  lemma {:induction false} NonSeparatorsAppend(a: string, b: string)
    ensures NonSeparators(a + b) == NonSeparators(a) + NonSeparators(b)
    decreases |a|
  {
    if a == [] {
      assert a + b == b;
    } else {
      var head := if IsSeparator(a[0]) then [] else [a[0]];
      assert (a + b)[0] == a[0] && (a + b)[1..] == a[1..] + b;
      assert NonSeparators(a + b) == head + NonSeparators(a[1..] + b);
      assert NonSeparators(a) == head + NonSeparators(a[1..]);
      NonSeparatorsAppend(a[1..], b);
      assert head + (NonSeparators(a[1..]) + NonSeparators(b)) == (head + NonSeparators(a[1..])) + NonSeparators(b);
    }
  }

  lemma {:induction false} NoSeparators(s: string)
    requires forall i :: 0 <= i < |s| ==> !IsSeparator(s[i])
    ensures NonSeparators(s) == s
    decreases |s|
  {
    if s != [] {
      NoSeparators(s[1..]);
    }
  }

  lemma {:induction false} OnlySeparators(s: string)
    requires forall i :: 0 <= i < |s| ==> IsSeparator(s[i])
    ensures NonSeparators(s) == []
    decreases |s|
  {
    if s != [] {
      OnlySeparators(s[1..]);
    }
  }

  /** re.split drops the separators and nothing else: no piece holds a
      separator, and the pieces in order spell the input without its
      separators. */
  lemma {:induction false} SplitIdsPieces(s: string)
    ensures forall k :: 0 <= k < |SplitIds(s)| ==> NonSeparators(SplitIds(s)[k]) == SplitIds(s)[k]
    ensures Concat(SplitIds(s)) == NonSeparators(s)
    decreases |s|
  {
    var k := FirstSeparator(s);
    NoSeparators(s[..k]);
    if k == |s| {
      SplitIdsWhole(s);
      assert s[..k] == s;
    } else {
      var run := SeparatorRun(s[k..]);
      var rest := s[k + run..];
      SplitIdsStep(s, k, run);
      SplitIdsPieces(rest);
      NonSeparatorsAroundRun(s, k, run);
      var pieces := SplitIds(s);
      assert pieces[0] == s[..k] && pieces[1..] == SplitIds(rest);
      assert Concat(pieces) == s[..k] + Concat(pieces[1..]);
      forall j | 0 <= j < |pieces|
        ensures NonSeparators(pieces[j]) == pieces[j]
      {
        if j > 0 {
          assert pieces[j] == SplitIds(rest)[j - 1];
        }
      }
    }
  }

  /** Removing the separators of s keeps what precedes its first run of
      separators, drops the run, and goes on after it. */
  lemma NonSeparatorsAroundRun(s: string, k: nat, run: nat)
    requires k == FirstSeparator(s) && k < |s| && run == SeparatorRun(s[k..])
    ensures NonSeparators(s) == s[..k] + NonSeparators(s[k + run..])
  {
    KeptBeforeRun(s, k);
    DroppedRun(s, k, run);
    SliceThree(s, k, k + run);
    DropGap(s[..k], s[k..k + run], s[k + run..]);
  }

  lemma KeptBeforeRun(s: string, k: nat)
    requires k <= |s| && forall i :: 0 <= i < k ==> !IsSeparator(s[i])
    ensures NonSeparators(s[..k]) == s[..k]
  {
    NoSeparators(s[..k]);
  }

  lemma DroppedRun(s: string, k: nat, run: nat)
    requires k + run <= |s| && forall i :: 0 <= i < run ==> IsSeparator(s[k..][i])
    ensures NonSeparators(s[k..k + run]) == []
  {
    var gap := s[k..k + run];
    assert forall i :: 0 <= i < |gap| ==> gap[i] == s[k..][i];
    OnlySeparators(gap);
  }

  lemma DropGap(first: string, gap: string, rest: string)
    requires NonSeparators(first) == first && NonSeparators(gap) == []
    ensures NonSeparators(first + gap + rest) == first + NonSeparators(rest)
  {
    NonSeparatorsAppend(first + gap, rest);
    NonSeparatorsAppend(first, gap);
    assert first + [] == first;
  }

  lemma SliceThree(s: string, i: nat, j: nat)
    requires i <= j <= |s|
    ensures s == s[..i] + s[i..j] + s[j..]
  {
  }

  /** No comma and no whitespace anywhere in s. */
  predicate NoSeparator(s: string) {
    forall i :: 0 <= i < |s| ==> !IsSeparator(s[i])
  }

  /** The first of the two equations that characterise re.split: a string
      with no separator is a single piece. SplitIdsAtRun gives the
      second. */
  lemma SplitIdsWhole(s: string)
    requires NoSeparator(s)
    ensures SplitIds(s) == [s]
  {
    assert FirstSeparator(s) == |s|;
  }

  /** str.isdigit() */
  predicate IsDigits(s: string) {
    s != [] && forall i :: 0 <= i < |s| ==> IsDigit(s[i])
  }

  function DigitValue(c: char): nat
    requires IsDigit(c)
  {
    c as int - '0' as int
  }

  /** int(s) for a string of decimal digits. */
  function DecimalValue(s: string): nat
    requires forall i :: 0 <= i < |s| ==> IsDigit(s[i])
  {
    if s == [] then 0 else DecimalValue(s[..|s| - 1]) * 10 + DigitValue(s[|s| - 1])
  }

  /** The pieces that are digit strings, as numbers, in order. */
  function DigitPieces(pieces: seq<string>): seq<nat> {
    if pieces == [] then []
    else (if IsDigits(pieces[0]) then [DecimalValue(pieces[0])] else []) + DigitPieces(pieces[1..])
  }

  /** The evidence ids of group 2. */
  function EvidenceIds(segment: string): seq<nat> {
    DigitPieces(SplitIds(segment))
  }

  function DigitChar(d: nat): (c: char)
    requires d < 10
    ensures IsDigit(c) && DigitValue(c) == d
  {
    ('0' as int + d) as char
  }

  /** str(n): the decimal digits of n, without leading zeros. */
  function Decimal(n: nat): (s: string)
    ensures IsDigits(s)
  {
    if n < 10 then [DigitChar(n)] else Decimal(n / 10) + [DigitChar(n % 10)]
  }

  /** int(str(n)) == n */
  lemma {:induction false} DecimalRoundTrip(n: nat)
    ensures DecimalValue(Decimal(n)) == n
  {
    if n >= 10 {
      DecimalRoundTrip(n / 10);
      var s := Decimal(n);
      assert s[..|s| - 1] == Decimal(n / 10);
    }
  }

  /** sep.join(str(i) for i in ids): an id list written out the way the
      summarisation prompt asks for it. */
  function RenderIds(ids: seq<nat>, sep: string): (r: string)
    ensures ids != [] ==> r != [] && IsDigit(r[0]) && IsDigit(r[|r| - 1])
    ensures forall i :: 0 <= i < |r| ==> IsDigit(r[i]) || r[i] in sep
  {
    if ids == [] then ""
    else if |ids| == 1 then Decimal(ids[0])
    else Decimal(ids[0]) + sep + RenderIds(ids[1..], sep)
  }

  /** Parsing the id segment inverts writing the ids out: whatever
      non-empty run of commas and whitespace separates the numbers, the
      parser gives back exactly the ids, in order. */
  lemma {:induction false} IdsRoundTrip(ids: seq<nat>, sep: string)
    requires sep != [] && forall i :: 0 <= i < |sep| ==> IsSeparator(sep[i])
    ensures EvidenceIds(RenderIds(ids, sep)) == ids
  {
    if ids == [] {
      assert SplitIds("") == [""];
    } else {
      var d := Decimal(ids[0]);
      DecimalRoundTrip(ids[0]);
      if |ids| == 1 {
        SingleNumber(d);
      } else {
        var rest := RenderIds(ids[1..], sep);
        assert RenderIds(ids, sep) == d + sep + rest;
        IdsRoundTrip(ids[1..], sep);
        assert SplitIds(d + sep + rest) == [d] + SplitIds(rest) by {
          DigitsHaveNoSeparator(d, rest);
          SplitIdsAtRun(d, sep, rest);
        }
        DigitPiecesCons(d, SplitIds(rest));
        assert [ids[0]] + ids[1..] == ids;
      }
    }
  }

  /** Digits are neither commas nor whitespace. */
  lemma DigitsHaveNoSeparator(d: string, rest: string)
    requires IsDigits(d)
    requires rest != [] && IsDigit(rest[0])
    ensures NoSeparator(d) && !IsSeparator(rest[0])
  {
  }

  /** A lone number is read back as itself. */
  lemma SingleNumber(d: string)
    requires IsDigits(d)
    ensures EvidenceIds(d) == [DecimalValue(d)]
  {
    assert FirstSeparator(d) == |d|;
    assert SplitIds(d) == [d];
    assert DigitPieces([d]) == [DecimalValue(d)] + DigitPieces([]);
  }

  lemma DigitPiecesCons(d: string, pieces: seq<string>)
    requires IsDigits(d)
    ensures DigitPieces([d] + pieces) == [DecimalValue(d)] + DigitPieces(pieces)
  {
    assert ([d] + pieces)[0] == d && ([d] + pieces)[1..] == pieces;
  }

  /** The second equation that characterises re.split: a piece without
      separators, then a maximal run of separators, then the rest (empty, or
      starting with something other than a separator) split into that
      piece followed by the pieces of the rest. With SplitIdsWhole this
      determines SplitIds on every string. */
  lemma SplitIdsAtRun(p: string, r: string, t: string)
    requires NoSeparator(p)
    requires r != [] && forall i :: 0 <= i < |r| ==> IsSeparator(r[i])
    requires t == [] || !IsSeparator(t[0])
    ensures SplitIds(p + r + t) == [p] + SplitIds(t)
  {
    var s := p + r + t;
    assert FirstSeparator(s) == |p| by {
      Slices3(p, r, t);
      FirstSeparatorAfter(p, r + t);
    }
    assert SeparatorRun(s[|p|..]) == |r| by {
      Slices3(p, r, t);
      SeparatorRunBefore(r, t);
    }
    SplitIdsStep(s, |p|, |r|);
    Slices3(p, r, t);
  }

  /** The three parts of a + b + c, by position. */
  lemma Slices3(a: string, b: string, c: string)
    ensures var s := a + b + c;
            && s == a + (b + c)
            && s[..|a|] == a
            && s[|a|..] == b + c
            && s[|a| + |b|..] == c
  {
    var s := a + b + c;
    assert s[|a|..] == b + c;
  }

  lemma SplitIdsStep(s: string, k: nat, run: nat)
    requires k == FirstSeparator(s) && k < |s| && run == SeparatorRun(s[k..])
    ensures SplitIds(s) == [s[..k]] + SplitIds(s[k + run..])
  {
  }

  /** The first separator of a piece without separators followed by a
      separator is the one just after the piece. */
  lemma FirstSeparatorAfter(d: string, tail: string)
    requires NoSeparator(d) && tail != [] && IsSeparator(tail[0])
    ensures FirstSeparator(d + tail) == |d|
  {
    var s := d + tail;
    assert forall i :: 0 <= i < |d| ==> s[i] == d[i];
    assert s[|d|] == tail[0];
  }

  /** The run of separators that starts sep + rest is sep, when rest is
      empty or starts with something else. */
  lemma SeparatorRunBefore(sep: string, rest: string)
    requires forall i :: 0 <= i < |sep| ==> IsSeparator(sep[i])
    requires rest == [] || !IsSeparator(rest[0])
    ensures SeparatorRun(sep + rest) == |sep|
  {
    var s := sep + rest;
    assert forall i :: 0 <= i < |sep| ==> s[i] == sep[i];
    if rest != [] {
      assert s[|sep|] == rest[0];
    }
  }

  // ---------------------------------------------------------------------
  // Lines and replies
  // ---------------------------------------------------------------------

  /** One iteration of _parse_bullets: the record a line contributes, if
      any. */
  function ParseLine(line: string): Option<Bullet>
    requires NoNewline(line)
  {
    StripNoNewline(line);
    var s := Strip(line);
    match FindMatch(s)
    case None => None
    case Some(m) =>
      var text := s[m.start..m.stop];
      if text != [] then Some(Bullet(text, EvidenceIds(s[m.ids..]))) else None
  }

  /** The values that are present, in order. */
  function Present<T>(opts: seq<Option<T>>): (values: seq<T>)
    ensures |values| <= |opts|
  {
    if opts == [] then []
    else
      var last := opts[|opts| - 1];
      Present(opts[..|opts| - 1]) + (if last.Some? then [last.value] else [])
  }

  /** Present over one more option. */
  lemma PresentStep<T>(opts: seq<Option<T>>, k: nat)
    requires k < |opts|
    ensures Present(opts[..k + 1]) == Present(opts[..k]) + (if opts[k].Some? then [opts[k].value] else [])
  {
    assert opts[..k + 1][..k] == opts[..k];
  }

  /** The outcome of each line, in line order. */
  function LineResults(lines: seq<string>): (results: seq<Option<Bullet>>)
    requires forall k :: 0 <= k < |lines| ==> NoNewline(lines[k])
    ensures |results| == |lines|
    ensures forall k :: 0 <= k < |lines| ==> results[k] == ParseLine(lines[k])
  {
    seq(|lines|, k requires 0 <= k < |lines| => ParseLine(lines[k]))
  }

  /** The records of the lines, in line order. */
  function ParseAll(lines: seq<string>): seq<Bullet>
    requires forall k :: 0 <= k < |lines| ==> NoNewline(lines[k])
  {
    Present(LineResults(lines))
  }

  /** _parse_bullets(raw), as a value. */
  function Parse(raw: string): seq<Bullet> {
    ParseAll(SplitLines(raw))
  }

  /** _parse_bullets: strip each line, match it, keep the digit tokens of
      the id segment, and append a record when the bullet text is not
      empty. */
  method ParseBullets(raw: string) returns (out: seq<Bullet>)
    ensures out == Parse(raw)
  {
    out := [];
    var lines := SplitLines(raw);
    ghost var results := LineResults(lines);
    for k := 0 to |lines|
      invariant out == Present(results[..k])
    {
      PresentStep(results, k);
      assert results[k] == ParseLine(lines[k]);
      StripNoNewline(lines[k]);
      var line := Strip(lines[k]);
      var m := FindMatch(line);
      if m.Some? {
        var bullet := line[m.value.start..m.value.stop];
        var ids := EvidenceIds(line[m.value.ids..]);
        if bullet != [] {
          out := out + [Bullet(bullet, ids)];
        }
      }
    }
    assert results[..|lines|] == results;
  }

  /** A line yields a record exactly when its stripped form matches the
      regular expression, and the record's bullet text is never empty:
      group 1 always holds a character, so the test on the bullet text
      never drops a matched line. */
  lemma ParseLineIffMatch(line: string)
    requires NoNewline(line)
    ensures ParseLine(line).Some? <==> exists m :: IsMatch(Strip(line), m)
    ensures ParseLine(line).Some? ==> ParseLine(line).value.text != []
  {
    var s := Strip(line);
    StripNoNewline(line);
    forall m | IsMatch(s, m)
      ensures FindMatch(s).Some?
    {
      MatchIsFirst(s, m);
    }
    if FindMatch(s).Some? {
      MatchIsSound(s);
      var m := FindMatch(s).value;
      assert IsMatch(s, m);
      assert |s[m.start..m.stop]| > 0;
    }
  }

  /** Lines whose stripped form does not start with a marker, or has no `|`
      followed only by digits, commas and whitespace up to its end,
      contribute no record. */
  lemma NonBulletLineSkipped(line: string)
    requires NoNewline(line)
    requires var s := Strip(line);
             s == [] || !IsMarker(s[0]) ||
             !(exists b :: 0 <= b < |s| - 1 && s[b] == '|' && forall i :: b < i < |s| ==> IsIdChar(s[i]))
    ensures ParseLine(line) == None
  {
    var s := Strip(line);
    if exists m :: IsMatch(s, m) {
      var m :| IsMatch(s, m);
      assert forall i :: m.bar < i < |s| ==> IsIdChar(s[i]);
    }
    ParseLineIffMatch(line);
  }

  /** Indices of the values that are present, in order. */
  function PresentAt<T>(opts: seq<Option<T>>): seq<nat> {
    if opts == [] then []
    else PresentAt(opts[..|opts| - 1]) + (if opts[|opts| - 1].Some? then [|opts| - 1] else [])
  }

  /** Present keeps one value per Some, in order: the k-th value is that
      of the k-th Some, and no Some is left out. */
  lemma PresentKeepsOrder<T>(opts: seq<Option<T>>)
    ensures |PresentAt(opts)| == |Present(opts)|
    ensures forall k :: 0 <= k < |PresentAt(opts)| ==>
              PresentAt(opts)[k] < |opts| && opts[PresentAt(opts)[k]] == Some(Present(opts)[k])
    ensures forall k, l :: 0 <= k < l < |PresentAt(opts)| ==> PresentAt(opts)[k] < PresentAt(opts)[l]
    ensures forall i :: 0 <= i < |opts| && opts[i].Some? ==> i in PresentAt(opts)
  {
    PresentAtValues(opts);
    PresentAtIncreasing(opts);
    PresentAtComplete(opts);
  }

  lemma {:induction false} PresentAtValues<T>(opts: seq<Option<T>>)
    ensures |PresentAt(opts)| == |Present(opts)|
    ensures forall k :: 0 <= k < |PresentAt(opts)| ==>
              PresentAt(opts)[k] < |opts| && opts[PresentAt(opts)[k]] == Some(Present(opts)[k])
  {
    if opts != [] {
      var n := |opts| - 1;
      var front := opts[..n];
      PresentAtValues(front);
      var at, values := PresentAt(opts), Present(opts);
      assert at == PresentAt(front) + (if opts[n].Some? then [n] else []);
      assert values == Present(front) + (if opts[n].Some? then [opts[n].value] else []);
      forall k | 0 <= k < |at|
        ensures at[k] < |opts| && opts[at[k]] == Some(values[k])
      {
        if k < |PresentAt(front)| {
          assert at[k] == PresentAt(front)[k] && values[k] == Present(front)[k];
          assert opts[at[k]] == front[at[k]];
        }
      }
    }
  }

  lemma {:induction false} PresentAtIncreasing<T>(opts: seq<Option<T>>)
    ensures forall k :: 0 <= k < |PresentAt(opts)| ==> PresentAt(opts)[k] < |opts|
    ensures forall k, l :: 0 <= k < l < |PresentAt(opts)| ==> PresentAt(opts)[k] < PresentAt(opts)[l]
  {
    if opts != [] {
      var n := |opts| - 1;
      var front := opts[..n];
      PresentAtIncreasing(front);
      var at := PresentAt(opts);
      assert at == PresentAt(front) + (if opts[n].Some? then [n] else []);
      assert forall k :: 0 <= k < |PresentAt(front)| ==> at[k] == PresentAt(front)[k] < n;
    }
  }

  lemma {:induction false} PresentAtComplete<T>(opts: seq<Option<T>>)
    ensures forall i :: 0 <= i < |opts| && opts[i].Some? ==> i in PresentAt(opts)
  {
    if opts != [] {
      var n := |opts| - 1;
      var front := opts[..n];
      PresentAtComplete(front);
      assert PresentAt(opts) == PresentAt(front) + (if opts[n].Some? then [n] else []);
      forall i | 0 <= i < |opts| && opts[i].Some?
        ensures i in PresentAt(opts)
      {
        if i < n {
          assert front[i] == opts[i];
        }
      }
    }
  }

  /** Records come one per matching line, in the order of their lines: the
      k-th record is the one of the k-th matching line, and no matching line
      is left out, so there are never more records than lines. */
  lemma ParseKeepsLineOrder(lines: seq<string>)
    requires forall k :: 0 <= k < |lines| ==> NoNewline(lines[k])
    ensures var at := PresentAt(LineResults(lines));
            && |at| == |ParseAll(lines)| <= |lines|
            && (forall k :: 0 <= k < |at| ==> at[k] < |lines| && ParseLine(lines[at[k]]) == Some(ParseAll(lines)[k]))
            && (forall k, l :: 0 <= k < l < |at| ==> at[k] < at[l])
            && (forall i :: 0 <= i < |lines| && ParseLine(lines[i]).Some? ==> i in at)
  {
    PresentKeepsOrder(LineResults(lines));
  }

  /** A bullet line in the shape the summarisation prompt asks for: a
      marker, the bullet text, a `|` and the ids, with optional blanks
      around the text and the `|`. */
  function BulletLine(marker: char, lead: string, text: string, before: string, after: string,
                      sep: string, ids: seq<nat>): string
  {
    [marker] + lead + text + (before + "|" + after + RenderIds(ids, sep))
  }

  predicate WellFormedBullet(marker: char, lead: string, text: string, before: string, after: string,
                             sep: string, ids: seq<nat>)
  {
    && IsMarker(marker)
    && AllSpace(lead) && AllSpace(before) && AllSpace(after)
    && NoNewline(lead) && NoNewline(before) && NoNewline(after) && NoNewline(sep) && NoNewline(text)
    && Trimmed(text)
    && sep != [] && (forall i :: 0 <= i < |sep| ==> IsSeparator(sep[i]))
    && ids != []
  }

  /** The match a well-formed bullet line offers, by positions. */
  function BulletSplit(lead: string, text: string, before: string, after: string): Split {
    var stop := 1 + |lead| + |text|;
    Split(1 + |lead|, stop, stop + |before|, stop + |before| + 1 + |after|)
  }

  /** Where each part of a bullet line lies. */
  lemma BulletLineParts(line: string, n: Split, marker: char, lead: string, text: string,
                        before: string, after: string, r: string)
    requires line == [marker] + lead + text + (before + "|" + after + r)
    requires n == BulletSplit(lead, text, before, after)
    ensures |line| == n.ids + |r|
    ensures line[0] == marker
    ensures forall i :: 1 <= i < n.start ==> line[i] == lead[i - 1]
    ensures line[n.start..n.stop] == text
    ensures forall i :: n.stop <= i < n.bar ==> line[i] == before[i - n.stop]
    ensures line[n.bar] == '|'
    ensures forall i :: n.bar < i < n.ids ==> line[i] == after[i - n.bar - 1]
    ensures line[n.ids..] == r
  {
    BulletLineHead(line, n, marker, lead, text, before + "|" + after + r);
    BulletLineTail(line, n, [marker] + lead + text, before, after, r);
  }

  lemma BulletLineHead(line: string, n: Split, marker: char, lead: string, text: string, tail: string)
    requires line == [marker] + lead + text + tail
    requires n.start == 1 + |lead| && n.stop == n.start + |text|
    ensures line[0] == marker
    ensures forall i :: 1 <= i < n.start ==> line[i] == lead[i - 1]
    ensures line[n.start..n.stop] == text
  {
  }

  lemma BulletLineTail(line: string, n: Split, head: string, before: string, after: string, r: string)
    requires line == head + (before + "|" + after + r)
    requires n.stop == |head| && n.bar == n.stop + |before| && n.ids == n.bar + 1 + |after|
    ensures |line| == n.ids + |r|
    ensures forall i :: n.stop <= i < n.bar ==> line[i] == before[i - n.stop]
    ensures line[n.bar] == '|'
    ensures forall i :: n.bar < i < n.ids ==> line[i] == after[i - n.bar - 1]
    ensures line[n.ids..] == r
  {
    assert line[n.ids..] == r;
  }

  /** Rendered ids: digits first and last, and only digits, commas and
      blanks other than a newline in between. */
  predicate IdsText(r: string) {
    && r != [] && IsDigit(r[0]) && IsDigit(r[|r| - 1])
    && forall i :: 0 <= i < |r| ==> IsIdChar(r[i]) && r[i] != '\n'
  }

  lemma RenderedIds(r: string, ids: seq<nat>, sep: string)
    requires r == RenderIds(ids, sep) && ids != []
    requires forall i :: 0 <= i < |sep| ==> IsSeparator(sep[i]) && sep[i] != '\n'
    ensures IdsText(r)
  {
    forall i | 0 <= i < |r|
      ensures IsIdChar(r[i]) && r[i] != '\n'
    {
      if !IsDigit(r[i]) {
        var j :| 0 <= j < |sep| && sep[j] == r[i];
      }
    }
  }

  /** The parts of a well-formed bullet line, with its ids rendered as r. */
  predicate WellFormedParts(marker: char, lead: string, text: string, before: string, after: string, r: string) {
    && IsMarker(marker)
    && AllSpace(lead) && AllSpace(before) && AllSpace(after)
    && NoNewline(lead) && NoNewline(before) && NoNewline(after) && NoNewline(text)
    && Trimmed(text)
    && IdsText(r)
  }

  /** A well-formed bullet line holds no newline. */
  lemma BulletLineChars(line: string, n: Split, marker: char, lead: string, text: string,
                        before: string, after: string, r: string)
    requires line == [marker] + lead + text + (before + "|" + after + r)
    requires n == BulletSplit(lead, text, before, after)
    requires WellFormedParts(marker, lead, text, before, after, r)
    ensures NoNewline(line)
  {
    BulletLineParts(line, n, marker, lead, text, before, after, r);
    forall i | 0 <= i < |line|
      ensures line[i] != '\n'
    {
      if i == 0 {
      } else if i < n.start {
        assert IsSpace(lead[i - 1]);
      } else if i < n.stop {
        assert line[i] == line[n.start..n.stop][i - n.start] == text[i - n.start];
      } else if i < n.bar {
        assert IsSpace(before[i - n.stop]);
      } else if i == n.bar {
      } else if i < n.ids {
        assert IsSpace(after[i - n.bar - 1]);
      } else {
        assert line[i] == line[n.ids..][i - n.ids] == r[i - n.ids];
      }
    }
  }

  /** A well-formed bullet line matches the regular expression the way
      BulletSplit reads it. */
  lemma BulletLineMatches(line: string, n: Split, marker: char, lead: string, text: string,
                          before: string, after: string, r: string)
    requires line == [marker] + lead + text + (before + "|" + after + r)
    requires n == BulletSplit(lead, text, before, after)
    requires WellFormedParts(marker, lead, text, before, after, r)
    ensures IsMatch(line, n)
  {
    BulletLineParts(line, n, marker, lead, text, before, after, r);
    forall i | n.start <= i < n.stop ensures line[i] != '\n' {
      assert line[i] == line[n.start..n.stop][i - n.start];
    }
    forall i | n.ids <= i < |line| ensures IsIdChar(line[i]) {
      assert line[i] == line[n.ids..][i - n.ids];
    }
  }

  /** Group 1 and group 2 of a well-formed bullet line are its text and its
      rendered ids, and both start and end on non-blank characters. */
  lemma BulletLineEnds(line: string, n: Split, marker: char, lead: string, text: string,
                       before: string, after: string, r: string)
    requires line == [marker] + lead + text + (before + "|" + after + r)
    requires n == BulletSplit(lead, text, before, after)
    requires WellFormedParts(marker, lead, text, before, after, r)
    ensures line[n.start..n.stop] == text && line[n.ids..] == r
    ensures !IsSpace(line[n.start]) && !IsSpace(line[n.stop - 1])
    ensures !IsSpace(line[n.ids]) && !IsSpace(line[|line| - 1])
  {
    BulletLineParts(line, n, marker, lead, text, before, after, r);
    assert line[n.start] == line[n.start..n.stop][0];
    assert line[n.stop - 1] == line[n.start..n.stop][|text| - 1];
    assert line[n.ids] == line[n.ids..][0];
    assert line[|line| - 1] == line[n.ids..][|r| - 1];
  }

  /** A match whose group 1 starts and ends on non-blank characters and
      whose group 2 starts on one is the one FindMatch reports, whatever
      `|` group 1 holds. */
  lemma OnlyMatch(line: string, n: Split)
    requires NoNewline(line) && IsMatch(line, n)
    requires !IsSpace(line[n.start]) && !IsSpace(line[n.stop - 1]) && !IsSpace(line[n.ids])
    ensures FindMatch(line) == Some(n)
  {
    MatchIsFirst(line, n);
    MatchIsSound(line);
    SameMatch(line, FindMatch(line).value, n);
  }

  /** A match tried no later than n, when n's groups start and end as
      above, is n itself: both take the last `|` of the line. */
  lemma SameMatch(line: string, m: Split, n: Split)
    requires IsMatch(line, m) && IsMatch(line, n) && TriedNoLater(m, n)
    requires !IsSpace(line[n.start]) && !IsSpace(line[n.stop - 1]) && !IsSpace(line[n.ids])
    ensures m == n
  {
    MatchBarIsLast(line, m);
    MatchBarIsLast(line, n);
  }

  /** ParseLine on a line with a match whose group 1 starts and ends on
      non-blank characters and whose group 2 starts on one: the record
      holds group 1 and the ids group 2 spells. */
  lemma ParseLineOfMatch(line: string, n: Split)
    requires NoNewline(line) && IsMatch(line, n)
    requires !IsSpace(line[n.start]) && !IsSpace(line[n.stop - 1]) && !IsSpace(line[n.ids])
    requires Trimmed(line)
    ensures ParseLine(line) == Some(Bullet(line[n.start..n.stop], EvidenceIds(line[n.ids..])))
  {
    StripKeeps(line);
    OnlyMatch(line, n);
    ParseLineFound(line, n);
  }

  /** The parser reads back what a well-formed bullet line says: its text
      and its ids. */
  lemma BulletLineRoundTrip(marker: char, lead: string, text: string, before: string, after: string,
                            sep: string, ids: seq<nat>)
    requires WellFormedBullet(marker, lead, text, before, after, sep, ids)
    ensures NoNewline(BulletLine(marker, lead, text, before, after, sep, ids))
    ensures ParseLine(BulletLine(marker, lead, text, before, after, sep, ids)) == Some(Bullet(text, ids))
  {
    var line := BulletLine(marker, lead, text, before, after, sep, ids);
    var n := BulletSplit(lead, text, before, after);
    var r := RenderIds(ids, sep);
    RenderedIds(r, ids, sep);
    BulletLineChars(line, n, marker, lead, text, before, after, r);
    BulletLineMatches(line, n, marker, lead, text, before, after, r);
    BulletLineEnds(line, n, marker, lead, text, before, after, r);
    ParseLineOfMatch(line, n);
    IdsRoundTrip(ids, sep);
  }

  /** A line of blanks between the marker and the `|` still matches, such
      as "- | 1": group 1 takes the last blank, and the record keeps it as
      its text. */
  lemma BlankBullet(line: string)
    requires |line| == 5 && IsMarker(line[0]) && line[1] == ' ' && line[2] == '|' && line[3] == ' ' && IsDigit(line[4])
    ensures NoNewline(line)
    ensures ParseLine(line) == Some(Bullet(" ", [DigitValue(line[4])]))
  {
    StripKeeps(line);
    BlankBulletMatch(line);
    ParseLineFound(line, Split(1, 2, 2, 4));
    assert line[1..2] == " ";
    SingleDigit(line[4..]);
  }

  /** A bullet whose id segment holds a comma and no digit, such as
      "- a |,", still yields a record, with an empty id list. */
  lemma BulletWithoutIds(line: string)
    requires |line| == 6 && IsMarker(line[0]) && line[1] == ' '
    requires !IsSpace(line[2]) && line[2] != '|' && line[2] != '\n'
    requires line[3] == ' ' && line[4] == '|' && line[5] == ','
    ensures NoNewline(line)
    ensures ParseLine(line) == Some(Bullet([line[2]], []))
  {
    BulletWithoutIdsMatch(line);
    StripKeeps(line);
    ParseLineFound(line, Split(2, 3, 4, 5));
    assert line[2..3] == [line[2]];
    assert line[5..] == ",";
    CommaOnlyIds();
  }

  lemma BulletWithoutIdsMatch(line: string)
    requires |line| == 6 && IsMarker(line[0]) && line[1] == ' '
    requires !IsSpace(line[2]) && line[2] != '|' && line[2] != '\n'
    requires line[3] == ' ' && line[4] == '|' && line[5] == ','
    ensures NoNewline(line)
    ensures FindMatch(line) == Some(Split(2, 3, 4, 5))
  {
    assert LastIndexOf(line, '|') == 4;
    assert LeadingSpaces(line[1..]) == 1 by {
      assert line[1..][0] == ' ' && line[1..][1] == line[2];
    }
    assert TrailingSpaces(line[2..4]) == 1 by {
      var t := line[2..4];
      assert t[1] == ' ' && t[0] == line[2];
      assert t[..1] == [line[2]];
    }
    assert LeadingSpaces(line[5..]) == 0 by {
      assert line[5..][0] == ',';
    }
  }

  /** re.split(r"[\s,]+", ",") is ["", ""], and neither piece is a number. */
  lemma CommaOnlyIds()
    ensures EvidenceIds(",") == []
  {
    assert FirstSeparator(",") == 0 && SeparatorRun(",") == 1;
    assert ","[1..] == [];
    assert SplitIds(",") == ["", ""];
  }

  /** A line that strip() leaves alone yields the record of the match
      FindMatch reports. */
  lemma ParseLineFound(line: string, m: Split)
    requires NoNewline(line) && Strip(line) == line && FindMatch(line) == Some(m)
    requires 1 <= m.start < m.stop <= m.bar < m.ids < |line|
    ensures ParseLine(line) == Some(Bullet(line[m.start..m.stop], EvidenceIds(line[m.ids..])))
  {
  }

  lemma SingleDigit(d: string)
    requires |d| == 1 && IsDigit(d[0])
    ensures EvidenceIds(d) == [DigitValue(d[0])]
  {
    SingleNumber(d);
    assert d[..0] == [];
  }

  lemma BlankBulletMatch(line: string)
    requires |line| == 5 && IsMarker(line[0]) && line[1] == ' ' && line[2] == '|' && line[3] == ' ' && IsDigit(line[4])
    ensures NoNewline(line)
    ensures FindMatch(line) == Some(Split(1, 2, 2, 4))
  {
    assert LastIndexOf(line, '|') == 2;
    assert LeadingSpaces(line[1..]) == 1 by {
      assert line[1..][0] == ' ' && line[1..][1] == '|';
    }
    assert LeadingSpaces(line[3..]) == 1 by {
      assert line[3..][0] == ' ' && line[3..][1] == line[4];
    }
  }

  /** A reply of two cited bullets, an ordinary sentence and a third
      bullet: the sentence is skipped and the three bullets come back in
      order, "Empty bullet" included. */
  lemma ReplyExample()
    ensures Parse("- Revenue grew | 1, 2" + "\n" + "* Costs fell|3" + "\n" + "not a bullet line" + "\n" + "\U{2022} Empty bullet | 4")
         == [Bullet("Revenue grew", [1, 2]), Bullet("Costs fell", [3]), Bullet("Empty bullet", [4])]
  {
    RevenueLine();
    CostsLine();
    ProseLine();
    EmptyBulletLine();
    ParseSkippingThird("- Revenue grew | 1, 2", "* Costs fell|3", "not a bullet line", "\U{2022} Empty bullet | 4",
                       Bullet("Revenue grew", [1, 2]), Bullet("Costs fell", [3]), Bullet("Empty bullet", [4]));
  }

  /** Four lines of which all but the third yield a record. */
  lemma ParseSkippingThird(l1: string, l2: string, l3: string, l4: string, b1: Bullet, b2: Bullet, b4: Bullet)
    requires NoNewline(l1) && NoNewline(l2) && NoNewline(l3) && NoNewline(l4) && l4 != []
    requires ParseLine(l1) == Some(b1) && ParseLine(l2) == Some(b2) && ParseLine(l3) == None && ParseLine(l4) == Some(b4)
    ensures Parse(l1 + "\n" + l2 + "\n" + l3 + "\n" + l4) == [b1, b2, b4]
  {
    ParseFourLines(l1, l2, l3, l4);
    PresentOfFour(b1, b2, None, b4);
  }

  lemma ParseFourLines(l1: string, l2: string, l3: string, l4: string)
    requires NoNewline(l1) && NoNewline(l2) && NoNewline(l3) && NoNewline(l4) && l4 != []
    ensures Parse(l1 + "\n" + l2 + "\n" + l3 + "\n" + l4)
         == Present([ParseLine(l1), ParseLine(l2), ParseLine(l3), ParseLine(l4)])
  {
    var raw := l1 + "\n" + l2 + "\n" + l3 + "\n" + l4;
    SplitFourLines(l1, l2, l3, l4);
    ParseOfLines(raw, [l1, l2, l3, l4]);
    LineResultsFour(l1, l2, l3, l4);
  }

  lemma ParseOfLines(raw: string, lines: seq<string>)
    requires SplitLines(raw) == lines
    ensures forall k :: 0 <= k < |lines| ==> NoNewline(lines[k])
    ensures Parse(raw) == ParseAll(lines)
  {
  }

  lemma LineResultsFour(l1: string, l2: string, l3: string, l4: string)
    requires NoNewline(l1) && NoNewline(l2) && NoNewline(l3) && NoNewline(l4)
    ensures LineResults([l1, l2, l3, l4]) == [ParseLine(l1), ParseLine(l2), ParseLine(l3), ParseLine(l4)]
  {
    var p1, p2, p3, p4 := ParseLine(l1), ParseLine(l2), ParseLine(l3), ParseLine(l4);
    assert [l1] == [] + [l1];
    LineResultsSnoc([], l1);
    assert LineResults([l1]) == [p1];
    assert [l1, l2] == [l1] + [l2];
    LineResultsSnoc([l1], l2);
    assert LineResults([l1, l2]) == [p1] + [p2] == [p1, p2];
    assert [l1, l2, l3] == [l1, l2] + [l3];
    LineResultsSnoc([l1, l2], l3);
    assert LineResults([l1, l2, l3]) == [p1, p2] + [p3] == [p1, p2, p3];
    assert [l1, l2, l3, l4] == [l1, l2, l3] + [l4];
    LineResultsSnoc([l1, l2, l3], l4);
    assert LineResults([l1, l2, l3, l4]) == [p1, p2, p3] + [p4] == [p1, p2, p3, p4];
  }

  lemma LineResultsSnoc(lines: seq<string>, line: string)
    requires forall k :: 0 <= k < |lines| ==> NoNewline(lines[k])
    requires NoNewline(line)
    ensures forall k :: 0 <= k < |lines + [line]| ==> NoNewline((lines + [line])[k])
    ensures LineResults(lines + [line]) == LineResults(lines) + [ParseLine(line)]
  {
    var all := lines + [line];
    assert forall k :: 0 <= k < |lines| ==> all[k] == lines[k];
  }

  lemma SplitFourLines(l1: string, l2: string, l3: string, l4: string)
    requires NoNewline(l1) && NoNewline(l2) && NoNewline(l3) && NoNewline(l4) && l4 != []
    ensures SplitLines(l1 + "\n" + l2 + "\n" + l3 + "\n" + l4) == [l1, l2, l3, l4]
  {
    JoinFour(l1, l2, l3, l4, "\n");
    SplitLinesJoin([l1, l2, l3, l4]);
  }

  /** Four lines joined by a separator. */
  lemma JoinFour(l1: string, l2: string, l3: string, l4: string, sep: string)
    ensures Join([l1, l2, l3, l4], sep) == l1 + sep + l2 + sep + l3 + sep + l4
  {
    JoinCons(l3, [l4], sep);
    assert [l3, l4] == [l3] + [l4];
    JoinCons(l2, [l3, l4], sep);
    assert [l2, l3, l4] == [l2] + [l3, l4];
    JoinCons(l1, [l2, l3, l4], sep);
    assert [l1, l2, l3, l4] == [l1] + [l2, l3, l4];
  }

  lemma PresentOfFour<T>(a: T, b: T, c: Option<T>, d: T)
    ensures Present([Some(a), Some(b), c, Some(d)]) == [a, b] + (if c.Some? then [c.value] else []) + [d]
  {
    PresentSnoc([Some(a)], Some(b));
    PresentSnoc([Some(a), Some(b)], c);
    PresentSnoc([Some(a), Some(b), c], Some(d));
    assert [Some(a)] + [Some(b)] == [Some(a), Some(b)];
    assert [Some(a), Some(b)] + [c] == [Some(a), Some(b), c];
    assert [Some(a), Some(b), c] + [Some(d)] == [Some(a), Some(b), c, Some(d)];
    assert [Some(a)][..0] == [] && [Some(b)][..0] == [] && [c][..0] == [] && [Some(d)][..0] == [];
  }

  lemma PresentSnoc<T>(opts: seq<Option<T>>, last: Option<T>)
    ensures Present(opts + [last]) == Present(opts) + Present([last])
  {
    assert (opts + [last])[..|opts|] == opts;
    assert [last][..0] == [];
  }

  lemma RevenueLine()
    ensures NoNewline("- Revenue grew | 1, 2")
    ensures ParseLine("- Revenue grew | 1, 2") == Some(Bullet("Revenue grew", [1, 2]))
  {
    assert RenderIds([1, 2], ", ") == "1, 2" by {
      assert Decimal(1) == "1" && Decimal(2) == "2";
    }
    assert BulletLine('-', " ", "Revenue grew", " ", " ", ", ", [1, 2]) == "- Revenue grew | 1, 2";
    RevenueWellFormed();
    BulletLineRoundTrip('-', " ", "Revenue grew", " ", " ", ", ", [1, 2]);
  }

  lemma RevenueWellFormed()
    ensures WellFormedBullet('-', " ", "Revenue grew", " ", " ", ", ", [1, 2])
  {
    var text := "Revenue grew";
    assert text[0] == 'R' && text[|text| - 1] == 'w';
  }

  lemma CostsLine()
    ensures NoNewline("* Costs fell|3")
    ensures ParseLine("* Costs fell|3") == Some(Bullet("Costs fell", [3]))
  {
    assert BulletLine('*', " ", "Costs fell", "", "", ",", [3]) == "* Costs fell|3";
    BulletLineRoundTrip('*', " ", "Costs fell", "", "", ",", [3]);
  }

  lemma ProseLine()
    ensures NoNewline("not a bullet line")
    ensures ParseLine("not a bullet line") == None
  {
    var line := "not a bullet line";
    assert line[0] == 'n' && line[|line| - 1] == 'e';
    UnmarkedLine(line);
  }

  /** A line that starts with something other than a marker or a blank
      yields no record. */
  lemma UnmarkedLine(line: string)
    requires NoNewline(line) && Trimmed(line) && !IsMarker(line[0])
    ensures ParseLine(line) == None
  {
    StripKeeps(line);
  }

  lemma EmptyBulletLine()
    ensures NoNewline("\U{2022} Empty bullet | 4")
    ensures ParseLine("\U{2022} Empty bullet | 4") == Some(Bullet("Empty bullet", [4]))
  {
    assert BulletLine('\U{2022}', " ", "Empty bullet", " ", " ", ",", [4]) == "\U{2022} Empty bullet | 4";
    BulletLineRoundTrip('\U{2022}', " ", "Empty bullet", " ", " ", ",", [4]);
  }

  /** A reply of one line yields that line's record, if any. */
  lemma ParseSingleLine(line: string)
    requires NoNewline(line) && line != []
    ensures Parse(line) == if ParseLine(line).Some? then [ParseLine(line).value] else []
  {
    assert IndexOf(line, '\n') == |line|;
    assert SplitLines(line) == [line];
    assert LineResults([line]) == [ParseLine(line)];
    assert [ParseLine(line)][..0] == [];
  }

  /** A reply made of one well-formed bullet line yields its one record. */
  lemma ParseBulletLineReply(marker: char, lead: string, text: string, before: string, after: string,
                             sep: string, ids: seq<nat>)
    requires WellFormedBullet(marker, lead, text, before, after, sep, ids)
    ensures Parse(BulletLine(marker, lead, text, before, after, sep, ids)) == [Bullet(text, ids)]
  {
    BulletLineRoundTrip(marker, lead, text, before, after, sep, ids);
    ParseSingleLine(BulletLine(marker, lead, text, before, after, sep, ids));
  }

  /** The one-line summary reply the stub service gives. */
  lemma SummaryBulletReply()
    ensures Parse("- Summary bullet | 1,2") == [Bullet("Summary bullet", [1, 2])]
  {
    assert BulletLine('-', " ", "Summary bullet", " ", " ", ",", [1, 2]) == "- Summary bullet | 1,2" by {
      assert RenderIds([1, 2], ",") == "1,2" by {
        assert Decimal(1) == "1" && Decimal(2) == "2";
      }
    }
    SummaryBulletWellFormed();
    ParseBulletLineReply('-', " ", "Summary bullet", " ", " ", ",", [1, 2]);
  }

  lemma SummaryBulletWellFormed()
    ensures WellFormedBullet('-', " ", "Summary bullet", " ", " ", ",", [1, 2])
  {
    var text := "Summary bullet";
    assert text[0] == 'S' && text[|text| - 1] == 't';
  }

  /** A bar inside the bullet text stays in the text: the last `|` of the
      line is the one before the ids, so "- a | b | 1" gives the record
      ("a | b", [1]). */
  lemma BarInBulletText()
    ensures ParseLine("- a | b | 1") == Some(Bullet("a | b", [1]))
  {
    assert BulletLine('-', " ", "a | b", " ", " ", ",", [1]) == "- a | b | 1" by {
      assert RenderIds([1], ",") == "1" by {
        assert Decimal(1) == "1";
      }
    }
    BarTextWellFormed();
    BulletLineRoundTrip('-', " ", "a | b", " ", " ", ",", [1]);
  }

  lemma BarTextWellFormed()
    ensures WellFormedBullet('-', " ", "a | b", " ", " ", ",", [1])
  {
    var text := "a | b";
    assert text[0] == 'a' && text[|text| - 1] == 'b';
  }
}
