/** The fragment of .NET regular expressions that both lexers use, written out as
    hand-made recognisers over ASCII text: one recogniser per pattern shape, the
    leftmost-first scan that Regex.Matches performs over an alternation, the
    unanchored test of Regex.IsMatch, and the first-match search over an ordered
    rule table. */
module Regex {

  datatype Option<T> = None | Some(value: T)

  /** A non-empty literal alternative inside a \b(?:...)\b group. */
  type Word = w: string | |w| > 0 witness "a"

  /** The pattern shapes that occur in the rule tables. */
  datatype Pattern =
    | WholeWord(alternatives: seq<Word>)  // \b(?:w1|w2|...)\b, alternatives tried in order
    | AnyOf(chars: string)                // one character of chars: =  ;  \(  [\+\-\*\/] ...
    | Name                                // [a-zA-Z_]\w*
    | Numeral                             // \d+(\.\d+)?
    | WholeDecimal                        // \b\d+\.\d+\b
    | WholeDigits                         // \b\d+\b

  /** One (kind, pattern) entry of a lexer's rule table. */
  datatype Rule<K> = Rule(kind: K, pattern: Pattern)

  /** Which alternative of an alternation matched, and where its match ends. */
  datatype Hit = Hit(alternative: nat, end: nat)

  /** The half-open range [start, end) of the source that one match covers. */
  datatype Span = Span(start: nat, end: nat)

  predicate IsDigit(c: char) { '0' <= c <= '9' }
  predicate IsLetter(c: char) { 'a' <= c <= 'z' || 'A' <= c <= 'Z' }
  predicate IsWordChar(c: char) { IsLetter(c) || IsDigit(c) || c == '_' }

  predicate AllDigits(s: string) { forall i | 0 <= i < |s| :: IsDigit(s[i]) }

  /** Position i holds a word character; positions outside the text do not. */
  predicate WordAt(s: string, i: int) { 0 <= i < |s| && IsWordChar(s[i]) }

  /** \b at position i: a word/non-word transition, the edges of the text counting
      as non-word. */
  predicate IsBoundary(s: string, i: int) { WordAt(s, i - 1) != WordAt(s, i) }

  /** The end of the greedy digit run \d* that starts at i. */
  function DigitRunEnd(s: string, i: nat): (e: nat)
    requires i <= |s|
    ensures i <= e <= |s|
    ensures forall k | i <= k < e :: IsDigit(s[k])
    ensures e == |s| || !IsDigit(s[e])
    decreases |s| - i
  {
    if i < |s| && IsDigit(s[i]) then DigitRunEnd(s, i + 1) else i
  }

  /** The digit run from i stops at m when every character in between is a digit and
      the one at m (if any) is not. */
  lemma {:induction false} DigitRunStopsAt(s: string, i: nat, m: nat)
    requires i <= m <= |s|
    requires forall k | i <= k < m :: IsDigit(s[k])
    requires m == |s| || !IsDigit(s[m])
    ensures DigitRunEnd(s, i) == m
    decreases m - i
  {
    if i < m {
      DigitRunStopsAt(s, i + 1, m);
    }
  }

  /** The end of the greedy word-character run \w* that starts at i. */
  function WordRunEnd(s: string, i: nat): (e: nat)
    requires i <= |s|
    ensures i <= e <= |s|
    ensures forall k | i <= k < e :: IsWordChar(s[k])
    ensures e == |s| || !IsWordChar(s[e])
    decreases |s| - i
  {
    if i < |s| && IsWordChar(s[i]) then WordRunEnd(s, i + 1) else i
  }

  /** The word-character run from i stops at m when every character in between is a
      word character and the one at m (if any) is not. */
  lemma {:induction false} WordRunStopsAt(s: string, i: nat, m: nat)
    requires i <= m <= |s|
    requires forall k | i <= k < m :: IsWordChar(s[k])
    requires m == |s| || !IsWordChar(s[m])
    ensures WordRunEnd(s, i) == m
    decreases m - i
  {
    if i < m {
      WordRunStopsAt(s, i + 1, m);
    }
  }

  /** The group (?:w1|w2|...) followed by \b, entered at p: the first alternative, in
      order, that the text spells at p and that ends on a boundary. */
  function WholeWordEnd(ws: seq<Word>, s: string, p: nat): (r: Option<nat>)
    requires p <= |s|
    ensures r.Some? ==> p < r.value <= |s| && s[p..r.value] in ws && IsBoundary(s, r.value)
    ensures r.None? ==> forall k | 0 <= k < |ws| :: !(ws[k] <= s[p..] && IsBoundary(s, p + |ws[k]|))
    decreases |ws|
  {
    if ws == [] then None
    else if ws[0] <= s[p..] && IsBoundary(s, p + |ws[0]|) then
      assert s[p..p + |ws[0]|] == ws[0];
      Some(p + |ws[0]|)
    else
      var r := WholeWordEnd(ws[1..], s, p);
      assert forall k | 1 <= k < |ws| :: ws[k] == ws[1..][k - 1];
      r
  }

  /** The characters a match of pat can begin with. */
  ghost predicate CanStart(pat: Pattern, c: char)
  {
    match pat
    case WholeWord(ws) => exists w | w in ws :: w[0] == c
    case AnyOf(cs) => c in cs
    case Name => IsLetter(c) || c == '_'
    case Numeral => IsDigit(c)
    case WholeDecimal => IsDigit(c)
    case WholeDigits => IsDigit(c)
  }

  /** The characters a match of pat can contain. */
  ghost predicate InAlphabet(pat: Pattern, c: char)
  {
    match pat
    case WholeWord(ws) => exists w | w in ws :: c in w
    case AnyOf(cs) => c in cs
    case Name => IsWordChar(c)
    case Numeral => IsDigit(c) || c == '.'
    case WholeDecimal => IsDigit(c) || c == '.'
    case WholeDigits => IsDigit(c)
  }

  lemma SliceChars(s: string, p: nat, e: nat)
    requires p < e <= |s|
    ensures s[p..e][0] == s[p]
    ensures forall i | p <= i < e :: s[i] in s[p..e]
  {
    forall i | p <= i < e ensures s[i] in s[p..e] {
      assert s[p..e][i - p] == s[i];
    }
  }

  /** Extending a prefix of a sequence by one element. */
  lemma PrefixGrows<T>(s: seq<T>, i: nat)
    requires i < |s|
    ensures s[..i + 1] == s[..i] + [s[i]]
  {
  }

  /** Where the engine's match of pat, started at position p, ends (the backtracking
      of \d+ and \w* never yields a different match for these shapes, so the greedy
      run decides), or None when pat has no match starting at p. */
  function MatchAt(pat: Pattern, s: string, p: nat): (r: Option<nat>)
    requires p <= |s|
    ensures r.Some? ==> p < r.value <= |s|
  {
    match pat
    case WholeWord(ws) => if IsBoundary(s, p) then WholeWordEnd(ws, s, p) else None
    case AnyOf(cs) =>
      if p < |s| && s[p] in cs then Some(p + 1) else None
    case Name =>
      if p < |s| && (IsLetter(s[p]) || s[p] == '_') then Some(WordRunEnd(s, p + 1)) else None
    case Numeral =>
      if p < |s| && IsDigit(s[p]) then
        var e := DigitRunEnd(s, p);
        if e + 1 < |s| && s[e] == '.' && IsDigit(s[e + 1]) then Some(DigitRunEnd(s, e + 1)) else Some(e)
      else None
    case WholeDecimal =>
      if p < |s| && IsDigit(s[p]) && IsBoundary(s, p) then
        var e := DigitRunEnd(s, p);
        if e + 1 < |s| && s[e] == '.' && IsDigit(s[e + 1]) && IsBoundary(s, DigitRunEnd(s, e + 1))
        then Some(DigitRunEnd(s, e + 1))
        else None
      else None
    case WholeDigits =>
      if p < |s| && IsDigit(s[p]) && IsBoundary(s, p) then
        var e := DigitRunEnd(s, p);
        if IsBoundary(s, e) then Some(e) else None
      else None
  }

  /** A match begins with a character that can begin it and holds only characters of
      the pattern's alphabet. */
  lemma MatchAlphabet(pat: Pattern, s: string, p: nat)
    requires p <= |s| && MatchAt(pat, s, p).Some?
    ensures CanStart(pat, s[p])
    ensures forall i | p <= i < MatchAt(pat, s, p).value :: InAlphabet(pat, s[i])
  {
    if pat.WholeWord? {
      SliceChars(s, p, MatchAt(pat, s, p).value);
    }
  }

  /** No match of pat starts at p when the character there cannot begin one. */
  lemma NoMatchAtWithoutStart(pat: Pattern, s: string, p: nat)
    requires p < |s| && !CanStart(pat, s[p])
    ensures MatchAt(pat, s, p).None?
  {
    if MatchAt(pat, s, p).Some? {
      MatchAlphabet(pat, s, p);
    }
  }

  /** A match of \b\d+\.\d+\b is two digit runs around a single dot. */
  lemma WholeDecimalShape(s: string, p: nat)
    requires p <= |s| && MatchAt(WholeDecimal, s, p).Some?
    ensures var e := MatchAt(WholeDecimal, s, p).value;
      exists m | p < m < e - 1 :: s[m] == '.' && AllDigits(s[p..m]) && AllDigits(s[m + 1..e])
  {
    var e := MatchAt(WholeDecimal, s, p).value;
    var m := DigitRunEnd(s, p);
    assert AllDigits(s[p..m]) by {
      forall i | 0 <= i < m - p ensures IsDigit(s[p..m][i]) { assert s[p..m][i] == s[p + i]; }
    }
    var b := s[m + 1..e];
    assert AllDigits(b) by {
      forall i | 0 <= i < |b| ensures IsDigit(b[i]) { assert b[i] == s[m + 1 + i]; }
    }
  }

  /** The text of a match of \b\d+\.\d+\b, split at its dot. */
  lemma WholeDecimalSplit(s: string, p: nat) returns (a: string, b: string)
    requires p <= |s| && MatchAt(WholeDecimal, s, p).Some?
    ensures |a| > 0 && |b| > 0 && AllDigits(a) && AllDigits(b)
    ensures s[p..MatchAt(WholeDecimal, s, p).value] == a + "." + b
  {
    var e := MatchAt(WholeDecimal, s, p).value;
    WholeDecimalShape(s, p);
    var m :| p < m < e - 1 && s[m] == '.' && AllDigits(s[p..m]) && AllDigits(s[m + 1..e]);
    a, b := s[p..m], s[m + 1..e];
    assert s[p..e] == s[p..m] + [s[m]] + s[m + 1..e];
  }

  /** The alternatives of the alternation, from index k on, tried in order at p. */
  function FirstAlternativeFrom(alts: seq<Pattern>, s: string, p: nat, k: nat): (r: Option<Hit>)
    requires p <= |s| && k <= |alts|
    ensures r.Some? ==> k <= r.value.alternative < |alts| && p < r.value.end <= |s|
    decreases |alts| - k
  {
    if k == |alts| then None
    else match MatchAt(alts[k], s, p)
      case Some(e) => Some(Hit(k, e))
      case None => FirstAlternativeFrom(alts, s, p, k + 1)
  }

  lemma {:induction false} FirstAlternativeFromIsFirst(alts: seq<Pattern>, s: string, p: nat, k: nat)
    requires p <= |s| && k <= |alts|
    ensures var r := FirstAlternativeFrom(alts, s, p, k);
      (r.Some? ==>
         MatchAt(alts[r.value.alternative], s, p) == Some(r.value.end) &&
         forall j | k <= j < r.value.alternative :: MatchAt(alts[j], s, p).None?) &&
      (r.None? ==> forall j | k <= j < |alts| :: MatchAt(alts[j], s, p).None?)
    decreases |alts| - k
  {
    if k < |alts| && MatchAt(alts[k], s, p).None? {
      FirstAlternativeFromIsFirst(alts, s, p, k + 1);
    }
  }

  /** An alternation a1|a2|...|an entered at p: the first alternative that matches
      there wins, however long a later one's match would be. */
  function FirstAlternative(alts: seq<Pattern>, s: string, p: nat): (r: Option<Hit>)
    requires p <= |s|
    ensures r.Some? ==> r.value.alternative < |alts| && p < r.value.end <= |s|
  {
    FirstAlternativeFrom(alts, s, p, 0)
  }

  /** FirstAlternative reports the first alternative, in order, that matches at p,
      with the end of its match, and None only when no alternative matches at p. */
  lemma FirstAlternativeIsFirst(alts: seq<Pattern>, s: string, p: nat)
    requires p <= |s|
    ensures var r := FirstAlternative(alts, s, p);
      (r.Some? ==>
         MatchAt(alts[r.value.alternative], s, p) == Some(r.value.end) &&
         forall j | 0 <= j < r.value.alternative :: MatchAt(alts[j], s, p).None?) &&
      (r.None? ==> forall j | 0 <= j < |alts| :: MatchAt(alts[j], s, p).None?)
  {
    FirstAlternativeFromIsFirst(alts, s, p, 0);
  }

  /** The alternative a decides the match at p when it matches there and no earlier
      alternative does. */
  lemma FirstAlternativeIs(alts: seq<Pattern>, s: string, p: nat, a: nat, e: nat)
    requires p <= |s| && a < |alts| && MatchAt(alts[a], s, p) == Some(e)
    requires forall j | 0 <= j < a :: MatchAt(alts[j], s, p).None?
    ensures FirstAlternative(alts, s, p) == Some(Hit(a, e))
  {
    FirstAlternativeIsFirst(alts, s, p);
  }

  /** The alternation has no match at p when none of its alternatives has one. */
  lemma NoAlternative(alts: seq<Pattern>, s: string, p: nat)
    requires p <= |s|
    requires forall j | 0 <= j < |alts| :: MatchAt(alts[j], s, p).None?
    ensures FirstAlternative(alts, s, p).None?
  {
    FirstAlternativeIsFirst(alts, s, p);
  }

  /** No span covers position q. */
  ghost predicate Uncovered(spans: seq<Span>, q: nat)
  {
    forall k | 0 <= k < |spans| :: !(spans[k].start <= q < spans[k].end)
  }

  /** The spans come in order and do not overlap. */
  ghost predicate Ordered(spans: seq<Span>)
  {
    forall j, k | 0 <= j < k < |spans| :: spans[j].end <= spans[k].start
  }

  /** Every span starts at or after p and is the alternation's match at its start. */
  ghost predicate MatchedAtStarts(alts: seq<Pattern>, s: string, p: nat, spans: seq<Span>)
  {
    forall k | 0 <= k < |spans| ::
      p <= spans[k].start <= |s| &&
      var h := FirstAlternative(alts, s, spans[k].start); h.Some? && h.value.end == spans[k].end
  }

  /** At every position from p on that no span covers, the alternation has no match. */
  ghost predicate GapsUnmatched(alts: seq<Pattern>, s: string, p: nat, spans: seq<Span>)
  {
    forall q | p <= q < |s| && Uncovered(spans, q) :: FirstAlternative(alts, s, q).None?
  }

  /** spans is the leftmost-first segmentation of s from p on: every span is the
      alternation's match at its own start, spans come in order without overlap, and
      at every position that no span covers the alternation has no match. */
  ghost predicate LeftmostFirst(alts: seq<Pattern>, s: string, p: nat, spans: seq<Span>)
  {
    MatchedAtStarts(alts, s, p, spans) && Ordered(spans) && GapsUnmatched(alts, s, p, spans)
  }

  /** The matches that Regex.Matches finds for the alternation alts in s, scanning
      from p: at each position the alternation is tried; a match is taken and the scan
      resumes at its end, otherwise the position is skipped. */
  function Scan(alts: seq<Pattern>, s: string, p: nat): (r: seq<Span>)
    requires p <= |s|
    ensures forall k | 0 <= k < |r| :: p <= r[k].start < r[k].end <= |s|
    decreases |s| - p
  {
    if p == |s| then []
    else match FirstAlternative(alts, s, p)
      case None => Scan(alts, s, p + 1)
      case Some(h) =>
        var rest := Scan(alts, s, h.end);
        var r := [Span(p, h.end)] + rest;
        assert forall k | 1 <= k < |r| :: r[k] == rest[k - 1];
        r
  }

  /** Prefixing the match found at p to a segmentation from its end gives a
      segmentation from p. */
  lemma PrependMatch(alts: seq<Pattern>, s: string, p: nat, h: Hit, rest: seq<Span>)
    requires p < |s| && FirstAlternative(alts, s, p) == Some(h)
    requires LeftmostFirst(alts, s, h.end, rest)
    ensures LeftmostFirst(alts, s, p, [Span(p, h.end)] + rest)
  {
    PrependMatchedAtStarts(alts, s, p, h, rest);
    PrependOrdered(Span(p, h.end), rest);
    PrependGapsUnmatched(alts, s, p, h, rest);
  }

  lemma PrependOrdered(first: Span, rest: seq<Span>)
    requires Ordered(rest) && forall k | 0 <= k < |rest| :: first.end <= rest[k].start
    ensures Ordered([first] + rest)
  {
    var r := [first] + rest;
    forall i, j | 0 <= i < j < |r| ensures r[i].end <= r[j].start {
      assert r[j] == rest[j - 1];
      if i > 0 { assert r[i] == rest[i - 1]; }
    }
  }

  lemma PrependMatchedAtStarts(alts: seq<Pattern>, s: string, p: nat, h: Hit, rest: seq<Span>)
    requires p < |s| && FirstAlternative(alts, s, p) == Some(h)
    requires MatchedAtStarts(alts, s, h.end, rest)
    ensures MatchedAtStarts(alts, s, p, [Span(p, h.end)] + rest)
  {
    var r := [Span(p, h.end)] + rest;
    forall k | 0 <= k < |r|
      ensures p <= r[k].start <= |s|
      ensures var g := FirstAlternative(alts, s, r[k].start); g.Some? && g.value.end == r[k].end
    {
      if k > 0 { assert r[k] == rest[k - 1]; }
    }
  }

  lemma PrependGapsUnmatched(alts: seq<Pattern>, s: string, p: nat, h: Hit, rest: seq<Span>)
    requires p < |s| && FirstAlternative(alts, s, p) == Some(h)
    requires GapsUnmatched(alts, s, h.end, rest)
    ensures GapsUnmatched(alts, s, p, [Span(p, h.end)] + rest)
  {
    var r := [Span(p, h.end)] + rest;
    forall q | p <= q < |s| && Uncovered(r, q) ensures FirstAlternative(alts, s, q).None? {
      assert r[0] == Span(p, h.end);
      forall k | 0 <= k < |rest| ensures !(rest[k].start <= q < rest[k].end) {
        assert rest[k] == r[k + 1];
      }
    }
  }

  /** A position where the alternation has no match can be added in front of a
      segmentation as a gap. */
  lemma PrependGap(alts: seq<Pattern>, s: string, p: nat, spans: seq<Span>)
    requires p < |s| && FirstAlternative(alts, s, p).None?
    requires LeftmostFirst(alts, s, p + 1, spans)
    ensures LeftmostFirst(alts, s, p, spans)
  {
  }

  /** What Scan computes is the leftmost-first segmentation of the text. */
  lemma {:induction false} ScanIsLeftmostFirst(alts: seq<Pattern>, s: string, p: nat)
    requires p <= |s|
    ensures LeftmostFirst(alts, s, p, Scan(alts, s, p))
    decreases |s| - p
  {
    if p < |s| {
      match FirstAlternative(alts, s, p)
      case None =>
        ScanIsLeftmostFirst(alts, s, p + 1);
        ScanSkips(alts, s, p);
      case Some(h) =>
        ScanIsLeftmostFirst(alts, s, h.end);
        ScanTakes(alts, s, p, h);
    }
  }

  /** One step of Scan that skips an unmatched position keeps the segmentation. */
  lemma ScanSkips(alts: seq<Pattern>, s: string, p: nat)
    requires p < |s| && FirstAlternative(alts, s, p).None?
    requires LeftmostFirst(alts, s, p + 1, Scan(alts, s, p + 1))
    ensures LeftmostFirst(alts, s, p, Scan(alts, s, p))
  {
    assert Scan(alts, s, p) == Scan(alts, s, p + 1);
    PrependGap(alts, s, p, Scan(alts, s, p + 1));
  }

  /** One step of Scan that takes the match at p keeps the segmentation. */
  lemma ScanTakes(alts: seq<Pattern>, s: string, p: nat, h: Hit)
    requires p < |s| && FirstAlternative(alts, s, p) == Some(h)
    requires LeftmostFirst(alts, s, h.end, Scan(alts, s, h.end))
    ensures LeftmostFirst(alts, s, p, Scan(alts, s, p))
  {
    assert Scan(alts, s, p) == [Span(p, h.end)] + Scan(alts, s, h.end);
    PrependMatch(alts, s, p, h, Scan(alts, s, h.end));
  }

  /** The spans of a leftmost-first segmentation are non-empty and lie between p
      and the end of the text. */
  lemma SpanBounds(alts: seq<Pattern>, s: string, p: nat, spans: seq<Span>)
    requires LeftmostFirst(alts, s, p, spans)
    ensures forall k | 0 <= k < |spans| :: p <= spans[k].start < spans[k].end <= |s|
    ensures spans != [] ==> p < |s|
  {
    forall k | 0 <= k < |spans| ensures p <= spans[k].start < spans[k].end <= |s| {
      assert FirstAlternative(alts, s, spans[k].start).Some?;
    }
    if spans != [] {
      assert spans[0].start < |s|;
    }
  }

  /** A position where the alternation has no match starts no span of a
      leftmost-first segmentation, so the segmentation also holds from p + 1. */
  lemma SkipUnmatched(alts: seq<Pattern>, s: string, p: nat, spans: seq<Span>)
    requires p < |s| && FirstAlternative(alts, s, p).None?
    requires LeftmostFirst(alts, s, p, spans)
    ensures LeftmostFirst(alts, s, p + 1, spans)
  {
    forall k | 0 <= k < |spans| ensures p + 1 <= spans[k].start {
      assert FirstAlternative(alts, s, spans[k].start).Some?;
    }
  }

  /** A position where the alternation matches must begin the first span of a
      leftmost-first segmentation, and the other spans segment the rest. */
  lemma TakeMatched(alts: seq<Pattern>, s: string, p: nat, spans: seq<Span>, h: Hit)
    requires p < |s| && FirstAlternative(alts, s, p) == Some(h)
    requires LeftmostFirst(alts, s, p, spans)
    ensures spans != [] && spans[0] == Span(p, h.end)
    ensures LeftmostFirst(alts, s, h.end, spans[1..])
  {
    assert !Uncovered(spans, p);
    var k :| 0 <= k < |spans| && spans[k].start <= p < spans[k].end;
    assert p <= spans[0].start;
    assert FirstAlternative(alts, s, spans[0].start).Some?;
    assert k == 0;
    var rest := spans[1..];
    forall j | 0 <= j < |rest| ensures h.end <= rest[j].start {
      assert rest[j] == spans[j + 1];
    }
    forall i, j | 0 <= i < j < |rest| ensures rest[i].end <= rest[j].start {
      assert rest[i] == spans[i + 1] && rest[j] == spans[j + 1];
    }
    forall q | h.end <= q < |s| && Uncovered(rest, q) ensures Uncovered(spans, q) {
      forall j | 0 <= j < |spans| ensures !(spans[j].start <= q < spans[j].end) {
        if j > 0 { assert spans[j] == rest[j - 1]; }
      }
    }
  }

  /** The leftmost-first segmentation is unique: any sequence of spans with the
      properties of LeftmostFirst is exactly what Scan computes. */
  lemma {:induction false} LeftmostFirstIsUnique(alts: seq<Pattern>, s: string, p: nat, spans: seq<Span>)
    requires p <= |s|
    requires LeftmostFirst(alts, s, p, spans)
    ensures spans == Scan(alts, s, p)
    decreases |s| - p
  {
    SpanBounds(alts, s, p, spans);
    if p < |s| {
      match FirstAlternative(alts, s, p)
      case None =>
        SkipUnmatched(alts, s, p, spans);
        LeftmostFirstIsUnique(alts, s, p + 1, spans);
      case Some(h) =>
        TakeMatched(alts, s, p, spans, h);
        LeftmostFirstIsUnique(alts, s, h.end, spans[1..]);
        assert spans == [spans[0]] + spans[1..];
    }
  }

  /** The text of every match of the alternation in s, in order (Match.Value). */
  function Lexemes(alts: seq<Pattern>, s: string): (r: seq<string>)
    ensures |r| == |Scan(alts, s, 0)|
    ensures forall k | 0 <= k < |r| :: 0 < |r[k]| <= |s|
  {
    var spans := Scan(alts, s, 0);
    seq(|spans|, k requires 0 <= k < |spans| => s[spans[k].start..spans[k].end])
  }

  /** Every lexeme is the text of the match of some alternative at the start of its
      span, so each of its characters belongs to that alternative's alphabet. */
  lemma LexemeOrigin(alts: seq<Pattern>, s: string, k: nat) returns (a: nat)
    requires k < |Lexemes(alts, s)|
    ensures a < |alts|
    ensures var sp := Scan(alts, s, 0)[k];
      MatchAt(alts[a], s, sp.start) == Some(sp.end) && Lexemes(alts, s)[k] == s[sp.start..sp.end]
    ensures forall i | 0 <= i < |Lexemes(alts, s)[k]| :: InAlphabet(alts[a], Lexemes(alts, s)[k][i])
  {
    var spans := Scan(alts, s, 0);
    ScanIsLeftmostFirst(alts, s, 0);
    var sp := spans[k];
    var h := FirstAlternative(alts, s, sp.start).value;
    FirstAlternativeIsFirst(alts, s, sp.start);
    a := h.alternative;
    MatchAlphabet(alts[a], s, sp.start);
    var x := Lexemes(alts, s)[k];
    forall i | 0 <= i < |x| ensures InAlphabet(alts[a], x[i]) {
      assert x[i] == s[sp.start + i];
    }
  }

  /** The patterns of a rule table, in table order: the alternatives of the pattern
      that joins all of them with "|". */
  function Alternation<K>(table: seq<Rule<K>>): seq<Pattern>
  {
    seq(|table|, i requires 0 <= i < |table| => table[i].pattern)
  }

  /** Regex.IsMatch restricted to start positions from p on. */
  function MatchesFrom(pat: Pattern, s: string, p: nat): (b: bool)
    requires p <= |s|
    ensures b <==> exists q | p <= q < |s| :: MatchAt(pat, s, q).Some?
    decreases |s| - p
  {
    p < |s| && (MatchAt(pat, s, p).Some? || MatchesFrom(pat, s, p + 1))
  }

  /** Regex.IsMatch: the pattern matches somewhere in s (unanchored). */
  predicate IsMatch(pat: Pattern, s: string)
  {
    MatchesFrom(pat, s, 0)
  }

  /** Inside a text made only of word characters, \b holds at its two edges and
      nowhere else, so a whole-word group matches somewhere in such a text exactly
      when the whole text is one of its alternatives. */
  lemma WholeWordInWord(ws: seq<Word>, w: string)
    requires forall i | 0 <= i < |w| :: IsWordChar(w[i])
    ensures IsMatch(WholeWord(ws), w) <==> w in ws
  {
    var pat := WholeWord(ws);
    if IsMatch(pat, w) {
      var q :| 0 <= q < |w| && MatchAt(pat, w, q).Some?;
      assert IsBoundary(w, q);
      assert q == 0;
      var e := MatchAt(pat, w, 0).value;
      assert e == |w|;
      assert w[0..e] == w;
    }
    if w in ws {
      var k :| 0 <= k < |ws| && ws[k] == w;
      assert w <= w[0..] && IsBoundary(w, 0 + |ws[k]|);
      assert IsBoundary(w, 0);
      assert MatchAt(pat, w, 0).Some?;
    }
  }

  /** A pattern has no match from p on in a text none of whose characters from p on
      can begin a match. */
  lemma NoMatchWithoutStart(pat: Pattern, s: string, p: nat)
    requires p <= |s|
    requires forall q | p <= q < |s| :: !CanStart(pat, s[q])
    ensures !MatchesFrom(pat, s, p)
  {
    forall q | p <= q < |s| && MatchAt(pat, s, q).Some? ensures CanStart(pat, s[q]) {
      MatchAlphabet(pat, s, q);
    }
  }

  /** The rules of the table, from index k on, tried in order on s. */
  function FirstRuleFrom<K>(table: seq<Rule<K>>, s: string, k: nat): (r: Option<nat>)
    requires k <= |table|
    ensures r.Some? ==> k <= r.value < |table|
    decreases |table| - k
  {
    if k == |table| then None
    else if IsMatch(table[k].pattern, s) then Some(k)
    else FirstRuleFrom(table, s, k + 1)
  }

  lemma {:induction false} FirstRuleFromIsFirst<K>(table: seq<Rule<K>>, s: string, k: nat)
    requires k <= |table|
    ensures var r := FirstRuleFrom(table, s, k);
      (r.Some? ==>
         IsMatch(table[r.value].pattern, s) &&
         forall j | k <= j < r.value :: !IsMatch(table[j].pattern, s)) &&
      (r.None? ==> forall j | k <= j < |table| :: !IsMatch(table[j].pattern, s))
    decreases |table| - k
  {
    if k < |table| && !IsMatch(table[k].pattern, s) {
      FirstRuleFromIsFirst(table, s, k + 1);
    }
  }

  lemma {:induction false} FirstRuleFromIs<K>(table: seq<Rule<K>>, s: string, k: nat, i: nat)
    requires k <= i < |table| && IsMatch(table[i].pattern, s)
    requires forall j | k <= j < i :: !IsMatch(table[j].pattern, s)
    ensures FirstRuleFrom(table, s, k) == Some(i)
    decreases i - k
  {
    if k < i {
      FirstRuleFromIs(table, s, k + 1, i);
    }
  }

  /** The index of the first rule, in table order, whose pattern matches somewhere
      in s. */
  function FirstRule<K>(table: seq<Rule<K>>, s: string): (r: Option<nat>)
    ensures r.Some? ==> r.value < |table|
  {
    FirstRuleFrom(table, s, 0)
  }

  /** FirstRule reports the first rule, in table order, whose pattern matches in s,
      and None only when no pattern of the table matches in s. */
  lemma FirstRuleIsFirst<K>(table: seq<Rule<K>>, s: string)
    ensures var r := FirstRule(table, s);
      (r.Some? ==>
         IsMatch(table[r.value].pattern, s) &&
         forall j | 0 <= j < r.value :: !IsMatch(table[j].pattern, s)) &&
      (r.None? ==> forall j | 0 <= j < |table| :: !IsMatch(table[j].pattern, s))
  {
    FirstRuleFromIsFirst(table, s, 0);
  }

  /** The first rule that matches is the one FirstRule reports. */
  lemma FirstRuleIs<K>(table: seq<Rule<K>>, s: string, i: nat)
    requires i < |table| && IsMatch(table[i].pattern, s)
    requires forall j | 0 <= j < i :: !IsMatch(table[j].pattern, s)
    ensures FirstRule(table, s) == Some(i)
  {
    FirstRuleFromIs(table, s, 0, i);
  }
}
