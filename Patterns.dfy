/**
 * The fixed regular expressions that the advisory-page extractor searches for, each written
 * as a dedicated matcher. Every one of them is deterministic at a given start position: each
 * greedy run (`\d+`, `\s+`, `\w+`, `[^P]*`, `[\s:]+`) must stop exactly where the next token's
 * character class begins, so backtracking never yields a different match. `At(p, t, i)` is
 * therefore the capture of the match of `p` that starts at `i`, if there is one, and
 * `Search(p, t)` is `re.search(p, t, re.IGNORECASE)`: the capture of the leftmost match.
 */
module Patterns {
  import opened Wrappers
  import opened Text

  datatype Pattern =
    | RaisedTo      // "to", spaces, "P", then the rate tail
    | PesoPrefixed  // "P", then the rate tail
    | OverallRate   // "overall", spaces, "rate", anything without a P, "P", then the rate tail
    | PhpPrefixed   // "Php", optional spaces, then the rate tail
    | BareRate      // the rate tail alone
    | LabelledDate  // "Published", "Date" or "Posted", spaces or colons, then a month-day-year date
    | DayMonthYear  // a one- or two-digit day, spaces, a word, spaces, four digits
    | MonthDayYear  // a word, spaces, a one- or two-digit day, an optional comma, spaces, four digits

  /** The rate patterns of the extractor, most specific first. */
  const RatePatterns: seq<Pattern> := [RaisedTo, PesoPrefixed, OverallRate, PhpPrefixed, BareRate]

  /** The free-text date patterns of the extractor, in the order they are tried. */
  const DatePatterns: seq<Pattern> := [LabelledDate, DayMonthYear, MonthDayYear]

  predicate IsRatePattern(p: Pattern)
  {
    p.RaisedTo? || p.PesoPrefixed? || p.OverallRate? || p.PhpPrefixed? || p.BareRate?
  }

  /** A captured rate: one or more digits, a dot, exactly four digits. */
  predicate IsRateToken(c: string)
  {
    |c| >= 6 && c[|c| - 5] == '.' && AllDigits(c[..|c| - 5]) && AllDigits(c[|c| - 4..])
  }

  /**
   * The rate tail at `i`: the captured token (digits, a dot, four digits), then spaces,
   * "per", spaces and "kWh", case-insensitively. The digit run must be maximal, because
   * the character after it has to be the dot.
   */
  function RateTailAt(t: string, i: nat): Option<string>
    requires i <= |t|
  {
    var d := Span(t, i, IsDigit);
    if d == i || d + 5 > |t| || t[d] != '.' || !AllDigits(t[d + 1..d + 5]) then None
    else
      var s := Span(t, d + 5, IsSpace);
      if s == d + 5 || !MatchesAt(t, s, "per") then None
      else
        var k := Span(t, s + 3, IsSpace);
        if k == s + 3 || !MatchesAt(t, k, "kwh") then None
        else Some(t[i..d + 5])
  }

  /** What the rate tail captures is a rate token, and it is the text at the match position. */
  lemma RateTailIsToken(t: string, i: nat)
    requires i <= |t| && RateTailAt(t, i).Some?
    ensures IsRateToken(RateTailAt(t, i).value) && OccursAt(t, RateTailAt(t, i).value, i)
  {
    var d := Span(t, i, IsDigit);
    var c := t[i..d + 5];
    SpanIsMaximal(t, i, IsDigit);
    assert c[..|c| - 5] == t[i..d] && c[|c| - 4..] == t[d + 1..d + 5];
  }

  /**
   * The regular expression `(\d+\.\d{4})\s+per\s+kWh` matches at `i`, read as one split of the
   * text: digits on `[i, d)`, the dot at `d`, four digits, whitespace on `[d + 5, s)`, "per" at
   * `s`, whitespace on `[s + 3, k)` and "kWh" at `k`, letters in either case.
   */
  predicate RateTailMatch(t: string, i: nat, d: nat, s: nat, k: nat)
  {
    i < d && d + 5 < s && s + 3 < k && k + 3 <= |t|
    && (forall x :: i <= x < d ==> IsDigit(t[x]))
    && t[d] == '.'
    && (forall x :: d < x < d + 5 ==> IsDigit(t[x]))
    && (forall x :: d + 5 <= x < s ==> IsSpace(t[x]))
    && MatchesAt(t, s, "per")
    && (forall x :: s + 3 <= x < k ==> IsSpace(t[x]))
    && MatchesAt(t, k, "kwh")
  }

  /** Every way the regular expression matches at `i` is the match the rate tail takes, with the same capture. */
  lemma RateTailAtComplete(t: string, i: nat, d: nat, s: nat, k: nat)
    requires RateTailMatch(t, i, d, s, k)
    ensures RateTailAt(t, i) == Some(t[i..d + 5])
  {
    SpanIs(t, i, IsDigit, d);
    assert AllDigits(t[d + 1..d + 5]);
    MatchesAtLetter(t, s, "per");
    MatchesAtLetter(t, k, "kwh");
    SpanIs(t, d + 5, IsSpace, s);
    SpanIs(t, s + 3, IsSpace, k);
  }

  /** The rate tail only reports a genuine match of the regular expression, and captures its group. */
  lemma RateTailAtSound(t: string, i: nat)
    requires i <= |t| && RateTailAt(t, i).Some?
    ensures exists d, s, k :: RateTailMatch(t, i, d, s, k) && RateTailAt(t, i).value == t[i..d + 5]
  {
    var d := Span(t, i, IsDigit);
    SpanIsMaximal(t, i, IsDigit);
    assert AllDigits(t[d + 1..d + 5]);
    assert forall x :: d < x < d + 5 ==> IsDigit(t[x]) by {
      forall x | d < x < d + 5 ensures IsDigit(t[x]) {
        assert t[d + 1..d + 5][x - d - 1] == t[x];
      }
    }
    var s := Span(t, d + 5, IsSpace);
    SpanIsMaximal(t, d + 5, IsSpace);
    var k := Span(t, s + 3, IsSpace);
    SpanIsMaximal(t, s + 3, IsSpace);
    assert RateTailMatch(t, i, d, s, k);
  }

  /** A "P" (either case), then the rate tail. */
  function PesoAt(t: string, i: nat): Option<string>
    requires i <= |t|
  {
    if i < |t| && LowerChar(t[i]) == 'p' then RateTailAt(t, i + 1) else None
  }

  /** A word, spaces, a one- or two-digit day, an optional comma, spaces, four digits. */
  function MonthDayYearAt(t: string, i: nat): (r: Option<string>)
    requires i <= |t|
    ensures r.Some? ==> |r.value| > 0
  {
    var w := Span(t, i, IsWordChar);
    if w == i then None
    else
      var s := Span(t, w, IsSpace);
      if s == w then None
      else
        var d := Span(t, s, IsDigit);
        if d == s || d > s + 2 then None
        else
          var c := if d < |t| && t[d] == ',' then d + 1 else d;
          var y := Span(t, c, IsSpace);
          if y == c || y + 4 > |t| || !AllDigits(t[y..y + 4]) then None
          else Some(t[i..y + 4])
  }

  /** A one- or two-digit day, spaces, a word, spaces, four digits. */
  function DayMonthYearAt(t: string, i: nat): (r: Option<string>)
    requires i <= |t|
    ensures r.Some? ==> |r.value| > 0
  {
    var d := Span(t, i, IsDigit);
    if d == i || d > i + 2 then None
    else
      var s := Span(t, d, IsSpace);
      if s == d then None
      else
        var w := Span(t, s, IsWordChar);
        if w == s then None
        else
          var y := Span(t, w, IsSpace);
          if y == w || y + 4 > |t| || !AllDigits(t[y..y + 4]) then None
          else Some(t[i..y + 4])
  }

  /** "to", spaces, then a "P…" match. */
  function RaisedToAt(t: string, i: nat): (r: Option<string>)
    requires i <= |t|
  {
    if !MatchesAt(t, i, "to") then None
    else
      var s := Span(t, i + 2, IsSpace);
      if s == i + 2 then None else PesoAt(t, s)
  }

  /** "overall", spaces, "rate", then everything up to the first "P" (either case) and a "P…" match there. */
  function OverallRateAt(t: string, i: nat): (r: Option<string>)
    requires i <= |t|
  {
    if !MatchesAt(t, i, "overall") then None
    else
      var s := Span(t, i + 7, IsSpace);
      if s == i + 7 || !MatchesAt(t, s, "rate") then None
      else PesoAt(t, Span(t, s + 4, IsNotP))
  }

  /**
   * The prefix `overall\s+rate[^P]*P` of the third rate pattern matches at `i`, read as one split:
   * "overall" at `i`, whitespace on `[i + 7, s)`, "rate" at `s`, no "p" or "P" on `[s + 4, q)`
   * (`[^P]` under IGNORECASE excludes both) and a "p" or "P" at `q`.
   */
  predicate OverallRatePrefix(t: string, i: nat, s: nat, q: nat)
  {
    i + 7 < s && s + 4 <= q < |t|
    && MatchesAt(t, i, "overall")
    && (forall x :: i + 7 <= x < s ==> IsSpace(t[x]))
    && MatchesAt(t, s, "rate")
    && (forall x :: s + 4 <= x < q ==> IsNotP(t[x]))
    && LowerChar(t[q]) == 'p'
  }

  /** The whole third rate pattern `overall\s+rate[^P]*P(\d+\.\d{4})\s+per\s+kWh` matches at `i`. */
  predicate OverallRateMatch(t: string, i: nat, s: nat, q: nat, d: nat, s': nat, k: nat)
  {
    OverallRatePrefix(t, i, s, q) && RateTailMatch(t, q + 1, d, s', k)
  }

  /** Once the prefix matches up to the first "p", the matcher's answer is the rate tail right after it. */
  lemma OverallRateAtPrefix(t: string, i: nat, s: nat, q: nat)
    requires OverallRatePrefix(t, i, s, q)
    ensures OverallRateAt(t, i) == RateTailAt(t, q + 1)
  {
    MatchesAtLetter(t, s, "rate");
    SpanIs(t, i + 7, IsSpace, s);
    SpanIs(t, s + 4, IsNotP, q);
    assert PesoAt(t, q) == RateTailAt(t, q + 1);
  }

  /**
   * Every match of the third rate pattern at `i` is the one the matcher takes: the greedy
   * `[^P]*` cannot run past the first "p", so it loses no match.
   */
  lemma OverallRateAtComplete(t: string, i: nat, s: nat, q: nat, d: nat, s': nat, k: nat)
    requires OverallRateMatch(t, i, s, q, d, s', k)
    ensures OverallRateAt(t, i) == Some(t[q + 1..d + 5])
  {
    OverallRateAtPrefix(t, i, s, q);
    RateTailAtComplete(t, q + 1, d, s', k);
  }

  /** Where the overall-rate matcher succeeds, its prefix matched up to the first "p" after "rate". */
  lemma OverallRatePrefixOf(t: string, i: nat) returns (s: nat, q: nat)
    requires i <= |t| && OverallRateAt(t, i).Some?
    ensures OverallRatePrefix(t, i, s, q)
  {
    assert MatchesAt(t, i, "overall");
    s := Span(t, i + 7, IsSpace);
    SpanIsMaximal(t, i + 7, IsSpace);
    assert s != i + 7 && MatchesAt(t, s, "rate");
    q := Span(t, s + 4, IsNotP);
    SpanIsMaximal(t, s + 4, IsNotP);
    assert PesoAt(t, q).Some?;
  }

  /** The overall-rate matcher only reports a genuine match of its regular expression. */
  lemma OverallRateAtSound(t: string, i: nat)
    requires i <= |t| && OverallRateAt(t, i).Some?
    ensures exists s, q, d, s', k ::
      OverallRateMatch(t, i, s, q, d, s', k) && OverallRateAt(t, i).value == t[q + 1..d + 5]
  {
    var s, q := OverallRatePrefixOf(t, i);
    OverallRateAtPrefix(t, i, s, q);
    RateTailAtSound(t, q + 1);
    var d, s', k :| RateTailMatch(t, q + 1, d, s', k) && RateTailAt(t, q + 1).value == t[q + 1..d + 5];
    assert OverallRateMatch(t, i, s, q, d, s', k);
  }

  /** "Php" (any case), optional spaces, then the rate tail. */
  function PhpAt(t: string, i: nat): (r: Option<string>)
    requires i <= |t|
  {
    if !MatchesAt(t, i, "php") then None else RateTailAt(t, Span(t, i + 3, IsSpace))
  }

  /** "Published", "Date" or "Posted" (tried in that order), spaces or colons, then a month-day-year date. */
  function LabelledAt(t: string, i: nat): (r: Option<string>)
    requires i <= |t|
  {
    var k :=
      if MatchesAt(t, i, "published") then i + 9
      else if MatchesAt(t, i, "date") then i + 4
      else if MatchesAt(t, i, "posted") then i + 6
      else i;
    if k == i then None
    else
      var s := Span(t, k, IsSpaceOrColon);
      if s == k then None else MonthDayYearAt(t, s)
  }

  /** The capture of the match of `p` that starts at position `i` of `t`, if any. */
  function At(p: Pattern, t: string, i: nat): Option<string>
    requires i <= |t|
  {
    match p
    case RaisedTo => RaisedToAt(t, i)
    case PesoPrefixed => PesoAt(t, i)
    case OverallRate => OverallRateAt(t, i)
    case PhpPrefixed => PhpAt(t, i)
    case BareRate => RateTailAt(t, i)
    case LabelledDate => LabelledAt(t, i)
    case DayMonthYear => DayMonthYearAt(t, i)
    case MonthDayYear => MonthDayYearAt(t, i)
  }

  /**
   * First-match-wins over an ordered list of attempts: the index of the first present
   * entry of `rs` at or after `k`, if any.
   */
  function FirstPresentFrom<T>(rs: seq<Option<T>>, k: nat): (r: Option<nat>)
    requires k <= |rs|
    ensures r.Some? ==> k <= r.value < |rs| && rs[r.value].Some?
    ensures r.Some? ==> forall j :: k <= j < r.value ==> rs[j].None?
    ensures r.None? <==> forall j :: k <= j < |rs| ==> rs[j].None?
    decreases |rs| - k
  {
    if k == |rs| then None
    else if rs[k].Some? then Some(k)
    else FirstPresentFrom(rs, k + 1)
  }

  /** The first present entry of `rs`. */
  function FirstPresent<T>(rs: seq<Option<T>>): Option<T>
  {
    match FirstPresentFrom(rs, 0)
    case Some(j) => rs[j]
    case None => None
  }

  /** The attempts `re.search` makes: the match of `p` at each start position of `t`, left to right. */
  function Attempts(p: Pattern, t: string): (rs: seq<Option<string>>)
    ensures |rs| == |t| + 1
  {
    seq(|t| + 1, i requires 0 <= i <= |t| => At(p, t, i))
  }

  /** `re.search` with IGNORECASE: the capture of the leftmost match of `p` in `t`. */
  function Search(p: Pattern, t: string): Option<string>
  {
    FirstPresent(Attempts(p, t))
  }

  /** The searches a pattern loop makes, one per pattern, in list order. */
  function Searches(ps: seq<Pattern>, t: string): (rs: seq<Option<string>>)
    ensures |rs| == |ps|
  {
    seq(|ps|, k requires 0 <= k < |ps| => Search(ps[k], t))
  }

  /** The index of the pattern of `ps` that supplies the capture: the first that matches anywhere in `t`. */
  function Winner(ps: seq<Pattern>, t: string): Option<nat>
  {
    FirstPresentFrom(Searches(ps, t), 0)
  }

  /** A loop over `ps` that stops at the first pattern that matches: the capture it keeps. */
  function FirstMatch(ps: seq<Pattern>, t: string): Option<string>
  {
    FirstPresent(Searches(ps, t))
  }

  /** `re.search` finds the leftmost start position at which the pattern matches, and nothing when there is none. */
  lemma {:induction false} SearchIsLeftmost(p: Pattern, t: string)
    ensures Search(p, t).None? <==> forall i :: 0 <= i <= |t| ==> At(p, t, i).None?
    ensures Search(p, t).Some? ==>
      exists i :: 0 <= i <= |t| && At(p, t, i) == Search(p, t) && forall j :: 0 <= j < i ==> At(p, t, j).None?
  {
    var rs := Attempts(p, t);
    assert forall i :: 0 <= i <= |t| ==> rs[i] == At(p, t, i);
    var r := FirstPresentFrom(rs, 0);
    if r.Some? {
      assert At(p, t, r.value) == Search(p, t);
    }
  }

  /** A pattern loop keeps the capture of the first pattern in list order that matches, and nothing when none does. */
  lemma {:induction false} FirstMatchIsFirstPattern(ps: seq<Pattern>, t: string)
    ensures FirstMatch(ps, t).None? <==> forall k :: 0 <= k < |ps| ==> Search(ps[k], t).None?
    ensures Winner(ps, t).Some? <==> FirstMatch(ps, t).Some?
    ensures Winner(ps, t).Some? ==>
      var k := Winner(ps, t).value;
      k < |ps| && FirstMatch(ps, t) == Search(ps[k], t) && forall j :: 0 <= j < k ==> Search(ps[j], t).None?
  {
    var rs := Searches(ps, t);
    assert forall k :: 0 <= k < |ps| ==> rs[k] == Search(ps[k], t);
  }

  lemma {:induction false} FirstPresentIgnoresLater<T>(rs: seq<Option<T>>, more: seq<Option<T>>, k: nat)
    requires k <= |rs| && FirstPresentFrom(rs, k).Some?
    ensures FirstPresentFrom(rs + more, k) == FirstPresentFrom(rs, k)
    decreases |rs| - k
  {
    assert (rs + more)[k] == rs[k];
    if rs[k].None? {
      FirstPresentIgnoresLater(rs, more, k + 1);
    }
  }

  /** Once a pattern of `ps` has matched, patterns placed after `ps` are never consulted. */
  lemma LaterPatternsNotConsulted(ps: seq<Pattern>, later: seq<Pattern>, t: string)
    requires FirstMatch(ps, t).Some?
    ensures FirstMatch(ps + later, t) == FirstMatch(ps, t)
    ensures Winner(ps + later, t) == Winner(ps, t)
  {
    var rs := Searches(ps, t);
    var more := Searches(later, t);
    forall k | 0 <= k < |ps| + |later|
      ensures Searches(ps + later, t)[k] == (rs + more)[k]
    {
      if k < |ps| {
        assert (ps + later)[k] == ps[k];
      } else {
        assert (ps + later)[k] == later[k - |ps|];
      }
    }
    assert Searches(ps + later, t) == rs + more;
    FirstPresentIgnoresLater(rs, more, 0);
  }

  /** A search succeeds as soon as the pattern matches at some position. */
  lemma SearchFindsMatch(p: Pattern, t: string, i: nat)
    requires i <= |t| && At(p, t, i).Some?
    ensures Search(p, t).Some?
  {
    assert Attempts(p, t)[i].Some?;
  }

  /** A "to P…" match contains a "P…" match with the same capture. */
  lemma RaisedToContainsPeso(t: string, i: nat)
    requires i <= |t| && RaisedToAt(t, i).Some?
    ensures i + 2 <= |t| && PesoAt(t, Span(t, i + 2, IsSpace)) == RaisedToAt(t, i)
  {
  }

  /** An "overall rate … P…" match contains a "P…" match with the same capture, at the first P after "rate". */
  lemma OverallRateContainsPeso(t: string, i: nat)
    requires i <= |t| && OverallRateAt(t, i).Some?
    ensures exists q :: 0 <= q <= |t| && PesoAt(t, q) == OverallRateAt(t, i)
  {
    var s := Span(t, i + 7, IsSpace);
    assert PesoAt(t, Span(t, s + 4, IsNotP)) == OverallRateAt(t, i);
  }

  /** Every match of a rate pattern contains a match of the bare rate pattern with the same capture. */
  lemma RateMatchContainsBare(p: Pattern, t: string, i: nat)
    requires IsRatePattern(p) && i <= |t| && At(p, t, i).Some?
    ensures exists q :: 0 <= q <= |t| && At(BareRate, t, q) == At(p, t, i)
  {
    match p
    case RaisedTo =>
      RaisedToContainsPeso(t, i);
      var q := Span(t, i + 2, IsSpace);
      assert At(BareRate, t, q + 1) == At(p, t, i);
    case OverallRate =>
      OverallRateContainsPeso(t, i);
      var q :| 0 <= q <= |t| && PesoAt(t, q) == OverallRateAt(t, i);
      assert At(BareRate, t, q + 1) == At(p, t, i);
    case PesoPrefixed =>
      assert At(BareRate, t, i + 1) == At(p, t, i);
    case PhpPrefixed =>
      assert At(BareRate, t, Span(t, i + 3, IsSpace)) == At(p, t, i);
    case BareRate =>
  }

  /** Whatever a rate pattern's search captures, the bare rate tail matches somewhere with that capture. */
  lemma SearchContainsBare(p: Pattern, t: string)
    requires IsRatePattern(p) && Search(p, t).Some?
    ensures exists q :: 0 <= q <= |t| && At(BareRate, t, q) == Search(p, t)
  {
    SearchIsLeftmost(p, t);
    var i :| 0 <= i <= |t| && At(p, t, i) == Search(p, t);
    RateMatchContainsBare(p, t, i);
  }

  /** The rate loop finds a rate exactly when the loosest pattern, the bare rate tail, matches somewhere. */
  lemma RateFoundIffBareMatches(t: string)
    ensures FirstMatch(RatePatterns, t).Some? <==> Search(BareRate, t).Some?
  {
    FirstMatchIsFirstPattern(RatePatterns, t);
    if FirstMatch(RatePatterns, t).Some? {
      var k := Winner(RatePatterns, t).value;
      SearchContainsBare(RatePatterns[k], t);
      var q :| 0 <= q <= |t| && At(BareRate, t, q) == Search(RatePatterns[k], t);
      SearchFindsMatch(BareRate, t, q);
    } else {
      assert Search(RatePatterns[4], t).None?;
    }
  }

  /** The kept rate is a digits-dot-four-digits token that the text holds, followed by spaces, "per", spaces and "kWh". */
  lemma RateIsToken(t: string)
    requires FirstMatch(RatePatterns, t).Some?
    ensures IsRateToken(FirstMatch(RatePatterns, t).value)
    ensures exists q :: 0 <= q <= |t| && RateTailAt(t, q) == FirstMatch(RatePatterns, t)
  {
    FirstMatchIsFirstPattern(RatePatterns, t);
    var k := Winner(RatePatterns, t).value;
    SearchContainsBare(RatePatterns[k], t);
    var q :| 0 <= q <= |t| && At(BareRate, t, q) == Search(RatePatterns[k], t);
    RateTailIsToken(t, q);
  }

  /** Wherever the "overall rate" pattern matches, the plain "P…" pattern matches too. */
  lemma OverallRateImpliesPeso(t: string)
    requires Search(OverallRate, t).Some?
    ensures Search(PesoPrefixed, t).Some?
  {
    SearchIsLeftmost(OverallRate, t);
    var i :| 0 <= i <= |t| && At(OverallRate, t, i) == Search(OverallRate, t);
    OverallRateContainsPeso(t, i);
    var q :| 0 <= q <= |t| && PesoAt(t, q) == OverallRateAt(t, i);
    SearchFindsMatch(PesoPrefixed, t, q);
  }

  /**
   * The "overall rate" pattern never supplies the rate: wherever it matches, the plain "P…"
   * pattern, which is tried before it, matches too.
   */
  lemma OverallRateNeverWins(t: string)
    ensures Winner(RatePatterns, t) != Some(2)
  {
    var rs := Searches(RatePatterns, t);
    if rs[2].Some? {
      OverallRateImpliesPeso(t);
      assert rs[1].Some?;
    }
  }

  /** A labelled date's capture is itself a month-day-year match. */
  lemma LabelledContainsMonthDayYear(t: string, i: nat)
    requires i <= |t| && At(LabelledDate, t, i).Some?
    ensures exists q :: 0 <= q <= |t| && At(MonthDayYear, t, q) == At(LabelledDate, t, i)
  {
    var k :=
      if MatchesAt(t, i, "published") then i + 9
      else if MatchesAt(t, i, "date") then i + 4
      else if MatchesAt(t, i, "posted") then i + 6
      else i;
    assert At(MonthDayYear, t, Span(t, k, IsSpaceOrColon)) == At(LabelledDate, t, i);
  }

  /**
   * The text yields a date exactly when the unlabelled day-month-year or month-day-year
   * pattern matches somewhere, and a date found in the text is never empty.
   */
  lemma TextDateFoundIff(t: string)
    ensures FirstMatch(DatePatterns, t).Some? <==> Search(DayMonthYear, t).Some? || Search(MonthDayYear, t).Some?
    ensures FirstMatch(DatePatterns, t).Some? ==> |FirstMatch(DatePatterns, t).value| > 0
  {
    FirstMatchIsFirstPattern(DatePatterns, t);
    SearchIsLeftmost(MonthDayYear, t);
    if FirstMatch(DatePatterns, t).Some? {
      var k := Winner(DatePatterns, t).value;
      var p := DatePatterns[k];
      SearchIsLeftmost(p, t);
      var i :| 0 <= i <= |t| && At(p, t, i) == Search(p, t);
      if p.LabelledDate? {
        LabelledContainsMonthDayYear(t, i);
      }
    } else {
      assert Search(DatePatterns[1], t).None? && Search(DatePatterns[2], t).None?;
    }
  }
}
