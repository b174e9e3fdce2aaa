/** Reading the language model's free-text answers: the numbered score lists
    of `parse_mega_scores` (main.py:122-137) and `parse_batch_scores`
    (main.py:273-283), and the labelled lines of `infer_persona_job`
    (main.py:139-169). Each regex search is the leftmost match of its
    pattern; an answer that does not match yields the fixed default. */
module Parsing {
  import opened Wrappers
  import opened Text
  import opened Sections

  // ---------------------------------------------------------------------
  // Decimal numerals

  predicate IsDigit(c: char) {
    '0' <= c <= '9'
  }

  predicate AllDigits(s: string) {
    forall i :: 0 <= i < |s| ==> IsDigit(s[i])
  }

  /** The maximal run of digits that starts `s` (what a greedy `\d+` takes). */
  function DigitRun(s: string): (r: string)
    ensures r <= s && AllDigits(r)
    ensures |r| < |s| ==> !IsDigit(s[|r|])
    decreases |s|
  {
    if |s| > 0 && IsDigit(s[0]) then [s[0]] + DigitRun(s[1..]) else []
  }

  /** `int(d)` for a string of decimal digits. */
  function DigitsValue(d: string): nat
    requires AllDigits(d)
  {
    if d == [] then 0 else 10 * DigitsValue(d[..|d| - 1]) + (d[|d| - 1] as int - '0' as int)
  }

  /** `str(n)`. */
  function Decimal(n: nat): (r: string)
    ensures |r| > 0 && AllDigits(r)
  {
    var last := ["0123456789"[n % 10]];
    if n < 10 then last else Decimal(n / 10) + last
  }

  /** `int(str(n)) == n`. */
  lemma {:induction false} DecimalRoundTrip(n: nat)
    ensures DigitsValue(Decimal(n)) == n
  {
    var d := Decimal(n);
    if n >= 10 {
      DecimalRoundTrip(n / 10);
      assert d[..|d| - 1] == Decimal(n / 10);
    }
  }

  // ---------------------------------------------------------------------
  // The pattern `<key>\s*(\d+)` and its leftmost search

  /** Character equality, optionally under (ASCII) `re.IGNORECASE`. */
  predicate SameChar(a: char, b: char, ignoreCase: bool) {
    if ignoreCase then Lower(a) == Lower(b) else a == b
  }

  /** `s` starts with the literal `key`. */
  predicate KeyAt(s: string, key: string, ignoreCase: bool) {
    |key| <= |s| && forall j :: 0 <= j < |key| ==> SameChar(s[j], key[j], ignoreCase)
  }

  /** `key\s*(\d+)` matched at the start of `s`: the integer of the digit group.
      `\s*` takes the whole whitespace run, and `\d+` the whole digit run. */
  function ScorePatternAt(s: string, key: string, ignoreCase: bool): Option<nat> {
    if KeyAt(s, key, ignoreCase) then
      var digits := DigitRun(SkipSpace(s[|key|..]));
      if digits == [] then None else Some(DigitsValue(digits))
    else None
  }

  /** `re.search`: the pattern at the leftmost position where it matches. */
  function SearchScore(s: string, key: string, ignoreCase: bool): Option<nat>
    decreases |s|
  {
    match ScorePatternAt(s, key, ignoreCase)
    case Some(v) => Some(v)
    case None => if s == [] then None else SearchScore(s[1..], key, ignoreCase)
  }

  /** The pattern matches at position `p` of `s` and at no earlier position. */
  ghost predicate LeftmostMatchAt(s: string, key: string, ignoreCase: bool, p: int) {
    && 0 <= p <= |s|
    && ScorePatternAt(s[p..], key, ignoreCase).Some?
    && forall q :: 0 <= q < p ==> ScorePatternAt(s[q..], key, ignoreCase).None?
  }

  /** `SearchScore` reports the match at the leftmost matching position, and
      reports none exactly when no position matches. */
  lemma {:induction false} SearchScoreIsLeftmost(s: string, key: string, ignoreCase: bool)
    ensures SearchScore(s, key, ignoreCase).Some? ==>
      exists p :: LeftmostMatchAt(s, key, ignoreCase, p)
        && SearchScore(s, key, ignoreCase) == ScorePatternAt(s[p..], key, ignoreCase)
    ensures SearchScore(s, key, ignoreCase).None? <==>
      forall p :: 0 <= p <= |s| ==> ScorePatternAt(s[p..], key, ignoreCase).None?
    decreases |s|
  {
    assert s[0..] == s;
    if ScorePatternAt(s, key, ignoreCase).Some? {
      assert LeftmostMatchAt(s, key, ignoreCase, 0);
    } else if s != [] {
      SearchScoreIsLeftmost(s[1..], key, ignoreCase);
      forall p | 1 <= p <= |s|
        ensures s[1..][p - 1..] == s[p..]
      {
      }
      if SearchScore(s, key, ignoreCase).Some? {
        var p' :| LeftmostMatchAt(s[1..], key, ignoreCase, p')
          && SearchScore(s[1..], key, ignoreCase) == ScorePatternAt(s[1..][p'..], key, ignoreCase);
        forall q | 0 <= q < p' + 1
          ensures ScorePatternAt(s[q..], key, ignoreCase).None?
        {
          if q > 0 {
            assert ScorePatternAt(s[1..][q - 1..], key, ignoreCase).None?;
          }
        }
        assert LeftmostMatchAt(s, key, ignoreCase, p' + 1);
      } else {
        forall p | 0 <= p <= |s|
          ensures ScorePatternAt(s[p..], key, ignoreCase).None?
        {
          if p > 0 {
            assert ScorePatternAt(s[1..][p - 1..], key, ignoreCase).None?;
          }
        }
      }
    }
  }

  // ---------------------------------------------------------------------
  // parse_mega_scores and parse_batch_scores

  /** Only indices 1..20 are looked up in a mega-scoring answer (main.py:125). */
  const MegaIndexCap: nat := 20

  /** The key of index `i` in a mega-scoring answer: `f"{i}:"`. */
  function MegaKey(i: nat): string {
    Decimal(i) + ":"
  }

  /** The key of index `i` in a batch-scoring answer: `f"SECTION{i}:"`. */
  function BatchKey(i: nat): string {
    "SECTION" + Decimal(i) + ":"
  }

  /** The clamped value of a match, or the default score without one. */
  function ScoreOrDefault(found: Option<nat>): (r: int)
    ensures MinScore <= r <= MaxScore
    ensures found.None? ==> r == DefaultScore
    ensures found.Some? && MinScore <= found.value <= MaxScore ==> r == found.value
    ensures found.Some? ==> r == Clamp(found.value)
  {
    match found
    case Some(v) => Clamp(v)
    case None => DefaultScore
  }

  /** The score parsed for index `i` (1-based) of a mega-scoring answer. */
  function MegaScoreFor(text: string, i: nat): int {
    ScoreOrDefault(SearchScore(text, MegaKey(i), false))
  }

  /** The score parsed for index `i` (1-based) of a batch-scoring answer. */
  function BatchScoreFor(text: string, i: nat): int {
    ScoreOrDefault(SearchScore(text, BatchKey(i), true))
  }

  /** Appending the next value keeps a list equal to a tabulation of `f`. */
  lemma ExtendTabulation(xs: seq<int>, x: int, f: nat -> int)
    requires forall k :: 0 <= k < |xs| ==> xs[k] == f(k)
    requires x == f(|xs|)
    ensures forall k :: 0 <= k < |xs| + 1 ==> (xs + [x])[k] == f(k)
  {
  }

  /** The values `f(0), ..., f(count - 1)`, looked up one index at a time. */
  method Tabulate(count: nat, f: nat -> int) returns (xs: seq<int>)
    ensures |xs| == count
    ensures forall k :: 0 <= k < count ==> xs[k] == f(k)
  {
    xs := [];
    while |xs| < count
      invariant |xs| <= count
      invariant forall k :: 0 <= k < |xs| ==> xs[k] == f(k)
    {
      ExtendTabulation(xs, f(|xs|), f);
      xs := xs + [f(|xs|)];
    }
  }

  /** `parse_mega_scores` (main.py:122-137). */
  method ParseMegaScores(text: string, numSections: nat) returns (scores: seq<int>)
    ensures |scores| == numSections
    ensures forall k :: 0 <= k < numSections ==> MinScore <= scores[k] <= MaxScore
    ensures forall k :: 0 <= k < numSections && k < MegaIndexCap ==>
      scores[k] == ScoreOrDefault(SearchScore(text, MegaKey(k + 1), false))
    ensures forall k :: MegaIndexCap <= k < numSections ==> scores[k] == DefaultScore
  {
    var stop := if numSections + 1 < MegaIndexCap + 1 then numSections + 1 else MegaIndexCap + 1;
    scores := Tabulate(stop - 1, (k: nat) => MegaScoreFor(text, k + 1));
    ghost var looked := |scores|;
    while |scores| < numSections
      invariant looked <= |scores| <= numSections
      invariant forall k :: 0 <= k < looked ==> scores[k] == MegaScoreFor(text, k + 1)
      invariant forall k :: looked <= k < |scores| ==> scores[k] == DefaultScore
      decreases numSections - |scores|
    {
      scores := scores + [DefaultScore];
    }
  }

  /** `parse_batch_scores` (main.py:273-283): every index is looked up. */
  method ParseBatchScores(text: string, numSections: nat) returns (scores: seq<int>)
    ensures |scores| == numSections
    ensures forall k :: 0 <= k < numSections ==> MinScore <= scores[k] <= MaxScore
    ensures forall k :: 0 <= k < numSections ==>
      scores[k] == ScoreOrDefault(SearchScore(text, BatchKey(k + 1), true))
    ensures forall k :: 0 <= k < numSections && SearchScore(text, BatchKey(k + 1), true).None? ==>
              scores[k] == DefaultScore
  {
    scores := Tabulate(numSections, (k: nat) => BatchScoreFor(text, k + 1));
  }

  // ---------------------------------------------------------------------
  // infer_persona_job

  /** The persona/job pair a run works for. */
  datatype PersonaJob = PersonaJob(persona: string, job: string)

  const FallbackPersona: string := "Researcher"
  const FallbackJob: string := "Document analysis"

  /** The position of the last character of `s` that is not a newline. */
  function LastNonNewline(s: string): (r: Option<nat>)
    ensures r.Some? ==> r.value < |s| && s[r.value] != '\n'
    ensures r.Some? ==> forall j :: r.value < j < |s| ==> s[j] == '\n'
    ensures r.None? ==> forall j :: 0 <= j < |s| ==> s[j] == '\n'
    decreases |s|
  {
    if s == [] then None
    else if s[|s| - 1] != '\n' then Some(|s| - 1)
    else LastNonNewline(s[..|s| - 1])
  }

  /** The group of `\s*(.+)` matched at the start of `rest`. `\s*` first takes
      the whole whitespace run; only when that run reaches the end of the text
      does it give characters back, down to the last one `.` accepts. */
  function LineGroup(rest: string): Option<string> {
    var run := |rest| - |SkipSpace(rest)|;
    if run < |rest| then Some(FirstLine(rest[run..]))
    else match LastNonNewline(rest)
      case Some(j) => Some([rest[j]])
      case None => None
  }

  /** `marker\s*(.+)` under `re.IGNORECASE`, matched at the start of `s`. */
  function LabelPatternAt(s: string, marker: string): Option<string> {
    if KeyAt(s, marker, true) then LineGroup(s[|marker|..]) else None
  }

  /** `re.search(marker\s*(.+), s, re.IGNORECASE)`: the group of the leftmost match. */
  function SearchLabel(s: string, marker: string): Option<string>
    decreases |s|
  {
    match LabelPatternAt(s, marker)
    case Some(g) => Some(g)
    case None => if s == [] then None else SearchLabel(s[1..], marker)
  }

  /** `match.group(1).strip()` when the label was found, else the fallback. */
  function LabelOr(text: string, marker: string, fallback: string): string {
    match SearchLabel(text, marker)
    case Some(g) => Strip(g)
    case None => fallback
  }

  /** `infer_persona_job` (main.py:139-169); the model's answer is `None` when
      the call raised. The prompt it sends is not modelled. */
  function InferPersonaJob(response: Option<string>): (r: PersonaJob)
    ensures response.None? ==> r == PersonaJob(FallbackPersona, FallbackJob)
    ensures response.Some? && SearchLabel(Strip(response.value), "PERSONA:").None? ==> r.persona == FallbackPersona
    ensures response.Some? && SearchLabel(Strip(response.value), "JOB:").None? ==> r.job == FallbackJob
  {
    match response
    case None => PersonaJob(FallbackPersona, FallbackJob)
    case Some(raw) =>
      var text := Strip(raw);
      PersonaJob(LabelOr(text, "PERSONA:", FallbackPersona), LabelOr(text, "JOB:", FallbackJob))
  }

  /** Right-stripping keeps a string that starts with a non-space non-empty. */
  lemma {:induction false} StripTrailingKeepsFirst(s: string)
    requires s != [] && !IsSpace(s[0])
    ensures StripTrailing(s) != [] && StripTrailing(s)[0] == s[0]
    decreases |s|
  {
    if |s| > 1 && IsSpace(s[|s| - 1]) {
      StripTrailingKeepsFirst(s[..|s| - 1]);
    }
  }

  /** In text that does not end in whitespace, every label group found starts
      with a non-whitespace character: `\s*` never has to give anything back. */
  lemma {:induction false} LabelGroupStartsWithText(s: string, marker: string)
    requires s == [] || !IsSpace(s[|s| - 1])
    ensures SearchLabel(s, marker).Some? ==>
      SearchLabel(s, marker).value != [] && !IsSpace(SearchLabel(s, marker).value[0])
    decreases |s|
  {
    if KeyAt(s, marker, true) {
      LineGroupAfterText(s[|marker|..], s);
    }
    if LabelPatternAt(s, marker).None? && s != [] {
      LabelGroupStartsWithText(s[1..], marker);
    }
  }

  /** The group read right after a marker, when the text does not end in
      whitespace. */
  lemma LineGroupAfterText(rest: string, s: string)
    requires |rest| <= |s| && rest == s[|s| - |rest|..]
    requires s == [] || !IsSpace(s[|s| - 1])
    ensures LineGroup(rest).Some? ==> LineGroup(rest).value != [] && !IsSpace(LineGroup(rest).value[0])
  {
    var run := |rest| - |SkipSpace(rest)|;
    if run < |rest| {
      assert SkipSpace(rest)[0] == rest[run];
      assert IsSpace('\n');
      assert FirstLine(rest[run..])[0] == rest[run];
    }
  }

  /** `infer_persona_job` never yields an empty persona or job: the fallbacks
      are non-empty, and a label found in stripped text has text after it. */
  lemma InferredPairNonEmpty(response: Option<string>)
    ensures InferPersonaJob(response).persona != []
    ensures InferPersonaJob(response).job != []
  {
    if response.Some? {
      var text := Strip(response.value);
      LabelGroupStartsWithText(text, "PERSONA:");
      LabelGroupStartsWithText(text, "JOB:");
      if SearchLabel(text, "PERSONA:").Some? {
        var g := SearchLabel(text, "PERSONA:").value;
        StripTrailingKeepsFirst(g);
      }
      if SearchLabel(text, "JOB:").Some? {
        var g := SearchLabel(text, "JOB:").value;
        StripTrailingKeepsFirst(g);
      }
    }
  }
}
