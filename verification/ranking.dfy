/** Ranking and selection in `ultra_fast_process` (main.py:187-271): score
    every section with `fast_keyword_score`, sort stably by descending score,
    keep the top 10, and cut excerpts from the top 3. */
module Ranking {
  import opened Wrappers
  import opened Text
  import opened Sections
  import opened Parsing
  import opened Scoring

  // ---------------------------------------------------------------------
  // Stable descending sort: `list.sort(key=score, reverse=True)`

  ghost predicate SortedDesc(s: seq<ScoredSection>) {
    forall i, j :: 0 <= i < j < |s| ==> s[i].score >= s[j].score
  }

  /** The subsequence of `s` whose score is `v`, in order. */
  function WithScore(s: seq<ScoredSection>, v: int): seq<ScoredSection> {
    if s == [] then []
    else (if s[0].score == v then [s[0]] else []) + WithScore(s[1..], v)
  }

  /** Puts `x` in front of the first element that does not outscore it. */
  function Insert(x: ScoredSection, s: seq<ScoredSection>): (r: seq<ScoredSection>)
    requires SortedDesc(s)
    ensures |r| == |s| + 1
    ensures r[0] == x || (s != [] && r[0] == s[0])
    ensures SortedDesc(r)
    ensures multiset(r) == multiset(s) + multiset{x}
  {
    if s == [] || x.score >= s[0].score then
      ConsSorted(x, s);
      [x] + s
    else
      assert SortedDesc(s[1..]);
      var rest := Insert(x, s[1..]);
      ConsBehind(x, s, rest);
      [s[0]] + rest
  }

  /** The head of `s` outscores `x`, so it stays in front of `x` inserted into
      the tail `s[1..]`, which `rest` stands for. */
  lemma ConsBehind(x: ScoredSection, s: seq<ScoredSection>, rest: seq<ScoredSection>)
    requires SortedDesc(s) && s != [] && x.score < s[0].score
    requires rest != [] && (rest[0] == x || (|s| > 1 && rest[0] == s[1]))
    requires SortedDesc(rest)
    requires multiset(rest) == multiset(s[1..]) + multiset{x}
    ensures SortedDesc([s[0]] + rest)
    ensures multiset([s[0]] + rest) == multiset(s) + multiset{x}
  {
    ConsSorted(s[0], rest);
    assert s == [s[0]] + s[1..];
  }

  lemma ConsSorted(y: ScoredSection, s: seq<ScoredSection>)
    requires SortedDesc(s)
    requires s == [] || y.score >= s[0].score
    ensures SortedDesc([y] + s)
  {
    var r := [y] + s;
    forall i, j | 0 <= i < j < |r|
      ensures r[i].score >= r[j].score
    {
      if i > 0 {
        assert r[i] == s[i - 1] && r[j] == s[j - 1];
      } else {
        assert r[j] == s[j - 1];
      }
    }
  }

  /** Insertion sort from the back: the earlier element is inserted in front of
      every equal score, which keeps equal scores in input order. */
  function SortByScoreDesc(s: seq<ScoredSection>): (r: seq<ScoredSection>)
    ensures SortedDesc(r)
    ensures multiset(r) == multiset(s)
  {
    if s == [] then []
    else
      assert s == [s[0]] + s[1..];
      Insert(s[0], SortByScoreDesc(s[1..]))
  }

  /** Splitting off the head of a list splits its score class the same way. */
  lemma WithScoreCons(y: ScoredSection, r: seq<ScoredSection>, v: int)
    ensures WithScore([y] + r, v) == (if y.score == v then [y] else []) + WithScore(r, v)
  {
    assert ([y] + r)[1..] == r;
  }

  lemma InsertFront(x: ScoredSection, s: seq<ScoredSection>)
    requires SortedDesc(s) && (s == [] || x.score >= s[0].score)
    ensures Insert(x, s) == [x] + s
  {
  }

  lemma InsertBehind(x: ScoredSection, s: seq<ScoredSection>)
    requires SortedDesc(s) && s != [] && x.score < s[0].score
    ensures SortedDesc(s[1..])
    ensures Insert(x, s) == [s[0]] + Insert(x, s[1..])
  {
  }

  /** Putting a head `y` of another score in front of two lists whose score
      classes differ by a leading `x` keeps that difference. */
  lemma ClassStep(y: ScoredSection, rest: seq<ScoredSection>, tail: seq<ScoredSection>, x: ScoredSection, v: int)
    requires x.score == v ==> y.score != v
    requires WithScore(rest, v) == (if x.score == v then [x] else []) + WithScore(tail, v)
    ensures WithScore([y] + rest, v) == (if x.score == v then [x] else []) + WithScore([y] + tail, v)
  {
    WithScoreCons(y, rest, v);
    WithScoreCons(y, tail, v);
  }

  /** The step of `InsertKeepsScoreClass` when `x` goes behind the head. */
  lemma InsertClassBehind(x: ScoredSection, s: seq<ScoredSection>, v: int)
    requires SortedDesc(s) && s != [] && x.score < s[0].score
    requires WithScore(Insert(x, s[1..]), v) == (if x.score == v then [x] else []) + WithScore(s[1..], v)
    ensures WithScore(Insert(x, s), v) == (if x.score == v then [x] else []) + WithScore(s, v)
  {
    InsertBehind(x, s);
    ClassStep(s[0], Insert(x, s[1..]), s[1..], x, v);
    assert [s[0]] + s[1..] == s;
  }

  lemma {:induction false} InsertKeepsScoreClass(x: ScoredSection, s: seq<ScoredSection>, v: int)
    requires SortedDesc(s)
    ensures WithScore(Insert(x, s), v) == (if x.score == v then [x] else []) + WithScore(s, v)
  {
    if s == [] || x.score >= s[0].score {
      InsertFront(x, s);
      WithScoreCons(x, s, v);
    } else {
      InsertBehind(x, s);
      InsertKeepsScoreClass(x, s[1..], v);
      InsertClassBehind(x, s, v);
    }
  }

  /** Stability: for every score, the sections with that score appear in the
      sorted list in exactly their input order. */
  lemma {:induction false} SortIsStable(s: seq<ScoredSection>, v: int)
    ensures WithScore(SortByScoreDesc(s), v) == WithScore(s, v)
  {
    if s != [] {
      SortIsStable(s[1..], v);
      InsertKeepsScoreClass(s[0], SortByScoreDesc(s[1..]), v);
    }
  }

  // ---------------------------------------------------------------------
  // Scoring copies and keeping the top 10 (main.py:206-219)

  /** `extracted_sections` keeps this many sections (main.py:219). */
  const TopCount: nat := 10

  /** `{**section, 'relevance_score': fast_keyword_score(...)}` for every
      section, in extraction order (main.py:212-215). */
  function ScoreAll(sections: seq<Section>, personaKeywords: set<string>, jobKeywords: set<string>): (r: seq<ScoredSection>)
    ensures |r| == |sections|
    ensures forall i :: 0 <= i < |r| ==> r[i].section == sections[i]
    ensures forall i :: 0 <= i < |r| ==> 3 <= r[i].score <= MaxScore
    ensures forall i :: 0 <= i < |r| ==> r[i].score == FastKeywordScore(sections[i], personaKeywords, jobKeywords)
  {
    seq(|sections|, i requires 0 <= i < |sections| =>
      ScoredSection(sections[i], FastKeywordScore(sections[i], personaKeywords, jobKeywords)))
  }

  /** `scored_sections.sort(...)` then `[:10]` (main.py:218-219). */
  function TopSections(scored: seq<ScoredSection>): seq<ScoredSection> {
    Take(SortByScoreDesc(scored), TopCount)
  }

  lemma {:induction false} TakeKeepsScoreClassPrefix(t: seq<ScoredSection>, k: nat, v: int)
    ensures WithScore(Take(t, k), v) <= WithScore(t, v)
    decreases |t|
  {
    if t != [] && k > 0 && k < |t| {
      TakeKeepsScoreClassPrefix(t[1..], k - 1, v);
      assert Take(t, k)[1..] == Take(t[1..], k - 1);
    }
  }

  /** In a descending list, no element after position `k` outscores one before it. */
  lemma PrefixOutscoresRest(sorted: seq<ScoredSection>, k: nat)
    requires SortedDesc(sorted) && k <= |sorted|
    ensures forall x, y :: x in sorted[..k] && y in sorted[k..] ==> y.score <= x.score
  {
    forall x: ScoredSection, y: ScoredSection | x in sorted[..k] && y in sorted[k..]
      ensures y.score <= x.score
    {
      var i :| 0 <= i < k && sorted[..k][i] == x;
      var j :| 0 <= j < |sorted| - k && sorted[k..][j] == y;
      assert sorted[i] == x && sorted[k + j] == y;
    }
  }

  /** No section left out of the top 10 outscores one that was kept. */
  lemma TopOutscoresRest(scored: seq<ScoredSection>)
    ensures multiset(TopSections(scored)) <= multiset(scored)
    ensures forall x, y :: x in TopSections(scored) && y in multiset(scored) - multiset(TopSections(scored)) ==>
              y.score <= x.score
  {
    var sorted := SortByScoreDesc(scored);
    var top := TopSections(scored);
    var k := |top|;
    assert top == sorted[..k];
    MultisetSplit(sorted, k);
    PrefixOutscoresRest(sorted, k);
  }

  lemma MultisetSplit<T>(s: seq<T>, k: nat)
    requires k <= |s|
    ensures multiset(s[..k]) <= multiset(s)
    ensures multiset(s) - multiset(s[..k]) == multiset(s[k..])
  {
    assert s == s[..k] + s[k..];
  }

  /** Among equal scores the top 10 keeps the earliest extracted sections. */
  lemma TopKeepsEarliest(scored: seq<ScoredSection>)
    ensures forall v :: WithScore(TopSections(scored), v) <= WithScore(scored, v)
  {
    var sorted := SortByScoreDesc(scored);
    forall v: int
      ensures WithScore(TopSections(scored), v) <= WithScore(scored, v)
    {
      TakeKeepsScoreClassPrefix(sorted, TopCount, v);
      SortIsStable(scored, v);
    }
  }

  /** The kept sections are the 10 best: at most 10, descending, drawn from the
      scored list, none outscored by a section left out, and among equal scores
      the earliest extracted are kept first. */
  lemma TopSectionsAreBest(scored: seq<ScoredSection>)
    ensures |TopSections(scored)| == Min(TopCount, |scored|)
    ensures SortedDesc(TopSections(scored))
    ensures multiset(TopSections(scored)) <= multiset(scored)
    ensures forall x, y :: x in TopSections(scored) && y in multiset(scored) - multiset(TopSections(scored)) ==>
              y.score <= x.score
    ensures forall v :: WithScore(TopSections(scored), v) <= WithScore(scored, v)
  {
    var sorted := SortByScoreDesc(scored);
    assert |sorted| == |scored| by {
      assert |multiset(sorted)| == |multiset(scored)|;
    }
    TakeOfSorted(sorted, TopCount);
    TopOutscoresRest(scored);
    TopKeepsEarliest(scored);
  }

  /** A prefix of a descending list is descending. */
  lemma TakeOfSorted(s: seq<ScoredSection>, k: nat)
    requires SortedDesc(s)
    ensures SortedDesc(Take(s, k))
  {
    var t := Take(s, k);
    assert forall i :: 0 <= i < |t| ==> t[i] == s[i];
  }

  // ---------------------------------------------------------------------
  // Excerpts of the top 3 (main.py:236-247)

  /** Excerpts are cut from this many leading sections (main.py:238). */
  const ExcerptPool: nat := 3
  /** Minimum score for an excerpt (main.py:239). */
  const ExcerptMinScore: int := 7
  /** `first_para` is cut to this length (main.py:240). */
  const ExcerptCap: nat := 250
  /** An excerpt must be longer than this (main.py:241). */
  const ExcerptMinLength: nat := 50

  /** One entry of `subsection_analysis`; `importance_rank` carries the
      section's relevance score, not its position. */
  datatype Subsection = Subsection(document: string, page: int, refinedText: string, importanceRank: int)

  /** `section['content'].split('\n')[0][:250]`. */
  function Excerpt(content: string): (r: string)
    ensures |r| <= ExcerptCap && r <= content
  {
    Take(FirstLine(content), ExcerptCap)
  }

  predicate Qualifies(s: ScoredSection) {
    s.score >= ExcerptMinScore && |Excerpt(s.section.content)| > ExcerptMinLength
  }

  function SubsectionOf(s: ScoredSection): Subsection {
    Subsection(s.section.document, s.section.page, Excerpt(s.section.content), s.score)
  }

  /** The loop of main.py:238-247 over the candidate sections `c`. */
  function CollectSubsections(c: seq<ScoredSection>): (r: seq<Subsection>)
    ensures |r| <= |c|
    ensures forall x :: x in r ==> exists i :: 0 <= i < |c| && Qualifies(c[i]) && x == SubsectionOf(c[i])
    ensures forall i :: 0 <= i < |c| && Qualifies(c[i]) ==> SubsectionOf(c[i]) in r
  {
    if c == [] then []
    else
      var rest := CollectSubsections(c[1..]);
      assert forall i :: 1 <= i < |c| ==> c[i] == c[1..][i - 1];
      if Qualifies(c[0]) then [SubsectionOf(c[0])] + rest else rest
  }

  /** The excerpt one candidate contributes: one entry when it qualifies,
      none otherwise. */
  function KeepIf(s: ScoredSection): (r: seq<Subsection>)
    ensures |r| <= 1
    ensures r == [] <==> !Qualifies(s)
    ensures r != [] ==> r[0] == SubsectionOf(s)
  {
    if Qualifies(s) then [SubsectionOf(s)] else []
  }

  /** Collecting over two runs of candidates appends the two results: each
      candidate contributes on its own, in candidate order. */
  lemma {:induction false} CollectSubsectionsSplits(a: seq<ScoredSection>, b: seq<ScoredSection>)
    ensures CollectSubsections(a + b) == CollectSubsections(a) + CollectSubsections(b)
    decreases |a|
  {
    if a != [] {
      assert (a + b)[0] == a[0] && (a + b)[1..] == a[1..] + b;
      CollectSubsectionsSplits(a[1..], b);
      assert CollectSubsections(a + b) == KeepIf(a[0]) + CollectSubsections(a[1..] + b);
      assert CollectSubsections(a) == KeepIf(a[0]) + CollectSubsections(a[1..]);
      AppendAssociates(KeepIf(a[0]), CollectSubsections(a[1..]), CollectSubsections(b));
    } else {
      assert a + b == b;
    }
  }

  /** A single candidate yields exactly its own excerpt, or nothing. */
  lemma CollectSingleton(s: ScoredSection)
    ensures CollectSubsections([s]) == KeepIf(s)
  {
    assert [s][1..] == [];
  }

  /** `subsection_analysis`: at most three excerpts, each cut from one of the
      top three sections scoring at least 7 and longer than 50 characters; a
      top-three section meeting both conditions always yields one. */
  function SelectSubsections(top: seq<ScoredSection>): (r: seq<Subsection>)
    ensures |r| <= ExcerptPool
    ensures forall x :: x in r ==> x.importanceRank >= ExcerptMinScore
    ensures forall x :: x in r ==> ExcerptMinLength < |x.refinedText| <= ExcerptCap
    ensures forall x :: x in r ==> exists i :: 0 <= i < |top| && i < ExcerptPool && x == SubsectionOf(top[i])
    ensures forall i :: 0 <= i < |top| && i < ExcerptPool && Qualifies(top[i]) ==> SubsectionOf(top[i]) in r
  {
    var pool := Take(top, ExcerptPool);
    assert forall i :: 0 <= i < |pool| ==> pool[i] == top[i];
    CollectSubsections(pool)
  }

  /** Two candidates yield their excerpts in order. */
  lemma CollectPair(a: ScoredSection, b: ScoredSection)
    ensures CollectSubsections([a, b]) == KeepIf(a) + KeepIf(b)
  {
    assert [a, b] == [a] + [b];
    CollectSubsectionsSplits([a], [b]);
    CollectSingleton(a);
    CollectSingleton(b);
  }

  /** Three candidates yield their excerpts in order. */
  lemma CollectTriple(a: ScoredSection, b: ScoredSection, c: ScoredSection)
    ensures CollectSubsections([a, b, c]) == KeepIf(a) + KeepIf(b) + KeepIf(c)
  {
    assert [a, b, c] == [a] + [b, c];
    CollectSubsectionsSplits([a], [b, c]);
    CollectSingleton(a);
    CollectPair(b, c);
    AppendAssociates(KeepIf(a), KeepIf(b), KeepIf(c));
  }

  /** The excerpts follow rank order: the first top section's excerpt (if any),
      then the second's, then the third's, one per qualifying section. */
  lemma SelectSubsectionsInRankOrder(top: seq<ScoredSection>)
    ensures SelectSubsections(top) ==
      (if |top| > 0 then KeepIf(top[0]) else [])
      + (if |top| > 1 then KeepIf(top[1]) else [])
      + (if |top| > 2 then KeepIf(top[2]) else [])
  {
    var pool := Take(top, ExcerptPool);
    assert SelectSubsections(top) == CollectSubsections(pool);
    if |top| == 0 {
      assert pool == [];
    } else if |top| == 1 {
      assert pool == [top[0]];
      CollectSingleton(top[0]);
    } else if |top| == 2 {
      assert pool == [top[0], top[1]];
      CollectPair(top[0], top[1]);
    } else {
      assert pool == [top[0], top[1], top[2]];
      CollectTriple(top[0], top[1], top[2]);
    }
  }

  /** Content that came out of `clean_text` has no newline, so its "first
      paragraph" is the content itself and the excerpt is its first 250
      characters. */
  lemma ExcerptOfExtractedContent(pages: Option<seq<string>>, entry: OutlineEntry, next: Option<OutlineEntry>)
    requires ExtractContent(pages, entry, next) != FallbackContent(entry)
    ensures Excerpt(ExtractContent(pages, entry, next)) == Take(ExtractContent(pages, entry, next), ExcerptCap)
  {
    NoNewlineFirstLine(ExtractContent(pages, entry, next));
  }

  lemma {:induction false} NoNewlineFirstLine(s: string)
    requires forall i :: 0 <= i < |s| ==> s[i] != '\n'
    ensures FirstLine(s) == s
    decreases |s|
  {
    if s != [] {
      NoNewlineFirstLine(s[1..]);
    }
  }

  // ---------------------------------------------------------------------
  // The whole run (main.py:187-271)

  /** One entry of `extracted_sections`. */
  datatype ExtractedSection = ExtractedSection(document: string, title: string, page: int, importanceRank: int)

  /** The `metadata` block, without the wall-clock timestamp and duration. */
  datatype Metadata = Metadata(inputDocuments: seq<string>, persona: string, job: string, totalSectionsAnalyzed: nat)

  datatype RunResult = RunResult(metadata: Metadata, extractedSections: seq<ExtractedSection>, subsectionAnalysis: seq<Subsection>)

  /** `extracted_sections`: the kept sections with ranks 1, 2, ... (main.py:259-267). */
  function RankedEntries(top: seq<ScoredSection>): (r: seq<ExtractedSection>)
    ensures |r| == |top|
    ensures forall i :: 0 <= i < |r| ==> r[i].importanceRank == i + 1
    ensures forall i :: 0 <= i < |r| ==>
              && r[i].document == top[i].section.document
              && r[i].title == top[i].section.title
              && r[i].page == top[i].section.page
  {
    seq(|top|, i requires 0 <= i < |top| =>
      ExtractedSection(top[i].section.document, top[i].section.title, top[i].section.page, i + 1))
  }

  /** The sections of a run, scored for `pj` and cut to the top 10. */
  function RankSections(sections: seq<Section>, pj: PersonaJob): seq<ScoredSection> {
    TopSections(ScoreAll(sections, WordSet(LowerStr(pj.persona)), WordSet(LowerStr(pj.job))))
  }

  /** `input_documents`: the names of the PDFs, in order. */
  function DocumentNames(files: seq<PdfFile>): (r: seq<string>)
    ensures |r| == |files|
    ensures forall i :: 0 <= i < |files| ==> r[i] == files[i].name
  {
    seq(|files|, i requires 0 <= i < |files| => files[i].name)
  }

  /** A run keeps ten sections, or all of them when there are fewer. */
  lemma RankSectionsCount(sections: seq<Section>, pj: PersonaJob)
    ensures |RankSections(sections, pj)| == Min(TopCount, |sections|)
  {
    TopSectionsAreBest(ScoreAll(sections, WordSet(LowerStr(pj.persona)), WordSet(LowerStr(pj.job))));
  }

  /** `ultra_fast_process` (main.py:187-271). `files` are the PDFs found next
      to their outlines, in outline order; `inferenceAnswer` and
      `refinementAnswer` are the model's two answers (`None` when a call
      raised). The refinement answer is read and never used. */
  function UltraFastProcess(
    files: seq<PdfFile>,
    outlines: map<string, seq<OutlineEntry>>,
    inferenceAnswer: Option<string>,
    refinementAnswer: Option<string>): (r: RunResult)
    ensures var n := |ExtractAllSections(files, outlines)|;
      && r.metadata.totalSectionsAnalyzed == n
      && |r.extractedSections| == Min(TopCount, n)
    ensures forall i :: 0 <= i < |r.extractedSections| ==> r.extractedSections[i].importanceRank == i + 1
    ensures |r.subsectionAnalysis| <= ExcerptPool
    ensures forall x :: x in r.subsectionAnalysis ==>
              x.importanceRank >= ExcerptMinScore && ExcerptMinLength < |x.refinedText| <= ExcerptCap
    ensures r.metadata.persona != [] && r.metadata.job != []
    ensures r.metadata.persona == InferPersonaJob(inferenceAnswer).persona
    ensures r.metadata.job == InferPersonaJob(inferenceAnswer).job
    ensures |r.metadata.inputDocuments| == |files|
    ensures forall i :: 0 <= i < |files| ==> r.metadata.inputDocuments[i] == files[i].name
  {
    var sections := ExtractAllSections(files, outlines);
    var pj := InferPersonaJob(inferenceAnswer);
    InferredPairNonEmpty(inferenceAnswer);
    var top := RankSections(sections, pj);
    RankSectionsCount(sections, pj);
    RunResult(
      Metadata(DocumentNames(files), pj.persona, pj.job, |sections|),
      RankedEntries(top),
      SelectSubsections(top))
  }

  /** The refinement answer never reorders anything: the result is the same
      whatever the model answered, or whether it answered at all. */
  lemma RefinementAnswerIgnored(
    files: seq<PdfFile>, outlines: map<string, seq<OutlineEntry>>,
    inferenceAnswer: Option<string>, a1: Option<string>, a2: Option<string>)
    ensures UltraFastProcess(files, outlines, inferenceAnswer, a1) == UltraFastProcess(files, outlines, inferenceAnswer, a2)
  {
  }

  /** `extracted_sections[i]` is the i-th best section: the ranking is the
      stable descending sort of the keyword scores, cut to 10; the excerpts
      are cut from the first three of that same ranking. */
  lemma ExtractedFollowRanking(
    files: seq<PdfFile>, outlines: map<string, seq<OutlineEntry>>,
    inferenceAnswer: Option<string>, refinementAnswer: Option<string>)
    ensures var r := UltraFastProcess(files, outlines, inferenceAnswer, refinementAnswer);
      var top := RankSections(ExtractAllSections(files, outlines), InferPersonaJob(inferenceAnswer));
      && |r.extractedSections| == |top|
      && SortedDesc(top)
      && r.subsectionAnalysis == SelectSubsections(top)
      && forall i :: 0 <= i < |top| ==>
           r.extractedSections[i].document == top[i].section.document
           && r.extractedSections[i].page == top[i].section.page
           && r.extractedSections[i].title == top[i].section.title
  {
    var pj := InferPersonaJob(inferenceAnswer);
    TopSectionsAreBest(ScoreAll(ExtractAllSections(files, outlines), WordSet(LowerStr(pj.persona)), WordSet(LowerStr(pj.job))));
  }

  /** A run over no documents yields empty lists and zero sections. */
  lemma EmptyRun(outlines: map<string, seq<OutlineEntry>>, inferenceAnswer: Option<string>, refinementAnswer: Option<string>)
    ensures var r := UltraFastProcess([], outlines, inferenceAnswer, refinementAnswer);
      && r.extractedSections == []
      && r.subsectionAnalysis == []
      && r.metadata.totalSectionsAnalyzed == 0
      && r.metadata.inputDocuments == []
  {
  }
}
