/** The two keyword relevance scorers and the model-first scoring pass:
    `keyword_score_all` (main.py:102-120) scores by shared tokens,
    `fast_keyword_score` (main.py:171-185) by substring containment, and
    `fast_score_all_sections` (main.py:75-100) prefers the model's scores. */
module Scoring {
  import opened Wrappers
  import opened Text
  import opened Sections
  import opened Parsing

  /** `{'H1': 2, 'H2': 1, 'H3': 0}.get(section.get('level', 'H3'), 0)`. */
  function LevelBonus(level: Option<string>): nat {
    if level == Some("H1") then 2 else if level == Some("H2") then 1 else 0
  }

  /** Only the first 200 characters of content are tokenised by `keyword_score_all`. */
  const TokenPrefix: nat := 200
  /** Only the first 500 characters of content are searched by `fast_keyword_score`. */
  const SubstringPrefix: nat := 500

  /** `set(persona.lower().split()) | set(job.lower().split())`. */
  function TargetWords(persona: string, job: string): set<string> {
    WordSet(LowerStr(persona)) + WordSet(LowerStr(job))
  }

  /** The unclamped weighted sum of `keyword_score_all`. */
  function TokenSignal(s: Section, target: set<string>): nat {
    var titleWords := WordSet(LowerStr(s.title));
    var contentWords := WordSet(LowerStr(Take(s.content, TokenPrefix)));
    4 + 3 * |target * titleWords| + |target * contentWords| + LevelBonus(s.level)
  }

  /** One section's score in `keyword_score_all` (main.py:110-117). The sum
      starts at 4, so the floor of 1 is never reached. */
  function KeywordScore(s: Section, persona: string, job: string): (r: int)
    ensures 4 <= r <= MaxScore
    ensures TokenSignal(s, TargetWords(persona, job)) <= MaxScore ==> r == TokenSignal(s, TargetWords(persona, job))
    ensures TokenSignal(s, TargetWords(persona, job)) >= MaxScore ==> r == MaxScore
  {
    Clamp(TokenSignal(s, TargetWords(persona, job)))
  }

  /** `keyword_score_all` (main.py:102-120): one score per section, in order. */
  function KeywordScoreAll(sections: seq<Section>, persona: string, job: string): (r: seq<int>)
    ensures |r| == |sections|
    ensures forall i :: 0 <= i < |r| ==> MinScore <= r[i] <= MaxScore
    ensures forall i :: 0 <= i < |r| ==> r[i] == KeywordScore(sections[i], persona, job)
  {
    seq(|sections|, i requires 0 <= i < |sections| => KeywordScore(sections[i], persona, job))
  }

  /** A section's score depends on that section alone: scoring two lists
      separately gives the scores of scoring them together. */
  lemma KeywordScoreAllSplits(a: seq<Section>, b: seq<Section>, persona: string, job: string)
    ensures KeywordScoreAll(a + b, persona, job) == KeywordScoreAll(a, persona, job) + KeywordScoreAll(b, persona, job)
  {
  }

  /** Title overlap weighs three times: of two sections with the same content
      and level, the one sharing more title words scores strictly higher unless
      the other is already at the ceiling. */
  lemma TitleOverlapRaisesScore(s1: Section, s2: Section, persona: string, job: string)
    requires s1.content == s2.content && s1.level == s2.level
    requires |TargetWords(persona, job) * WordSet(LowerStr(s1.title))| > |TargetWords(persona, job) * WordSet(LowerStr(s2.title))|
    requires KeywordScore(s2, persona, job) < MaxScore
    ensures KeywordScore(s1, persona, job) > KeywordScore(s2, persona, job)
  {
  }

  /** A section sharing no token with the persona and job and carrying no
      heading bonus gets exactly the base score 4. */
  lemma NoSharedTokensGivesBase(s: Section, persona: string, job: string)
    requires TargetWords(persona, job) !! WordSet(LowerStr(s.title))
    requires TargetWords(persona, job) !! WordSet(LowerStr(Take(s.content, TokenPrefix)))
    requires LevelBonus(s.level) == 0
    ensures KeywordScore(s, persona, job) == 4
  {
    assert TargetWords(persona, job) * WordSet(LowerStr(s.title)) == {};
    assert TargetWords(persona, job) * WordSet(LowerStr(Take(s.content, TokenPrefix))) == {};
  }

  /** The keywords of `keywords` that occur as substrings of `text`. */
  function Occurring(keywords: set<string>, text: string): set<string> {
    set w | w in keywords && Contains(text, w)
  }

  /** The unclamped sum of `fast_keyword_score` (main.py:173-184). */
  function SubstringSignal(s: Section, keywords: set<string>): nat {
    var title := LowerStr(s.title);
    var content := LowerStr(Take(s.content, SubstringPrefix));
    3 * |Occurring(keywords, title)| + |Occurring(keywords, content)| + LevelBonus(s.level) + 3
  }

  /** `fast_keyword_score` (main.py:171-185). */
  function FastKeywordScore(s: Section, personaKeywords: set<string>, jobKeywords: set<string>): (r: int)
    ensures 3 <= r <= MaxScore
    ensures SubstringSignal(s, personaKeywords + jobKeywords) <= MaxScore ==> r == SubstringSignal(s, personaKeywords + jobKeywords)
    ensures SubstringSignal(s, personaKeywords + jobKeywords) >= MaxScore ==> r == MaxScore
  {
    Clamp(SubstringSignal(s, personaKeywords + jobKeywords))
  }

  /** With no keywords, the score is the level's base: 5 for H1, 4 for H2,
      3 otherwise. */
  lemma FastKeywordScoreWithoutKeywords(s: Section)
    ensures s.level == Some("H1") ==> FastKeywordScore(s, {}, {}) == 5
    ensures s.level == Some("H2") ==> FastKeywordScore(s, {}, {}) == 4
    ensures s.level != Some("H1") && s.level != Some("H2") ==> FastKeywordScore(s, {}, {}) == 3
  {
    assert Occurring({}, LowerStr(s.title)) == {};
    assert Occurring({}, LowerStr(Take(s.content, SubstringPrefix))) == {};
  }

  lemma {:induction false} SubsetCardinality<T>(a: set<T>, b: set<T>)
    requires a <= b
    ensures |a| <= |b|
    decreases |b|
  {
    if a != {} {
      var x :| x in a;
      SubsetCardinality(a - {x}, b - {x});
    }
  }

  /** More keywords never lower a `fast_keyword_score`. */
  lemma FastKeywordScoreMonotone(s: Section, p: set<string>, j: set<string>, p': set<string>, j': set<string>)
    requires p <= p' && j <= j'
    ensures FastKeywordScore(s, p, j) <= FastKeywordScore(s, p', j')
  {
    var title := LowerStr(s.title);
    var content := LowerStr(Take(s.content, SubstringPrefix));
    SubsetCardinality(Occurring(p + j, title), Occurring(p' + j', title));
    SubsetCardinality(Occurring(p + j, content), Occurring(p' + j', content));
  }

  /** Token equality implies containment: with the keywords of the same persona
      and job, `fast_keyword_score` is at most one below `keyword_score_all`
      (their constants are 3 and 4), because every shared title or content
      token also occurs as a substring. */
  lemma SubstringScoreCoversTokenScore(s: Section, persona: string, job: string)
    ensures FastKeywordScore(s, WordSet(LowerStr(persona)), WordSet(LowerStr(job))) + 1
      >= KeywordScore(s, persona, job)
  {
    var target := TargetWords(persona, job);
    var title := LowerStr(s.title);
    var short := LowerStr(Take(s.content, TokenPrefix));
    var long := LowerStr(Take(s.content, SubstringPrefix));
    forall w | w in target * WordSet(title)
      ensures w in Occurring(target, title)
    {
      WordsOccurIn(title, w);
    }
    assert short <= long;
    forall w | w in target * WordSet(short)
      ensures w in Occurring(target, long)
    {
      WordsOccurIn(short, w);
      ContainsInExtension(short, long, w);
    }
    SubsetCardinality(target * WordSet(title), Occurring(target, title));
    SubsetCardinality(target * WordSet(short), Occurring(target, long));
  }

  /** The loop of main.py:97-98: each section gets the score at its position,
      and the default 5 past the end of the score list. */
  function ApplyScores(sections: seq<Section>, scores: seq<int>): (r: seq<ScoredSection>)
    ensures |r| == |sections|
    ensures forall i :: 0 <= i < |r| ==> r[i].section == sections[i]
    ensures forall i :: 0 <= i < |r| && i < |scores| ==> r[i].score == scores[i]
    ensures forall i :: |scores| <= i < |r| ==> r[i].score == DefaultScore
  {
    seq(|sections|, i requires 0 <= i < |sections| =>
      ScoredSection(sections[i], if i < |scores| then scores[i] else DefaultScore))
  }

  /** `fast_score_all_sections` (main.py:75-100). `response` is the model's
      answer, `None` when the call raised; then the keyword scores are used.
      The section list is returned as new annotated records. */
  method FastScoreAllSections(sections: seq<Section>, persona: string, job: string, response: Option<string>)
    returns (scored: seq<ScoredSection>)
    ensures |scored| == |sections|
    ensures forall i :: 0 <= i < |scored| ==> scored[i].section == sections[i]
    ensures forall i :: 0 <= i < |scored| ==> MinScore <= scored[i].score <= MaxScore
    ensures response.None? ==> forall i :: 0 <= i < |scored| ==> scored[i].score == KeywordScore(sections[i], persona, job)
    ensures response.Some? ==> forall i :: 0 <= i < |scored| && i < MegaIndexCap ==>
              scored[i].score == MegaScoreFor(response.value, i + 1)
    ensures response.Some? ==> forall i :: MegaIndexCap <= i < |scored| ==> scored[i].score == DefaultScore
  {
    var scores: seq<int>;
    if response.Some? {
      scores := ParseMegaScores(response.value, |sections|);
    } else {
      scores := KeywordScoreAll(sections, persona, job);
    }
    scored := ApplyScores(sections, scores);
  }
}
