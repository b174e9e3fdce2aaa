# Document analyzer core in Dafny

This project models the scoring, parsing and selection logic of the
`DocumentAnalyzer` class in `main.py`. The analyzer reads a set of PDFs and
their outlines. It turns every outline entry into a section record that
carries the cleaned text of its pages. It infers a persona and a job from one
language-model answer, then scores every section by keyword containment. It
keeps the ten best sections in a stable descending order and cuts short
excerpts from the best three.

The model is purely functional:

- A PDF is the list of its page texts, or `None` when it cannot be opened.
- Each language-model answer is an `Option<string>`, where `None` means the
  call raised.
- The result of a run is a `RunResult` value.

Modules, in dependency order:

| file | module | models |
|---|---|---|
| wrappers.dfy | `Wrappers` | `Option` |
| text.dfy | `Text` | `str.isspace`, ASCII `lower()`, `split()`, `s[:n]`, substring `in`, `re.sub(r'\s+', ' ', s).strip()` (`clean_text`), `split('\n')[0]` |
| sections.dfy | `Sections` | `extract_content`, `extract_all_sections`, the section records, the 1..10 clamp |
| parsing.dfy | `Parsing` | `parse_mega_scores`, `parse_batch_scores`, the regex searches of `infer_persona_job` |
| scoring.dfy | `Scoring` | `keyword_score_all`, `fast_keyword_score`, `fast_score_all_sections` |
| ranking.dfy | `Ranking` | the stable sort, top 10, subsection excerpts and `ultra_fast_process` |
| scenarios.dfy | `Scenarios` | worked inputs for the quirks listed below |

Text semantics follow Python 3:

- `IsSpace` is exactly the set of characters `str.isspace()` accepts. That
  set is also what the regex class `\s` matches in a `str` pattern.
- `re.search` is modelled as the leftmost position where the pattern matches.
  `SearchScoreIsLeftmost` proves this for the score pattern.
- Greedy `\s*` and `\d+` take whole runs.
- In `\s*(.+)`, the `\s*` backtracks only when the whitespace run reaches the
  end of the text.

The model keeps these quirks of the code:

- A section's page span runs through the first page of the next outline
  entry (`end_page + 1`), whatever that entry's level.
  `AdjacentSpansShareOnePage` states this.
- The token score of `keyword_score_all` starts at 4, so its floor of 1 is
  never reached. The substring score of `fast_keyword_score` starts at 3.
- `parse_mega_scores` looks up at most 20 indices. Every later section gets 5.
- The refinement answer for the top three is read and never used.
  `RefinementAnswerIgnored` states this.
- `importance_rank` of a subsection holds the section's relevance score,
  not its position.
- `ultra_fast_process` never calls `fast_score_all_sections` or
  `parse_batch_scores`; both are modelled on their own.
- Cleaned content contains no newline, so the excerpt taken with
  `split('\n')[0][:250]` is simply the first 250 characters
  (`ExcerptOfExtractedContent`).

## Model

| member | source | states |
|---|---|---|
| Text.CleanTextJoinsWords | main.py:49-51 | `clean_text(s)` equals `' '.join(s.split())`: collapsing whitespace runs and stripping keeps exactly the words of `s`, in order, separated by single spaces |
| Text.CleanTextNormalized | main.py:49-51 | cleaned text has no whitespace at either end, and every whitespace character in it is a lone plain space |
| Text.CleanTextIdempotent | main.py:49-51 | cleaning already-cleaned text changes nothing |
| Text.Words | main.py:110-111 | `split()` gives no tokens exactly when the string is empty or all whitespace |
| Text.WordsOccurIn | main.py:104-111 | every token `split()` returns occurs as a substring of the string it came from |
| Text.ContainsAt | main.py:177-178 | the substring test `w in s` holds exactly when `w` is a prefix of some suffix of `s` |
| Sections.Clamp | main.py:117 | the clamp lies in 1..10, is the identity inside that range, gives 1 below it and 10 above it |
| Sections.ExtractContent | main.py:31-47 | an unopenable PDF gives `Content from: <title>`; any other result is at most 1500 characters and has no newline |
| Sections.ContentCoversSpan | main.py:35-43 | for an entry on page 1 or later of an opened PDF, the content is the cleaned text of exactly the pages of its span, each followed by a newline, cut to 1500 characters; an empty span gives "" |
| Sections.RawContentIsJoinedSlice | main.py:38-40 | the page loop yields the pages `from..stop`, each followed by a newline |
| Sections.AdjacentSpansShareOnePage | main.py:35-39 | consecutive entries' spans overlap in exactly one page, the first page of the later entry |
| Sections.LastSpanReachesEnd | main.py:36 | the last entry of an outline reads through the final page |
| Sections.DocSections | main.py:61-72 | one record per outline entry, in outline order, with the document name, the entry's page, text and level, and the content extracted up to the next entry |
| Sections.ExtractAllSections | main.py:53-73 | every record comes from a document that has an outline |
| Sections.ExtractAllSectionsAppend | main.py:56-72 | adding a PDF appends its records after all earlier ones, or nothing when it has no outline |
| Sections.NoOutlinesNoSections | main.py:58-59 | when no PDF has an outline there are no sections |
| Parsing.DecimalRoundTrip | main.py:126 | `int(str(n)) == n`, so the key `f"{i}:"` spells the index `i` |
| Parsing.SearchScoreIsLeftmost | main.py:126-127 | the search reports the value read at the leftmost position where `key\s*(\d+)` matches, and reports nothing exactly when no position matches |
| Parsing.ParseMegaScores | main.py:122-137 | one score per section, each in 1..10; for the first 20, the clamped number after the leftmost `i:` (or 5 when absent); 5 for every section past the 20th |
| Parsing.ParseBatchScores | main.py:273-283 | one score per section, each in 1..10: the clamped number after the leftmost case-insensitive `SECTIONi:`, or 5 when absent |
| Parsing.Tabulate | main.py:125-131 | the loop yields exactly the lookups for indices 1, 2, ... in order |
| Parsing.ScoreOrDefault | main.py:128-131 | the score is in 1..10, is 5 without a match, and is the matched number clamped to 1..10 otherwise (0 gives 1, 15 gives 10) |
| Parsing.InferPersonaJob | main.py:155-169 | a failed call gives ("Researcher", "Document analysis"); a label missing from the answer gives that label's fallback |
| Parsing.LabelGroupStartsWithText | main.py:157-160 | in stripped text, a group captured after `PERSONA:` or `JOB:` is non-empty and starts with a non-space character |
| Parsing.InferredPairNonEmpty | main.py:155-169 | the inferred persona and job are never empty |
| Scoring.KeywordScore | main.py:110-117 | a token score is min(10, 4 + 3 x shared title tokens + shared content tokens (first 200 characters) + the level bonus): exactly that sum when it is at most 10, and 10 otherwise |
| Scoring.KeywordScoreAll | main.py:102-120 | one score per section, in order, each in 1..10 and equal to that section's token score |
| Scoring.KeywordScoreAllSplits | main.py:108-118 | a section's score depends on that section alone: scoring two lists and concatenating gives the scores of the concatenation |
| Scoring.TitleOverlapRaisesScore | main.py:113-117 | of two sections with the same content and level, sharing more title tokens gives a strictly higher score unless the lower one is already 10 |
| Scoring.NoSharedTokensGivesBase | main.py:110-117 | a section sharing no token with the persona and job, without a heading bonus, scores exactly 4 |
| Scoring.FastKeywordScore | main.py:171-185 | a substring score is min(10, 3 + 3 x keywords in the title + keywords in the first 500 content characters + the level bonus): exactly that sum when it is at most 10, and 10 otherwise |
| Scoring.FastKeywordScoreWithoutKeywords | main.py:181-185 | with no keywords the score is 5 for H1, 4 for H2 and 3 otherwise |
| Scoring.FastKeywordScoreMonotone | main.py:177-185 | more keywords never lower the score |
| Scoring.SubstringScoreCoversTokenScore | main.py:104-117 | with the keywords of the same persona and job, the substring score plus one is at least the token score, because every shared token also occurs as a substring |
| Scoring.ApplyScores | main.py:97-98 | each section keeps its record and takes the score at its position, or 5 past the end of the score list |
| Scoring.FastScoreAllSections | main.py:75-100 | scores are in 1..10; without an answer they are the token scores; with one, the parsed score for the first 20 sections and 5 after that |
| Ranking.Insert | main.py:218 | inserting into a descending list keeps it descending and adds exactly the one element |
| Ranking.SortByScoreDesc | main.py:218 | the sorted list is descending by score and a permutation of the input |
| Ranking.SortIsStable | main.py:218 | for every score, the sections with that score keep their input order |
| Ranking.InsertKeepsScoreClass | main.py:218 | inserting an element puts it ahead of every element with its score |
| Ranking.ScoreAll | main.py:212-215 | one scored copy per section, in extraction order, with its substring score |
| Ranking.TopSectionsAreBest | main.py:218-219 | the kept list has min(10, n) sections, is descending and drawn from the scored list; no section left out outscores a kept one; among equal scores the earliest extracted are kept |
| Ranking.TopOutscoresRest | main.py:218-219 | no section left out of the top 10 outscores a kept one |
| Ranking.TopKeepsEarliest | main.py:218-219 | among equal scores, the top 10 keeps the sections extracted first |
| Ranking.PrefixOutscoresRest | main.py:219 | in a descending list, nothing after position k outscores anything before it |
| Ranking.CollectSubsections | main.py:238-247 | an excerpt is produced for a candidate exactly when its score is at least 7 and its first line, cut to 250 characters, is longer than 50; `CollectSubsectionsSplits` and `CollectSingleton` fix the order and count |
| Ranking.SelectSubsections | main.py:236-247 | at most three excerpts, each from one of the top three sections, with score at least 7 and length in 51..250; every top-three section meeting both conditions yields one |
| Ranking.CollectSubsectionsSplits | main.py:238-247 | the loop handles each candidate on its own and appends in candidate order: collecting over `a + b` gives the excerpts of `a` followed by those of `b` |
| Ranking.CollectSingleton | main.py:238-247 | one candidate yields exactly its own excerpt when it qualifies and nothing otherwise |
| Ranking.SelectSubsectionsInRankOrder | main.py:236-247 | `subsection_analysis` is the first top section's excerpt (if it qualifies), then the second's, then the third's: one per qualifying section, in rank order |
| Ranking.ExcerptOfExtractedContent | main.py:240 | for extracted (cleaned) content the excerpt is just its first 250 characters |
| Ranking.RankSectionsCount | main.py:218-219 | a run keeps ten sections, or all of them when there are fewer |
| Ranking.RankedEntries | main.py:259-267 | the i-th entry of `extracted_sections` carries the i-th kept section's document, title and page, with rank i + 1 |
| Ranking.UltraFastProcess | main.py:187-271 | the metadata counts every extracted section and lists the input documents in order; min(10, n) ranked entries with ranks 1, 2, ...; at most three excerpts within the bounds above, cut from the first three ranked sections (`ExtractedFollowRanking`); the reported persona and job are exactly the inferred pair that drives the scoring, and are non-empty |
| Ranking.RefinementAnswerIgnored | main.py:221-234 | the result is the same whatever the refinement call answered, or whether it answered |
| Ranking.ExtractedFollowRanking | main.py:218-247 | `extracted_sections` follows the stable descending ranking of the substring scores, cut to 10, and `subsection_analysis` is cut from the first three of that same ranking |
| Ranking.EmptyRun | main.py:187-271 | a run over no PDFs has no sections, entries, excerpts or input documents |
| Scenarios.IndexOneMatchesInsideEleven | main.py:126-127 | in the answer "11: 7" the unanchored search for `1:` matches inside `11:`, so section 1 gets 7 |
| Scenarios.KeyOneRejectsEleven | main.py:126-127 | `1:` does not match at the start of "11: 7" |
| Scenarios.IntroAndMethodsSpans | main.py:35-39 | entries on pages 1 and 3 of a five-page PDF read pages 1-3 and 3-5, so page 3 belongs to both |
| Scenarios.SubstringMatchCountsInsideWords | main.py:177-185 | the keyword "art" counts for the title "Start", so the score is 6 |

## Left out

- The language-model calls, the prompts and their arguments: each call is replaced by its answer as an `Option<string>`, with `None` for a call that raised.
- Opening PDFs (`fitz.open`) and `get_text`: a PDF is the list of its page texts, or `None` when it cannot be opened.
- `load_outlines`, the file-existence filter, `os.path.basename`, the JSON output and `main`: the model receives the PDFs and the outline entries already loaded. A PDF's name is its base name.
- `print`, timestamps and the processing time in the metadata: they do not influence any other output.
- `infer_persona_job`'s prompt-building from document and section titles: it only feeds the model call.
- Lower-casing is modelled for ASCII letters only. Python's `str.lower()` also folds non-ASCII letters and can change a string's length.
- `\d` is modelled as the ASCII digits, and `re.IGNORECASE` as ASCII case folding. Python's regex also accepts other Unicode decimal digits and folds non-ASCII letters.
- A page index below minus the page count is treated as an extraction failure, which gives the fallback text. The PDF library may instead wrap such an index by adding the page count until it is non-negative; the model does not follow that wrap-around.
- `extract_content` also falls back on any other exception the PDF library may raise while reading a page. Only unopenable documents and out-of-range pages are modelled as failures.
- Parsing.InferPersonaJob: when a label is found, the contract does not restate that the value is the stripped group; `InferredPairNonEmpty` and `LabelGroupStartsWithText` state what that group looks like.
- `fast_score_all_sections` writes `relevance_score` into the caller's section dictionaries in place and returns that same list. `Scoring.FastScoreAllSections` returns new records instead. Nothing else in the model depends on the sharing, because `ultra_fast_process` never calls this function.
- `Parsing.DigitsValue` reads a digit run of any length. Python 3.11 and later make `int()` raise `ValueError` on a run of more than 4300 digits. In `fast_score_all_sections` that error is caught and every section gets its keyword score. In `parse_batch_scores` it propagates to the caller. The model has no such limit. The answers are capped at 100 tokens, so such a run cannot occur in practice.
