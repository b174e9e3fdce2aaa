/** Section records and their extraction from a PDF's outline
    (`extract_content`, `extract_all_sections`: main.py:31-73). The PDF is
    its list of page texts; `None` stands for a document that could not be
    opened. */
module Sections {
  import opened Wrappers
  import opened Text

  /** One entry of a document's outline file: `{text, page, level}`. */
  datatype OutlineEntry = OutlineEntry(text: string, page: int, level: string)

  /** A PDF that exists on disk: its file name and the text of each page. */
  datatype PdfFile = PdfFile(name: string, pages: Option<seq<string>>)

  /** The record `extract_all_sections` builds per outline entry. The level is
      optional because the scorers read it with `section.get('level', 'H3')`. */
  datatype Section = Section(
    document: string,
    page: int,
    title: string,
    level: Option<string>,
    content: string)

  /** A section annotated with its `relevance_score`. */
  datatype ScoredSection = ScoredSection(section: Section, score: int)

  /** Score bounds shared by the scorers and the response parsers. */
  const MinScore: int := 1
  const MaxScore: int := 10
  /** Score given to a section the model's answer does not mention. */
  const DefaultScore: int := 5

  /** `max(1, min(10, x))`, also written `min(10, max(1, x))` in the source. */
  function Clamp(x: int): (r: int)
    ensures MinScore <= r <= MaxScore
    ensures MinScore <= x <= MaxScore ==> r == x
    ensures x < MinScore ==> r == MinScore
    ensures x > MaxScore ==> r == MaxScore
  {
    if x < MinScore then MinScore else if x > MaxScore then MaxScore else x
  }

  /** Length cap applied to cleaned section content (main.py:43). */
  const ContentCap: nat := 1500

  function Min(a: int, b: int): int {
    if a <= b then a else b
  }

  /** `doc[i]`: non-negative indices count from the first page, negative ones
      from the last; anything further out is an extraction error. */
  function PageText(pages: seq<string>, i: int): Option<string> {
    if 0 <= i < |pages| then Some(pages[i])
    else if -|pages| <= i < 0 then Some(pages[|pages| + i])
    else None
  }

  /** The 0-based page range `range(start, stop)` read for `entry`
      (main.py:35-39): from the entry's own page up to and including the next
      entry's page, clipped to the document. */
  function PageSpan(entry: OutlineEntry, next: Option<OutlineEntry>, pageCount: nat): (int, int) {
    var start := entry.page - 1;
    var end := if next.Some? then next.value.page - 1 else pageCount;
    (start, Min(end + 1, pageCount))
  }

  /** The loop of main.py:38-40: each page's text followed by a newline;
      `None` when a page index is out of range. */
  function RawContent(pages: seq<string>, from: int, stop: int): Option<string>
    decreases stop - from
  {
    if from >= stop then Some("")
    else match PageText(pages, from)
      case None => None
      case Some(t) =>
        match RawContent(pages, from + 1, stop)
        case None => None
        case Some(rest) => Some(t + "\n" + rest)
  }

  /** Page texts each followed by a newline. */
  function JoinPages(ps: seq<string>): string {
    if ps == [] then "" else ps[0] + "\n" + JoinPages(ps[1..])
  }

  /** The text returned from the `except` branch (main.py:47). */
  function FallbackContent(entry: OutlineEntry): string {
    "Content from: " + entry.text
  }

  /** `extract_content` (main.py:31-47). */
  function ExtractContent(pages: Option<seq<string>>, entry: OutlineEntry, next: Option<OutlineEntry>): (r: string)
    ensures pages.None? ==> r == FallbackContent(entry)
    ensures r != FallbackContent(entry) ==> |r| <= ContentCap && forall i :: 0 <= i < |r| ==> r[i] != '\n'
  {
    match pages
    case None => FallbackContent(entry)
    case Some(ps) =>
      var span := PageSpan(entry, next, |ps|);
      match RawContent(ps, span.0, span.1)
      case None => FallbackContent(entry)
      case Some(raw) =>
        var cleaned := CleanText(raw);
        CleanTextNormalized(raw);
        assert forall i :: 0 <= i < |cleaned| ==> cleaned[i] != '\n' by {
          forall i | 0 <= i < |cleaned|
            ensures cleaned[i] != '\n'
          {
            assert IsSpace('\n');
          }
        }
        Take(cleaned, ContentCap)
  }

  lemma {:induction false} RawContentIsJoinedSlice(ps: seq<string>, from: nat, stop: nat)
    requires from <= stop <= |ps|
    ensures RawContent(ps, from, stop) == Some(JoinPages(ps[from..stop]))
    decreases stop - from
  {
    if from < stop {
      RawContentIsJoinedSlice(ps, from + 1, stop);
      assert ps[from..stop][1..] == ps[from + 1..stop];
    }
  }

  /** Once the pages of the span have been read, the content is their cleaned
      text capped at 1500 characters. */
  lemma ContentOfRaw(ps: seq<string>, entry: OutlineEntry, next: Option<OutlineEntry>, raw: string)
    requires RawContent(ps, PageSpan(entry, next, |ps|).0, PageSpan(entry, next, |ps|).1) == Some(raw)
    ensures ExtractContent(Some(ps), entry, next) == Take(CleanText(raw), ContentCap)
  {
  }

  /** For an entry on page 1 or later of an opened PDF, the content is the
      cleaned text of exactly the pages in `PageSpan`, capped at 1500
      characters; the fallback text is never used. */
  lemma ContentCoversSpan(ps: seq<string>, entry: OutlineEntry, next: Option<OutlineEntry>)
    requires entry.page >= 1
    ensures var span := PageSpan(entry, next, |ps|);
      ExtractContent(Some(ps), entry, next)
        == if span.0 < span.1 then Take(CleanText(JoinPages(ps[span.0..span.1])), ContentCap) else ""
  {
    var span := PageSpan(entry, next, |ps|);
    if span.0 < span.1 {
      RawContentIsJoinedSlice(ps, span.0, span.1);
      ContentOfRaw(ps, entry, next, JoinPages(ps[span.0..span.1]));
    } else {
      ContentOfRaw(ps, entry, next, "");
      CleanTextEmpty();
    }
  }

  /** As written, an entry's span runs through the first page of the next
      entry, so two consecutive entries share exactly that one page. */
  lemma AdjacentSpansShareOnePage(entry: OutlineEntry, next: OutlineEntry, after: Option<OutlineEntry>, pageCount: nat)
    requires 1 <= entry.page <= next.page <= pageCount
    ensures PageSpan(entry, Some(next), pageCount) == (entry.page - 1, next.page)
    ensures PageSpan(next, after, pageCount).0 == next.page - 1
    ensures PageSpan(entry, Some(next), pageCount).1 == PageSpan(next, after, pageCount).0 + 1
  {
  }

  /** The last entry's span runs to the final page. */
  lemma LastSpanReachesEnd(entry: OutlineEntry, pageCount: nat)
    ensures PageSpan(entry, None, pageCount) == (entry.page - 1, pageCount)
  {
  }

  /** The entry after position `i` of an outline, if any. */
  function NextEntry(entries: seq<OutlineEntry>, i: nat): Option<OutlineEntry> {
    if i + 1 < |entries| then Some(entries[i + 1]) else None
  }

  /** The inner loop of `extract_all_sections` (main.py:61-72) for one PDF. */
  function DocSections(file: PdfFile, entries: seq<OutlineEntry>): (r: seq<Section>)
    ensures |r| == |entries|
    ensures forall i :: 0 <= i < |r| ==>
      && r[i].document == file.name
      && r[i].page == entries[i].page
      && r[i].title == entries[i].text
      && r[i].level == Some(entries[i].level)
      && r[i].content == ExtractContent(file.pages, entries[i], NextEntry(entries, i))
  {
    seq(|entries|, i requires 0 <= i < |entries| =>
      Section(file.name, entries[i].page, entries[i].text, Some(entries[i].level),
              ExtractContent(file.pages, entries[i], NextEntry(entries, i))))
  }

  /** The sections one file contributes: its outline's sections, or none. */
  function FileSections(f: PdfFile, outlines: map<string, seq<OutlineEntry>>): (r: seq<Section>)
    ensures forall s :: s in r ==> s.document == f.name && f.name in outlines
  {
    if f.name in outlines then DocSections(f, outlines[f.name]) else []
  }

  /** `extract_all_sections` (main.py:53-73): the sections of every file that
      has an outline, file after file; files without one are skipped. */
  function ExtractAllSections(files: seq<PdfFile>, outlines: map<string, seq<OutlineEntry>>): (r: seq<Section>)
    ensures forall s :: s in r ==> s.document in outlines
  {
    if files == [] then []
    else FileSections(files[0], outlines) + ExtractAllSections(files[1..], outlines)
  }

  /** Appending a file appends its sections (or nothing, without an outline):
      the records come out in file order, then outline order. */
  lemma {:induction false} ExtractAllSectionsAppend(files: seq<PdfFile>, f: PdfFile, outlines: map<string, seq<OutlineEntry>>)
    ensures ExtractAllSections(files + [f], outlines)
      == ExtractAllSections(files, outlines)
         + (if f.name in outlines then DocSections(f, outlines[f.name]) else [])
    decreases |files|
  {
    if files == [] {
      assert [f][1..] == [];
    } else {
      var head := FileSections(files[0], outlines);
      assert ExtractAllSections(files + [f], outlines)
        == head + ExtractAllSections(files[1..] + [f], outlines) by {
        assert (files + [f])[0] == files[0];
        assert (files + [f])[1..] == files[1..] + [f];
      }
      ExtractAllSectionsAppend(files[1..], f, outlines);
      AppendAssociates(head, ExtractAllSections(files[1..], outlines), FileSections(f, outlines));
    }
  }

  /** No file with an outline, no sections. */
  lemma {:induction false} NoOutlinesNoSections(files: seq<PdfFile>, outlines: map<string, seq<OutlineEntry>>)
    requires forall f :: f in files ==> f.name !in outlines
    ensures ExtractAllSections(files, outlines) == []
    decreases |files|
  {
    if files != [] {
      NoOutlinesNoSections(files[1..], outlines);
    }
  }
}
