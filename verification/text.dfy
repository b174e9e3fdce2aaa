/** Character classes and string normalisation used by the analyzer:
    `str.isspace`, `str.lower`, `str.split()`, slicing, substring search and
    `clean_text` (main.py:49-51). */
module Text {

  /** The characters Python's `str.isspace()` accepts; `\s` in a str regex
      matches the same set. */
  predicate IsSpace(c: char) {
    || c == ' '
    || ('\t' <= c <= '\r')
    || ('\U{1C}' <= c <= '\U{1F}')
    || c == '\U{85}' || c == '\U{A0}' || c == '\U{1680}'
    || ('\U{2000}' <= c <= '\U{200A}')
    || c == '\U{2028}' || c == '\U{2029}' || c == '\U{202F}'
    || c == '\U{205F}' || c == '\U{3000}'
  }

  /** Case folding, restricted to ASCII letters. */
  function Lower(c: char): char {
    if 'A' <= c <= 'Z' then (c as int + 32) as char else c
  }

  /** `s.lower()`, character by character. */
  function LowerStr(s: string): string {
    seq(|s|, i requires 0 <= i < |s| => Lower(s[i]))
  }

  /** `s[:n]`. */
  function Take<T>(s: seq<T>, n: nat): (r: seq<T>)
    ensures |r| <= n && r <= s
    ensures |s| <= n ==> r == s
    ensures |s| > n ==> |r| == n
  {
    if |s| <= n then s else s[..n]
  }

  /** Python's `w in s` on strings: `w` occurs somewhere in `s`. */
  predicate Contains(s: string, w: string)
    decreases |s|
  {
    w <= s || (|s| > 0 && Contains(s[1..], w))
  }

  /** The substring reading of `Contains`: some position of `s` starts with `w`. */
  lemma {:induction false} ContainsAt(s: string, w: string)
    ensures Contains(s, w) <==> exists p :: 0 <= p <= |s| && w <= s[p..]
    decreases |s|
  {
    assert s[0..] == s;
    if |s| > 0 {
      ContainsAt(s[1..], w);
      if Contains(s, w) && !(w <= s) {
        var p :| 0 <= p <= |s[1..]| && w <= s[1..][p..];
        assert s[1..][p..] == s[p + 1..];
      }
      if exists p :: 0 <= p <= |s| && w <= s[p..] {
        var p :| 0 <= p <= |s| && w <= s[p..];
        if p > 0 {
          assert s[1..][p - 1..] == s[p..];
        }
      }
    }
  }

  /** Whatever occurs in a prefix of `t` occurs in `t`. */
  lemma {:induction false} ContainsInExtension(s: string, t: string, w: string)
    requires s <= t
    requires Contains(s, w)
    ensures Contains(t, w)
    decreases |s|
  {
    if !(w <= s) {
      assert t[1..][..|s| - 1] == s[1..];
      ContainsInExtension(s[1..], t[1..], w);
    }
  }

  /** `s.lstrip()`: drops the leading whitespace run. */
  function SkipSpace(s: string): (r: string)
    ensures |r| <= |s| && r == s[|s| - |r|..]
    ensures |s| > 0 && IsSpace(s[0]) ==> |r| < |s|
    ensures r != [] ==> !IsSpace(r[0])
    ensures (s == [] || !IsSpace(s[0])) ==> r == s
    ensures forall i :: 0 <= i < |s| - |r| ==> IsSpace(s[i])
    decreases |s|
  {
    if |s| > 0 && IsSpace(s[0]) then
      var r := SkipSpace(s[1..]);
      assert s[1..][|s| - 1 - |r|..] == s[|s| - |r|..];
      assert forall i :: 1 <= i < |s| - |r| ==> s[i] == s[1..][i - 1];
      r
    else s
  }

  /** The maximal run of non-whitespace characters that starts `s`. */
  function LeadingWord(s: string): (r: string)
    ensures r <= s
    ensures s != [] && !IsSpace(s[0]) ==> |r| > 0
    ensures forall i :: 0 <= i < |r| ==> !IsSpace(r[i])
    ensures |r| < |s| ==> IsSpace(s[|r|])
    decreases |s|
  {
    if |s| > 0 && !IsSpace(s[0]) then [s[0]] + LeadingWord(s[1..]) else []
  }

  /** `s.split()` with no separator: the maximal non-whitespace runs, in order. */
  function Words(s: string): (ws: seq<string>)
    ensures ws == [] <==> SkipSpace(s) == []
    decreases |s|
  {
    var t := SkipSpace(s);
    if t == [] then []
    else
      var w := LeadingWord(t);
      [w] + Words(t[|w|..])
  }

  /** `set(s.split())`. */
  function WordSet(s: string): set<string> {
    set w | w in Words(s)
  }

  /** A word of `str.split()`: non-empty and free of whitespace. */
  predicate IsWord(w: string) {
    |w| > 0 && forall i :: 0 <= i < |w| ==> !IsSpace(w[i])
  }

  /** One step of `split()`: the leading word of the string with its leading
      whitespace dropped, then the words of what follows that word. */
  lemma WordsStep(s: string)
    requires SkipSpace(s) != []
    ensures Words(s) == [LeadingWord(SkipSpace(s))] + Words(SkipSpace(s)[|LeadingWord(SkipSpace(s))|..])
  {
  }

  lemma {:induction false} WordsAreWords(s: string)
    ensures forall w :: w in Words(s) ==> IsWord(w)
    decreases |s|
  {
    var t := SkipSpace(s);
    if t != [] {
      var w := LeadingWord(t);
      WordsAreWords(t[|w|..]);
      WordsStep(s);
      assert IsWord(w);
    }
  }

  /** Whatever occurs in a suffix of `s` occurs in `s`. */
  lemma {:induction false} ContainsInSuffix(s: string, k: nat, w: string)
    requires k <= |s|
    requires Contains(s[k..], w)
    ensures Contains(s, w)
    decreases k
  {
    if k == 0 {
      assert s[k..] == s;
    } else {
      assert s[1..][k - 1..] == s[k..];
      ContainsInSuffix(s[1..], k - 1, w);
    }
  }

  /** Every token `split()` returns occurs in the string it came from. */
  lemma {:induction false} WordsOccurIn(s: string, w: string)
    requires w in Words(s)
    ensures Contains(s, w)
    decreases |s|
  {
    var t := SkipSpace(s);
    assert t != [];
    var lw := LeadingWord(t);
    var rest := t[|lw|..];
    assert |rest| < |s|;
    assert w == lw || w in Words(rest) by {
      WordsStep(s);
    }
    assert Contains(t, w) by {
      if w == lw {
        assert lw <= t;
      } else {
        WordsOccurIn(rest, w);
        ContainsInSuffix(t, |lw|, w);
      }
    }
    ContainsInSuffix(s, |s| - |t|, w);
  }

  /** `re.sub(r'\s+', ' ', s)`: every whitespace run becomes one space. */
  function Collapse(s: string): string
    decreases |s|
  {
    if s == [] then []
    else if IsSpace(s[0]) then " " + Collapse(SkipSpace(s))
    else var w := LeadingWord(s); w + Collapse(s[|w|..])
  }

  /** `s.rstrip()`. */
  function StripTrailing(s: string): (r: string)
    ensures r <= s
    ensures r != [] ==> !IsSpace(r[|r| - 1])
    decreases |s|
  {
    if |s| > 0 && IsSpace(s[|s| - 1]) then StripTrailing(s[..|s| - 1]) else s
  }

  /** `s.strip()`. */
  function Strip(s: string): string {
    StripTrailing(SkipSpace(s))
  }

  /** `clean_text` (main.py:49-51): collapse whitespace runs, then strip. */
  function CleanText(s: string): string {
    Strip(Collapse(s))
  }

  lemma CleanTextEmpty()
    ensures CleanText("") == ""
  {
  }

  /** `s.split('\n')[0]`: everything before the first newline. */
  function FirstLine(s: string): (r: string)
    ensures r <= s
    ensures forall i :: 0 <= i < |r| ==> r[i] != '\n'
    ensures |r| < |s| ==> s[|r|] == '\n'
    decreases |s|
  {
    if |s| > 0 && s[0] != '\n' then [s[0]] + FirstLine(s[1..]) else []
  }

  /** `' '.join(ws)`. */
  function JoinWords(ws: seq<string>): string {
    if ws == [] then "" else ws[0] + SpacePrefixed(ws[1..])
  }

  /** Each word preceded by one space, concatenated. */
  function SpacePrefixed(ws: seq<string>): string {
    if ws == [] then "" else " " + ws[0] + SpacePrefixed(ws[1..])
  }

  // ---------------------------------------------------------------------
  // clean_text is `' '.join(s.split())`

  lemma {:induction false} StripTrailingAfterWord(a: string, b: string)
    requires a != [] && !IsSpace(a[|a| - 1])
    ensures StripTrailing(a + b) == a + StripTrailing(b)
    decreases |b|
  {
    if |b| > 0 && IsSpace(b[|b| - 1]) {
      assert (a + b)[..|a + b| - 1] == a + b[..|b| - 1];
      StripTrailingAfterWord(a, b[..|b| - 1]);
    } else if b == [] {
      assert a + b == a;
    }
  }

  /** Collapsing a whitespace run followed by a word gives one space, the
      word, and the collapse of what follows the word. */
  lemma CollapseSpaceThenWord(r: string)
    requires r != [] && IsSpace(r[0]) && SkipSpace(r) != []
    ensures var t := SkipSpace(r); var w := LeadingWord(t);
      Collapse(r) == (" " + w) + Collapse(t[|w|..])
  {
    var t := SkipSpace(r);
    var w := LeadingWord(t);
    CollapseAtSpace(r);
    CollapseAtWord(t);
    AppendAssociates(" ", w, Collapse(t[|w|..]));
  }

  lemma CollapseAtSpace(r: string)
    requires r != [] && IsSpace(r[0])
    ensures Collapse(r) == " " + Collapse(SkipSpace(r))
  {
  }

  lemma CollapseAtWord(t: string)
    requires t != [] && !IsSpace(t[0])
    ensures Collapse(t) == LeadingWord(t) + Collapse(t[|LeadingWord(t)|..])
  {
  }

  lemma SpacePrefixedCons(w: string, ws: seq<string>)
    ensures SpacePrefixed([w] + ws) == (" " + w) + SpacePrefixed(ws)
  {
    assert ([w] + ws)[1..] == ws;
  }

  /** After a whitespace run (or at the end), collapsing and right-stripping
      leaves each remaining word behind one space. */
  lemma {:induction false} CollapseTail(r: string)
    requires r == [] || IsSpace(r[0])
    ensures StripTrailing(Collapse(r)) == SpacePrefixed(Words(r))
    decreases |r|
  {
    if r != [] {
      var t := SkipSpace(r);
      if t == [] {
        assert Collapse(r) == " ";
        assert StripTrailing(" ") == StripTrailing(" "[..0]);
      } else {
        var w := LeadingWord(t);
        var r' := t[|w|..];
        CollapseSpaceThenWord(r);
        StripTrailingAfterWord(" " + w, Collapse(r'));
        CollapseTail(r');
        WordsStep(r);
        SpacePrefixedCons(w, Words(r'));
      }
    }
  }

  /** `clean_text(s) == ' '.join(s.split())`: the regex rewrite followed by
      `strip` keeps exactly the words of `s`, separated by single spaces. */
  lemma {:induction false} CleanTextJoinsWords(s: string)
    ensures CleanText(s) == JoinWords(Words(s))
  {
    var t := SkipSpace(s);
    if s != [] && IsSpace(s[0]) {
      assert Collapse(s) == " " + Collapse(t);
    }
    if t == [] {
      assert SkipSpace(Collapse(s)) == [];
    } else {
      var w := LeadingWord(t);
      var r' := t[|w|..];
      assert SkipSpace(Collapse(s)) == Collapse(t);
      StripTrailingAfterWord(w, Collapse(r'));
      CollapseTail(r');
    }
  }

  // ---------------------------------------------------------------------
  // The shape of normalised text

  /** Positions `i` and `i + 1` of `t` both hold whitespace. */
  predicate DoubleSpaceAt(t: string, i: int)
    requires 0 <= i < |t| - 1
  {
    IsSpace(t[i]) && IsSpace(t[i + 1])
  }

  /** Every whitespace character of `t` is a plain space standing alone. */
  predicate LoneSpaces(t: string) {
    && (forall i :: 0 <= i < |t| && IsSpace(t[i]) ==> t[i] == ' ')
    && (forall i :: 0 <= i < |t| - 1 ==> !DoubleSpaceAt(t, i))
  }

  /** Text as `clean_text` leaves it: no whitespace at either end, and every
      whitespace character a lone plain space. */
  predicate Normalized(t: string) {
    && (t != [] ==> !IsSpace(t[0]) && !IsSpace(t[|t| - 1]))
    && LoneSpaces(t)
  }

  /** A word has no whitespace at all. */
  lemma WordLoneSpaces(w: string)
    requires IsWord(w)
    ensures LoneSpaces(w)
  {
  }

  /** Gluing two texts with lone spaces keeps them lone, unless a space ends
      the first and another starts the second. */
  lemma LoneSpacesAppend(a: string, b: string)
    requires LoneSpaces(a) && LoneSpaces(b)
    requires a != [] && b != [] ==> !(IsSpace(a[|a| - 1]) && IsSpace(b[0]))
    ensures LoneSpaces(a + b)
  {
    var j := a + b;
    forall i | 0 <= i < |j| - 1
      ensures !DoubleSpaceAt(j, i)
    {
      if i >= |a| {
        assert j[i] == b[i - |a|] && j[i + 1] == b[i + 1 - |a|];
        assert !DoubleSpaceAt(b, i - |a|);
      } else if i + 1 < |a| {
        assert j[i] == a[i] && j[i + 1] == a[i + 1];
        assert !DoubleSpaceAt(a, i);
      } else {
        assert j[i] == a[|a| - 1] && j[i + 1] == b[0];
      }
    }
    forall i | 0 <= i < |j|
      ensures IsSpace(j[i]) ==> j[i] == ' '
    {
      if i >= |a| {
        assert j[i] == b[i - |a|];
      } else {
        assert j[i] == a[i];
      }
    }
  }

  lemma {:induction false} SpacePrefixedShape(ws: seq<string>)
    requires forall w :: w in ws ==> IsWord(w)
    ensures ws != [] ==> |SpacePrefixed(ws)| > 1 && SpacePrefixed(ws)[0] == ' ' && !IsSpace(SpacePrefixed(ws)[1])
    ensures ws != [] ==> !IsSpace(SpacePrefixed(ws)[|SpacePrefixed(ws)| - 1])
    ensures LoneSpaces(SpacePrefixed(ws))
  {
    if ws != [] {
      SpacePrefixedShape(ws[1..]);
      var w := ws[0];
      var tail := SpacePrefixed(ws[1..]);
      assert IsWord(w);
      WordLoneSpaces(w);
      LoneSpacesAppend(w, tail);
      var wt := w + tail;
      assert wt[0] == w[0];
      assert wt[|wt| - 1] == if tail == [] then w[|w| - 1] else tail[|tail| - 1];
      LoneSpacesAppend(" ", wt);
      AppendAssociates(" ", w, tail);
      assert SpacePrefixed(ws) == " " + wt;
    }
  }

  lemma {:induction false} JoinWordsNormalized(ws: seq<string>)
    requires forall w :: w in ws ==> IsWord(w)
    ensures Normalized(JoinWords(ws))
  {
    if ws != [] {
      var w := ws[0];
      var tail := SpacePrefixed(ws[1..]);
      SpacePrefixedShape(ws[1..]);
      assert IsWord(w);
      WordLoneSpaces(w);
      LoneSpacesAppend(w, tail);
      var j := w + tail;
      assert JoinWords(ws) == j;
      assert j[0] == w[0];
      assert j[|j| - 1] == if tail == [] then w[|w| - 1] else tail[|tail| - 1];
    }
  }

  /** `clean_text` output has no whitespace at either end and no two
      adjacent whitespace characters (each one is a plain space). */
  lemma CleanTextNormalized(s: string)
    ensures Normalized(CleanText(s))
  {
    CleanTextJoinsWords(s);
    WordsAreWords(s);
    JoinWordsNormalized(Words(s));
  }

  /** Lone spaces stay lone in every suffix. */
  lemma NormalRunsSuffix(t: string, k: nat)
    requires k <= |t|
    requires LoneSpaces(t)
    ensures LoneSpaces(t[k..])
  {
    var u := t[k..];
    forall i | 0 <= i < |u|
      ensures IsSpace(u[i]) ==> u[i] == ' '
      ensures i < |u| - 1 ==> !DoubleSpaceAt(u, i)
    {
      assert u[i] == t[k + i];
      if i < |u| - 1 {
        assert u[i + 1] == t[k + i + 1];
        assert !DoubleSpaceAt(t, k + i);
      }
    }
  }

  /** A lone whitespace character is all `SkipSpace` drops. */
  lemma SkipLoneSpace(t: string)
    requires |t| > 0 && IsSpace(t[0])
    requires |t| > 1 ==> !IsSpace(t[1])
    ensures SkipSpace(t) == t[1..]
  {
  }

  /** A leading lone space is kept by `Collapse` when the rest is. */
  lemma CollapseSpaceStep(t: string)
    requires LoneSpaces(t) && t != [] && IsSpace(t[0])
    requires Collapse(t[1..]) == t[1..]
    ensures Collapse(t) == t
  {
    assert t[0] == ' ';
    assert |t| > 1 ==> !IsSpace(t[1]) by {
      if |t| > 1 {
        assert !DoubleSpaceAt(t, 0);
      }
    }
    SkipLoneSpace(t);
    CollapseAtSpace(t);
    PrefixThenRest(" ", t);
  }

  /** A leading word is kept by `Collapse` when the rest is. */
  lemma CollapseWordStep(t: string)
    requires t != [] && !IsSpace(t[0])
    requires Collapse(t[|LeadingWord(t)|..]) == t[|LeadingWord(t)|..]
    ensures Collapse(t) == t
  {
    var w := LeadingWord(t);
    CollapseAtWord(t);
    PrefixThenRest(w, t);
  }

  lemma AppendAssociates<T>(a: seq<T>, b: seq<T>, c: seq<T>)
    ensures a + (b + c) == (a + b) + c
  {
  }

  lemma PrefixThenRest<T>(p: seq<T>, s: seq<T>)
    requires p <= s
    ensures p + s[|p|..] == s
  {
    assert s == s[..|p|] + s[|p|..];
  }

  lemma {:induction false} CollapseFixesNormalizedRuns(t: string)
    requires LoneSpaces(t)
    ensures Collapse(t) == t
    decreases |t|
  {
    if t != [] {
      if IsSpace(t[0]) {
        NormalRunsSuffix(t, 1);
        CollapseFixesNormalizedRuns(t[1..]);
        CollapseSpaceStep(t);
      } else {
        var k := |LeadingWord(t)|;
        NormalRunsSuffix(t, k);
        CollapseFixesNormalizedRuns(t[k..]);
        CollapseWordStep(t);
      }
    }
  }

  /** `clean_text` is idempotent: normalised text is its own clean form. */
  lemma CleanTextIdempotent(s: string)
    ensures CleanText(CleanText(s)) == CleanText(s)
  {
    var t := CleanText(s);
    CleanTextNormalized(s);
    CollapseFixesNormalizedRuns(t);
    assert SkipSpace(t) == t;
    if t != [] {
      assert !IsSpace(t[|t| - 1]);
    }
  }
}
