/** The `extractHtml` helper of App.tsx: the first match of the case-insensitive
    pattern `<!DOCTYPE html>[\s\S]*?</html>|<html[\s\S]*?</html>`, written as an
    explicit search. `IsMatch` says which spans the pattern accepts at all;
    `Scan` is the search a backtracking regular-expression engine performs
    (leftmost start, first alternative first, lazy body); the lemmas tie the two
    together. */
module HtmlExtract {

  import opened Options
  import opened Text

  const DoctypeOpen := "<!DOCTYPE html>"
  const HtmlOpen := "<html"
  const HtmlClose := "</html>"

  /** A half-open span `[start, end)` of the scanned text. */
  datatype Span = Span(start: nat, end: nat)

  /** `t` is accepted by one alternative of the pattern: its opener, then any
      characters (newlines included), then the closer, with opener and closer not
      overlapping. */
  ghost predicate FitsAlternative(t: string, open: string)
  {
    |open| + |HtmlClose| <= |t| && StartsWithIgnoreCase(t, open) && EndsWithIgnoreCase(t, HtmlClose)
  }

  /** `t` is accepted by the whole pattern, ignoring laziness. */
  ghost predicate IsHtmlDocument(t: string)
  {
    FitsAlternative(t, DoctypeOpen) || FitsAlternative(t, HtmlOpen)
  }

  /** The span `[i, j)` of `s` is accepted by the pattern. */
  ghost predicate IsMatch(s: string, i: nat, j: nat)
  {
    i <= j <= |s| && IsHtmlDocument(s[i..j])
  }

  /** `IsMatch` restated on the indices of `s`, for one alternative. */
  ghost predicate FitsAt(s: string, i: nat, j: nat, open: string)
  {
    i + |open| + |HtmlClose| <= j <= |s| && OccursAt(s, i, open) && OccursAt(s, j - |HtmlClose|, HtmlClose)
  }

  /** Match `m` is preferred to every match starting at `a` and ending at `b`:
      it starts earlier, or starts there and is no longer. */
  ghost predicate Precedes(m: Span, a: nat, b: nat)
  {
    m.start < a || (m.start == a && m.end <= b)
  }

  lemma IsMatchIffFits(s: string, i: nat, j: nat)
    ensures IsMatch(s, i, j) <==> FitsAt(s, i, j, DoctypeOpen) || FitsAt(s, i, j, HtmlOpen)
  {
  }

  /** The two openers cannot both occur at one index: their second characters
      are '!' and 'h'. */
  lemma OpenersExclusive(s: string, i: nat)
    ensures !(OccursAt(s, i, DoctypeOpen) && OccursAt(s, i, HtmlOpen))
  {
    assert Fold(DoctypeOpen[1]) != Fold(HtmlOpen[1]);
  }

  /** The first occurrence of the closer at or after `from`. */
  function FindClose(s: string, from: nat): (r: Option<nat>)
    ensures r.Some? ==> from <= r.value && OccursAt(s, r.value, HtmlClose)
    ensures r.Some? ==> forall k :: from <= k < r.value ==> !OccursAt(s, k, HtmlClose)
    ensures r.None? ==> forall k :: from <= k ==> !OccursAt(s, k, HtmlClose)
    decreases |s| - from
  {
    if from + |HtmlClose| > |s| then None
    else if OccursAt(s, from, HtmlClose) then Some(from)
    else FindClose(s, from + 1)
  }

  /** One alternative tried at index `i`: the opener, then the lazy body, which
      stops at the first closer after the opener. Returns the end of the match. */
  function MatchAlternative(s: string, i: nat, open: string): Option<nat>
  {
    if OccursAt(s, i, open) then
      match FindClose(s, i + |open|)
      case Some(k) => Some(k + |HtmlClose|)
      case None => None
    else None
  }

  /** The pattern tried at index `i`: the DOCTYPE alternative first, then the
      `<html` alternative. */
  function MatchAt(s: string, i: nat): Option<nat>
  {
    var first := MatchAlternative(s, i, DoctypeOpen);
    if first.Some? then first else MatchAlternative(s, i, HtmlOpen)
  }

  lemma AlternativeIsShortest(s: string, i: nat, open: string)
    ensures MatchAlternative(s, i, open).None? ==> forall j: nat :: !FitsAt(s, i, j, open)
    ensures MatchAlternative(s, i, open).Some? ==>
      && FitsAt(s, i, MatchAlternative(s, i, open).value, open)
      && forall j: nat :: FitsAt(s, i, j, open) ==> MatchAlternative(s, i, open).value <= j
  {
  }

  /** The regular-expression engine at one start index: it fails exactly when
      no span starting there is accepted, and otherwise returns the end of the
      shortest accepted span. */
  lemma MatchAtIsShortest(s: string, i: nat)
    ensures MatchAt(s, i).None? <==> forall j: nat :: !IsMatch(s, i, j)
    ensures MatchAt(s, i).Some? ==>
      && IsMatch(s, i, MatchAt(s, i).value)
      && forall j: nat :: IsMatch(s, i, j) ==> MatchAt(s, i).value <= j
  {
    AlternativeIsShortest(s, i, DoctypeOpen);
    AlternativeIsShortest(s, i, HtmlOpen);
    OpenersExclusive(s, i);
    forall j: nat
      ensures IsMatch(s, i, j) <==> FitsAt(s, i, j, DoctypeOpen) || FitsAt(s, i, j, HtmlOpen)
    {
      IsMatchIffFits(s, i, j);
    }
    if MatchAt(s, i).Some? {
      IsMatchIffFits(s, i, MatchAt(s, i).value);
    }
  }

  /** The engine's scan over start indices `i`, `i + 1`, ..., `|s|`. */
  function Scan(s: string, i: nat): (r: Option<Span>)
    ensures r.None? ==> forall a: nat, b: nat :: IsMatch(s, a, b) ==> a < i
    ensures r.Some? ==> i <= r.value.start && IsMatch(s, r.value.start, r.value.end)
    ensures r.Some? ==> forall a: nat, b: nat :: IsMatch(s, a, b) && i <= a ==> Precedes(r.value, a, b)
    decreases |s| + 1 - i
  {
    if i > |s| then None
    else
      MatchAtIsShortest(s, i);
      match MatchAt(s, i)
      case Some(e) => Some(Span(i, e))
      case None => Scan(s, i + 1)
  }

  /** The span `text.match(...)` finds: absent exactly when nothing matches,
      otherwise a match that precedes every other match (leftmost, then
      shortest). */
  function FindHtml(s: string): (r: Option<Span>)
    ensures r.None? <==> forall a: nat, b: nat :: !IsMatch(s, a, b)
    ensures r.Some? ==> IsMatch(s, r.value.start, r.value.end)
    ensures r.Some? ==> forall a: nat, b: nat :: IsMatch(s, a, b) ==> Precedes(r.value, a, b)
  {
    Scan(s, 0)
  }

  /** `extractHtml`: the text of the first match, verbatim, or `null`. */
  function ExtractHtml(s: string): (r: Option<string>)
    ensures r.None? <==> forall a: nat, b: nat :: !IsMatch(s, a, b)
    ensures r.Some? ==> IsHtmlDocument(r.value)
    ensures r.Some? ==> FindHtml(s).Some? && r.value == s[FindHtml(s).value.start..FindHtml(s).value.end]
  {
    match FindHtml(s)
    case Some(m) => Some(s[m.start..m.end])
    case None => None
  }

  /** No closer starts inside an opener: the opener's second character is not
      '/' and none of its later characters is '<'. */
  lemma NoCloseInsideOpener(s: string, i: nat, open: string, k: nat)
    requires open == DoctypeOpen || open == HtmlOpen
    requires OccursAt(s, i, open)
    requires k < |open|
    ensures !OccursAt(s, i + k, HtmlClose)
  {
    assert Fold(s[i + k]) == Fold(open[k]) && Fold(s[i + 1]) == Fold(open[1]);
    if k == 0 {
      assert Fold(open[1]) != Fold(HtmlClose[1]);
    } else {
      assert open[k] != '<' by {
        if open == DoctypeOpen {
          assert DoctypeOpen[1..] == "!DOCTYPE html>";
        } else {
          assert HtmlOpen[1..] == "html";
        }
        assert open[k] == open[1..][k - 1];
      }
      FoldKeepsPunctuation(open[k], '<');
      assert Fold(open[k]) != Fold(HtmlClose[0]);
    }
  }

  /** In the shortest span one alternative accepts at a start index, the only
      closer is the one that ends it. */
  lemma CloseEndsShortestFit(s: string, a: nat, b: nat, open: string, k: nat)
    requires open == DoctypeOpen || open == HtmlOpen
    requires FitsAt(s, a, b, open)
    requires forall j: nat :: FitsAt(s, a, j, open) ==> b <= j
    requires a + k + |HtmlClose| <= b && OccursAt(s, a + k, HtmlClose)
    ensures k == b - a - |HtmlClose|
  {
    assert k >= |open| by {
      if k < |open| {
        NoCloseInsideOpener(s, a, open, k);
      }
    }
    assert FitsAt(s, a, a + k + |HtmlClose|, open);
  }

  /** Laziness: inside the extracted text the closer occurs only as its
      suffix. */
  lemma ExtractHtmlClosesOnce(s: string)
    ensures ExtractHtml(s).Some? ==>
      forall k: nat :: OccursAt(ExtractHtml(s).value, k, HtmlClose) ==> k == |ExtractHtml(s).value| - |HtmlClose|
  {
    if ExtractHtml(s).Some? {
      var m := FindHtml(s).value;
      var t := s[m.start..m.end];
      IsMatchIffFits(s, m.start, m.end);
      var open := if FitsAt(s, m.start, m.end, DoctypeOpen) then DoctypeOpen else HtmlOpen;
      forall j: nat | FitsAt(s, m.start, j, open)
        ensures m.end <= j
      {
        IsMatchIffFits(s, m.start, j);
      }
      forall k: nat | OccursAt(t, k, HtmlClose)
        ensures k == |t| - |HtmlClose|
      {
        OccursInSlice(s, m.start, m.end, k, HtmlClose);
        CloseEndsShortestFit(s, m.start, m.end, open, k);
      }
    }
  }

  /** A document whose only closer is its suffix is extracted whole. */
  lemma SingleCloseDocumentExtractsWhole(t: string)
    requires IsHtmlDocument(t)
    requires forall k: nat :: OccursAt(t, k, HtmlClose) ==> k == |t| - |HtmlClose|
    ensures ExtractHtml(t) == Some(t)
  {
    assert t[0..|t|] == t;
    assert IsMatch(t, 0, |t|);
    var r := FindHtml(t);
    assert r.Some?;
    var m := r.value;
    assert m.start == 0 && m.end <= |t|;
    IsMatchIffFits(t, 0, m.end);
    assert FitsAt(t, 0, m.end, DoctypeOpen) || FitsAt(t, 0, m.end, HtmlOpen);
    var close: nat := m.end - |HtmlClose|;
    assert OccursAt(t, close, HtmlClose);
    assert m.end == |t|;
  }

  /** The extracted text is its own extraction: running the extractor on its
      result gives that result back. */
  lemma ExtractHtmlFixpoint(s: string)
    ensures ExtractHtml(s).Some? ==> ExtractHtml(ExtractHtml(s).value) == ExtractHtml(s)
  {
    if ExtractHtml(s).Some? {
      ExtractHtmlClosesOnce(s);
      SingleCloseDocumentExtractsWhole(ExtractHtml(s).value);
    }
  }

}
