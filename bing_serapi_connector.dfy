/**
 * The SerpApi Bing connector's `search`, with the HTTP call replaced by its
 * `organic_results` list: argument checks, numbering of the first
 * `num_results` results from 1, removal of `[n]` citation markers from each
 * snippet, and assembly of the answer text with fresh markers.
 */
module BingSerApiConnector {
  import opened Wrappers
  import opened Text
  import opened Models

  /** One entry of the search engine's `organic_results`. */
  datatype OrganicItem = OrganicItem(title: string, link: string, snippet: string)

  /** `ServiceInvalidRequestError` with its message. */
  datatype SearchError = ServiceInvalidRequestError(message: string)

  const EmptyQueryMessage := "query cannot be 'None' or empty."
  const NotPositiveMessage := "num_results value must be greater than 0."
  const TooLargeMessage := "num_results value must be less than 50."

  function Min(a: int, b: int): int {
    if a <= b then a else b
  }

  /** The number of consecutive digits in `s` from position `i`. */
  function DigitRun(s: string, i: nat): (n: nat)
    requires i <= |s|
    ensures i + n <= |s|
    ensures forall k :: i <= k < i + n ==> IsDigit(s[k])
    ensures i + n < |s| ==> !IsDigit(s[i + n])
    decreases |s| - i
  {
    if i < |s| && IsDigit(s[i]) then 1 + DigitRun(s, i + 1) else 0
  }

  /** The number of consecutive whitespace characters in `s` from position `i`. */
  function SpaceRun(s: string, i: nat): (n: nat)
    requires i <= |s|
    ensures i + n <= |s|
    ensures forall k :: i <= k < i + n ==> IsSpace(s[k])
    ensures i + n < |s| ==> !IsSpace(s[i + n])
    decreases |s| - i
  {
    if i < |s| && IsSpace(s[i]) then 1 + SpaceRun(s, i + 1) else 0
  }

  /**
   * The length of the match of the pattern `\[\d+\](\s*\.)?` at the start of
   * `s`, or 0 when it does not match there. `\d+` is greedy and must be
   * followed by `]`; the optional group is taken when whitespace and then a
   * dot follow.
   */
  function MarkerLength(s: string): (n: nat)
    ensures n <= |s|
    ensures n > 0 ==> n >= 3 && s[0] == '['
  {
    if |s| == 0 || s[0] != '[' then 0
    else
      var d := DigitRun(s, 1);
      var e := 1 + d;
      if d == 0 || e >= |s| || s[e] != ']' then 0
      else
        var w := SpaceRun(s, e + 1);
        if e + 1 + w < |s| && s[e + 1 + w] == '.' then e + 2 + w else e + 1
  }

  /**
   * The first `n` characters of `s` are a whole match of `\[\d+\](\s*\.)?`
   * whose `]` is at position `e`: `[`, one or more digits, `]`, and then
   * either nothing more or whitespace followed by one dot.
   */
  predicate MatchAt(s: string, n: int, e: int) {
    && 2 <= e < n <= |s|
    && s[0] == '[' && s[e] == ']'
    && (forall k :: 1 <= k < e ==> IsDigit(s[k]))
    && (n == e + 1 || (s[n - 1] == '.' && forall k :: e < k < n - 1 ==> IsSpace(s[k])))
  }

  /**
   * `MarkerLength` is the regular expression's greedy match at the start:
   * a positive length is a match, and no match is longer; so 0 means that
   * nothing matches there.
   */
  lemma MarkerLengthIsLongestMatch(s: string)
    ensures MarkerLength(s) > 0 ==> exists e :: MatchAt(s, MarkerLength(s), e)
    ensures forall n, e :: MatchAt(s, n, e) ==> n <= MarkerLength(s)
  {
    if MarkerLength(s) > 0 {
      assert MatchAt(s, MarkerLength(s), 1 + DigitRun(s, 1));
    }
    forall n, e | MatchAt(s, n, e) ensures n <= MarkerLength(s) {
      MatchCloses(s, n, e);
      var w := SpaceRun(s, e + 1);
      if n > e + 1 {
        DotAfterSpaces(s, n, e, w);
      }
    }
  }

  /** In a match the `]` closes the digit run that starts at position 1. */
  lemma MatchCloses(s: string, n: int, e: int)
    requires MatchAt(s, n, e)
    ensures e == 1 + DigitRun(s, 1)
  {
    var d := DigitRun(s, 1);
    assert !IsDigit(s[e]);
    assert 1 + d < |s| ==> !IsDigit(s[1 + d]);
  }

  /** In a match with a dot, the dot is the first character after the whitespace run behind `]`. */
  lemma DotAfterSpaces(s: string, n: int, e: int, w: nat)
    requires MatchAt(s, n, e) && n > e + 1
    requires e + 1 <= |s| && w == SpaceRun(s, e + 1)
    ensures n == e + 2 + w
  {
    assert !IsSpace(s[n - 1]);
    assert e + 1 + w < |s| ==> !IsSpace(s[e + 1 + w]);
  }

  /** Text without `[` in front of the rest is kept as it is; only the rest is scanned. */
  lemma {:induction false} RemoveMarkersKeepsPlainText(a: string, b: string)
    requires '[' !in a
    ensures RemoveMarkers(a + b) == a + RemoveMarkers(b)
  {
    if a == [] {
      assert a + b == b;
    } else {
      var s := a + b;
      assert s[0] == a[0] && MarkerLength(s) == 0;
      assert s[1..] == a[1..] + b;
      RemoveMarkersKeepsPlainText(a[1..], b);
    }
  }

  /** A citation marker matches at position `i` of `s`. */
  predicate MarkerAt(s: string, i: nat)
    requires i <= |s|
  {
    MarkerLength(s[i..]) > 0
  }

  ghost predicate ContainsMarker(s: string) {
    exists i :: 0 <= i < |s| && MarkerAt(s, i)
  }

  /**
   * `re.sub(pattern, "", s)`: scan left to right, delete each match and resume
   * after it; characters where no match starts are kept. The result only holds
   * characters of `s`.
   */
  function RemoveMarkers(s: string): (r: string)
    ensures |r| <= |s|
    ensures forall c :: c in r ==> c in s
    decreases |s|
  {
    if s == [] then []
    else
      var n := MarkerLength(s);
      if n > 0 then
        var r := RemoveMarkers(s[n..]);
        assert forall c :: c in s[n..] ==> c in s;
        r
      else
        var r := [s[0]] + RemoveMarkers(s[1..]);
        assert forall c :: c in s[1..] ==> c in s;
        r
  }

  /** `__clean_snippet`: delete the citation markers, then strip whitespace from both ends. */
  function CleanSnippet(snippet: string): (r: string)
    ensures Stripped(r)
    ensures |r| <= |snippet|
    ensures forall c :: c in r ==> c in snippet
  {
    var removed := RemoveMarkers(snippet);
    var r := Strip(removed);
    forall c | c in r ensures c in snippet {
      StripChars(removed, c);
    }
    r
  }

  /** A snippet without `[` has no marker to delete: cleaning only strips it. */
  lemma {:induction false} RemoveMarkersWithoutBracket(s: string)
    requires '[' !in s
    ensures RemoveMarkers(s) == s
  {
    if s != [] {
      RemoveMarkersWithoutBracket(s[1..]);
    }
  }

  lemma CleanSnippetWithoutBracket(s: string)
    requires '[' !in s
    ensures CleanSnippet(s) == Strip(s)
  {
    RemoveMarkersWithoutBracket(s);
  }

  /** Every `[` of `s` opens a citation marker. */
  predicate EveryBracketCites(s: string) {
    forall i :: 0 <= i < |s| && s[i] == '[' ==> MarkerAt(s, i)
  }

  lemma {:induction false} RemoveMarkersEveryBracketCites(s: string)
    requires EveryBracketCites(s)
    ensures '[' !in RemoveMarkers(s)
    decreases |s|
  {
    if s != [] {
      var n := MarkerLength(s);
      var m := if n > 0 then n else 1;
      var t := s[m..];
      forall i | 0 <= i < |t| && t[i] == '[' ensures MarkerAt(t, i) {
        assert s[m + i] == '[';
        assert MarkerAt(s, m + i);
        assert s[m + i..] == t[i..];
      }
      RemoveMarkersEveryBracketCites(t);
    }
  }

  /**
   * When every `[` of a snippet opens a marker, cleaning leaves no marker at
   * all, and cleaning again changes nothing.
   */
  lemma CleanSnippetEveryBracketCites(s: string)
    requires EveryBracketCites(s)
    ensures !ContainsMarker(CleanSnippet(s))
    ensures CleanSnippet(CleanSnippet(s)) == CleanSnippet(s)
  {
    RemoveMarkersEveryBracketCites(s);
    var r := CleanSnippet(s);
    assert '[' !in r by {
      if '[' in r {
        StripChars(RemoveMarkers(s), '[');
      }
    }
    forall i | 0 <= i < |r| ensures !MarkerAt(r, i) {
      assert r[i..][0] == r[i];
    }
    CleanSnippetWithoutBracket(r);
    StripIdempotent(RemoveMarkers(s));
  }

  /**
   * In general the single substitution pass can join text into a new marker:
   * "[[1]1]" cleans to "[1]", which still holds a marker and cleans to "".
   * So cleaning is neither marker-free nor idempotent on every snippet.
   */
  lemma CleanSnippetCanLeaveMarker()
    ensures CleanSnippet("[[1]1]") == "[1]"
    ensures ContainsMarker("[1]")
    ensures CleanSnippet("[1]") == ""
  {
    NestedMarkerRemoval();
    SingleMarker();
    StripStripped("[1]");
    assert MarkerAt("[1]", 0) by {
      assert "[1]"[0..] == "[1]";
    }
  }

  /** The single pass over `[[1]1]` deletes only the inner `[1]`. */
  lemma NestedMarkerRemoval()
    ensures RemoveMarkers("[[1]1]") == "[1]"
  {
    var s := "[[1]1]";
    assert MarkerLength(s) == 0 by {
      assert DigitRun(s, 1) == 0;
    }
    var t := s[1..];
    assert t == "[1]1]";
    assert DigitRun(t, 1) == 1 by {
      assert DigitRun(t, 2) == 0;
    }
    assert MarkerLength(t) == 3 by {
      assert SpaceRun(t, 3) == 0;
    }
    var u := t[3..];
    assert u == "1]";
    assert RemoveMarkers(u) == "1]" by {
      RemoveMarkersWithoutBracket(u);
    }
    assert RemoveMarkers(t) == "1]";
  }

  /** `[1]` is one whole marker. */
  lemma SingleMarker()
    ensures MarkerLength("[1]") == 3
    ensures RemoveMarkers("[1]") == ""
  {
    var m := "[1]";
    assert DigitRun(m, 1) == 1 by {
      assert DigitRun(m, 2) == 0;
    }
    assert MarkerLength(m) == 3 by {
      assert SpaceRun(m, 3) == 0;
    }
    assert m[3..] == [];
  }

  /** Python's `enumerate(items, start=start)`, each pair made into a reference. */
  function Enumerate(items: seq<OrganicItem>, start: int): (refs: seq<WebSearchResultRef>)
    ensures |refs| == |items|
    ensures forall k :: 0 <= k < |refs| ==>
      refs[k] == WebSearchResultRef(start + k, items[k].title, items[k].link, items[k].snippet)
  {
    if items == [] then []
    else [WebSearchResultRef(start, items[0].title, items[0].link, items[0].snippet)] + Enumerate(items[1..], start + 1)
  }

  /** The citation marker `[no]` for reference number `no`. */
  function Marker(no: int): string {
    "[" + IntToString(no) + "]"
  }

  /** The text contributed by one reference: its cleaned snippet and a fresh `[no]` marker. */
  function Citation(ref: WebSearchResultRef): string {
    CleanSnippet(ref.snippet) + Marker(ref.no)
  }

  function Citations(refs: seq<WebSearchResultRef>): (cs: seq<string>)
    ensures |cs| == |refs| && forall k :: 0 <= k < |refs| ==> cs[k] == Citation(refs[k])
  {
    if refs == [] then [] else [Citation(refs[0])] + Citations(refs[1..])
  }

  /**
   * The answer: the citations joined with single spaces. It is empty exactly
   * when there are no references, and every reference's citation occurs in it.
   */
  function Answer(refs: seq<WebSearchResultRef>): (a: string)
    ensures a == "" <==> refs == []
    ensures forall k :: 0 <= k < |refs| ==> Occurs(Citation(refs[k]), a)
  {
    var cs := Citations(refs);
    JoinContainsAll(cs, " ");
    assert refs != [] ==> |Join(cs, " ")| >= |cs[0]| >= |Marker(refs[0].no)| > 0;
    Join(cs, " ")
  }

  /**
   * `search` with the engine's organic results given as input (`None` when the
   * response has no `organic_results`): the query must be non-empty and
   * `num_results` in 1..49; then the first `num_results` results become
   * references numbered from 1, copied unchanged, and the answer is built from
   * them.
   */
  function Search(query: string, numResults: int, organicResults: Option<seq<OrganicItem>>): (r: Result<WebSearchResult, SearchError>)
    ensures query == "" ==> r == Failure(ServiceInvalidRequestError(EmptyQueryMessage))
    ensures query != "" && numResults <= 0 ==> r == Failure(ServiceInvalidRequestError(NotPositiveMessage))
    ensures query != "" && numResults >= 50 ==> r == Failure(ServiceInvalidRequestError(TooLargeMessage))
    ensures r.Success? <==> query != "" && 1 <= numResults <= 49
    ensures r.Success? ==>
      var items := organicResults.GetOr([]);
      var refs := r.value.organicResult.references;
      && refs.Some?
      && |refs.value| == Min(numResults, |items|)
      && (forall k :: 0 <= k < |refs.value| ==>
            refs.value[k] == WebSearchResultRef(k + 1, items[k].title, items[k].link, items[k].snippet))
      && r.value.organicResult.answer == Answer(refs.value)
  {
    if query == "" then Failure(ServiceInvalidRequestError(EmptyQueryMessage))
    else if numResults <= 0 then Failure(ServiceInvalidRequestError(NotPositiveMessage))
    else if numResults >= 50 then Failure(ServiceInvalidRequestError(TooLargeMessage))
    else
      var items := organicResults.GetOr([]);
      var references := Enumerate(items[..Min(numResults, |items|)], 1);
      var answer := Answer(references);
      Success(WebSearchResult(OrganicResult(answer, Some(references))))
  }

  /** With no references the answer is empty. */
  lemma AnswerWithoutReferences()
    ensures Answer([]) == ""
  {
  }

  /** The marker of each reference whose number is `k + 1` occurs in the answer. */
  lemma AnswerCites(refs: seq<WebSearchResultRef>, k: nat)
    requires k < |refs| && refs[k].no == k + 1
    ensures Occurs(Marker(k + 1), Answer(refs))
  {
    var cs := Citations(refs);
    JoinContains(cs, " ", k);
    OccursSuffix(Marker(k + 1), CleanSnippet(refs[k].snippet), Answer(refs));
  }

  /** Every reference's marker `[k]`, k = 1 .. number of references, occurs in the answer of a search. */
  lemma AnswerCitesEveryReference(query: string, numResults: int, organicResults: Option<seq<OrganicItem>>, k: nat)
    requires Search(query, numResults, organicResults).Success?
    requires k < |Search(query, numResults, organicResults).value.organicResult.references.value|
    ensures Occurs(Marker(k + 1), Search(query, numResults, organicResults).value.organicResult.answer)
  {
    var result := Search(query, numResults, organicResults).value.organicResult;
    AnswerCites(result.references.value, k);
  }
}
