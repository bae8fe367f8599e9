/** components/MatchSelector.tsx: the fixture grid with its text filter, the
    manual-entry form and the date label on each card. The avatar colour and
    initials are the ones of TeamBadge. */
module MatchSelector {
  import opened Results
  import opened Text
  import opened Domain
  import opened Seqs
  import opened AppShell

  // The fixture filter

  /** The text a fixture is searched by: `${home} ${away} ${league}`. */
  function SearchText(m: Match): string {
    m.home + " " + m.away + " " + m.league
  }

  /** The filter callback: the lower-cased search text contains the
      lower-cased query. */
  function MatchesQuery(query: string): Match -> bool {
    (m: Match) => Contains(Lower(SearchText(m)), Lower(query))
  }

  /** `filteredMatches`: the fixtures the query matches, in their order. */
  function Filtered(matches: seq<Match>, query: string): (r: seq<Match>)
    ensures IsSubsequence(r, matches)
    ensures forall m :: m in r <==> m in matches && Contains(Lower(SearchText(m)), Lower(query))
    ensures forall m :: multiset(r)[m] == if Contains(Lower(SearchText(m)), Lower(query)) then multiset(matches)[m] else 0
  {
    FilterCounts(matches, MatchesQuery(query));
    Filter(matches, MatchesQuery(query))
  }

  /** The empty query keeps every fixture. */
  lemma EmptyQueryKeepsAll(matches: seq<Match>)
    ensures Filtered(matches, "") == matches
  {
    forall m | m in matches ensures MatchesQuery("")(m) {
      ContainsEmpty(Lower(SearchText(m)));
    }
    FilterKeepsAll(matches, MatchesQuery(""));
  }

  /** Filtering twice with the same query is filtering once. */
  lemma FilterTwiceIsOnce(matches: seq<Match>, query: string)
    ensures Filtered(Filtered(matches, query), query) == Filtered(matches, query)
  {
    FilterIdempotent(matches, MatchesQuery(query));
  }

  /** Typing more narrows the list: when q1 is a substring of q2, what q2
      keeps is a subsequence of what q1 keeps. */
  lemma LongerQueryNarrows(matches: seq<Match>, q1: string, q2: string)
    requires Contains(q2, q1)
    ensures IsSubsequence(Filtered(matches, q2), Filtered(matches, q1))
  {
    LowerPreservesContains(q2, q1);
    forall m | m in matches && MatchesQuery(q2)(m) ensures MatchesQuery(q1)(m) {
      ContainsTransitive(Lower(q1), Lower(q2), Lower(SearchText(m)));
    }
    FilterMonotone(matches, MatchesQuery(q2), MatchesQuery(q1));
  }

  /** The query is matched without regard to ASCII case, in both directions. */
  lemma QueryCaseBlind(m: Match, q1: string, q2: string)
    requires Lower(q1) == Lower(q2)
    ensures MatchesQuery(q1)(m) <==> MatchesQuery(q2)(m)
  {
  }

  // Manual entry

  /** `handleSubmitManual`: the untrimmed input is passed on when its trimmed
      form is non-empty. */
  function ManualSubmit(input: string): (r: Option<string>)
    ensures r.Some? <==> !SpacesIn(input, 0, |input|)
    ensures r.Some? ==> r.value == input
  {
    if Trim(input) != [] then Some(input) else None
  }

  /** `disabled={!manualInput.trim() || isLoading}`. */
  predicate SubmitDisabled(input: string, loading: bool)
    ensures SubmitDisabled(input, loading) <==> loading || SpacesIn(input, 0, |input|)
  {
    Trim(input) == [] || loading
  }

  /** While nothing is loading, the button is enabled exactly when a submit
      would call `onManualInput`. */
  lemma SubmitEnabledIffSubmits(input: string)
    ensures !SubmitDisabled(input, false) <==> ManualSubmit(input).Some?
  {
  }

  /** Text with a visible character keeps its surrounding spaces on submit. */
  lemma SubmitKeepsSpaces(a: string, word: string, b: string)
    requires SpacesIn(a, 0, |a|) && SpacesIn(b, 0, |b|) && word != [] && !IsSpace(word[0])
    ensures ManualSubmit(a + word + b) == Some(a + word + b)
  {
    var s := a + word + b;
    assert s[|a|] == word[0];
  }

  // Date label

  /** `slice(5)`: from index 5, or empty when the string is shorter. */
  function DropFive(s: string): (r: string)
    ensures |r| == if |s| < 5 then 0 else |s| - 5
    ensures forall k :: 0 <= k < |r| ==> r[k] == s[k + 5]
  {
    if |s| <= 5 then [] else s[5..]
  }

  /** `replace('-', '/')` with a string pattern: the first '-' only. */
  function ReplaceFirstDash(s: string): (r: string)
    ensures |r| == |s|
    ensures FirstIndexOf(s, '-').None? ==> r == s
    ensures FirstIndexOf(s, '-').Some? ==> forall k :: 0 <= k < |s| ==>
      r[k] == if k == FirstIndexOf(s, '-').value then '/' else s[k]
  {
    match FirstIndexOf(s, '-')
    case None => s
    case Some(i) => s[..i] + "/" + s[i + 1..]
  }

  /** `match.date.slice(5).replace('-','/')`. */
  function DateLabel(date: string): string {
    ReplaceFirstDash(DropFive(date))
  }

  /** A `YYYY-MM-DD` date is shown as `MM/DD`. */
  lemma DateLabelOfIsoDate(date: string)
    requires |date| == 10 && date[4] == '-' && date[7] == '-' && AllDigits(date[5..7])
    ensures DateLabel(date) == date[5..7] + "/" + date[8..]
  {
    var t := DropFive(date);
    assert t == date[5..];
    assert t[0] == date[5] && t[1] == date[6] && t[2] == '-';
    assert IsDigit(date[5..7][0]) && IsDigit(date[5..7][1]);
    FirstIndexOfAt(t, '-', 2);
    assert t[..2] == date[5..7] && t[3..] == date[8..];
  }

  /** The date the app opens on is shown as its month and day, each read
      back from two digits. */
  lemma DefaultDateLabel(year: nat, month0: nat, day: nat)
    requires 1000 <= year <= 9999 && month0 < 12 && 1 <= day <= 31
    ensures var shown := DateLabel(DefaultDate(year, month0, day));
      && |shown| == 5 && shown[2] == '/'
      && AllDigits(shown[..2]) && DigitsValue(shown[..2]) == month0 + 1
      && AllDigits(shown[3..]) && DigitsValue(shown[3..]) == day
  {
    var date := DefaultDate(year, month0, day);
    FourDigitYear(year);
    assert |date| == 10 && date[4] == '-' && date[7] == '-';
    assert AllDigits(date[5..7]) && DigitsValue(date[5..7]) == month0 + 1;
    assert AllDigits(date[8..]) && DigitsValue(date[8..]) == day;
    DateLabelOfIsoDate(date);
    SlashedParts(date[5..7], date[8..]);
  }

  /** Where the parts of `MM/DD` sit. */
  lemma SlashedParts(m: string, d: string)
    requires |m| == 2 && |d| == 2
    ensures var r := m + "/" + d;
      |r| == 5 && r[2] == '/' && r[..2] == m && r[3..] == d
  {
    var r := m + "/" + d;
    assert r[3..] == d;
  }

  // The grid

  /** What the grid shows: six placeholder cards, or one card per fixture. */
  datatype Grid = Skeleton | Cards(cards: seq<Match>)

  /** `isLoading && matches.length === 0 ? skeleton : filteredMatches`. */
  function ShowGrid(matches: seq<Match>, query: string, loading: bool): (g: Grid)
    ensures g.Skeleton? <==> loading && matches == []
    ensures g.Cards? ==> g.cards == Filtered(matches, query)
  {
    if loading && |matches| == 0 then Skeleton else Cards(Filtered(matches, query))
  }

  /** A finished load that matched nothing shows an empty grid, not the
      placeholders. */
  lemma NoFixturesAfterLoadShowsNoCards(query: string)
    ensures ShowGrid([], query, false) == Cards([])
  {
  }
}
