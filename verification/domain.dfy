/** The records of `types.ts`, plus the two fields (`sport` on a fixture and on
    a slip entry) that the application adds at run time. */
module Domain {
  import opened Results

  /** The two sports the navbar switches between. */
  datatype Sport = Football | Basketball

  function SportName(s: Sport): string {
    match s
    case Football => "football"
    case Basketball => "basketball"
  }

  /** The closed confidence enumeration `'High' | 'Medium' | 'Low'`. */
  datatype Level = High | Medium | Low

  function LevelName(l: Level): string {
    match l
    case High => "High"
    case Medium => "Medium"
    case Low => "Low"
  }

  /** Reads a confidence string back into the enumeration; anything else is None. */
  function ParseLevel(s: string): (r: Option<Level>)
    ensures r.Some? ==> LevelName(r.value) == s
    ensures r.None? ==> forall l :: LevelName(l) != s
  {
    if s == "High" then Some(High)
    else if s == "Medium" then Some(Medium)
    else if s == "Low" then Some(Low)
    else None
  }

  /** A fixture. `id` is stamped by the service; `sport` is only set on the
      manual fixture; `bookingPrediction` only on fixtures read from a booking code. */
  datatype Match = Match(
    id: string,
    home: string,
    away: string,
    league: string,
    date: string,
    time: Option<string>,
    sport: Option<Sport>,
    bookingPrediction: Option<string>)

  /** `${home} vs ${away} (${league})`: how both the application and the
      service describe a fixture. The parts sit end to end in this order. */
  function FixtureLine(m: Match): (r: string)
    ensures var h := |m.home|; var a := |m.away|;
      && |r| == h + a + |m.league| + 7
      && r[..h] == m.home && r[h..h + 4] == " vs " && r[h + 4..h + 4 + a] == m.away
      && r[h + 4 + a..h + 6 + a] == " (" && r[h + 6 + a..|r| - 1] == m.league && r[|r| - 1] == ')'
  {
    Layout(m.home, m.away, m.league);
    m.home + " vs " + m.away + " (" + m.league + ")"
  }

  /** Where the five parts of a fixture line sit. */
  lemma Layout(home: string, away: string, league: string)
    ensures var r := home + " vs " + away + " (" + league + ")";
      var h := |home|; var a := |away|;
      && |r| == h + a + |league| + 7
      && r[..h] == home && r[h..h + 4] == " vs " && r[h + 4..h + 4 + a] == away
      && r[h + 4 + a..h + 6 + a] == " (" && r[h + 6 + a..|r| - 1] == league && r[|r| - 1] == ')'
  {
    var r := home + " vs " + away + " (" + league + ")";
    var h := |home|;
    var a := |away|;
    assert r[h..h + 4] == " vs ";
    assert r[h + 4..h + 4 + a] == away;
    assert r[h + 4 + a..h + 6 + a] == " (";
    assert r[h + 6 + a..|r| - 1] == league;
  }

  /** Fixture lines with the same layout come from the same teams and league. */
  lemma FixtureLineInjective(m: Match, n: Match)
    requires |m.home| == |n.home| && |m.away| == |n.away|
    requires FixtureLine(m) == FixtureLine(n)
    ensures m.home == n.home && m.away == n.away && m.league == n.league
  {
  }

  /** One prediction of the analysis. `confidence` is whatever text the model
      returned: the enumeration is only a type annotation in the source. */
  datatype PredictionDetail = PredictionDetail(market: string, selection: string, confidence: string, reasoning: string)

  /** An entry of the bet slip. */
  datatype BetSelection = BetSelection(
    id: string,
    matchTitle: string,
    market: string,
    selection: string,
    confidence: string,
    sport: Option<Sport>)

  /** A grounding citation kept in the analysis. */
  datatype Source = Source(title: string, uri: string)

  /** A deep analysis: the parsed model reply (left uninterpreted) and its
      de-duplicated sources. */
  datatype DeepAnalysis<J> = DeepAnalysis(report: J, sources: seq<Source>)

  /** The six values of `AnalysisState.status`. */
  datatype Status = Idle | LoadingMatches | ProcessingCode | Analyzing | Complete | Error

  datatype AnalysisState = AnalysisState(status: Status, error: Option<string>)
}
