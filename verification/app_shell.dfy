/** The state App.tsx keeps around the bet slip: the fixtures on show, the
    analysis status, the rotating loading message and the default date.

    Every handler is a function from the state before to the state after.
    The fixture loader the component calls is not part of this model: its
    outcome arrives as an event carrying the sport and date the loading
    effect captured when it started. */
module AppShell {
  import opened Results
  import opened Text
  import opened Domain
  import opened Seqs
  import opened BetSlip
  import GeminiService

  const LoadingMessageCount: nat := 6

  /** The component state. `analysisReady` stands for a non-null `analysis`;
      `cursor` is the `i` of the running interval and `message` the index of
      the loading message on screen. */
  datatype App = App(
    sport: Sport,
    date: string,
    matches: seq<Match>,
    selected: Option<Match>,
    analysisReady: bool,
    state: AnalysisState,
    slip: Slip,
    cursor: nat,
    message: nat)

  function Initial(date: string): (a: App)
    ensures a.state.status == LoadingMatches && a.matches == [] && a.slip == []
  {
    App(Football, date, [], None, false, AnalysisState(LoadingMatches, None), [], 0, 0)
  }

  /** The bounds every reachable state keeps. */
  predicate Wf(a: App) {
    a.cursor < LoadingMessageCount && a.message < LoadingMessageCount
  }

  /** `setAppState`: the interval effect is keyed on the status, so entering
      `analyzing` from another status starts a new interval at 0. */
  function SetState(a: App, st: AnalysisState): (r: App)
    ensures r.state == st
    ensures a.state.status != Analyzing && st.status == Analyzing ==> r.cursor == 0
    ensures !(a.state.status != Analyzing && st.status == Analyzing) ==> r.cursor == a.cursor
    ensures r.(state := a.state, cursor := a.cursor) == a
  {
    var entering := a.state.status != Analyzing && st.status == Analyzing;
    a.(state := st, cursor := if entering then 0 else a.cursor)
  }

  /** The date filter `m => m.date === selectedDate`. */
  function OnDate(date: string): Match -> bool {
    (m: Match) => m.date == date
  }

  /** The loading effect starts: status `loading_matches`, no fixtures. */
  function StartLoad(a: App): (r: App)
    ensures r.state == AnalysisState(LoadingMatches, None) && r.matches == []
    ensures r.slip == a.slip && r.selected == a.selected && r.date == a.date && r.sport == a.sport
  {
    SetState(a.(matches := []), AnalysisState(LoadingMatches, None))
  }

  /** The loader answered for `forDate`: keep the records dated `forDate`, in
      their order, and go idle. */
  function FinishLoad(a: App, forDate: string, data: seq<Match>): (r: App)
    ensures r.state == AnalysisState(Idle, None)
    ensures forall m :: m in r.matches <==> m in data && m.date == forDate
    ensures IsSubsequence(r.matches, data)
    ensures forall m :: multiset(r.matches)[m] == if m.date == forDate then multiset(data)[m] else 0
    ensures r.slip == a.slip && r.selected == a.selected
  {
    FilterCounts(data, OnDate(forDate));
    SetState(a.(matches := Filter(data, OnDate(forDate))), AnalysisState(Idle, None))
  }

  /** `Failed to load <sport> matches.` */
  function LoadError(sport: Sport): string {
    "Failed to load " + SportName(sport) + " matches."
  }

  /** The loader threw: idle with an error text, and the list stays empty. */
  function FailLoad(a: App, forSport: Sport): (r: App)
    ensures r.state.status == Idle && r.state.error == Some(LoadError(forSport))
    ensures r.matches == a.matches && r.slip == a.slip
  {
    SetState(a, AnalysisState(Idle, Some(LoadError(forSport))))
  }

  /** The text handed to the analysis: the manual query when it is non-empty,
      otherwise `home vs away (league)`. */
  function QueryString(m: Match, manualQuery: Option<string>): (q: string)
    ensures manualQuery.Some? && manualQuery.value != "" ==> q == manualQuery.value
    ensures !(manualQuery.Some? && manualQuery.value != "") ==> q == FixtureLine(m)
  {
    if manualQuery.Some? && manualQuery.value != "" then manualQuery.value
    else FixtureLine(m)
  }

  /** The query the application sends is what the service describes: the
      manual text as a free query, or the fixture line. */
  lemma QueryIsServiceSubject(m: Match, manualQuery: Option<string>)
    ensures manualQuery.Some? && manualQuery.value != "" ==>
      QueryString(m, manualQuery) == GeminiService.MatchString(GeminiService.Query(manualQuery.value))
    ensures !(manualQuery.Some? && manualQuery.value != "") ==>
      QueryString(m, manualQuery) == GeminiService.MatchString(GeminiService.Fixture(m))
  {
  }

  /** For a listed fixture the query is the analysis title with the league
      appended in parentheses. */
  lemma QueryExtendsTitle(m: Match)
    requires m.id != "manual"
    ensures QueryString(m, None) == MatchTitle(m) + " (" + m.league + ")"
  {
    assert FixtureLine(m) == m.home + " vs " + m.away + " (" + m.league + ")";
  }

  /** `startAnalysis`: status `analyzing` and no analysis on screen. */
  function StartAnalysis(a: App): (r: App)
    ensures r.state == AnalysisState(Analyzing, None) && !r.analysisReady
    ensures a.state.status != Analyzing ==> r.cursor == 0
    ensures r.slip == a.slip && r.selected == a.selected && r.matches == a.matches
  {
    SetState(a.(analysisReady := false), AnalysisState(Analyzing, None))
  }

  /** `handleMatchSelect`: select the fixture and start its analysis. */
  function SelectMatch(a: App, m: Match): (r: App)
    ensures r.selected == Some(m) && r.state.status == Analyzing && !r.analysisReady
    ensures r.slip == a.slip
  {
    StartAnalysis(a.(selected := Some(m)))
  }

  /** The fixture `handleManualInput` builds around free text. */
  function ManualMatch(a: App, input: string): (m: Match)
    ensures m.id == "manual" && m.home == input && m.away == "" && m.league == "Custom"
    ensures m.date == a.date && m.sport == Some(a.sport)
  {
    Match("manual", input, "", "Custom", a.date, None, Some(a.sport), None)
  }

  /** `handleManualInput`: select the manual fixture and start its analysis. */
  function ManualInput(a: App, input: string): (r: App)
    ensures r.selected == Some(ManualMatch(a, input)) && r.state.status == Analyzing
    ensures input != "" ==> QueryString(r.selected.value, Some(input)) == input
    ensures r.slip == a.slip
  {
    SelectMatch(a, ManualMatch(a, input))
  }

  /** The analysis resolved: it is shown and the status is `complete`. */
  function FinishAnalysis(a: App): (r: App)
    ensures r.analysisReady && r.state == AnalysisState(Complete, None)
    ensures r.slip == a.slip && r.selected == a.selected
  {
    SetState(a.(analysisReady := true), AnalysisState(Complete, None))
  }

  const AnalysisFailedText: string := "Analysis failed. Please try again later."

  /** The analysis threw: status `error` with the fixed message. */
  function FailAnalysis(a: App): (r: App)
    ensures r.state == AnalysisState(Error, Some(AnalysisFailedText))
    ensures r.slip == a.slip && r.analysisReady == a.analysisReady
  {
    SetState(a, AnalysisState(Error, Some(AnalysisFailedText)))
  }

  /** `handleReset` (the logo and the Back button): nothing selected, no
      analysis, idle. */
  function ResetView(a: App): (r: App)
    ensures r.selected.None? && !r.analysisReady && r.state == AnalysisState(Idle, None)
    ensures r.slip == a.slip && r.matches == a.matches
  {
    SetState(a.(selected := None, analysisReady := false), AnalysisState(Idle, None))
  }

  /** DISMISS on the error banner: idle, everything else kept. */
  function Dismiss(a: App): (r: App)
    ensures r.state == AnalysisState(Idle, None)
    ensures r.selected == a.selected && r.analysisReady == a.analysisReady && r.slip == a.slip
  {
    SetState(a, AnalysisState(Idle, None))
  }

  /** One interval tick: only runs while analyzing; advances by one, modulo
      the number of messages, and shows that message. */
  function Tick(a: App): (r: App)
    requires Wf(a)
    ensures Wf(r)
    ensures a.state.status == Analyzing ==> r.cursor == (a.cursor + 1) % LoadingMessageCount && r.message == r.cursor
    ensures a.state.status != Analyzing ==> r == a
    ensures r.slip == a.slip && r.state == a.state
  {
    if a.state.status != Analyzing then a
    else
      var i := (a.cursor + 1) % LoadingMessageCount;
      a.(cursor := i, message := i)
  }

  /** The events App.tsx reacts to. `Loaded`/`LoadFailed` carry what the
      loading effect captured; `ChildState` is a status set by the booking
      panel through the `setAppState` it is handed. */
  datatype Event =
    | ChooseSport(sport: Sport)
    | ChooseDate(date: string)
    | Loaded(forDate: string, data: seq<Match>)
    | LoadFailed(forSport: Sport)
    | Select(m: Match)
    | Manual(input: string)
    | AnalysisDone
    | AnalysisFailed
    | Reset
    | DismissError
    | Ticked
    | ToggleBet(selection: BetSelection)
    | RemoveBet(id: string)
    | ClearSlip
    | ChildState(st: AnalysisState)

  /** One event. Changing the sport or date (to a different value) re-runs the
      loading effect. */
  function Step(a: App, e: Event): (r: App)
    requires Wf(a)
    ensures Wf(r)
  {
    match e
    case ChooseSport(sp) => if sp == a.sport then a else StartLoad(a.(sport := sp))
    case ChooseDate(d) => if d == a.date then a else StartLoad(a.(date := d))
    case Loaded(d, data) => FinishLoad(a, d, data)
    case LoadFailed(sp) => FailLoad(a, sp)
    case Select(m) => SelectMatch(a, m)
    case Manual(input) => ManualInput(a, input)
    case AnalysisDone => FinishAnalysis(a)
    case AnalysisFailed => FailAnalysis(a)
    case Reset => ResetView(a)
    case DismissError => Dismiss(a)
    case Ticked => Tick(a)
    case ToggleBet(sel) => a.(slip := Toggle(a.slip, sel, a.sport))
    case RemoveBet(id) => a.(slip := Remove(a.slip, id))
    case ClearSlip => a.(slip := Clear(a.slip))
    case ChildState(st) => SetState(a, st)
  }

  function Run(a: App, es: seq<Event>): (r: App)
    requires Wf(a)
    ensures Wf(r)
    decreases |es|
  {
    if es == [] then a else Run(Step(a, es[0]), es[1..])
  }

  /** Only the slip events touch the slip, and they keep its ids distinct. */
  lemma StepKeepsSlipDistinct(a: App, e: Event)
    requires Wf(a) && DistinctIds(a.slip)
    ensures DistinctIds(Step(a, e).slip)
  {
    match e
    case ToggleBet(sel) => ToggleKeepsDistinct(a.slip, sel, a.sport);
    case RemoveBet(id) => RemoveKeepsDistinct(a.slip, id);
    case _ =>
  }

  lemma {:induction false} RunKeepsSlipDistinct(a: App, es: seq<Event>)
    requires Wf(a) && DistinctIds(a.slip)
    ensures DistinctIds(Run(a, es).slip)
    decreases |es|
  {
    if es != [] {
      StepKeepsSlipDistinct(a, es[0]);
      RunKeepsSlipDistinct(Step(a, es[0]), es[1..]);
    }
  }

  /** The error banner is rendered only in status `error`. */
  predicate BannerShown(a: App) {
    a.state.status == Error
  }

  /** A failed fixture load records an error text but shows no banner. */
  lemma LoadFailureShowsNoBanner(a: App, sp: Sport)
    ensures FailLoad(a, sp).state.error.Some?
    ensures !BannerShown(FailLoad(a, sp))
  {
  }

  /** A load answered for the date on show leaves on screen exactly the
      answered records dated that day, in their order. */
  lemma FreshLoadShowsSelectedDate(a: App, data: seq<Match>)
    requires Wf(a)
    ensures var r := Step(a, Loaded(a.date, data));
      && (forall m :: m in r.matches <==> m in data && m.date == a.date)
      && IsSubsequence(r.matches, data)
      && (forall m :: multiset(r.matches)[m] == if m.date == a.date then multiset(data)[m] else 0)
  {
  }

  /** The loading overlay: shown while analyzing, processing a code or
      loading fixtures. */
  datatype Overlay = Hidden | DecipheringCode | FetchingFixtures(sport: Sport) | Rotating(index: nat)

  function OverlayOf(a: App): (o: Overlay)
    ensures o == Hidden <==> a.state.status !in {Analyzing, ProcessingCode, LoadingMatches}
    ensures a.state.status == Analyzing ==> o == Rotating(a.message)
    ensures a.state.status == ProcessingCode ==> o == DecipheringCode
    ensures a.state.status == LoadingMatches ==> o == FetchingFixtures(a.sport)
  {
    match a.state.status
    case ProcessingCode => DecipheringCode
    case LoadingMatches => FetchingFixtures(a.sport)
    case Analyzing => Rotating(a.message)
    case _ => Hidden
  }

  /** The title handed to the analysis view: the manual text itself, or
      `home vs away`. */
  function MatchTitle(m: Match): (t: string)
    ensures m.id == "manual" ==> t == m.home
    ensures m.id != "manual" ==> |t| == |m.home| + 4 + |m.away| && t[..|m.home|] == m.home && t[|m.home|..|m.home| + 4] == " vs " && t[|m.home| + 4..] == m.away
  {
    if m.id == "manual" then m.home else m.home + " vs " + m.away
  }

  /** The analysis view is on screen only when complete, with an analysis and
      a selected fixture. */
  predicate ResultShown(a: App) {
    a.state.status == Complete && a.analysisReady && a.selected.Some?
  }

  lemma ResetHidesResult(a: App)
    ensures !ResultShown(ResetView(a)) && !BannerShown(ResetView(a))
  {
  }

  /** Selecting a fixture and then seeing the analysis resolve puts the view on screen. */
  lemma SelectThenDoneShowsResult(a: App, m: Match)
    requires Wf(a)
    ensures ResultShown(Step(Step(a, Select(m)), AnalysisDone))
    ensures Step(Step(a, Select(m)), AnalysisDone).selected == Some(m)
  {
  }

  /** k ticks of an interval started at 0 leave it at k mod 6. */
  function Ticks(a: App, k: nat): (r: App)
    requires Wf(a)
    ensures Wf(r)
  {
    if k == 0 then a else Tick(Ticks(a, k - 1))
  }

  lemma {:induction false} TicksCycle(a: App, k: nat)
    requires Wf(a) && a.state.status == Analyzing && a.cursor == 0
    ensures Ticks(a, k).cursor == k % LoadingMessageCount
    ensures Ticks(a, k).state == a.state
    ensures k > 0 ==> Ticks(a, k).message == k % LoadingMessageCount
  {
    if k > 0 {
      TicksCycle(a, k - 1);
    }
  }

  /** Starting an analysis from another status restarts the rotation, but the
      message on screen is the last one shown until the first tick. */
  lemma StartKeepsMessage(a: App)
    requires Wf(a) && a.state.status != Analyzing
    ensures StartAnalysis(a).cursor == 0 && StartAnalysis(a).message == a.message
  {
  }

  // The default date

  /** `${year}-${month+1 padded}-${day padded}` from the local clock. */
  function DefaultDate(year: nat, month0: nat, day: nat): (r: string)
    requires month0 < 12 && 1 <= day <= 31
    ensures |r| == |NatToString(year)| + 6
    ensures r[..|NatToString(year)|] == NatToString(year)
    ensures r[|NatToString(year)|] == '-' && r[|NatToString(year)| + 3] == '-'
    ensures var k := |NatToString(year)|;
      AllDigits(r[k + 1..k + 3]) && DigitsValue(r[k + 1..k + 3]) == month0 + 1 &&
      AllDigits(r[k + 4..]) && DigitsValue(r[k + 4..]) == day
  {
    var y := NatToString(year);
    var m := PadTwo(NatToString(month0 + 1));
    var d := PadTwo(NatToString(day));
    PaddedRoundTrip(month0 + 1);
    PaddedRoundTrip(day);
    DashedParts(y, m, d);
    y + "-" + m + "-" + d
  }

  /** Where the parts of `year-MM-DD` sit. */
  lemma DashedParts(y: string, m: string, d: string)
    requires |m| == 2 && |d| == 2
    ensures var r := y + "-" + m + "-" + d;
      && |r| == |y| + 6 && r[..|y|] == y && r[|y|] == '-' && r[|y| + 3] == '-'
      && r[|y| + 1..|y| + 3] == m && r[|y| + 4..] == d
  {
    var r := y + "-" + m + "-" + d;
    assert r[|y| + 1..|y| + 3] == m;
    assert r[|y| + 4..] == d;
  }

  /** A one- or two-digit number padded to two digits reads back as itself. */
  lemma PaddedRoundTrip(n: nat)
    requires 1 <= n < 100
    ensures |PadTwo(NatToString(n))| == 2 && AllDigits(PadTwo(NatToString(n)))
    ensures DigitsValue(PadTwo(NatToString(n))) == n
  {
    var s := PadTwo(NatToString(n));
    if n < 10 {
      assert s == ['0', DigitChar(n)];
      assert s[..1] == ['0'];
      assert DigitsValue(s[..1]) == 0 by {
        assert s[..1][..0] == [];
      }
    } else {
      assert NatToString(n / 10) == [DigitChar(n / 10)];
      assert s == [DigitChar(n / 10), DigitChar(n % 10)];
      assert s[..1] == [DigitChar(n / 10)];
      assert DigitsValue(s[..1]) == n / 10 by {
        assert s[..1][..0] == [];
      }
    }
  }

  /** A year of four digits gives the `YYYY-MM-DD` shape. */
  lemma DefaultDateShape(year: nat, month0: nat, day: nat)
    requires 1000 <= year <= 9999 && month0 < 12 && 1 <= day <= 31
    ensures |DefaultDate(year, month0, day)| == 10
    ensures DefaultDate(year, month0, day)[4] == '-' && DefaultDate(year, month0, day)[7] == '-'
    ensures DigitsValue(DefaultDate(year, month0, day)[..4]) == year
  {
    FourDigitYear(year);
    DecimalRoundTrip(year);
  }

  /** A year from 1000 to 9999 is written with four digits. */
  lemma FourDigitYear(year: nat)
    requires 1000 <= year <= 9999
    ensures |NatToString(year)| == 4
  {
    assert |NatToString(year / 10 / 10 / 10)| == 1;
    assert |NatToString(year / 10 / 10)| == 2;
    assert |NatToString(year / 10)| == 3;
  }
}
