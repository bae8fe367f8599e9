/** components/BookingCodeSection.tsx: the booking-code form, the request it
    makes and the list of fixtures it shows. The avatar colour and initials
    are the ones of TeamBadge. */
module BookingCode {
  import opened Results
  import opened Text
  import opened Domain
  import opened GeminiService

  /** The component's own state: the code field, the loaded fixtures and
      whether a search has finished. */
  datatype Panel = Panel(code: string, loaded: seq<Match>, hasSearched: bool)

  /** The panel together with the application state it writes through `setAppState`. */
  datatype Screen = Screen(panel: Panel, app: AnalysisState)

  const InitialPanel := Panel("", [], false)

  const BookingError := "Failed to process booking code"

  predicate HasLowerAscii(s: string) {
    exists k :: 0 <= k < |s| && 'a' <= s[k] <= 'z'
  }

  /** `onChange`: the field keeps the input upper-cased. */
  function TypeCode(p: Panel, input: string): (r: Panel)
    ensures !HasLowerAscii(r.code) && |r.code| == |input|
    ensures r.loaded == p.loaded && r.hasSearched == p.hasSearched
    ensures Lower(r.code) == Lower(input)
    ensures !HasLowerAscii(input) ==> r.code == input
  {
    var c := Upper(input);
    assert Lower(c) == Lower(input) by {
      forall k | 0 <= k < |c| ensures LowerChar(c[k]) == LowerChar(input[k]) {
      }
    }
    assert !HasLowerAscii(input) ==> c == input by {
      if !HasLowerAscii(input) {
        forall k | 0 <= k < |c| ensures c[k] == input[k] {
          assert !('a' <= input[k] <= 'z');
        }
      }
    }
    p.(code := c)
  }

  /** Typing what the field already shows changes nothing. */
  lemma RetypingIsStable(p: Panel, input: string)
    ensures TypeCode(TypeCode(p, input), TypeCode(p, input).code) == TypeCode(p, input)
  {
    var c := Upper(input);
    assert Upper(c) == c by {
      forall k | 0 <= k < |c| ensures UpperChar(c[k]) == c[k] {
      }
    }
  }

  /** `disabled={!code.trim() || isLoading}`. */
  predicate SubmitDisabled(p: Panel, loading: bool)
    ensures SubmitDisabled(p, loading) <==> loading || SpacesIn(p.code, 0, |p.code|)
  {
    Trim(p.code) == [] || loading
  }

  /** The first half of `handleLoadCode`: a blank code does nothing;
      otherwise the status becomes processing_code and the list is cleared
      and hidden before the request is made. */
  function StartLoad(s: Screen): (r: Option<Screen>)
    ensures r.None? <==> SpacesIn(s.panel.code, 0, |s.panel.code|)
    ensures r.Some? ==> r.value.app == AnalysisState(ProcessingCode, None)
    ensures r.Some? ==> r.value.panel == Panel(s.panel.code, [], false)
  {
    if Trim(s.panel.code) == [] then None
    else Some(Screen(Panel(s.panel.code, [], false), AnalysisState(ProcessingCode, None)))
  }

  /** How the awaited `processBookingCode` call ends. */
  datatype Outcome = Loaded(matches: seq<Match>) | Threw

  /** The second half: the result is shown and the status is idle, or a
      thrown error sets status error with a fixed message. */
  function FinishLoad(s: Screen, outcome: Outcome): (r: Screen)
    ensures outcome.Loaded? ==> r.panel.loaded == outcome.matches && r.panel.hasSearched && r.app == AnalysisState(Idle, None)
    ensures outcome.Threw? ==> r.panel == s.panel && r.app == AnalysisState(Error, Some(BookingError))
    ensures r.panel.code == s.panel.code
  {
    match outcome
    case Loaded(ms) => Screen(s.panel.(loaded := ms, hasSearched := true), AnalysisState(Idle, None))
    case Threw => Screen(s.panel, AnalysisState(Error, Some(BookingError)))
  }

  /** The whole handler, with the service's answer for this code as input.
      `processBookingCode` catches every failure and returns its fixed list,
      so the outcome is always `Loaded`. */
  function LoadCode(s: Screen, reply: Result<Reply, CallError>, parse: string -> Result<MatchesPayload, string>, clock: nat -> nat): (r: Option<Screen>)
    ensures r.None? <==> SpacesIn(s.panel.code, 0, |s.panel.code|)
  {
    match StartLoad(s)
    case None => None
    case Some(started) => Some(FinishLoad(started, Loaded(ProcessBookingCode(s.panel.code, reply, parse, clock))))
  }

  /** A load never ends in the error status: it shows the service's list,
      whose ids are distinct, and returns to idle. */
  lemma LoadNeverErrors(s: Screen, reply: Result<Reply, CallError>, parse: string -> Result<MatchesPayload, string>, clock: nat -> nat)
    ensures LoadCode(s, reply, parse, clock).Some? ==>
      var r := LoadCode(s, reply, parse, clock).value;
      && r.app == AnalysisState(Idle, None)
      && r.panel.hasSearched
      && r.panel.loaded == ProcessBookingCode(s.panel.code, reply, parse, clock)
      && forall i, j :: 0 <= i < j < |r.panel.loaded| ==> r.panel.loaded[i].id != r.panel.loaded[j].id
  {
    BookingIdsDistinct(s.panel.code, reply, parse, clock);
  }

  /** A failed request still lists the three fixed fixtures. */
  lemma FailedRequestListsFallback(s: Screen, err: CallError, parse: string -> Result<MatchesPayload, string>, clock: nat -> nat)
    requires !SpacesIn(s.panel.code, 0, |s.panel.code|)
    ensures LoadCode(s, Failure(err), parse, clock).Some?
    ensures |LoadCode(s, Failure(err), parse, clock).value.panel.loaded| == 3
    ensures LoadCode(s, Failure(err), parse, clock).value.panel.loaded == BookingFallback
  {
    FallbackListsShape();
  }

  /** When the button is enabled, pressing it starts a request. */
  lemma EnabledButtonLoads(s: Screen, loading: bool, reply: Result<Reply, CallError>, parse: string -> Result<MatchesPayload, string>, clock: nat -> nat)
    requires !SubmitDisabled(s.panel, loading)
    ensures LoadCode(s, reply, parse, clock).Some?
  {
  }

  // What is shown

  /** The list header and cards: shown only after a search has finished. */
  datatype Listing = Hidden | Shown(header: string, cards: seq<Match>)

  function ShowList(p: Panel): (r: Listing)
    ensures r.Hidden? <==> !p.hasSearched
    ensures r.Shown? ==> r.cards == p.loaded
  {
    if p.hasSearched then Shown(NatToString(|p.loaded|) + " Found", p.loaded) else Hidden
  }

  /** The header starts with the number of fixtures listed, read back in decimal. */
  lemma HeaderCountsCards(p: Panel)
    requires p.hasSearched
    ensures var h := ShowList(p).header; var d := |NatToString(|p.loaded|)|;
      d < |h| && AllDigits(h[..d]) && DigitsValue(h[..d]) == |ShowList(p).cards| && h[d] == ' '
  {
    var digits := NatToString(|p.loaded|);
    var h := ShowList(p).header;
    assert h[..|digits|] == digits;
    DecimalRoundTrip(|p.loaded|);
  }

  /** While the request runs the old list is hidden. */
  lemma ProcessingHidesList(s: Screen)
    requires StartLoad(s).Some?
    ensures ShowList(StartLoad(s).value.panel) == Hidden
  {
  }

  /** `match.bookingPrediction && ...`: the line appears for a present,
      non-empty prediction (the empty string is falsy). */
  function PredictionLine(m: Match): (r: Option<string>)
    ensures r.Some? <==> m.bookingPrediction.Some? && m.bookingPrediction.value != ""
    ensures r.Some? ==> r.value == m.bookingPrediction.value
  {
    match m.bookingPrediction
    case Some(p) => if p != "" then Some(p) else None
    case None => None
  }

  /** The three fixed fixtures each show their slip line. */
  lemma FallbackShowsPredictions()
    ensures forall i :: 0 <= i < |BookingFallback| ==> PredictionLine(BookingFallback[i]).Some?
  {
    FallbackListsShape();
  }
}
