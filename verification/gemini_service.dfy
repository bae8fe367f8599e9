/** The pure parts of services/geminiService.ts around the model calls: the
    retry rule of `analyzeMatchDeeply`, the assembly of its result, and the id
    stamping and fixed fallback lists of `fetchUpcomingMatches` and
    `processBookingCode`.

    A model call is not performed here: its outcome is a value (`Reply` or
    `CallError`), or a function from the model tier to such a value.
    `JSON.parse` is the parameter `parse`. */
module GeminiService {
  import opened Results
  import opened Text
  import opened Domain
  import opened ResponseParser
  import opened GroundingSources

  /** What the service reads from a successful `generateContent` response:
      `response.text` and `candidates?.[0]?.groundingMetadata?.groundingChunks`. */
  datatype Reply = Reply(text: Option<string>, chunks: Option<seq<Chunk>>)

  /** The two fields of a thrown client error that the retry rule inspects. */
  datatype CallError = CallError(status: Option<int>, code: Option<int>)

  datatype CallOutcome = Answered(reply: Reply) | Failed(err: CallError)

  /** The primary ("pro") and the fallback ("flash") model. */
  datatype Tier = Pro | Flash

  /** `response.text || ""`. */
  function ReplyText(r: Reply): (t: string)
    ensures r.text.Some? ==> t == r.text.value
    ensures r.text.None? ==> t == ""
  {
    r.text.GetOr("")
  }

  /** `error.status === 429 || error.code === 429 || error.status === 503`. */
  predicate ShouldFallBack(e: CallError) {
    e.status == Some(429) || e.code == Some(429) || e.status == Some(503)
  }

  /** The outcome of the retry rule together with the models it called, in
      the order it called them. */
  datatype Traced = Traced(result: Result<Reply, CallError>, calls: seq<Tier>)

  /** The try/catch of `analyzeMatchDeeply`: call the primary model; after a
      retryable failure call the fallback once. Each call is logged where it
      is made. */
  function Attempt(call: Tier -> CallOutcome): (r: Traced)
    ensures 1 <= |r.calls| <= 2 && r.calls[0] == Pro
    ensures |r.calls| == 2 ==> r.calls[1] == Flash
  {
    match call(Pro)
    case Answered(reply) => Traced(Success(reply), [Pro])
    case Failed(e) =>
      if ShouldFallBack(e) then
        var second := call(Flash);
        var result := match second
          case Answered(reply) => Success(reply)
          case Failed(e2) => Failure(e2);
        Traced(result, [Pro, Flash])
      else Traced(Failure(e), [Pro])
  }

  /** The response `analyzeMatchDeeply` goes on with: the primary reply, or,
      after a retryable failure, the fallback's reply. A non-retryable error
      and a failing fallback are thrown as they are. */
  function Obtain(call: Tier -> CallOutcome): (r: Result<Reply, CallError>)
    ensures call(Pro).Answered? ==> r == Success(call(Pro).reply)
    ensures call(Pro).Failed? && !ShouldFallBack(call(Pro).err) ==> r == Failure(call(Pro).err)
    ensures call(Pro).Failed? && ShouldFallBack(call(Pro).err) ==>
      (call(Flash).Answered? ==> r == Success(call(Flash).reply)) &&
      (call(Flash).Failed? ==> r == Failure(call(Flash).err))
  {
    Attempt(call).result
  }

  /** The models called, in order. */
  function CallsMade(call: Tier -> CallOutcome): (r: seq<Tier>)
    ensures 1 <= |r| <= 2 && r[0] == Pro
  {
    Attempt(call).calls
  }

  /** `call` with the fallback model's outcome replaced by `other`. */
  function WithFallback(call: Tier -> CallOutcome, other: CallOutcome): Tier -> CallOutcome {
    (t: Tier) => if t == Flash then other else call(t)
  }

  /** The fallback model is called exactly when the primary fails with status
      429, code 429 or status 503, and it is called at most once. Seen from
      the outcome alone: the fallback's reply matters exactly then, and then
      every change to it shows in the outcome. */
  lemma FallbackIff(call: Tier -> CallOutcome, other: CallOutcome)
    ensures Flash in CallsMade(call) <==> call(Pro).Failed? && ShouldFallBack(call(Pro).err)
    ensures |CallsMade(call)| == 2 ==> CallsMade(call) == [Pro, Flash]
    ensures !(call(Pro).Failed? && ShouldFallBack(call(Pro).err)) ==>
      Obtain(WithFallback(call, other)) == Obtain(call)
    ensures call(Pro).Failed? && ShouldFallBack(call(Pro).err) ==>
      (Obtain(WithFallback(call, other)) == Obtain(call) <==> other == call(Flash))
  {
    var c2 := WithFallback(call, other);
    assert c2(Pro) == call(Pro) && c2(Flash) == other;
  }

  /** The outcome depends only on the replies of the models actually called. */
  lemma ObtainReadsOnlyCalledModels(c1: Tier -> CallOutcome, c2: Tier -> CallOutcome)
    requires forall t :: t in CallsMade(c1) ==> c1(t) == c2(t)
    ensures Obtain(c1) == Obtain(c2) && CallsMade(c1) == CallsMade(c2)
  {
    assert Pro in CallsMade(c1);
  }

  datatype AnalysisError = CallFailed(callError: CallError) | BadReply(jsonError: JsonError)

  /** `analyzeMatchDeeply` after the prompt is built: obtain a response, parse
      its text, and attach the de-duplicated grounding sources. */
  function AnalyzeMatchDeeply<J>(call: Tier -> CallOutcome, parse: string -> Result<J, string>): (r: Result<DeepAnalysis<J>, AnalysisError>)
    ensures Obtain(call).Failure? ==> r == Failure(CallFailed(Obtain(call).error))
    ensures Obtain(call).Success? ==>
      var reply := Obtain(call).value;
      (r.Success? <==> ParseJson(ReplyText(reply), parse).Success?) &&
      (r.Failure? ==> r.error == BadReply(ParseJson(ReplyText(reply), parse).error))
    ensures r.Success? ==> Obtain(call).Success?
    ensures r.Success? && Obtain(call).Success? ==>
      var reply := Obtain(call).value;
      && r.value.report == ParseJson(ReplyText(reply), parse).value
      && r.value.sources == UniqueByUri(Citations(reply.chunks.GetOr([])))
    ensures r.Success? ==> DistinctUris(r.value.sources)
    ensures r.Success? ==> forall s :: s in r.value.sources ==> s.uri != "" && s.title != ""
  {
    match Obtain(call)
    case Failure(e) => Failure(CallFailed(e))
    case Success(reply) =>
      match ParseJson(ReplyText(reply), parse)
      case Failure(pe) => Failure(BadReply(pe))
      case Success(json) =>
        var sources := UniqueByUri(Citations(reply.chunks.GetOr([])));
        assert forall s :: s in sources ==> HasUri(Citations(reply.chunks.GetOr([])), s.uri) && s in Citations(reply.chunks.GetOr([])) by {
          forall s | s in sources
            ensures HasUri(Citations(reply.chunks.GetOr([])), s.uri) && s in Citations(reply.chunks.GetOr([]))
          {
            var i :| 0 <= i < |sources| && sources[i] == s;
          }
        }
        Success(DeepAnalysis(json, sources))
  }

  /** Every source of a successful analysis is a citation of the response the
      analysis was built from, and every citation's URI is represented. */
  lemma AnalysisSourcesAreCitations<J>(call: Tier -> CallOutcome, parse: string -> Result<J, string>)
    ensures AnalyzeMatchDeeply(call, parse).Success? ==> Obtain(call).Success?
    ensures AnalyzeMatchDeeply(call, parse).Success? ==>
      var cites := Citations(Obtain(call).value.chunks.GetOr([]));
      var srcs := AnalyzeMatchDeeply(call, parse).value.sources;
      (forall s :: s in srcs ==> s in cites) && (forall c :: c in cites ==> HasUri(srcs, c.uri))
  {
    if AnalyzeMatchDeeply(call, parse).Failure? { return; }
    var cites := Citations(Obtain(call).value.chunks.GetOr([]));
    var srcs := AnalyzeMatchDeeply(call, parse).value.sources;
    forall s | s in srcs ensures s in cites {
      var i :| 0 <= i < |srcs| && srcs[i] == s;
    }
    forall c | c in cites ensures HasUri(srcs, c.uri) {
      var i :| 0 <= i < |cites| && cites[i] == c;
      assert HasUri(cites, c.uri);
    }
  }

  /** What `analyzeMatchDeeply` is asked about: a free-text query, or a
      fixture rendered as `home vs away (league)`. */
  datatype Subject = Query(text: string) | Fixture(m: Match)

  function MatchString(s: Subject): (r: string)
    ensures s.Query? ==> r == s.text
    ensures s.Fixture? ==> r == FixtureLine(s.m)
  {
    match s
    case Query(t) => t
    case Fixture(m) => FixtureLine(m)
  }

  /** Two fixtures with the same teams and league are described identically,
      whatever their other fields. */
  lemma MatchStringIgnoresOtherFields(a: Match, b: Match)
    requires a.home == b.home && a.away == b.away && a.league == b.league
    ensures MatchString(Fixture(a)) == MatchString(Fixture(b))
  {
  }

  // Fixture lists

  /** `data.matches` after `JSON.parse`: an array of fixture records, or
      anything else (`Array.isArray` fails). */
  datatype MatchesPayload = MatchList(items: seq<Match>) | NotAList

  /** The id `<prefix><idx>-<now>` given to the record at index idx. */
  function StampId(prefix: string, idx: nat, now: nat): (r: string)
    ensures |r| > |prefix| && r[..|prefix|] == prefix
  {
    prefix + NatToString(idx) + "-" + NatToString(now)
  }

  /** `{...m, id: ...}` over the whole list: only the ids change. The clock
      is read once per record, so `clock(idx)` is the reading for record idx. */
  function StampAll(items: seq<Match>, prefix: string, clock: nat -> nat): (r: seq<Match>)
    ensures |r| == |items|
    ensures forall i :: 0 <= i < |r| ==> r[i] == items[i].(id := StampId(prefix, i, clock(i)))
  {
    seq(|items|, i requires 0 <= i < |items| => items[i].(id := StampId(prefix, i, clock(i))))
  }

  /** In digits followed by "-", the first "-" marks where the digits end. */
  lemma DashEndsDigits(da: string, db: string, ta: string, tb: string)
    requires AllDigits(da) && AllDigits(db)
    requires da + "-" + ta == db + "-" + tb
    ensures |da| == |db|
  {
    var x := da + "-" + ta;
    var y := db + "-" + tb;
    assert x[|da|] == '-' && y[|db|] == '-';
    assert forall k :: 0 <= k < |da| ==> x[k] == da[k];
    assert forall k :: 0 <= k < |db| ==> y[k] == db[k];
  }

  /** A decimal string ends at the first "-", so it is recovered from what follows it. */
  lemma DashedDecimalUnique(a: nat, b: nat, ta: string, tb: string)
    requires NatToString(a) + "-" + ta == NatToString(b) + "-" + tb
    ensures a == b && ta == tb
  {
    var da, db := NatToString(a), NatToString(b);
    var x := da + "-" + ta;
    DashEndsDigits(da, db, ta, tb);
    assert da == x[..|da|];
    assert db == (db + "-" + tb)[..|db|];
    DecimalInjective(a, b);
    assert ta == x[|da| + 1..];
    assert tb == (db + "-" + tb)[|db| + 1..];
  }

  /** Two stamps with the same prefix are equal only for the same index and
      the same clock reading. */
  lemma StampIdInjective(prefix: string, i: nat, t: nat, j: nat, u: nat)
    requires StampId(prefix, i, t) == StampId(prefix, j, u)
    ensures i == j && t == u
  {
    assert StampId(prefix, i, t) == prefix + (NatToString(i) + "-" + NatToString(t)) + "";
    assert StampId(prefix, j, u) == prefix + (NatToString(j) + "-" + NatToString(u)) + "";
    SameFrameSameMiddle(prefix, NatToString(i) + "-" + NatToString(t), NatToString(j) + "-" + NatToString(u), "");
    DashedDecimalUnique(i, j, NatToString(t), NatToString(u));
    DecimalInjective(t, u);
  }

  /** The stamped ids of one list are pairwise distinct, whatever the clock reads. */
  lemma StampAllDistinct(items: seq<Match>, prefix: string, clock: nat -> nat)
    ensures forall i, j :: 0 <= i < j < |items| ==> StampAll(items, prefix, clock)[i].id != StampAll(items, prefix, clock)[j].id
  {
    var r := StampAll(items, prefix, clock);
    forall i, j | 0 <= i < j < |items| ensures r[i].id != r[j].id {
      if r[i].id == r[j].id {
        StampIdInjective(prefix, i, clock(i), j, clock(j));
      }
    }
  }

  function Upcoming(id: string, home: string, away: string, league: string, time: string): Match {
    Match(id, home, away, league, "Upcoming", Some(time), None, None)
  }

  /** The six fixtures `fetchUpcomingMatches` returns on any failure. */
  const FixtureFallback: seq<Match> := [
    Upcoming("fb-1", "Real Madrid", "Barcelona", "La Liga", "20:00"),
    Upcoming("fb-2", "Man City", "Arsenal", "Premier League", "16:30"),
    Upcoming("fb-3", "Bayern Munich", "Dortmund", "Bundesliga", "18:30"),
    Upcoming("fb-4", "Inter", "AC Milan", "Serie A", "19:45"),
    Upcoming("fb-5", "PSG", "Marseille", "Ligue 1", "20:00"),
    Upcoming("fb-6", "Liverpool", "Chelsea", "Premier League", "15:00")
  ]

  /** The three fixtures `processBookingCode` returns on any failure. */
  const BookingFallback: seq<Match> := [
    Upcoming("bk-1", "Man City", "Liverpool", "Premier League", "16:30").(bookingPrediction := Some("Over 2.5 Goals")),
    Upcoming("bk-2", "Inter", "Juventus", "Serie A", "19:45").(bookingPrediction := Some("Home Win")),
    Upcoming("bk-3", "Real Madrid", "Barcelona", "La Liga", "20:00").(bookingPrediction := Some("GG (Both Teams to Score)"))
  ]

  /** The fallback lists have distinct ids, are dated "Upcoming" rather than a
      calendar date, and only the booking list carries predictions. */
  lemma FallbackListsShape()
    ensures |FixtureFallback| == 6 && |BookingFallback| == 3
    ensures forall i, j :: 0 <= i < j < |FixtureFallback| ==> FixtureFallback[i].id != FixtureFallback[j].id
    ensures forall i, j :: 0 <= i < j < |BookingFallback| ==> BookingFallback[i].id != BookingFallback[j].id
    ensures forall m :: m in FixtureFallback ==> m.date == "Upcoming" && m.bookingPrediction.None?
    ensures forall m :: m in BookingFallback ==> m.date == "Upcoming" && m.bookingPrediction.Some?
  {
  }

  /** The `data.matches` of a reply, or None when the text holds no JSON, the
      JSON does not parse, or the parse callback rejects it. */
  function ListedMatches(reply: Result<Reply, CallError>, parse: string -> Result<MatchesPayload, string>): (r: Option<seq<Match>>)
    ensures r.Some? ==> reply.Success? && ParseJson(ReplyText(reply.value), parse) == Success(MatchList(r.value))
    ensures r.None? ==> reply.Failure? || !ParseJson(ReplyText(reply.value), parse).Success? || ParseJson(ReplyText(reply.value), parse).value == NotAList
  {
    if reply.Failure? then None
    else
      var data: Result<MatchesPayload, JsonError> := ParseJson(ReplyText(reply.value), parse);
      if data.Success? && data.value.MatchList? then Some(data.value.items) else None
  }

  /** `fetchUpcomingMatches` after the call: stamp `match-<idx>-<now>` on every
      listed record, or return the six fallback fixtures on any failure. */
  function FetchUpcomingMatches(reply: Result<Reply, CallError>, parse: string -> Result<MatchesPayload, string>, clock: nat -> nat): (r: seq<Match>)
    ensures ListedMatches(reply, parse).None? ==> r == FixtureFallback
    ensures ListedMatches(reply, parse).Some? ==>
      var items := ListedMatches(reply, parse).value;
      |r| == |items| &&
      forall i :: 0 <= i < |r| ==> r[i].(id := items[i].id) == items[i] && r[i].id == StampId("match-", i, clock(i))
  {
    match ListedMatches(reply, parse)
    case None => FixtureFallback
    case Some(items) => StampAll(items, "match-", clock)
  }

  /** `processBookingCode` after the call: stamp `booking-<code>-<idx>-<now>`,
      or return the three fallback fixtures on any failure. */
  function ProcessBookingCode(code: string, reply: Result<Reply, CallError>, parse: string -> Result<MatchesPayload, string>, clock: nat -> nat): (r: seq<Match>)
    ensures ListedMatches(reply, parse).None? ==> r == BookingFallback
    ensures ListedMatches(reply, parse).Some? ==>
      var items := ListedMatches(reply, parse).value;
      |r| == |items| &&
      forall i :: 0 <= i < |r| ==> r[i].(id := items[i].id) == items[i] && r[i].id == StampId("booking-" + code + "-", i, clock(i))
  {
    match ListedMatches(reply, parse)
    case None => BookingFallback
    case Some(items) => StampAll(items, "booking-" + code + "-", clock)
  }

  /** A successful fetch gives every listed record a distinct `match-` id;
      a failed one gives the fallback list, whose ids are distinct too. */
  lemma FetchedIdsDistinct(reply: Result<Reply, CallError>, parse: string -> Result<MatchesPayload, string>, clock: nat -> nat)
    ensures var r := FetchUpcomingMatches(reply, parse, clock);
      forall i, j :: 0 <= i < j < |r| ==> r[i].id != r[j].id
  {
    FallbackListsShape();
    if ListedMatches(reply, parse).Some? {
      StampAllDistinct(ListedMatches(reply, parse).value, "match-", clock);
    }
  }

  /** The same for booking codes: distinct `booking-<code>-` ids, or the fallback. */
  lemma BookingIdsDistinct(code: string, reply: Result<Reply, CallError>, parse: string -> Result<MatchesPayload, string>, clock: nat -> nat)
    ensures var r := ProcessBookingCode(code, reply, parse, clock);
      forall i, j :: 0 <= i < j < |r| ==> r[i].id != r[j].id
  {
    FallbackListsShape();
    if ListedMatches(reply, parse).Some? {
      StampAllDistinct(ListedMatches(reply, parse).value, "booking-" + code + "-", clock);
    }
  }
}
