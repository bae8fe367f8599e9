/** `parseJSON` of services/geminiService.ts: which substring of the model's
    reply is handed to `JSON.parse`. `JSON.parse` itself is a parameter.

    The two regular expressions are modelled by what their first match is:
    - JSON_EXTRACT_REGEX, ```json\s*([\s\S]*?)\s*```: the first "```json"; its
      group starts after the whitespace that follows it and ends before the
      whitespace that precedes the first "```" after that point. If the first
      opener has no such fence no later opener has one either, so no other
      start can match.
    - JSON_BACKUP_REGEX, {[\s\S]*}: from the first '{' to the last '}', when
      that '}' lies after the '{'. */
module ResponseParser {
  import opened Results
  import opened Text

  const Opener: string := "```json"
  const Fence: string := "```"

  /** Group 1 of JSON_EXTRACT_REGEX's first match; None when the regex does not match. */
  function FencedCapture(text: string): Option<string> {
    match FindFrom(text, Opener, 0)
    case None => None
    case Some(p) =>
      var q := SkipSpaces(text, p + |Opener|);
      match FindFrom(text, Fence, q)
      case None => None
      case Some(f) => Some(text[q..BackOverSpaces(text, q, f)])
  }

  /** The positions of a fenced block as the regex sees it: the opener at p
      (the first one), the captured body text[q..e] with the whitespace around
      it excluded, and the first closing fence at or after q at f. */
  ghost predicate FenceShape(text: string, p: nat, q: nat, e: nat, f: nat) {
    && p + |Opener| <= q <= e <= f && f + |Fence| <= |text|
    && OccursAt(text, p, Opener) && (forall i :: 0 <= i < p ==> !OccursAt(text, i, Opener))
    && SpacesIn(text, p + |Opener|, q) && !IsSpace(text[q])
    && SpacesIn(text, e, f) && (e > q ==> !IsSpace(text[e - 1]))
    && OccursAt(text, f, Fence) && (forall j :: q <= j < f ==> !OccursAt(text, j, Fence))
  }

  /** Any text laid out as FenceShape describes yields exactly that body. */
  lemma FencedCaptureExact(text: string, p: nat, q: nat, e: nat, f: nat)
    requires FenceShape(text, p, q, e, f)
    ensures FencedCapture(text) == Some(text[q..e])
  {
    FindFromFirst(text, Opener, 0, p);
    SkipSpacesUnique(text, p + |Opener|, q);
    FindFromFirst(text, Fence, q, f);
    BackOverSpacesUnique(text, q, e, f);
  }

  /** A closing fence starts with a backtick, which is not whitespace. */
  lemma FenceStartsWithBacktick(text: string, f: nat)
    requires OccursAt(text, f, Fence)
    ensures f < |text| && text[f] == '`' && !IsSpace(text[f])
  {
    assert text[f..f + |Fence|][0] == text[f];
  }

  /** Whenever the regex matches, the text is laid out as FenceShape describes. */
  lemma FencedCaptureShape(text: string)
    requires FencedCapture(text).Some?
    ensures exists p: nat, q: nat, e: nat, f: nat :: FenceShape(text, p, q, e, f) && FencedCapture(text).value == text[q..e]
  {
    var p := FindFrom(text, Opener, 0).value;
    var q := SkipSpaces(text, p + |Opener|);
    var f := FindFrom(text, Fence, q).value;
    var e := BackOverSpaces(text, q, f);
    FenceStartsWithBacktick(text, f);
    assert FencedCapture(text).value == text[q..e];
    assert FenceShape(text, p, q, e, f);
  }

  /** The regex fails to match exactly when no opener is followed by a closing fence. */
  lemma FencedCaptureNoneIff(text: string)
    ensures FencedCapture(text).None? <==>
      forall p: nat, f: nat :: OccursAt(text, p, Opener) && OccursAt(text, f, Fence) ==> f < p + |Opener|
  {
    match FindFrom(text, Opener, 0)
    case None =>
    case Some(p0) =>
      var q := SkipSpaces(text, p0 + |Opener|);
      if FindFrom(text, Fence, q).None? {
        forall p: nat, f: nat | OccursAt(text, p, Opener) && OccursAt(text, f, Fence)
          ensures f < p + |Opener|
        {
          FenceStartsWithBacktick(text, f);
        }
      }
  }

  /** The first '{' to the last '}', when the '}' comes after the '{'
      (JSON_BACKUP_REGEX's match). */
  function BraceSpan(text: string): Option<string> {
    match FirstIndexOf(text, '{')
    case None => None
    case Some(i) =>
      match LastIndexOf(text, '}')
      case None => None
      case Some(j) => if i < j then Some(text[i..j + 1]) else None
  }

  /** The first '{' at i and the last '}' at j, with i before j. */
  ghost predicate BraceShape(text: string, i: nat, j: nat) {
    && i < j < |text|
    && text[i] == '{' && (forall k :: 0 <= k < i ==> text[k] != '{')
    && text[j] == '}' && (forall k :: j < k < |text| ==> text[k] != '}')
  }

  /** No '}' comes after a '{'. */
  ghost predicate NoBracePair(text: string) {
    forall a, b :: 0 <= a < b < |text| && text[a] == '{' ==> text[b] != '}'
  }

  /** The greedy span runs from the first '{' to the last '}', both included. */
  lemma BraceSpanExact(text: string, i: nat, j: nat)
    requires BraceShape(text, i, j)
    ensures BraceSpan(text) == Some(text[i..j + 1])
  {
  }

  /** The backup regex fails to match exactly when no '}' follows a '{'. */
  lemma BraceSpanNoneIff(text: string)
    ensures BraceSpan(text).None? <==> NoBracePair(text)
  {
  }

  /** Which branch of the cascade supplies the text handed to `JSON.parse`. */
  datatype Branch = FencedBranch | BraceBranch | WholeBranch

  datatype Candidate = Attempt(branch: Branch, handed: string) | NoCandidate

  /** The cascade once the fenced rule has not applied. */
  function Unfenced(text: string): Candidate {
    match BraceSpan(text)
    case Some(span) => Attempt(BraceBranch, span)
    case None => if StartsWith(Trim(text), "{") then Attempt(WholeBranch, text) else NoCandidate
  }

  /** The whole cascade: `match && match[1]` is truthy only for a non-empty capture. */
  function Choose(text: string): Candidate {
    var cap := FencedCapture(text);
    if cap.Some? && cap.value != "" then Attempt(FencedBranch, cap.value) else Unfenced(text)
  }

  /** The fenced rule does not apply: no match, or a blank body. */
  predicate NoUsableFence(text: string) {
    FencedCapture(text).None? || FencedCapture(text) == Some("")
  }

  datatype JsonError = NoJsonFound | Malformed(message: string)

  /** `parseJSON`: parse the chosen candidate; a parse error is rethrown as is,
      and "No JSON found in response" is thrown when no rule applies. */
  function ParseJson<J>(text: string, parse: string -> Result<J, string>): (r: Result<J, JsonError>)
    ensures r == Failure(NoJsonFound) <==> Choose(text) == NoCandidate
    ensures r.Success? ==> parse(Choose(text).handed) == Success(r.value)
    ensures r.Failure? && r.error.Malformed? ==> parse(Choose(text).handed) == Failure(r.error.message)
  {
    match Choose(text)
    case NoCandidate => Failure(NoJsonFound)
    case Attempt(_, s) =>
      match parse(s)
      case Success(v) => Success(v)
      case Failure(m) => Failure(Malformed(m))
  }

  /** A fenced block with a non-blank body wins, and only its parse decides the
      outcome: a parse error there is final and the later rules are not tried. */
  lemma FencedBranchWins<J>(text: string, p: nat, q: nat, e: nat, f: nat, parse: string -> Result<J, string>)
    requires FenceShape(text, p, q, e, f) && q < e
    ensures Choose(text) == Attempt(FencedBranch, text[q..e])
    ensures ParseJson(text, parse).Success? <==> parse(text[q..e]).Success?
  {
    FencedCaptureExact(text, p, q, e, f);
  }

  /** A fenced block whose body is empty or blank captures "" and the cascade
      falls through to the brace rule. */
  lemma BlankFenceFallsThrough(text: string, p: nat, q: nat, f: nat)
    requires FenceShape(text, p, q, q, f)
    ensures NoUsableFence(text)
    ensures Choose(text) == Unfenced(text)
  {
    FencedCaptureExact(text, p, q, q, f);
    assert text[q..q] == "";
  }

  /** With no usable fence, the span from the first '{' to the last '}' is parsed. */
  lemma BraceBranchWins(text: string, i: nat, j: nat)
    requires NoUsableFence(text) && BraceShape(text, i, j)
    ensures Choose(text) == Attempt(BraceBranch, text[i..j + 1])
  {
    BraceSpanExact(text, i, j);
  }

  /** The whole text is parsed only when no fence applies, the trimmed text
      starts with '{', and no '}' follows any '{'. */
  lemma WholeBranchOnlyIf(text: string)
    requires Choose(text).Attempt? && Choose(text).branch == WholeBranch
    ensures NoUsableFence(text) && NoBracePair(text)
    ensures StartsWith(Trim(text), "{") && Choose(text).handed == text
  {
    BraceSpanNoneIff(text);
  }

  /** "No JSON found in response" is thrown exactly when no rule applies. */
  lemma NoJsonIff<J>(text: string, parse: string -> Result<J, string>)
    ensures ParseJson(text, parse) == Failure(NoJsonFound) <==>
      NoUsableFence(text) && NoBracePair(text) && !StartsWith(Trim(text), "{")
  {
    BraceSpanNoneIff(text);
  }
}
