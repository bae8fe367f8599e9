/** components/BetBuilder.tsx: the floating panel over the bet slip, with its
    count label, one row per entry (remove control and confidence colour)
    and the text the copy button puts on the clipboard. */
module BetBuilder {
  import opened Results
  import opened Text
  import opened Domain
  import opened Seqs
  import opened BetSlip
  import opened AnalysisView

  // Confidence colour

  /** The stripe and tag colour of a row: 'High' is emerald, 'Medium' is
      amber and every other text is red. */
  function EntryTone(confidence: string): (t: Tone)
    ensures t == Emerald <==> confidence == "High"
    ensures t == Amber <==> confidence == "Medium"
  {
    if confidence == "High" then Emerald
    else if confidence == "Medium" then Amber
    else Red
  }

  /** On the three levels the row agrees with the analysis badge; on any
      other text the row is red while the badge falls back to amber. */
  lemma EntryToneAgainstBadge(confidence: string)
    ensures ParseLevel(confidence).Some? ==> EntryTone(confidence) == ConfidenceBadge(confidence).tone
    ensures ParseLevel(confidence).None? ==> EntryTone(confidence) == Red && ConfidenceBadge(confidence).tone == Amber
  {
    if ParseLevel(confidence).Some? {
      assert LevelName(ParseLevel(confidence).value) == confidence;
    } else {
      assert LevelName(High) != confidence && LevelName(Medium) != confidence;
    }
  }

  // Count label

  /** `{n} Selection{n !== 1 ? 's' : ''}`. */
  function CountLabel(n: nat): (r: string)
    ensures |r| > |NatToString(n)|
  {
    NatToString(n) + " Selection" + (if n != 1 then "s" else "")
  }

  /** The label starts with the decimal count, read back up to the first
      space, and it ends in 's' exactly when the count is not 1. */
  lemma CountLabelReadsBack(n: nat)
    ensures var r := CountLabel(n);
      && FirstIndexOf(r, ' ').Some?
      && var d := FirstIndexOf(r, ' ').value;
      && AllDigits(r[..d]) && DigitsValue(r[..d]) == n
      && (r[|r| - 1] == 's' <==> n != 1)
  {
    var digits := NatToString(n);
    var r := CountLabel(n);
    var d := |digits|;
    assert r[d] == ' ';
    assert forall j :: 0 <= j < d ==> r[j] == digits[j] && IsDigit(r[j]);
    assert FirstIndexOf(r, ' ') == Some(d);
    assert r[..d] == digits;
    DecimalRoundTrip(n);
  }

  // Rows

  /** What a row shows and what its remove control passes to `onRemove`. */
  datatype Row = Row(removeId: string, matchTitle: string, selection: string, confidence: string, market: string, tone: Tone)

  function RowOf(b: BetSelection): Row {
    Row(b.id, b.matchTitle, b.selection, b.confidence, b.market, EntryTone(b.confidence))
  }

  // Copy text

  /** The second line of an entry: `market: selection (confidence)`. */
  function EntryLine(b: BetSelection): string {
    b.market + ": " + b.selection + " (" + b.confidence + ")"
  }

  /** One entry: the match title, a line break, then its line. */
  function EntryText(b: BetSelection): string {
    b.matchTitle + "\n" + EntryLine(b)
  }

  /** `selections.map(...).join('\n\n')`. */
  function CopyText(slip: Slip): (r: string)
    ensures |slip| == 1 ==> r == EntryText(slip[0])
    decreases |slip|
  {
    if slip == [] then ""
    else if |slip| == 1 then EntryText(slip[0])
    else EntryText(slip[0]) + "\n\n" + CopyText(slip[1..])
  }

  /** Joining from the other end: appending an entry appends a blank line and its text. */
  lemma {:induction false} CopyTextAppend(slip: Slip, b: BetSelection)
    requires slip != []
    ensures CopyText(slip + [b]) == CopyText(slip) + "\n\n" + EntryText(b)
    decreases |slip|
  {
    var s := slip + [b];
    assert s[0] == slip[0] && s[1..] == slip[1..] + [b];
    if |slip| > 1 {
      CopyTextAppend(slip[1..], b);
    } else {
      assert s[1..] == [b];
    }
  }

  /** The panel: nothing for an empty slip, otherwise the label, the rows in
      slip order and the copy text. */
  datatype Panel = Panel(countLabel: string, rows: seq<Row>, copyText: string)

  function Render(slip: Slip): (r: Option<Panel>)
    ensures r.None? <==> slip == []
    ensures r.Some? ==> |r.value.rows| == |slip| && r.value.countLabel == CountLabel(|slip|) && r.value.copyText == CopyText(slip)
    ensures r.Some? ==> forall i :: 0 <= i < |slip| ==> r.value.rows[i] == RowOf(slip[i])
  {
    if slip == [] then None
    else Some(Panel(CountLabel(|slip|), seq(|slip|, i requires 0 <= i < |slip| => RowOf(slip[i])), CopyText(slip)))
  }

  /** On a slip with distinct ids, a row's remove control removes that row's
      entry and nothing else. */
  lemma RemoveControlRemovesItsRow(slip: Slip, i: nat)
    requires DistinctIds(slip) && i < |slip|
    ensures Remove(slip, Render(slip).value.rows[i].removeId) == slip[..i] + slip[i + 1..]
  {
    var id := slip[i].id;
    assert Render(slip).value.rows[i].removeId == id;
    forall j | 0 <= j < |slip| ensures Other(id)(slip[j]) <==> j != i {
      if j < i {
        assert IdOf(slip[j]) != IdOf(slip[i]);
      } else if j > i {
        assert IdOf(slip[i]) != IdOf(slip[j]);
      }
    }
    FilterDropsOne(slip, Other(id), i);
  }

  // Reading the copy text back

  /** The four fields the copy text carries for each entry. */
  datatype Copied = Copied(matchTitle: string, market: string, selection: string, confidence: string)

  function CopiedOf(b: BetSelection): Copied {
    Copied(b.matchTitle, b.market, b.selection, b.confidence)
  }

  function CopiedAll(slip: Slip): (r: seq<Copied>)
    ensures |r| == |slip|
  {
    if slip == [] then [] else [CopiedOf(slip[0])] + CopiedAll(slip[1..])
  }

  /** Fields the format cannot confuse: no line breaks anywhere, no ':' in the
      market and no '(' in the confidence. */
  predicate Copyable(b: BetSelection) {
    && '\n' !in b.matchTitle && '\n' !in b.market && '\n' !in b.selection && '\n' !in b.confidence
    && ':' !in b.market && '(' !in b.confidence
  }

  /** Reads `market: selection (confidence)`: the market ends at the first
      ':', the confidence starts after the last '('. */
  function ParseLine(line: string): Option<(string, string, string)> {
    match FirstIndexOf(line, ':')
    case None => None
    case Some(i) =>
      if i + 1 < |line| && line[i + 1] == ' ' then
        match ParseRest(line[i + 2..])
        case None => None
        case Some((selection, confidence)) => Some((line[..i], selection, confidence))
      else None
  }

  /** The part after `market: `: a selection, a space, and the confidence in
      the last pair of parentheses, which closes the line. */
  function ParseRest(rest: string): Option<(string, string)> {
    if rest != [] && rest[|rest| - 1] == ')' then
      match LastIndexOf(rest, '(')
      case None => None
      case Some(j) =>
        if 0 < j && rest[j - 1] == ' ' then Some((rest[..j - 1], rest[j + 1..|rest| - 1]))
        else None
    else None
  }

  /** Reads the lines of a copy text: title, entry line, and a blank line
      between entries. */
  function ReadBack(lines: seq<string>): Option<seq<Copied>>
    decreases |lines|
  {
    if |lines| < 2 then None
    else match ParseLine(lines[1])
      case None => None
      case Some((market, selection, confidence)) =>
        var head := Copied(lines[0], market, selection, confidence);
        if |lines| == 2 then Some([head])
        else if lines[2] != "" then None
        else match ReadBack(lines[3..])
          case None => None
          case Some(rest) => Some([head] + rest)
  }

  /** The market is everything before the first ':'. */
  lemma MarketEndsAtColon(market: string, rest: string)
    requires ':' !in market
    ensures FirstIndexOf(market + ": " + rest, ':') == Some(|market|)
  {
    var line := market + ": " + rest;
    assert forall j :: 0 <= j < |market| ==> line[j] == market[j];
    FirstIndexOfAt(line, ':', |market|);
  }

  /** The confidence is everything after the last '(': none follows it. */
  lemma ConfidenceAfterLastParen(rest: string, k: nat, confidence: string)
    requires k < |rest| && rest[k] == '(' && '(' !in confidence
    requires rest[k + 1..] == confidence + ")"
    ensures LastIndexOf(rest, '(') == Some(k)
  {
    forall j | k < j < |rest| ensures rest[j] != '(' {
      assert rest[j] == rest[k + 1..][j - k - 1];
    }
    LastIndexOfAt(rest, '(', k);
  }

  /** Where the parts of `selection (confidence)` sit. */
  lemma RestLayout(selection: string, confidence: string)
    ensures var rest := selection + " (" + confidence + ")"; var k := |selection| + 1;
      && k < |rest| && rest[k] == '(' && rest[k + 1..] == confidence + ")"
      && rest[k - 1] == ' ' && rest[|rest| - 1] == ')'
      && rest[..k - 1] == selection && rest[k + 1..|rest| - 1] == confidence
  {
    var rest := selection + " (" + confidence + ")";
    var k := |selection| + 1;
    assert rest[k + 1..] == confidence + ")";
    assert rest[..k - 1] == selection;
    assert rest[k + 1..|rest| - 1] == confidence;
  }

  /** Where the parts of `market: rest` sit. */
  lemma LineLayout(market: string, rest: string)
    ensures var line := market + ": " + rest; var m := |market|;
      && m + 1 < |line| && line[m + 1] == ' ' && line[m + 2..] == rest && line[..m] == market
  {
    var line := market + ": " + rest;
    assert line[|market| + 2..] == rest;
    assert line[..|market|] == market;
  }

  lemma ParseRestRoundTrip(selection: string, confidence: string)
    requires '(' !in confidence
    ensures ParseRest(selection + " (" + confidence + ")") == Some((selection, confidence))
  {
    var rest := selection + " (" + confidence + ")";
    RestLayout(selection, confidence);
    ConfidenceAfterLastParen(rest, |selection| + 1, confidence);
  }

  lemma ParseLineOf(market: string, rest: string)
    requires ':' !in market
    ensures ParseLine(market + ": " + rest) == match ParseRest(rest)
      case None => None
      case Some((selection, confidence)) => Some((market, selection, confidence))
  {
    MarketEndsAtColon(market, rest);
    LineLayout(market, rest);
  }

  lemma ParseLineRoundTrip(b: BetSelection)
    requires Copyable(b)
    ensures ParseLine(EntryLine(b)) == Some((b.market, b.selection, b.confidence))
  {
    var rest := b.selection + " (" + b.confidence + ")";
    assert EntryLine(b) == b.market + ": " + rest;
    ParseRestRoundTrip(b.selection, b.confidence);
    ParseLineOf(b.market, rest);
  }

  lemma EntryLineHasNoBreak(b: BetSelection)
    requires Copyable(b)
    ensures '\n' !in EntryLine(b)
  {
  }

  lemma ReadBackOne(lines: seq<string>, head: Copied)
    requires |lines| == 2 && lines[0] == head.matchTitle
    requires ParseLine(lines[1]) == Some((head.market, head.selection, head.confidence))
    ensures ReadBack(lines) == Some([head])
  {
  }

  lemma ReadBackMore(lines: seq<string>, head: Copied, tail: seq<Copied>)
    requires |lines| > 3 && lines[0] == head.matchTitle && lines[2] == ""
    requires ParseLine(lines[1]) == Some((head.market, head.selection, head.confidence))
    requires ReadBack(lines[3..]) == Some(tail)
    ensures ReadBack(lines) == Some([head] + tail)
  {
  }

  /** The entry text regrouped around its three line breaks. */
  lemma Regroup(title: string, line: string, more: string)
    ensures title + "\n" + line + "\n\n" + more == title + ['\n'] + (line + ['\n'] + ([] + ['\n'] + more))
  {
  }

  /** The lines of a title, a line and a blank line followed by more text. */
  lemma SplitEntryAndMore(title: string, line: string, more: string)
    requires '\n' !in title && '\n' !in line
    ensures Split(title + "\n" + line + "\n\n" + more, '\n') == [title, line, ""] + Split(more, '\n')
  {
    Regroup(title, line, more);
    var rest2 := [] + ['\n'] + more;
    var rest1 := line + ['\n'] + rest2;
    SplitAfter(title, '\n', rest1);
    SplitAfter(line, '\n', rest2);
    SplitAfter([], '\n', more);
    ConsThree(title, line, "", Split(more, '\n'));
  }

  lemma ConsThree<T>(a: T, b: T, c: T, rest: seq<T>)
    ensures [a] + ([b] + ([c] + rest)) == [a, b, c] + rest
  {
  }

  /** The lines of a title and a line. */
  lemma SplitEntryAlone(title: string, line: string)
    requires '\n' !in title && '\n' !in line
    ensures Split(title + "\n" + line, '\n') == [title, line]
  {
    assert title + "\n" + line == title + ['\n'] + line;
    SplitAfter(title, '\n', line);
    SplitNone(line, '\n');
  }

  lemma CopyTextOneRoundTrip(b: BetSelection)
    requires Copyable(b)
    ensures ReadBack(Split(CopyText([b]), '\n')) == Some(CopiedAll([b]))
  {
    var line := EntryLine(b);
    ParseLineRoundTrip(b);
    EntryLineHasNoBreak(b);
    SplitEntryAlone(b.matchTitle, line);
    var lines := Split(CopyText([b]), '\n');
    assert CopyText([b]) == b.matchTitle + "\n" + line;
    assert lines == [b.matchTitle, line];
    ReadBackOne(lines, CopiedOf(b));
    assert [b][1..] == [];
    assert CopiedAll([b]) == [CopiedOf(b)];
  }

  /** One entry in front of a slip whose copy text already reads back. */
  lemma CopyTextStepRoundTrip(slip: Slip)
    requires |slip| > 1 && Copyable(slip[0])
    requires ReadBack(Split(CopyText(slip[1..]), '\n')) == Some(CopiedAll(slip[1..]))
    ensures ReadBack(Split(CopyText(slip), '\n')) == Some(CopiedAll(slip))
  {
    var b := slip[0];
    var more := CopyText(slip[1..]);
    ParseLineRoundTrip(b);
    EntryLineHasNoBreak(b);
    assert CopyText(slip) == b.matchTitle + "\n" + EntryLine(b) + "\n\n" + more;
    SplitEntryAndMore(b.matchTitle, EntryLine(b), more);
    var lines := Split(CopyText(slip), '\n');
    assert lines[3..] == Split(more, '\n');
    ReadBackMore(lines, CopiedOf(b), CopiedAll(slip[1..]));
  }

  /** For entries whose fields avoid the delimiters, the copy text reads back
      to the entries' fields in slip order. */
  lemma {:induction false} CopyTextRoundTrip(slip: Slip)
    requires slip != []
    requires forall i :: 0 <= i < |slip| ==> Copyable(slip[i])
    ensures ReadBack(Split(CopyText(slip), '\n')) == Some(CopiedAll(slip))
    decreases |slip|
  {
    if |slip| == 1 {
      assert slip == [slip[0]];
      CopyTextOneRoundTrip(slip[0]);
    } else {
      assert forall i :: 0 <= i < |slip[1..]| ==> Copyable(slip[1..][i]) by {
        forall i | 0 <= i < |slip[1..]| ensures Copyable(slip[1..][i]) {
          assert slip[1..][i] == slip[i + 1];
        }
      }
      CopyTextRoundTrip(slip[1..]);
      CopyTextStepRoundTrip(slip);
    }
  }
}
