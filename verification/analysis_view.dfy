/** The pure helpers of components/AnalysisResult.tsx: the selection id and
    record built from a prediction, the exact-triple membership test, the
    split of a match title into two team names, and the confidence badge. */
module AnalysisView {
  import opened Results
  import opened Text
  import opened Domain
  import opened BetSlip
  import opened AppShell

  // Selection ids

  /** `replace(/\s+/g, '-')`: every maximal run of whitespace becomes one '-'. */
  function CollapseSpaces(s: string): (r: string)
    ensures |r| <= |s|
    ensures forall k :: 0 <= k < |r| ==> !IsSpace(r[k])
    ensures (forall k :: 0 <= k < |s| ==> !IsSpace(s[k])) ==> r == s
    decreases |s|
  {
    if s == [] then []
    else if IsSpace(s[0]) then
      var j := SkipSpaces(s, 1);
      "-" + CollapseSpaces(s[j..])
    else
      [s[0]] + CollapseSpaces(s[1..])
  }

  /** Dropping a prefix of a + t inside a is dropping it from a. */
  lemma DropFromAppend(a: string, t: string, j: nat)
    requires j <= |a|
    ensures (a + t)[j..] == a[j..] + t
  {
  }

  /** A whitespace run that ends inside a ends at the same place in a + t. */
  lemma SkipSpacesInPrefix(a: string, t: string, j: nat)
    requires 1 <= j < |a| && j == SkipSpaces(a, 1)
    ensures SkipSpaces(a + t, 1) == j
  {
    var s := a + t;
    assert SpacesIn(s, 1, j) by {
      forall k | 1 <= k < j ensures IsSpace(s[k]) {
        assert s[k] == a[k];
      }
    }
    assert s[j] == a[j];
    SkipSpacesUnique(s, 1, j);
  }

  /** The step of CollapseAppend for a leading whitespace run. */
  lemma CollapseAppendSpace(a: string, t: string, j: nat)
    requires a != [] && IsSpace(a[0]) && j == SkipSpaces(a, 1) && j < |a|
    requires CollapseSpaces(a[j..] + t) == CollapseSpaces(a[j..]) + CollapseSpaces(t)
    ensures CollapseSpaces(a + t) == CollapseSpaces(a) + CollapseSpaces(t)
  {
    var s := a + t;
    assert s[0] == a[0];
    SkipSpacesInPrefix(a, t, j);
    DropFromAppend(a, t, j);
  }

  /** The step of CollapseAppend for a leading visible character. */
  lemma CollapseAppendOther(a: string, t: string)
    requires a != [] && !IsSpace(a[0])
    requires CollapseSpaces(a[1..] + t) == CollapseSpaces(a[1..]) + CollapseSpaces(t)
    ensures CollapseSpaces(a + t) == CollapseSpaces(a) + CollapseSpaces(t)
  {
    var s := a + t;
    assert s[0] == a[0];
    DropFromAppend(a, t, 1);
  }

  /** Text that ends in a visible character collapses on its own: no run
      crosses the boundary. */
  lemma {:induction false} CollapseAppend(a: string, t: string)
    requires a == [] || !IsSpace(a[|a| - 1])
    ensures CollapseSpaces(a + t) == CollapseSpaces(a) + CollapseSpaces(t)
    decreases |a|
  {
    if a == [] {
      assert a + t == t;
    } else if IsSpace(a[0]) {
      var j := SkipSpaces(a, 1);
      assert j < |a|;
      CollapseAppend(a[j..], t);
      CollapseAppendSpace(a, t, j);
    } else {
      CollapseAppend(a[1..], t);
      CollapseAppendOther(a, t);
    }
  }

  /** A leading whitespace run followed by a visible character (or nothing)
      becomes one '-'. */
  lemma CollapseLeadingRun(w: string, b: string)
    requires w != [] && SpacesIn(w, 0, |w|)
    requires b == [] || !IsSpace(b[0])
    ensures CollapseSpaces(w + b) == "-" + CollapseSpaces(b)
  {
    var s := w + b;
    assert SpacesIn(s, 1, |w|) by {
      forall k | 1 <= k < |w| ensures IsSpace(s[k]) {
        assert s[k] == w[k];
      }
    }
    assert |w| < |s| ==> s[|w|] == b[0];
    SkipSpacesUnique(s, 1, |w|);
    assert s[|w|..] == b;
  }

  /** The replacement rule itself: a maximal whitespace run between a and b
      turns into exactly one '-', and the text around it collapses on its own. */
  lemma CollapseRun(a: string, w: string, b: string)
    requires a == [] || !IsSpace(a[|a| - 1])
    requires w != [] && SpacesIn(w, 0, |w|)
    requires b == [] || !IsSpace(b[0])
    ensures CollapseSpaces(a + w + b) == CollapseSpaces(a) + "-" + CollapseSpaces(b)
  {
    var wb := w + b;
    Regroup(a, w, b);
    CollapseAppend(a, wb);
    CollapseLeadingRun(w, b);
    Regroup(CollapseSpaces(a), "-", CollapseSpaces(b));
  }

  /** Concatenation regroups. */
  lemma Regroup(x: string, y: string, z: string)
    ensures x + (y + z) == x + y + z
  {
  }

  /** No character of s is whitespace. */
  predicate Visible(s: string) {
    forall k :: 0 <= k < |s| ==> !IsSpace(s[k])
  }

  /** The id `${matchTitle}-${market}-${selection}` with whitespace runs
      turned into '-' and then lower-cased. */
  function SelectionId(matchTitle: string, market: string, selection: string): (id: string)
    ensures forall k :: 0 <= k < |id| ==> !IsSpace(id[k]) && !IsUpperAscii(id[k])
    ensures Visible(matchTitle) && Visible(market) && Visible(selection) ==>
      id == Lower(matchTitle + "-" + market + "-" + selection)
  {
    var s := matchTitle + "-" + market + "-" + selection;
    assert Visible(matchTitle) && Visible(market) && Visible(selection) ==> Visible(s) by {
      if Visible(matchTitle) && Visible(market) && Visible(selection) {
        forall k | 0 <= k < |s| ensures !IsSpace(s[k]) {
          if k < |matchTitle| { assert s[k] == matchTitle[k]; }
          else if k == |matchTitle| { assert s[k] == '-'; }
          else if k < |matchTitle| + 1 + |market| { assert s[k] == market[k - |matchTitle| - 1]; }
          else if k == |matchTitle| + 1 + |market| { assert s[k] == '-'; }
          else { assert s[k] == selection[k - |matchTitle| - |market| - 2]; }
        }
      }
    }
    var id := Lower(CollapseSpaces(s));
    assert forall k :: 0 <= k < |id| ==> !IsSpace(id[k]) by {
      var c := CollapseSpaces(s);
      forall k | 0 <= k < |id| ensures !IsSpace(id[k]) {
        assert id[k] == LowerChar(c[k]);
      }
    }
    id
  }

  /** A whitespace run inside the selection gives the same id as a single '-'
      there: "Over  2.5" and "Over-2.5" share an id. */
  lemma SelectionIdRun(matchTitle: string, market: string, a: string, w: string, b: string)
    requires a == [] || !IsSpace(a[|a| - 1])
    requires w != [] && SpacesIn(w, 0, |w|)
    requires b == [] || !IsSpace(b[0])
    ensures SelectionId(matchTitle, market, a + w + b) == SelectionId(matchTitle, market, a + "-" + b)
  {
    var pre := matchTitle + "-" + market + "-";
    var p := pre + a;
    assert p != [] && !IsSpace(p[|p| - 1]);
    assert matchTitle + "-" + market + "-" + (a + w + b) == p + w + b;
    assert matchTitle + "-" + market + "-" + (a + "-" + b) == p + ("-" + b);
    CollapseRun(p, w, b);
    CollapseAppend(p, "-" + b);
    CollapseAppend("-", b);
    assert CollapseSpaces("-") == "-";
    Regroup(CollapseSpaces(p), "-", CollapseSpaces(b));
  }

  /** Collapsing is idempotent: a collapsed string has no whitespace left. */
  lemma CollapseIdempotent(s: string)
    ensures CollapseSpaces(CollapseSpaces(s)) == CollapseSpaces(s)
  {
  }

  /** Ids are already normal: collapsing and lower-casing an id changes nothing. */
  lemma SelectionIdIsNormal(matchTitle: string, market: string, selection: string)
    ensures var id := SelectionId(matchTitle, market, selection);
      Lower(CollapseSpaces(id)) == id
  {
    var id := SelectionId(matchTitle, market, selection);
    assert CollapseSpaces(id) == id;
    assert forall k :: 0 <= k < |id| ==> LowerChar(id[k]) == id[k];
  }

  /** Lower-casing a suffix is taking the suffix of the lower-cased text. */
  lemma LowerSuffix(s: string, j: nat)
    requires j <= |s|
    ensures Lower(s)[j..] == Lower(s[j..])
  {
  }

  /** Lower-casing a character never makes or unmakes whitespace. */
  lemma LowerCharSpace(c: char)
    ensures IsSpace(LowerChar(c)) <==> IsSpace(c)
  {
  }

  /** Lower-casing distributes over a leading character. */
  lemma LowerCons(c: char, s: string)
    ensures Lower([c] + s) == [LowerChar(c)] + Lower(s)
  {
  }

  /** A leading whitespace run is skipped alike before and after lower-casing. */
  lemma LowerSkipsAlike(s: string, j: nat)
    requires 1 <= |s| && j == SkipSpaces(s, 1)
    ensures SkipSpaces(Lower(s), 1) == j
  {
    var l := Lower(s);
    forall k | 1 <= k < j ensures IsSpace(l[k]) {
      LowerCharSpace(s[k]);
    }
    if j < |s| {
      LowerCharSpace(s[j]);
    }
    SkipSpacesUnique(l, 1, j);
  }

  /** The step of CollapseLower for a leading whitespace run. */
  lemma CollapseLowerSpace(s: string, j: nat)
    requires s != [] && IsSpace(s[0]) && j == SkipSpaces(s, 1)
    requires Lower(CollapseSpaces(s[j..])) == CollapseSpaces(Lower(s[j..]))
    ensures Lower(CollapseSpaces(s)) == CollapseSpaces(Lower(s))
  {
    var l := Lower(s);
    LowerCharSpace(s[0]);
    LowerSkipsAlike(s, j);
    LowerSuffix(s, j);
    LowerCons('-', CollapseSpaces(s[j..]));
  }

  /** The step of CollapseLower for a leading visible character. */
  lemma CollapseLowerOther(s: string)
    requires s != [] && !IsSpace(s[0])
    requires Lower(CollapseSpaces(s[1..])) == CollapseSpaces(Lower(s[1..]))
    ensures Lower(CollapseSpaces(s)) == CollapseSpaces(Lower(s))
  {
    LowerCharSpace(s[0]);
    LowerSuffix(s, 1);
    LowerCons(s[0], CollapseSpaces(s[1..]));
  }

  /** Lower-casing touches only letters, so it commutes with collapsing whitespace. */
  lemma {:induction false} CollapseLower(s: string)
    ensures Lower(CollapseSpaces(s)) == CollapseSpaces(Lower(s))
    decreases |s|
  {
    if s != [] {
      if IsSpace(s[0]) {
        var j := SkipSpaces(s, 1);
        CollapseLower(s[j..]);
        CollapseLowerSpace(s, j);
      } else {
        CollapseLower(s[1..]);
        CollapseLowerOther(s);
      }
    }
  }

  /** The id ignores letter case in the selection: "Over 2.5" and "over 2.5"
      get the same id. */
  lemma SelectionIdIgnoresCase(matchTitle: string, market: string, sel1: string, sel2: string)
    requires Lower(sel1) == Lower(sel2)
    ensures SelectionId(matchTitle, market, sel1) == SelectionId(matchTitle, market, sel2)
  {
    var pre := matchTitle + "-" + market + "-";
    CollapseLower(pre + sel1);
    CollapseLower(pre + sel2);
    assert Lower(pre + sel1) == Lower(pre) + Lower(sel1);
    assert Lower(pre + sel2) == Lower(pre) + Lower(sel2);
    assert matchTitle + "-" + market + "-" + sel1 == pre + sel1;
    assert matchTitle + "-" + market + "-" + sel2 == pre + sel2;
  }

  /** `createSelection(market, detail)`: the fields are copied, the id is the slug. */
  function CreateSelection(matchTitle: string, market: string, detail: PredictionDetail): (b: BetSelection)
    ensures b.matchTitle == matchTitle && b.market == market
    ensures b.selection == detail.selection && b.confidence == detail.confidence
    ensures b.id == SelectionId(matchTitle, market, detail.selection) && b.sport.None?
  {
    BetSelection(SelectionId(matchTitle, market, detail.selection), matchTitle, market, detail.selection, detail.confidence, None)
  }

  /** `isSelected(market, selection)`: some entry has exactly this title,
      market and selection; no case or whitespace normalisation. */
  predicate IsSelected(slip: Slip, matchTitle: string, market: string, selection: string)
    ensures IsSelected(slip, matchTitle, market, selection) <==>
      exists b :: b in slip && b.matchTitle == matchTitle && b.market == market && b.selection == selection
  {
    exists k :: 0 <= k < |slip| && slip[k].matchTitle == matchTitle && slip[k].market == market && slip[k].selection == selection
  }

  /** Every entry's id is the slug of its own triple (true of entries made by
      `createSelection`, whatever sport the toggle adds). */
  predicate SlugKeyed(slip: Slip) {
    forall k :: 0 <= k < |slip| ==> slip[k].id == SelectionId(slip[k].matchTitle, slip[k].market, slip[k].selection)
  }

  /** On a slip of created entries, a selected triple has its id on the slip,
      so pressing the toggle removes it. */
  lemma SelectedMeansIdPresent(slip: Slip, matchTitle: string, market: string, detail: PredictionDetail)
    requires SlugKeyed(slip) && IsSelected(slip, matchTitle, market, detail.selection)
    ensures HasId(slip, CreateSelection(matchTitle, market, detail).id)
  {
    var k :| 0 <= k < |slip| && slip[k].matchTitle == matchTitle && slip[k].market == market && slip[k].selection == detail.selection;
    assert slip[k].id == CreateSelection(matchTitle, market, detail).id;
  }

  /** The converse fails: a selection shown as not selected can still share
      its id with an entry ("A" against "a"), and the toggle then removes that
      entry instead of adding the new one. */
  lemma UnselectedButIdPresent(matchTitle: string, market: string)
    ensures var entry := CreateSelection(matchTitle, market, PredictionDetail(market, "A", "High", ""));
      var d := PredictionDetail(market, "a", "High", "");
      && !IsSelected([entry], matchTitle, market, d.selection)
      && HasId([entry], CreateSelection(matchTitle, market, d).id)
  {
    assert Lower("A") == Lower("a") by {
      assert LowerChar('A') == 'a';
    }
    SelectionIdIgnoresCase(matchTitle, market, "A", "a");
    var entry := CreateSelection(matchTitle, market, PredictionDetail(market, "A", "High", ""));
    assert [entry][0] == entry;
  }

  /** Toggling a created entry and toggling it again restores the slip. */
  lemma CreatedToggleRestores(slip: Slip, matchTitle: string, market: string, detail: PredictionDetail, sport: Sport)
    requires !HasId(slip, SelectionId(matchTitle, market, detail.selection))
    ensures var b := CreateSelection(matchTitle, market, detail);
      Toggle(Toggle(slip, b, sport), b, sport) == slip
  {
    ToggleTwiceRestores(slip, CreateSelection(matchTitle, market, detail), sport);
  }

  // Team names

  predicate IsV(c: char) {
    c == 'v' || c == 'V'
  }

  predicate IsS(c: char) {
    c == 's' || c == 'S'
  }

  /** `\.?\s+` at i (greedy): where it ends, or None. */
  function DotThenSpaces(s: string, i: nat): (r: Option<nat>)
    requires i <= |s|
    ensures r.Some? ==> i < r.value <= |s|
  {
    if i < |s| && s[i] == '.' && SkipSpaces(s, i + 1) > i + 1 then Some(SkipSpaces(s, i + 1))
    else if SkipSpaces(s, i) > i then Some(SkipSpaces(s, i))
    else None
  }

  /** The end of a match of `\s+vs\.?\s+|\s+-\s+|\s+v\.?\s+` (case-insensitive)
      that starts at p, trying the alternatives in order. */
  function SeparatorAt(s: string, p: nat): (r: Option<nat>)
    requires p <= |s|
    ensures r.Some? ==> p < r.value <= |s| && IsSpace(s[p])
  {
    var a := SkipSpaces(s, p);
    if a == p || a == |s| then None else TokenThenSpaces(s, a)
  }

  /** `vs\.?\s+`, `-\s+` or `v\.?\s+` (case-insensitive) at a, in that order. */
  function TokenThenSpaces(s: string, a: nat): (r: Option<nat>)
    requires a < |s|
    ensures r.Some? ==> a < r.value <= |s|
  {
    if IsV(s[a]) && a + 1 < |s| && IsS(s[a + 1]) && DotThenSpaces(s, a + 2).Some? then DotThenSpaces(s, a + 2)
    else if s[a] == '-' && SkipSpaces(s, a + 1) > a + 1 then Some(SkipSpaces(s, a + 1))
    else if IsV(s[a]) && DotThenSpaces(s, a + 1).Some? then DotThenSpaces(s, a + 1)
    else None
  }

  /** The leftmost separator at or after `from`: its start and end. */
  function FirstSeparator(s: string, from: nat): (r: Option<(nat, nat)>)
    requires from <= |s|
    ensures r.Some? ==> from <= r.value.0 < r.value.1 <= |s| && SeparatorAt(s, r.value.0) == Some(r.value.1)
    ensures r.Some? ==> forall p :: from <= p < r.value.0 ==> SeparatorAt(s, p).None?
    ensures r.None? ==> forall p :: from <= p <= |s| ==> SeparatorAt(s, p).None?
    decreases |s| - from
  {
    if SeparatorAt(s, from).Some? then Some((from, SeparatorAt(s, from).value))
    else if from == |s| then None
    else FirstSeparator(s, from + 1)
  }

  lemma FirstSeparatorIs(s: string, from: nat, p: nat)
    requires from <= p <= |s| && SeparatorAt(s, p).Some?
    requires forall q :: from <= q < p ==> SeparatorAt(s, q).None?
    ensures FirstSeparator(s, from) == Some((p, SeparatorAt(s, p).value))
    decreases p - from
  {
    if from < p {
      FirstSeparatorIs(s, from + 1, p);
    }
  }

  lemma NoSeparatorFrom(s: string, from: nat)
    requires from <= |s|
    requires forall q :: from <= q <= |s| ==> SeparatorAt(s, q).None?
    ensures FirstSeparator(s, from).None?
    decreases |s| - from
  {
    if from < |s| {
      NoSeparatorFrom(s, from + 1);
    }
  }

  /** `getTeamNames`: the first two pieces of the split, or the whole title
      and "" when there is no separator. The home name is everything before
      the first separator; the away name starts right after it. */
  function TeamNames(title: string): (r: (string, string))
    ensures FirstSeparator(title, 0).None? ==> r == (title, "")
    ensures FirstSeparator(title, 0).Some? ==>
      var p := FirstSeparator(title, 0).value.0;
      var q := FirstSeparator(title, 0).value.1;
      && r.0 == title[..p]
      && StartsWith(title[q..], r.1)
      && (FirstSeparator(title, q).None? ==> r.1 == title[q..])
      && (FirstSeparator(title, q).Some? ==> r.1 == title[q..FirstSeparator(title, q).value.0])
  {
    match FirstSeparator(title, 0)
    case None => (title, "")
    case Some((p, q)) =>
      match FirstSeparator(title, q)
      case None =>
        assert title[q..][..|title[q..]|] == title[q..];
        (title[..p], title[q..])
      case Some((p2, _)) =>
        assert title[q..][..p2 - q] == title[q..p2];
        (title[..p], title[q..p2])
  }

  /** Moves a found position right by n. */
  function ShiftBy(o: Option<nat>, n: nat): Option<nat> {
    match o
    case None => None
    case Some(e) => Some(n + e)
  }

  /** Whitespace runs inside y are found alike in x + y. */
  lemma {:induction false} SkipSpacesShift(x: string, y: string, i: nat)
    requires i <= |y|
    ensures SkipSpaces(x + y, |x| + i) == |x| + SkipSpaces(y, i)
    decreases |y| - i
  {
    if i < |y| {
      assert (x + y)[|x| + i] == y[i];
      if IsSpace(y[i]) {
        SkipSpacesShift(x, y, i + 1);
      }
    }
  }

  lemma DotThenSpacesShift(x: string, y: string, i: nat)
    requires i <= |y|
    ensures DotThenSpaces(x + y, |x| + i) == ShiftBy(DotThenSpaces(y, i), |x|)
  {
    SkipSpacesShift(x, y, i);
    if i < |y| {
      assert (x + y)[|x| + i] == y[i];
      SkipSpacesShift(x, y, i + 1);
    }
  }

  /** A separator match looks only to its right, so a prefix does not change it. */
  lemma SeparatorAtShift(x: string, y: string, p: nat)
    requires p <= |y|
    ensures SeparatorAt(x + y, |x| + p) == ShiftBy(SeparatorAt(y, p), |x|)
  {
    var a := SkipSpaces(y, p);
    SkipSpacesShift(x, y, p);
    if a < |y| {
      TokenShift(x, y, a);
    }
  }

  lemma TokenShift(x: string, y: string, a: nat)
    requires a < |y|
    ensures TokenThenSpaces(x + y, |x| + a) == ShiftBy(TokenThenSpaces(y, a), |x|)
  {
    var t := x + y;
    assert t[|x| + a] == y[a];
    SkipSpacesShift(x, y, a + 1);
    DotThenSpacesShift(x, y, a + 1);
    if a + 1 < |y| {
      assert t[|x| + a + 1] == y[a + 1];
      DotThenSpacesShift(x, y, a + 2);
    }
  }

  /** No separator starts in y exactly when none starts in the y part of x + y. */
  lemma NoSeparatorShift(x: string, y: string)
    ensures (forall p :: 0 <= p <= |y| ==> SeparatorAt(y, p).None?) <==>
      FirstSeparator(x + y, |x|).None?
  {
    var t := x + y;
    if forall p :: 0 <= p <= |y| ==> SeparatorAt(y, p).None? {
      forall q | |x| <= q <= |t| ensures SeparatorAt(t, q).None? {
        SeparatorAtShift(x, y, q - |x|);
      }
      NoSeparatorFrom(t, |x|);
    } else {
      var p :| 0 <= p <= |y| && SeparatorAt(y, p).Some?;
      SeparatorAtShift(x, y, p);
    }
  }

  /** In `home vs away` a separator starts right after home and swallows the
      whitespace that opens away. */
  lemma VsSeparator(home: string, away: string)
    ensures var t := home + " vs " + away; var h := |home|;
      && h + 4 <= SkipSpaces(t, h + 3)
      && SeparatorAt(t, h) == Some(SkipSpaces(t, h + 3))
  {
    var t := home + " vs " + away;
    var h := |home|;
    assert t[h] == ' ' && t[h + 1] == 'v' && t[h + 2] == 's' && t[h + 3] == ' ';
    SkipSpacesUnique(t, h, h + 1);
    assert t[h + 3] != '.';
  }

  /** When `home vs away` splits back into exactly home and away: no separator
      starts inside home (it neither ends in whitespace nor in " v", " vs",
      " v." or " -"), away does not open with whitespace, and no separator
      starts anywhere in away. Names like "Aston Villa" qualify. */
  ghost predicate SplitsCleanly(home: string, away: string) {
    && (forall p :: 0 <= p < |home| ==> SeparatorAt(home + " vs " + away, p).None?)
    && (away == [] || !IsSpace(away[0]))
    && (forall p :: 0 <= p <= |away| ==> SeparatorAt(away, p).None?)
  }

  /** The clean case: the split returns home and away. */
  lemma SplitsCleanlyRoundTrip(home: string, away: string)
    requires SplitsCleanly(home, away)
    ensures TeamNames(home + " vs " + away) == (home, away)
  {
    var x := home + " vs ";
    var t := x + away;
    var h := |home|;
    VsSeparator(home, away);
    SkipSpacesUnique(t, h + 3, h + 4);
    FirstSeparatorIs(t, 0, h);
    NoSeparatorShift(x, away);
    assert t[..h] == home && t[h + 4..] == away;
  }

  /** The other direction: a split that gives back home and away means the
      split was clean. */
  lemma RoundTripSplitsCleanly(home: string, away: string)
    requires TeamNames(home + " vs " + away) == (home, away)
    ensures SplitsCleanly(home, away)
  {
    var x := home + " vs ";
    var t := x + away;
    var h := |home|;
    var r := TeamNames(t);
    VsSeparator(home, away);
    var first := FirstSeparator(t, 0);
    if first.None? {
      assert false;
    }
    var p, q := first.value.0, first.value.1;
    assert |r.0| == p;
    assert p == h;
    assert q == SkipSpaces(t, h + 3);
    assert |r.1| <= |t| - q;
    assert q == h + 4;
    if FirstSeparator(t, q).Some? {
      assert false;
    }
    NoSeparatorShift(x, away);
  }

  /** `home vs away` splits back into home and away exactly when the split is clean. */
  lemma TeamNamesRoundTrip(home: string, away: string)
    ensures TeamNames(home + " vs " + away) == (home, away) <==> SplitsCleanly(home, away)
  {
    if SplitsCleanly(home, away) {
      SplitsCleanlyRoundTrip(home, away);
    }
    if TeamNames(home + " vs " + away) == (home, away) {
      RoundTripSplitsCleanly(home, away);
    }
  }

  /** The title App.tsx builds for a listed fixture splits back into its two
      teams exactly when the split is clean. */
  lemma FixtureTitleSplitsBack(m: Match)
    requires m.id != "manual"
    ensures TeamNames(MatchTitle(m)) == (m.home, m.away) <==> SplitsCleanly(m.home, m.away)
  {
    TeamNamesRoundTrip(m.home, m.away);
  }

  /** A simpler sufficient test: a name that neither starts nor ends with
      whitespace and in which no whitespace is followed by 'v', 'V' or '-'.
      It rejects some names that split fine, such as "Aston Villa". */
  predicate PlainName(s: string) {
    && s != [] && !IsSpace(s[0]) && !IsSpace(s[|s| - 1])
    && forall i :: 0 <= i < |s| - 1 && IsSpace(s[i]) && !IsSpace(s[i + 1]) ==> !IsV(s[i + 1]) && s[i + 1] != '-'
  }

  /** No separator starts inside a plain name embedded at [lo, hi). */
  lemma NoSeparatorInside(t: string, lo: nat, hi: nat, p: nat)
    requires lo <= p < hi <= |t| && PlainName(t[lo..hi])
    ensures SeparatorAt(t, p).None?
  {
    var name := t[lo..hi];
    if IsSpace(t[p]) {
      assert name[p - lo] == t[p];
      var a := SkipSpaces(t, p);
      assert name[hi - 1 - lo] == t[hi - 1];
      assert a < hi;
      assert IsSpace(t[a - 1]) && !IsSpace(t[a]);
      assert name[a - 1 - lo] == t[a - 1] && name[a - lo] == t[a];
    }
  }

  /** Two plain names split cleanly. */
  lemma PlainNamesSplitCleanly(home: string, away: string)
    requires PlainName(home) && PlainName(away)
    ensures SplitsCleanly(home, away)
  {
    var t := home + " vs " + away;
    assert t[0..|home|] == home;
    forall p | 0 <= p < |home| ensures SeparatorAt(t, p).None? {
      NoSeparatorInside(t, 0, |home|, p);
    }
    assert away[0..|away|] == away;
    forall p | 0 <= p <= |away| ensures SeparatorAt(away, p).None? {
      if p < |away| {
        NoSeparatorInside(away, 0, |away|, p);
      }
    }
  }

  /** With no separator the whole title is the home name and the away name is empty. */
  lemma TeamNamesWithoutSeparator(title: string)
    requires forall p :: 0 <= p <= |title| ==> SeparatorAt(title, p).None?
    ensures TeamNames(title) == (title, "")
  {
    NoSeparatorFrom(title, 0);
  }

  // Confidence badge

  /** The three badge styles: emerald, amber and red. */
  datatype Tone = Emerald | Amber | Red

  function ToneOf(l: Level): Tone {
    match l
    case High => Emerald
    case Medium => Amber
    case Low => Red
  }

  /** `styles[level] || styles.Medium`, showing the raw level text. */
  datatype Badge = Badge(tone: Tone, text: string)

  function ConfidenceBadge(level: string): (b: Badge)
    ensures b.text == level
    ensures ParseLevel(level).Some? ==> b.tone == ToneOf(ParseLevel(level).value)
    ensures ParseLevel(level).None? ==> b.tone == Amber
  {
    match ParseLevel(level)
    case Some(l) => Badge(ToneOf(l), level)
    case None => Badge(Amber, level)
  }

  /** An unknown level looks like Medium but keeps its own text. */
  lemma UnknownLevelLooksMedium(level: string)
    requires level != "High" && level != "Medium" && level != "Low"
    ensures ConfidenceBadge(level).tone == ConfidenceBadge("Medium").tone
    ensures ConfidenceBadge(level).text != ConfidenceBadge("Medium").text
  {
  }
}
