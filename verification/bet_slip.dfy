/** The bet slip held by App.tsx: a list of selections with toggle, remove
    and clear, all keyed on the selection id. */
module BetSlip {
  import opened Results
  import opened Domain
  import opened Seqs

  type Slip = seq<BetSelection>

  function IdOf(b: BetSelection): string {
    b.id
  }

  /** The filter callback `s => s.id !== id`. */
  function Other(id: string): BetSelection -> bool {
    (b: BetSelection) => b.id != id
  }

  predicate HasId(slip: Slip, id: string) {
    exists i :: 0 <= i < |slip| && slip[i].id == id
  }

  ghost predicate DistinctIds(slip: Slip) {
    DistinctBy(slip, IdOf)
  }

  /** `prev.filter(s => s.id !== id)`: drops exactly the entries with that id
      and keeps the others in order. */
  function Remove(slip: Slip, id: string): (r: Slip)
    ensures !HasId(r, id)
    ensures forall b :: b in r <==> b in slip && b.id != id
    ensures IsSubsequence(r, slip)
    ensures !HasId(slip, id) ==> r == slip
    ensures forall b :: multiset(r)[b] == if b.id != id then multiset(slip)[b] else 0
  {
    var r := Filter(slip, Other(id));
    FilterCounts(slip, Other(id));
    assert !HasId(slip, id) ==> r == slip by {
      if !HasId(slip, id) {
        FilterKeepsAll(slip, Other(id));
      }
    }
    assert forall i :: 0 <= i < |r| ==> r[i] in r;
    r
  }

  /** `handleToggleBet`: an entry with the id is there (`find` returns an
      object, which is truthy), so every entry with it goes; otherwise the
      selection, tagged with the current sport, is appended. */
  function Toggle(slip: Slip, selection: BetSelection, sport: Sport): (r: Slip)
    ensures HasId(slip, selection.id) ==> r == Remove(slip, selection.id)
    ensures !HasId(slip, selection.id) ==> |r| == |slip| + 1 && r[..|slip|] == slip
    ensures !HasId(slip, selection.id) ==> r[|slip|] == selection.(sport := Some(sport))
  {
    if HasId(slip, selection.id) then Remove(slip, selection.id)
    else slip + [selection.(sport := Some(sport))]
  }

  /** `handleClearSlip`. */
  function Clear(slip: Slip): (r: Slip)
    ensures |r| == 0
  {
    []
  }

  /** Toggling on an entry that is there leaves no entry with that id. */
  lemma ToggleOffRemovesAll(slip: Slip, selection: BetSelection, sport: Sport)
    requires HasId(slip, selection.id)
    ensures !HasId(Toggle(slip, selection, sport), selection.id)
    ensures forall b :: b in Toggle(slip, selection, sport) <==> b in slip && b.id != selection.id
    ensures |Toggle(slip, selection, sport)| < |slip|
  {
    var i :| 0 <= i < |slip| && slip[i].id == selection.id;
    var r := Toggle(slip, selection, sport);
    assert slip[i] !in r;
    FilterShrinks(slip, Other(selection.id), i);
  }

  /** Toggle keeps the slip free of duplicate ids. */
  lemma ToggleKeepsDistinct(slip: Slip, selection: BetSelection, sport: Sport)
    requires DistinctIds(slip)
    ensures DistinctIds(Toggle(slip, selection, sport))
  {
    var r := Toggle(slip, selection, sport);
    if HasId(slip, selection.id) {
      FilterKeepsDistinct(slip, Other(selection.id), IdOf);
    } else {
      forall i, j | 0 <= i < j < |r| ensures IdOf(r[i]) != IdOf(r[j]) {
        if j == |slip| {
          assert r[i] == slip[i];
        } else {
          assert r[i] == slip[i] && r[j] == slip[j];
        }
      }
    }
  }

  /** Remove keeps the slip free of duplicate ids. */
  lemma RemoveKeepsDistinct(slip: Slip, id: string)
    requires DistinctIds(slip)
    ensures DistinctIds(Remove(slip, id))
  {
    FilterKeepsDistinct(slip, Other(id), IdOf);
  }

  /** Toggling a selection in and out again restores the slip. */
  lemma ToggleTwiceRestores(slip: Slip, selection: BetSelection, sport: Sport)
    requires !HasId(slip, selection.id)
    ensures Toggle(Toggle(slip, selection, sport), selection, sport) == slip
  {
    var added := selection.(sport := Some(sport));
    var once := Toggle(slip, selection, sport);
    assert once == slip + [added];
    assert once[|slip|].id == selection.id;
    FilterAppend(slip, added, Other(selection.id));
    FilterKeepsAll(slip, Other(selection.id));
  }

  /** Removing an id twice is removing it once. */
  lemma RemoveIdempotent(slip: Slip, id: string)
    ensures Remove(Remove(slip, id), id) == Remove(slip, id)
  {
    FilterIdempotent(slip, Other(id));
  }

  /** Removals of two ids can be done in either order. */
  lemma RemoveCommutes(slip: Slip, id: string, other: string)
    requires other != id
    ensures Remove(Remove(slip, id), other) == Remove(Remove(slip, other), id)
  {
    FilterCommutes(slip, Other(id), Other(other));
  }
}
