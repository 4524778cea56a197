/** What the parking map promises once its snapshot is laid out on `BASE_SLOTS`:
    how a selected id picks out at most one slot, how a click feeds back into the
    selection, and what is drawn for each slot. */
module MapProperties {
  import opened Optional
  import opened JsText
  import opened ParkingLayout
  import opened ParkingMap

  /** A snapshot laid out on the base table (any statuses). */
  predicate OnBaseLayout(slots: seq<Slot>) {
    Places(slots) == BaseSlots()
  }

  lemma SnapshotOnBaseLayout(draws: seq<real>)
    requires |draws| == |BaseSlots()|
    ensures OnBaseLayout(Snapshot(BaseSlots(), draws))
  {
    SnapshotKeepsLayout(BaseSlots(), draws);
  }

  lemma CleanEndsTrim(id: string)
    requires |id| == 3 && (id[0] == 'A' || id[0] == 'B') && IsDigit(id[2])
    ensures !IsJsWhiteSpace(id[0]) && !IsJsWhiteSpace(id[|id| - 1]) && Trim(id) == id
  {
    CapitalOrDigitNotWhiteSpace(id[0]);
    CapitalOrDigitNotWhiteSpace(id[2]);
    TrimKeepsClean(id);
  }

  /** A base id has neither white space at its ends nor lower-case letters. */
  lemma BaseIdClean(k: nat)
    requires k < |BaseSlots()|
    ensures var id := BaseSlots()[k].id;
      !IsJsWhiteSpace(id[0]) && !IsJsWhiteSpace(id[|id| - 1]) && Trim(id) == id && ToUpper(id) == id
  {
    BaseSlotIdShape(k);
    var id := BaseSlots()[k].id;
    assert IsDigit(id[1..][1]);
    CleanEndsTrim(id);
  }

  /** The selection text t targets an id that is its own trim and upper-case form
      exactly when t, trimmed and upper-cased, is that id. */
  lemma TargetsCleanId(t: string, id: string)
    requires Trim(id) == id && ToUpper(id) == id
    ensures Targets(Some(t), id) <==> ToUpper(Trim(t)) == id
  {
  }

  /** A selection that targets base slot k is a spelling of k's id, differing only in
      letter case, with white space around it. */
  lemma TargetsBaseSlot(t: string, k: nat)
    requires k < |BaseSlots()|
    ensures Targets(Some(t), BaseSlots()[k].id) <==> ToUpper(Trim(t)) == BaseSlots()[k].id
    ensures Targets(Some(t), BaseSlots()[k].id) ==>
      exists w1, s, w2 :: t == w1 + s + w2 && AllJsWhiteSpace(w1) && AllJsWhiteSpace(w2)
                          && ToUpper(s) == BaseSlots()[k].id
  {
    BaseIdClean(k);
    TargetsCleanId(t, BaseSlots()[k].id);
    if Targets(Some(t), BaseSlots()[k].id) {
      TrimSplits(t);
      var n := |t| - |TrimStart(t)|;
      var m := n + |Trim(t)|;
      assert t == t[..n] + Trim(t) + t[m..];
    }
  }

  /** Two different ids, each its own trim and upper-case form, are never both targeted. */
  lemma TargetsOneCleanId(t: string, a: string, b: string)
    requires Trim(a) == a && ToUpper(a) == a && ToUpper(b) == b && a != b
    requires Targets(Some(t), a)
    ensures !Targets(Some(t), b)
  {
  }

  /** A spelling of a clean id that differs from it only in letter case, with white
      space around it, targets that id. */
  lemma SpellingTargets(w1: string, s: string, w2: string, id: string)
    requires AllJsWhiteSpace(w1) && AllJsWhiteSpace(w2)
    requires ToUpper(s) == id && ToUpper(id) == id
    requires id != [] && !IsJsWhiteSpace(id[0]) && !IsJsWhiteSpace(id[|id| - 1])
    ensures Targets(Some(w1 + s + w2), id)
  {
    UpperKeepsNonWhiteSpace(s[0]);
    UpperKeepsNonWhiteSpace(s[|s| - 1]);
    TrimPadded(w1, s, w2);
  }

  /** Any spelling of a base id that differs only in letter case, with any white
      space around it, targets that slot and no other one. */
  lemma SpellingTargetsOnlyItsSlot(w1: string, s: string, w2: string, k: nat)
    requires k < |BaseSlots()|
    requires AllJsWhiteSpace(w1) && AllJsWhiteSpace(w2)
    requires ToUpper(s) == BaseSlots()[k].id
    ensures Targets(Some(w1 + s + w2), BaseSlots()[k].id)
    ensures forall j :: 0 <= j < |BaseSlots()| && j != k ==> !Targets(Some(w1 + s + w2), BaseSlots()[j].id)
  {
    var t, id := w1 + s + w2, BaseSlots()[k].id;
    BaseIdClean(k);
    SpellingTargets(w1, s, w2, id);
    forall j | 0 <= j < |BaseSlots()| && j != k
      ensures !Targets(Some(t), BaseSlots()[j].id)
    {
      BaseIdClean(j);
      BaseSlotIdsDistinct(j, k);
      TargetsOneCleanId(t, id, BaseSlots()[j].id);
    }
  }

  /** On the base layout, a selection targets at most one slot. */
  lemma AtMostOneTarget(slots: seq<Slot>, selected: Option<string>, j: nat, k: nat)
    requires OnBaseLayout(slots)
    requires j < |slots| && k < |slots|
    requires Targets(selected, slots[j].id) && Targets(selected, slots[k].id)
    ensures j == k
  {
    assert PlaceOf(slots[j]) == BaseSlots()[j] && PlaceOf(slots[k]) == BaseSlots()[k];
    BaseIdClean(j);
    BaseIdClean(k);
    if j != k {
      BaseSlotIdsDistinct(j, k);
    }
  }

  /** What is drawn for live slot k: its look follows the cascade, a parked look
      only after arrival and a selected look only before it; its label is muted when
      parked or occupied and white when selected and available; it shows the
      not-allowed cursor when occupied and not the target; and a click hands over
      the slot's id exactly when the slot is available and a handler is set. */
  lemma RenderedSlot(slots: seq<Slot>, selected: Option<string>, arrived: bool, hasHandler: bool, k: nat)
    requires k < |slots|
    ensures var v := Render(slots, selected, arrived, hasHandler)[k];
      && v.Live? && PlaceOf(slots[k]) == Place(v.id, v.x, v.y)
      && (v.look == ParkedLook <==> arrived && Targets(selected, slots[k].id))
      && (v.look == SelectedLook <==> !arrived && Targets(selected, slots[k].id))
      && (v.look == OccupiedLook <==> !Targets(selected, slots[k].id) && slots[k].status == Occupied)
      && (v.look == AvailableLook <==> !Targets(selected, slots[k].id) && slots[k].status == Available)
      && (v.labelFill == MutedFill <==> (arrived && Targets(selected, slots[k].id)) || slots[k].status == Occupied)
      && (v.labelFill == WhiteFill <==> !arrived && Targets(selected, slots[k].id) && slots[k].status == Available)
      && (v.cursor == NotAllowed <==> slots[k].status == Occupied && !Targets(selected, slots[k].id))
      && (v.click.Some? <==> hasHandler && slots[k].status == Available)
      && (v.click.Some? ==> v.click.value == slots[k].id)
  {
  }

  /** With nothing selected, every slot is drawn by its status alone. */
  lemma NoSelectionDrawsStatus(slots: seq<Slot>, arrived: bool, hasHandler: bool, k: nat)
    requires k < |slots|
    ensures var v := Render(slots, None, arrived, hasHandler)[k];
      v.Live? && v.look == (if slots[k].status == Occupied then OccupiedLook else AvailableLook)
  {
    RenderedSlot(slots, None, arrived, hasHandler, k);
  }

  /** On the base layout, at most one slot is drawn parked or selected. */
  lemma AtMostOneHighlighted(slots: seq<Slot>, selected: Option<string>, arrived: bool, hasHandler: bool, j: nat, k: nat)
    requires OnBaseLayout(slots)
    requires j < |slots| && k < |slots|
    requires Render(slots, selected, arrived, hasHandler)[j].look in {ParkedLook, SelectedLook}
    requires Render(slots, selected, arrived, hasHandler)[k].look in {ParkedLook, SelectedLook}
    ensures j == k
  {
    RenderedSlot(slots, selected, arrived, hasHandler, j);
    RenderedSlot(slots, selected, arrived, hasHandler, k);
    AtMostOneTarget(slots, selected, j, k);
  }

  /** Clicking an available slot and passing the id it hands over back in as the
      selection (as the map page does) draws that slot selected and every other
      slot by its status. */
  lemma ClickSelectsSlot(slots: seq<Slot>, hasHandler: bool, selected: Option<string>, k: nat)
    requires OnBaseLayout(slots)
    requires k < |slots| && slots[k].status == Available && hasHandler
    ensures var c := Render(slots, selected, false, hasHandler)[k].click;
      && c == Some(slots[k].id)
      && Render(slots, c, false, hasHandler)[k].look == SelectedLook
      && forall j :: 0 <= j < |slots| && j != k ==>
           Render(slots, c, false, hasHandler)[j].look in {OccupiedLook, AvailableLook}
  {
    var c := Some(slots[k].id);
    RenderedSlot(slots, selected, false, hasHandler, k);
    assert PlaceOf(slots[k]) == BaseSlots()[k];
    BaseIdClean(k);
    RenderedSlot(slots, c, false, hasHandler, k);
    forall j | 0 <= j < |slots| && j != k
      ensures Render(slots, c, false, hasHandler)[j].look in {OccupiedLook, AvailableLook}
    {
      RenderedSlot(slots, c, false, hasHandler, j);
      if Targets(c, slots[j].id) {
        AtMostOneTarget(slots, c, j, k);
      }
    }
  }

  /** Before the snapshot exists a placeholder stands at each base position, and the
      live slots are later drawn at the very same positions. */
  lemma PlaceholdersMatchLiveSlots(slots: seq<Slot>, selected: Option<string>, arrived: bool, hasHandler: bool, k: nat)
    requires OnBaseLayout(slots)
    requires k < |slots|
    ensures var p := Render([], selected, arrived, hasHandler)[k];
      var v := Render(slots, selected, arrived, hasHandler)[k];
      p.Placeholder? && v.Live? && p.x == v.x && p.y == v.y
  {
    assert PlaceOf(slots[k]) == BaseSlots()[k];
  }

  /** The cascade puts selection before status: an occupied target is drawn with the
      selected rectangle but a muted label, and keeps the pointer cursor. */
  lemma OccupiedTargetDrawnSelected(slot: Slot, selected: Option<string>, hasHandler: bool)
    requires slot.status == Occupied && Targets(selected, slot.id)
    ensures var v := ViewOf(slot, selected, false, hasHandler);
      v.look == SelectedLook && v.rect == SelectedClass && v.labelFill == MutedFill
      && v.cursor == Pointer && v.click == None
  {
  }

  /** A parked target is drawn with the occupied rectangle and a muted label. */
  lemma ParkedTargetDrawnOccupied(slot: Slot, selected: Option<string>, hasHandler: bool)
    requires Targets(selected, slot.id)
    ensures var v := ViewOf(slot, selected, true, hasHandler);
      v.look == ParkedLook && v.rect == OccupiedClass && v.labelFill == MutedFill && v.cursor == Pointer
  {
  }
}
