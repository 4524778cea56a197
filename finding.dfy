/** The snapshot is commented as "keeping target available initially", but every
    slot, the target included, takes its status from its own draw. This module
    shows the target starting occupied under the snapshot as written, and gives
    the snapshot that keeps the target available, with that property proved. */
module TargetSnapshot {
  import opened Optional
  import opened JsText
  import opened ParkingLayout
  import opened ParkingMap
  import opened MapProperties

  /** Position 11 of the base table is slot A12. */
  lemma BaseSlotElevenIsA12()
    ensures BaseSlots()[11].id == "A12"
  {
    BaseSlotAt(11);
    SlotA12();
  }

  lemma SlotA12()
    ensures SlotId('A', 11) == "A12"
  {
    var id := SlotId('A', 11);
    SlotIdShape('A', 11);
    SlotIdRoundTrip('A', 11);
    DigitsOfTwelve(id[1..]);
    assert id == [id[0]] + id[1..];
  }

  /** As written: whenever the draw for A12 (where the guidance page points by
      default) is at or below 0.3, the selected A12 starts occupied, its label is
      drawn muted, and a click on it hands nothing to the handler. */
  lemma AsWrittenTargetCanStartOccupied(draws: seq<real>)
    requires |draws| == |BaseSlots()| && draws[11] <= OccupiedThreshold
    ensures var slots := Snapshot(BaseSlots(), draws);
      var selected := Some("A12");
      && Targets(selected, slots[11].id)
      && slots[11].status == Occupied
      && Render(slots, selected, false, true)[11].labelFill == MutedFill
      && Render(slots, selected, false, true)[11].click == None
  {
    var slots := Snapshot(BaseSlots(), draws);
    SnapshotKeepsLayout(BaseSlots(), draws);
    assert PlaceOf(slots[11]) == BaseSlots()[11];
    var id := BaseSlots()[11].id;
    BaseIdClean(11);
    TargetsBaseSlot(id, 11);
    assert Targets(Some(id), id);
    BaseSlotElevenIsA12();
    RenderedSlot(slots, Some("A12"), false, true, 11);
  }

  /** The only two-digit string whose value is 12 is "12". */
  lemma DigitsOfTwelve(d: string)
    requires |d| == 2 && AllDigits(d) && DecimalValue(d) == 12
    ensures d == "12"
  {
    assert d[..1][..0] == [];
    assert DecimalValue(d[..1]) == d[0] as int - '0' as int;
  }

  /** Corrected: the snapshot that keeps the target available and draws the
      status of every other slot as before. */
  function SnapshotKeepingTarget(places: seq<Place>, draws: seq<real>, selected: Option<string>): (r: seq<Slot>)
    requires |draws| == |places|
    ensures |r| == |places| && Places(r) == places
    ensures forall k :: 0 <= k < |r| && Targets(selected, places[k].id) ==> r[k].status == Available
    ensures forall k :: 0 <= k < |r| && !Targets(selected, places[k].id) ==> r[k] == Snapshot(places, draws)[k]
  {
    var r := seq(|places|, k requires 0 <= k < |places| =>
      Slot(places[k].id, places[k].x, places[k].y,
           if Targets(selected, places[k].id) then Available else StatusOfDraw(draws[k])));
    assert forall k :: 0 <= k < |places| ==> Places(r)[k] == places[k];
    r
  }

  /** With the corrected snapshot, the target is never drawn occupied: before arrival
      it has the selected look and the white label, and a click on it is handed over. */
  lemma CorrectedTargetSelectable(draws: seq<real>, selected: Option<string>, hasHandler: bool, k: nat)
    requires |draws| == |BaseSlots()|
    requires k < |BaseSlots()| && Targets(selected, BaseSlots()[k].id)
    ensures var slots := SnapshotKeepingTarget(BaseSlots(), draws, selected);
      var v := Render(slots, selected, false, hasHandler)[k];
      && v.look == SelectedLook && v.labelFill == WhiteFill
      && (hasHandler ==> v.click == Some(BaseSlots()[k].id))
  {
    var slots := SnapshotKeepingTarget(BaseSlots(), draws, selected);
    assert PlaceOf(slots[k]) == BaseSlots()[k];
    RenderedSlot(slots, selected, false, hasHandler, k);
  }
}
