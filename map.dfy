/** The per-floor slot map of src/components/parking/interactive-map.tsx: the status
    snapshot taken when the map mounts, and how each slot is classified, drawn and
    clicked given the selected slot id and whether the driver has arrived. */
module ParkingMap {
  import opened Optional
  import opened JsText
  import opened ParkingLayout

  datatype Status = Available | Occupied

  datatype Slot = Slot(id: string, x: int, y: int, status: Status)

  function PlaceOf(s: Slot): Place {
    Place(s.id, s.x, s.y)
  }

  /** The layout part of a snapshot: every slot without its status. */
  function Places(slots: seq<Slot>): (r: seq<Place>)
    ensures |r| == |slots|
    ensures forall k :: 0 <= k < |slots| ==> r[k] == PlaceOf(slots[k])
  {
    seq(|slots|, k requires 0 <= k < |slots| => PlaceOf(slots[k]))
  }

  // ---------------------------------------------------------------------------
  // The status snapshot
  // ---------------------------------------------------------------------------

  /** A slot is available when its uniform draw in [0, 1) exceeds 0.3, so about
      30% of slots start occupied. */
  const OccupiedThreshold: real := 0.3

  function StatusOfDraw(draw: real): (s: Status)
    ensures s == Available <==> draw > OccupiedThreshold
  {
    if draw > OccupiedThreshold then Available else Occupied
  }

  /** The snapshot taken on mount: each place, in order, with the status its own
      draw gives it. The draws stand for the successive `Math.random()` values. */
  function Snapshot(places: seq<Place>, draws: seq<real>): (r: seq<Slot>)
    requires |draws| == |places|
    ensures |r| == |places|
    ensures forall k :: 0 <= k < |r| ==> r[k].status == StatusOfDraw(draws[k])
  {
    seq(|places|, k requires 0 <= k < |places| =>
      Slot(places[k].id, places[k].x, places[k].y, StatusOfDraw(draws[k])))
  }

  /** The snapshot changes nothing but the status: its layout is the layout it was given. */
  lemma SnapshotKeepsLayout(places: seq<Place>, draws: seq<real>)
    requires |draws| == |places|
    ensures Places(Snapshot(places, draws)) == places
  {
    var r := Snapshot(places, draws);
    assert forall k :: 0 <= k < |places| ==> Places(r)[k] == places[k];
  }

  // ---------------------------------------------------------------------------
  // Per-slot classification
  // ---------------------------------------------------------------------------

  /** `selectedSlotId?.trim().toUpperCase() === id.toUpperCase()`: a null selection
      targets nothing, and a selection that targets an id is, once trimmed, exactly as
      long as the id and equal to it up to letter case. */
  predicate Targets(selected: Option<string>, id: string)
    ensures Targets(selected, id) ==>
      && selected.Some? && |Trim(selected.value)| == |id|
      && forall k :: 0 <= k < |id| ==> UpperChar(Trim(selected.value)[k]) == UpperChar(id[k])
  {
    selected.Some? && ToUpper(Trim(selected.value)) == ToUpper(id)
  }

  datatype Flags = Flags(isTarget: bool, isParked: bool, isOccupied: bool, isSelected: bool)

  function Classify(slot: Slot, selected: Option<string>, arrived: bool): (f: Flags)
    ensures f.isTarget <==> Targets(selected, slot.id)
    ensures f.isOccupied <==> slot.status == Occupied
    ensures f.isParked ==> arrived && f.isTarget
    ensures f.isSelected ==> !arrived && f.isTarget
    ensures !(f.isParked && f.isSelected)
    ensures f.isParked || f.isSelected <==> f.isTarget
  {
    var isTarget := Targets(selected, slot.id);
    Flags(isTarget, arrived && isTarget, slot.status == Occupied, !arrived && isTarget)
  }

  /** What a click passes to `onSelectSlot`: nothing for an occupied slot or a map
      without a handler, the slot's own id otherwise. */
  function OnClick(slot: Slot, hasHandler: bool): (r: Option<string>)
    ensures r.Some? <==> hasHandler && slot.status == Available
    ensures r.Some? ==> r.value == slot.id
  {
    if slot.status.Occupied? || !hasHandler then None else Some(slot.id)
  }

  datatype Cursor = NotAllowed | Pointer

  /** The not-allowed cursor marks an occupied slot, unless it is the target. */
  function CursorOf(f: Flags): (c: Cursor)
    ensures c == NotAllowed <==> f.isOccupied && !f.isTarget
  {
    if f.isOccupied && !f.isTarget then NotAllowed else Pointer
  }

  /** The visual state picked by the cascade parked, then selected, then by status. */
  datatype Look = ParkedLook | SelectedLook | OccupiedLook | AvailableLook

  function LookOf(f: Flags): (l: Look)
    ensures l == ParkedLook <==> f.isParked
    ensures l == SelectedLook <==> !f.isParked && f.isSelected
    ensures l == OccupiedLook <==> !f.isParked && !f.isSelected && f.isOccupied
    ensures l == AvailableLook <==> !f.isParked && !f.isSelected && !f.isOccupied
  {
    if f.isParked then ParkedLook
    else if f.isSelected then SelectedLook
    else if f.isOccupied then OccupiedLook
    else AvailableLook
  }

  /** The rectangle's class: a parked target is drawn like an occupied slot. */
  datatype RectClass = OccupiedClass | SelectedClass | AvailableClass

  function RectClassOf(l: Look): (c: RectClass)
    ensures c == OccupiedClass <==> l == ParkedLook || l == OccupiedLook
    ensures c == SelectedClass <==> l == SelectedLook
  {
    match l
    case ParkedLook => OccupiedClass
    case SelectedLook => SelectedClass
    case OccupiedLook => OccupiedClass
    case AvailableLook => AvailableClass
  }

  /** The label's colour: muted when parked or occupied, else white when selected. */
  datatype LabelFill = MutedFill | WhiteFill | PrimaryFill

  function LabelFillOf(f: Flags): (c: LabelFill)
    ensures c == MutedFill <==> f.isParked || f.isOccupied
    ensures c == WhiteFill <==> !f.isParked && !f.isOccupied && f.isSelected
  {
    if f.isParked || f.isOccupied then MutedFill
    else if f.isSelected then WhiteFill
    else PrimaryFill
  }

  // ---------------------------------------------------------------------------
  // Rendering
  // ---------------------------------------------------------------------------

  /** One drawn slot: a live slot with its id, rectangle corner, label anchor, look,
      classes, cursor and click outcome; or, before the snapshot exists, a grey
      placeholder rectangle at a base position. */
  datatype SlotView =
    | Live(id: string, x: int, y: int, labelX: int, labelY: int, look: Look,
           rect: RectClass, labelFill: LabelFill, cursor: Cursor, click: Option<string>)
    | Placeholder(x: int, y: int)

  function ViewOf(slot: Slot, selected: Option<string>, arrived: bool, hasHandler: bool): (v: SlotView)
    ensures v.Live? && v.id == slot.id && v.x == slot.x && v.y == slot.y
    ensures v.x < v.labelX < v.x + SlotWidth && v.y < v.labelY < v.y + SlotHeight
    ensures v.rect == RectClassOf(v.look)
    ensures v.look == ParkedLook <==> arrived && Targets(selected, slot.id)
    ensures v.look == SelectedLook <==> !arrived && Targets(selected, slot.id)
    ensures v.look == OccupiedLook <==> !Targets(selected, slot.id) && slot.status == Occupied
    ensures v.look == AvailableLook <==> !Targets(selected, slot.id) && slot.status == Available
    ensures v.labelFill == MutedFill <==> (arrived && Targets(selected, slot.id)) || slot.status == Occupied
    ensures v.labelFill == WhiteFill <==> !arrived && Targets(selected, slot.id) && slot.status == Available
    ensures v.cursor == NotAllowed <==> slot.status == Occupied && !Targets(selected, slot.id)
    ensures v.click.Some? <==> hasHandler && slot.status == Available
    ensures v.click.Some? ==> v.click.value == slot.id
  {
    var f := Classify(slot, selected, arrived);
    var look := LookOf(f);
    Live(slot.id, slot.x, slot.y, slot.x + 25, slot.y + 28, look,
         RectClassOf(look), LabelFillOf(f), CursorOf(f), OnClick(slot, hasHandler))
  }

  /** The map's slots as drawn: the live slots once the snapshot is non-empty,
      else one placeholder per base slot. */
  function Render(slots: seq<Slot>, selected: Option<string>, arrived: bool, hasHandler: bool): (r: seq<SlotView>)
    ensures |slots| > 0 ==> |r| == |slots|
    ensures |slots| == 0 ==> |r| == |BaseSlots()|
  {
    if |slots| > 0 then
      seq(|slots|, k requires 0 <= k < |slots| => ViewOf(slots[k], selected, arrived, hasHandler))
    else
      seq(|BaseSlots()|, k requires 0 <= k < |BaseSlots()| => Placeholder(BaseSlots()[k].x, BaseSlots()[k].y))
  }
}
