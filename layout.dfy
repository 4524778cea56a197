/** The fixed layout of one facility floor: the `BASE_SLOTS` table of
    src/components/parking/interactive-map.tsx, two sections of twenty slots on a
    350 by 550 drawing, separated by a horizontal aisle band. */
module ParkingLayout {
  import opened Optional
  import opened JsText

  // The slot formula itself (column pitch 65, row pitch 55, left margin 25,
  // section tops 25 and 285) is written with literals below, as in the source.
  const SectionLength: nat := 20
  const SectionATop: int := 25
  const SectionBTop: int := 285

  const SlotWidth: int := 50
  const SlotHeight: int := 45
  const ViewBoxWidth: int := 350
  const ViewBoxHeight: int := 550
  const AisleTop: int := 245
  const AisleHeight: int := 35

  /** A slot without its status (the source's `Omit<Slot, "status">`). */
  datatype Place = Place(id: string, x: int, y: int)

  /** The id of the slot at 0-based position i of a section: the section letter,
      then i + 1 in decimal, padded with zeros to two digits. */
  function SlotId(letter: char, i: nat): (id: string)
    ensures |id| >= 3 && id[0] == letter && AllDigits(id[1..])
    ensures i < 99 ==> |id| == 3
  {
    [letter] + TwoDigits(i + 1)
  }

  /** Reads an id back as its letter and its number; None when it is not of that shape. */
  function ParseId(id: string): (r: Option<(char, nat)>)
    ensures r.Some? <==> |id| >= 2 && AllDigits(id[1..])
  {
    if |id| >= 2 && AllDigits(id[1..]) then Some((id[0], DecimalValue(id[1..]))) else None
  }

  lemma SlotIdRoundTrip(letter: char, i: nat)
    ensures ParseId(SlotId(letter, i)) == Some((letter, i + 1))
  {
    assert SlotId(letter, i)[1..] == TwoDigits(i + 1);
  }

  /** Two slot ids are equal only when they name the same section and position. */
  lemma SlotIdInjective(l1: char, i1: nat, l2: char, i2: nat)
    requires SlotId(l1, i1) == SlotId(l2, i2)
    ensures l1 == l2 && i1 == i2
  {
    SlotIdRoundTrip(l1, i1);
    SlotIdRoundTrip(l2, i2);
  }

  /** One section, in index order: column from i mod 5, row from i div 5. */
  function SectionPlaces(letter: char, top: int): (r: seq<Place>)
    ensures |r| == SectionLength
  {
    seq(SectionLength, i requires 0 <= i < SectionLength =>
      Place(SlotId(letter, i), (i % 5) * 65 + 25, (i / 5) * 55 + top))
  }

  /** `BASE_SLOTS`: section A followed by section B. */
  function BaseSlots(): (r: seq<Place>)
    ensures |r| == 2 * SectionLength
  {
    SectionPlaces('A', SectionATop) + SectionPlaces('B', SectionBTop)
  }

  /** The section of position k of `BASE_SLOTS`, and k's 0-based index within it. */
  function SectionOf(k: nat): char {
    if k < SectionLength then 'A' else 'B'
  }

  function IndexInSection(k: nat): nat {
    if k < SectionLength then k else k - SectionLength
  }

  function SectionTop(k: nat): int {
    if k < SectionLength then SectionATop else SectionBTop
  }

  /** Position k of `BASE_SLOTS` is slot number i + 1 of its section, where i is k's
      index in the section, at column i mod 5 and row i div 5 of that section. */
  lemma BaseSlotAt(k: nat)
    requires k < |BaseSlots()|
    ensures var p, i := BaseSlots()[k], IndexInSection(k);
      && i < SectionLength
      && p.id == SlotId(SectionOf(k), i)
      && p.x == (i % 5) * 65 + 25
      && p.y == (i / 5) * 55 + SectionTop(k)
  {
    var i := IndexInSection(k);
    if k < SectionLength {
      assert BaseSlots()[k] == SectionPlaces('A', SectionATop)[i];
    } else {
      assert BaseSlots()[k] == SectionPlaces('B', SectionBTop)[i];
    }
  }

  /** An id of section A or B below index 99 is A or B, then two digits; so
      upper-casing it changes nothing. */
  lemma SlotIdShape(letter: char, i: nat)
    requires (letter == 'A' || letter == 'B') && i < 99
    ensures var id := SlotId(letter, i);
      && |id| == 3 && id[0] == letter && AllDigits(id[1..])
      && NoLower(id) && ToUpper(id) == id
  {
    CapitalThenDigits(SlotId(letter, i));
  }

  /** Every id of the base table is its section letter, then two digits spelling its
      1-based index in the section. */
  lemma BaseSlotIdShape(k: nat)
    requires k < |BaseSlots()|
    ensures var id := BaseSlots()[k].id;
      && |id| == 3 && id[0] == SectionOf(k) && AllDigits(id[1..])
      && ParseId(id) == Some((SectionOf(k), IndexInSection(k) + 1))
      && NoLower(id) && ToUpper(id) == id
  {
    BaseSlotAt(k);
    SlotIdShape(SectionOf(k), IndexInSection(k));
    SlotIdRoundTrip(SectionOf(k), IndexInSection(k));
  }

  /** The 40 ids are pairwise distinct. */
  lemma BaseSlotIdsDistinct(j: nat, k: nat)
    requires j < |BaseSlots()| && k < |BaseSlots()| && j != k
    ensures BaseSlots()[j].id != BaseSlots()[k].id
  {
    BaseSlotAt(j);
    BaseSlotAt(k);
    if BaseSlots()[j].id == BaseSlots()[k].id {
      SlotIdInjective(SectionOf(j), IndexInSection(j), SectionOf(k), IndexInSection(k));
    }
  }

  /** The rectangle a slot is drawn as: its corner (x, y), 50 wide and 45 high. */
  predicate InsideViewBox(p: Place) {
    0 <= p.x && p.x + SlotWidth <= ViewBoxWidth && 0 <= p.y && p.y + SlotHeight <= ViewBoxHeight
  }

  predicate Overlap(p: Place, q: Place) {
    p.x < q.x + SlotWidth && q.x < p.x + SlotWidth && p.y < q.y + SlotHeight && q.y < p.y + SlotHeight
  }

  lemma BaseSlotInsideViewBox(k: nat)
    requires k < |BaseSlots()|
    ensures InsideViewBox(BaseSlots()[k])
  {
    BaseSlotAt(k);
  }

  /** Section A lies wholly above the aisle band [245, 280) and section B wholly below it. */
  lemma BaseSlotBesideAisle(k: nat)
    requires k < |BaseSlots()|
    ensures var p := BaseSlots()[k];
      && (SectionOf(k) == 'A' ==> p.y + SlotHeight <= AisleTop)
      && (SectionOf(k) == 'B' ==> AisleTop + AisleHeight <= p.y)
  {
    BaseSlotAt(k);
    var i := IndexInSection(k);
    assert 0 <= i / 5 <= 3;
  }

  /** Two distinct indices of one section land in distinct cells of a grid with
      column pitch 65 and row pitch 55, whose 50 by 45 rectangles do not overlap. */
  lemma SectionCellsApart(p: Place, q: Place, a: nat, b: nat, top: int)
    requires a != b
    requires p.x == (a % 5) * 65 + 25 && p.y == (a / 5) * 55 + top
    requires q.x == (b % 5) * 65 + 25 && q.y == (b / 5) * 55 + top
    ensures !Overlap(p, q)
  {
    var ca, ra, cb, rb := a % 5, a / 5, b % 5, b / 5;
    assert a == ra * 5 + ca && b == rb * 5 + cb;
    if ca != cb {
      assert ca < cb ==> ca * 65 + 65 <= cb * 65;
      assert cb < ca ==> cb * 65 + 65 <= ca * 65;
    } else {
      assert ra != rb;
      assert ra < rb ==> ra * 55 + 55 <= rb * 55;
      assert rb < ra ==> rb * 55 + 55 <= ra * 55;
    }
  }

  /** No two slot rectangles overlap. */
  lemma BaseSlotsDisjoint(j: nat, k: nat)
    requires j < |BaseSlots()| && k < |BaseSlots()| && j != k
    ensures !Overlap(BaseSlots()[j], BaseSlots()[k])
  {
    var p, q := BaseSlots()[j], BaseSlots()[k];
    if SectionOf(j) != SectionOf(k) {
      BaseSlotBesideAisle(j);
      BaseSlotBesideAisle(k);
    } else {
      BaseSlotAt(j);
      BaseSlotAt(k);
      SectionCellsApart(p, q, IndexInSection(j), IndexInSection(k), SectionTop(k));
    }
  }
}
