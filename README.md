# Parking slot map of one facility floor

This project models the slot map drawn by `InteractiveMap`, in
`src/components/parking/interactive-map.tsx`, and proves properties of that model. The model
has three parts:

- **Layout** (`ParkingLayout`, `layout.dfy`). This is the `BASE_SLOTS` table. It holds forty
  slots: A01 to A20 (section A, above the aisle), then B01 to B20 (section B, below it). Each
  id is the section letter followed by the 1-based index, written in decimal and padded with
  zeros to two digits. The slot at index `i` of its section has its corner at
  `x = (i mod 5)·65 + 25` and `y = (i div 5)·55 + 25` in section A, or `+ 285` in section B.
  Every slot is drawn as a 50×45 rectangle on a 350×550 drawing. The aisle band is
  `y ∈ [245, 280)`.
- **Status snapshot** (`ParkingMap.Snapshot`, `map.dfy`). When the map mounts, each base slot
  is copied in order and given a status. The status is `available` when that slot's random
  draw exceeds 0.3, and `occupied` otherwise.
- **Per-slot classification** (`ParkingMap`). A slot is the *target* when the selected id,
  trimmed and upper-cased, equals its upper-cased id. From that:
  - *parked* means the target after arrival;
  - *selected* means the target before arrival;
  - *occupied* means the slot's status says so.

  A click on an occupied slot calls no handler. A click on any other slot passes that slot's
  id to the handler. The rectangle's look follows a cascade: parked, then selected, then
  occupied or available by status. The label colour and the cursor each follow their own
  rule. While the snapshot is still empty, grey placeholders are drawn at the base positions.

`JsText` (`text.dfy`) gives the meaning of the JavaScript string built-ins these rules use:
`String(n)`, `padStart`, `trim` and `toUpperCase`. `MapProperties` (`properties.dfy`) proves
what the pieces promise together. `TargetSnapshot` (`finding.dfy`) holds the finding below.

There is no I/O. The random draws are a parameter: a sequence of reals, one per slot. Whether
the driver has arrived, the selected id (a `null` selection is `None`) and whether
`onSelectSlot` was supplied are parameters too.

The map's code has two statuses, no slot holds and no reservation or guidance state
machine, and it draws a fresh snapshot each time it mounts. The model follows the code.

## Model

| member | source | states |
|---|---|---|
| JsText.NatToString | src/components/parking/interactive-map.tsx:18 | `String(n)` is a non-empty string of decimal digits that reads back as n, with no leading zero unless n is 0; it is one character exactly when n < 10 |
| JsText.PadStart | src/components/parking/interactive-map.tsx:18 | `padStart` gives a result of length max(\|s\|, target): s at the end, fill characters before it |
| JsText.LeadingZeros | src/components/parking/interactive-map.tsx:18 | leading zeros do not change the value of a digit string |
| JsText.TwoDigits | src/components/parking/interactive-map.tsx:18 | `String(n).padStart(2, "0")` is all digits, reads back as n, and is exactly two characters for n < 100 |
| JsText.TrimStart | src/components/parking/interactive-map.tsx:65 | the result is a suffix of s; everything dropped is white space; the result does not start with white space |
| JsText.TrimEnd | src/components/parking/interactive-map.tsx:65 | the result is a prefix of s; everything dropped is white space; the result does not end with white space |
| JsText.Trim | src/components/parking/interactive-map.tsx:65 | `trim()` never grows the string and leaves no white space at either end |
| JsText.TrimSplits | src/components/parking/interactive-map.tsx:65 | s is the white space `trim()` drops in front, then what it keeps, then the white space it drops behind (the converse of `TrimPadded`) |
| JsText.TrimPadded | src/components/parking/interactive-map.tsx:65 | `trim()` of white space, a word with clean ends, then white space, is exactly that word |
| JsText.TrimIdempotent | src/components/parking/interactive-map.tsx:65 | trimming twice is the same as trimming once |
| JsText.ToUpper | src/components/parking/interactive-map.tsx:65 | `toUpperCase()` keeps the length and maps each character to its capital |
| JsText.UpperIdempotent | src/components/parking/interactive-map.tsx:65 | upper-cased text has no lower-case letter, and upper-casing it again changes nothing |
| ParkingLayout.SlotId | src/components/parking/interactive-map.tsx:18-24 | an id is the section letter followed by digits; it is three characters when the index is below 99 |
| ParkingLayout.SlotIdRoundTrip | src/components/parking/interactive-map.tsx:14-18 | reading back the id of index i in a section gives that section's letter and the number i + 1; the reader, `ParseId`, is a reference inverse of `SlotId` for the proofs, since the program never parses an id |
| ParkingLayout.SlotIdInjective | src/components/parking/interactive-map.tsx:14-24 | two equal ids come from the same section and the same index |
| ParkingLayout.SectionPlaces | src/components/parking/interactive-map.tsx:17-21 | a section has exactly 20 slots |
| ParkingLayout.BaseSlots | src/components/parking/interactive-map.tsx:15-28 | `BASE_SLOTS` has exactly 40 slots |
| ParkingLayout.BaseSlotAt | src/components/parking/interactive-map.tsx:15-28 | entry k is the slot of index i of section A (k < 20) or B (k ≥ 20), where i is k's index in its section; its corner is at x = (i mod 5)·65 + 25 and y = (i div 5)·55 + 25 or + 285 |
| ParkingLayout.BaseSlotIdShape | src/components/parking/interactive-map.tsx:16-24 | every id is its section letter followed by exactly two digits that read back as its 1-based index in the section, and upper-casing it changes nothing |
| ParkingLayout.BaseSlotIdsDistinct | src/components/parking/interactive-map.tsx:14-28 | the 40 ids are pairwise distinct |
| ParkingLayout.BaseSlotInsideViewBox | src/components/parking/interactive-map.tsx:19-26 | every 50×45 slot rectangle lies inside the 0..350 × 0..550 view box |
| ParkingLayout.BaseSlotBesideAisle | src/components/parking/interactive-map.tsx:57 | every section A rectangle ends at or above y = 245, and every section B rectangle starts at or below y = 280 |
| ParkingLayout.SectionCellsApart | src/components/parking/interactive-map.tsx:19-26 | two distinct indices of one section give rectangles that do not overlap, because the column pitch 65 exceeds the width 50 and the row pitch 55 exceeds the height 45 |
| ParkingLayout.BaseSlotsDisjoint | src/components/parking/interactive-map.tsx:76-80 | no two slot rectangles overlap |
| ParkingMap.StatusOfDraw | src/components/parking/interactive-map.tsx:44 | a slot is available exactly when its draw exceeds 0.3 |
| ParkingMap.Snapshot | src/components/parking/interactive-map.tsx:41-45 | the snapshot has one slot per place, in order, and the status of slot k comes from draw k |
| ParkingMap.SnapshotKeepsLayout | src/components/parking/interactive-map.tsx:41-45 | taking the snapshot keeps every slot's id, x, y and order: stripping the statuses gives back the places |
| ParkingMap.Targets | src/components/parking/interactive-map.tsx:65 | `isTarget`: a null selection targets nothing; a targeting selection, once trimmed, has the id's length and matches it character by character up to letter case. `MapProperties.TargetsBaseSlot` and `MapProperties.SpellingTargetsOnlyItsSlot` characterise it in both directions on the base ids |
| ParkingMap.Classify | src/components/parking/interactive-map.tsx:65-68 | parked and selected exclude each other; either one implies target; one of them holds exactly for the target; occupied comes from the status |
| ParkingMap.OnClick | src/components/parking/interactive-map.tsx:73 | a click calls the handler exactly when the slot is available and a handler is supplied, and then with that slot's id |
| ParkingMap.CursorOf | src/components/parking/interactive-map.tsx:74 | the not-allowed cursor appears exactly on occupied slots that are not the target |
| ParkingMap.LookOf | src/components/parking/interactive-map.tsx:85-87 | the look is parked if parked, else selected if selected, else occupied or available by status |
| ParkingMap.RectClassOf | src/components/parking/interactive-map.tsx:85-87 | parked and occupied slots share the occupied rectangle class; only the selected look gets the selected class |
| ParkingMap.LabelFillOf | src/components/parking/interactive-map.tsx:97 | the label is muted exactly when the slot is parked or occupied, and white exactly when it is selected and neither of those |
| ParkingMap.ViewOf | src/components/parking/interactive-map.tsx:64-101 | a live slot is drawn at its own corner under its own id, with its label anchor inside its rectangle; its look is parked iff arrived and target, selected iff not arrived and target, else occupied or available by status; its label is muted iff parked or occupied, white iff selected and available; its cursor is not-allowed iff occupied and not the target; a click hands over its id iff it is available and a handler is supplied |
| ParkingMap.Render | src/components/parking/interactive-map.tsx:63-117 | one view per snapshot slot when the snapshot is non-empty, else one placeholder per base slot |
| MapProperties.SnapshotOnBaseLayout | src/components/parking/interactive-map.tsx:41-45 | the snapshot of `BASE_SLOTS` is laid out exactly as `BASE_SLOTS` |
| MapProperties.BaseIdClean | src/components/parking/interactive-map.tsx:65 | every base id is its own trim and its own upper-case form |
| MapProperties.TargetsCleanId | src/components/parking/interactive-map.tsx:65 | an id that is its own trim and upper-case form is targeted exactly when the selection, trimmed and upper-cased, equals it |
| MapProperties.TargetsBaseSlot | src/components/parking/interactive-map.tsx:65 | a selection targets base slot k exactly when the selection, trimmed and upper-cased, equals k's id; such a selection is then a spelling of that id, differing only in letter case, with white space around it |
| MapProperties.SpellingTargets | src/components/parking/interactive-map.tsx:65 | a spelling of a clean id that differs only in letter case, with white space around it, targets that id |
| MapProperties.SpellingTargetsOnlyItsSlot | src/components/parking/interactive-map.tsx:65 | any spelling of a base id that differs only in letter case, with any white space around it, targets that slot and no other |
| MapProperties.AtMostOneTarget | src/components/parking/interactive-map.tsx:64-65 | on the base layout, any selection targets at most one slot |
| MapProperties.RenderedSlot | src/components/parking/interactive-map.tsx:64-97 | view k of a non-empty snapshot: parked iff arrived and target; selected iff not arrived and target; otherwise drawn by status; label muted iff parked or occupied, white iff selected and available; not-allowed cursor iff occupied and not the target; a click hands over the id iff the slot is available and a handler is supplied |
| MapProperties.NoSelectionDrawsStatus | src/components/parking/interactive-map.tsx:65-87 | with a null selection, nothing is parked or selected, and every slot is drawn by its status |
| MapProperties.AtMostOneHighlighted | src/components/parking/interactive-map.tsx:64-87 | on the base layout, at most one slot is drawn parked or selected |
| MapProperties.ClickSelectsSlot | src/components/parking/interactive-map.tsx:73 | clicking an available slot and feeding back the id it hands over draws that slot selected and every other slot by its status |
| MapProperties.PlaceholdersMatchLiveSlots | src/components/parking/interactive-map.tsx:63-117 | before the snapshot exists, a placeholder stands at each base position; the live slot later drawn there is at the same position |
| MapProperties.OccupiedTargetDrawnSelected | src/components/parking/interactive-map.tsx:85-97 | before arrival, an occupied target gets the selected rectangle, a muted label and the pointer cursor, and a click on it calls nothing |
| MapProperties.ParkedTargetDrawnOccupied | src/components/parking/interactive-map.tsx:85-97 | after arrival, the target gets the occupied rectangle, a muted label and the pointer cursor |
| TargetSnapshot.BaseSlotElevenIsA12 | src/components/parking/interactive-map.tsx:18 | entry 11 of `BASE_SLOTS` is A12 |
| TargetSnapshot.DigitsOfTwelve | src/components/parking/interactive-map.tsx:18 | the only two-digit string whose value is 12 is "12" |
| TargetSnapshot.AsWrittenTargetCanStartOccupied | src/components/parking/interactive-map.tsx:41-45 | as written, when A12 is selected and its draw is at most 0.3, the target starts occupied: its label is muted and a click on it calls nothing |
| TargetSnapshot.SnapshotKeepingTarget | src/components/parking/interactive-map.tsx:43 | the corrected snapshot keeps the layout; every targeted slot is available; every other slot is as in the snapshot as written |
| TargetSnapshot.CorrectedTargetSelectable | src/components/parking/interactive-map.tsx:43-45 | with the corrected snapshot, the target before arrival is drawn selected with a white label, and a click on it passes its id |

## Left out

- `Math.random()` (line 44) is not modelled. The draws are a parameter, one real per slot. The threshold is compared as the exact rational 0.3 rather than as the binary double nearest to it. This loses no behaviour: no double lies strictly between that double (about 0.29999999999999998890) and 0.3, so `d > 0.3` gives the same answer in both readings for every double `d`.
- JsText.NatToString: spells every nat in plain decimal. JavaScript's `String(n)` on a number switches to exponent form from 10^21 (`"1e+21"`), and integers above 2^53 are not exact; the map formats only the numbers 1 to 20 (line 18), where the two agree.
- JsText.ToUpper: maps only the ASCII letters a–z. The full Unicode case mapping of `toUpperCase` is not modelled, including mappings that change the length, such as ß to SS.
- React state and effects (`useState`, `useEffect`, `setSlots`, lines 37–47) are not modelled. The model does not say when the snapshot replaces the empty list. `Render` covers both the empty list and the filled one.
- The SVG markup is not modelled: the background, the aisle arrow, section captions, the legend, `key` attributes, corner radii, stroke widths, transitions, and the literal class and colour strings. Only the abstract look, rectangle class, label fill and cursor are kept.
- What the handler does with the id belongs to the page that supplies it. `ClickSelectsSlot` covers the map page's use: the id becomes the new selection.
- The other files of the repository are not part of this model: the prediction flow (a remote LLM call), the Google Maps view, the landing page, the navigation bar, and the pages that embed the map.
- The reservation lifecycle, authorization countdown and guidance simulator are not modelled. No code for them exists in the modelled file.

## Findings

| source | as written | input that shows it | evidently intended | confidence | as-written member | corrected member |
|---|---|---|---|---|---|---|
| src/components/parking/interactive-map.tsx:41-45 | the comment says "keeping target available initially", but every slot's status, the target's included, comes from its own random draw; `selectedSlotId` is never consulted | `selectedSlotId = "A12"` (the guidance page's default) with a draw of at most 0.3 for A12: A12 starts occupied, its label is muted, and clicks on it are ignored | the target slot starts available; all other slots are drawn at random | medium, not executed | TargetSnapshot.AsWrittenTargetCanStartOccupied | TargetSnapshot.SnapshotKeepingTarget |
