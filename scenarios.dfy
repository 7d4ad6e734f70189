/**
 * Two runs of the pass on a small page, checked against the contracts of
 * `Patch.MarkDiffLines` alone: an insertion row at "329px" over a container
 * with lines at 329 and 347 marks only the first line and logs once; a
 * second run changes nothing and stays silent; once the insertion row is
 * gone the mark stays, the count drops to 0 and nothing is logged.
 */
module Scenarios {
  import opened Wrappers
  import opened EcmaParseInt
  import opened LineMarking
  import opened DiffFontPatch

  lemma PixelRowTops(rows: seq<Row>)
    requires rows == [Row(true, "329px")]
    ensures InsertTops(rows) == {329}
  {
    ParseIntPixels();
    assert rows[..0] == [];
  }

  lemma SingleGuard(s: Snapshot, vl: ViewLines, tops: set<int>)
    requires vl.lines in s
    ensures GuardArrays([vl]) == {vl.lines}
    ensures MarkGuard(s, [vl], tops) == MarkContainer(s, vl, tops)
    ensures GuardMatches(s, [vl], tops) == ContainerMatches(s, vl, tops)
  {
    assert [vl][0] == vl;
    assert [vl][..0] == [];
  }

  lemma SingleOverlay(s: Snapshot, overlay: Overlay)
    requires OverlayArrays(overlay) <= s.Keys
    ensures Footprint([overlay]) == OverlayArrays(overlay)
    ensures MarkPass(s, [overlay]) == MarkOverlay(s, overlay)
    ensures PassMatches(s, [overlay]) == OverlayMatches(s, overlay)
  {
    assert [overlay][..0] == [];
  }

  lemma TwoLines(lines: seq<Line>)
    requires lines == [Line(329, false), Line(347, false)]
    ensures Relabel(lines, {329}) == [Line(329, true), Line(347, false)]
    ensures MatchCount(lines, {329}) == 1
  {
    assert lines[..1] == [Line(329, false)];
    assert lines[..1][..0] == [];
    assert MatchCount(lines[..1], {329}) == 1;
    assert MatchCount(lines, {329}) == MatchCount(lines[..1], {329}) + 0;
  }

  lemma OneContainerPass(s: Snapshot, overlays: seq<Overlay>, lines: array<Line>)
    requires overlays == [Overlay([Row(true, "329px")], Some([ViewLines(false, lines)]))]
    requires s == map[lines := [Line(329, false), Line(347, false)]]
    ensures Footprint(overlays) == {lines}
    ensures MarkPass(s, overlays)[lines] == [Line(329, true), Line(347, false)]
    ensures PassMatches(s, overlays) == 1
  {
    var overlay := overlays[0];
    var vl := ViewLines(false, lines);
    PixelRowTops(overlay.rows);
    SingleGuard(s, vl, {329});
    SingleOverlay(s, overlay);
    TwoLines(s[lines]);
  }

  /** A page with one overlay whose only row holds an insertion marker at
      "329px", over one container with lines at 329 and 347. */
  method NewPage() returns (lines: array<Line>, overlays: seq<Overlay>)
    ensures fresh(lines) && lines[..] == [Line(329, false), Line(347, false)]
    ensures overlays == [Overlay([Row(true, "329px")], Some([ViewLines(false, lines)]))]
  {
    lines := new Line[2];
    lines[0], lines[1] := Line(329, false), Line(347, false);
    overlays := [Overlay([Row(true, "329px")], Some([ViewLines(false, lines)]))];
  }

  method InsertedLineScenario() {
    var lines, overlays := NewPage();
    var patch := new Patch();
    ghost var footprint := Footprint(overlays);
    assert footprint == {lines} by {
      OneContainerPass(map[lines := lines[..]], overlays, lines);
    }
    ghost var s0 := Snap(footprint);
    assert s0 == map[lines := lines[..]];
    OneContainerPass(s0, overlays, lines);

    var logged := patch.MarkDiffLines(overlays);
    assert lines[..] == [Line(329, true), Line(347, false)];
    assert logged && patch.lastMatchCount == 1;
  }

  method SecondPassScenario() {
    var lines, overlays := NewPage();
    var patch := new Patch();
    ghost var footprint := Footprint(overlays);
    assert footprint == {lines} by {
      OneContainerPass(map[lines := lines[..]], overlays, lines);
    }
    ghost var s0 := Snap(footprint);
    assert s0 == map[lines := lines[..]];
    var logged := patch.MarkDiffLines(overlays);
    ghost var s1 := MarkPass(s0, overlays);
    SnapOfHolds(footprint, s1);
    SecondPassQuiet(s0, overlays);

    var loggedAgain := patch.MarkDiffLines(overlays);
    SnapOfHolds(footprint, s1);
    assert !loggedAgain;
    OneContainerPass(s0, overlays, lines);
    assert lines[..] == s1[lines] == [Line(329, true), Line(347, false)];
  }

  /** Once the insertion row is gone the overlay's set is empty, the pass
      returns before the guard and the stale mark stays; the count drops to 0
      without a log line. */
  method RemovedMarkerScenario() {
    var lines := new Line[2];
    lines[0], lines[1] := Line(329, true), Line(347, false);
    var cleared := Overlay([], Some([ViewLines(false, lines)]));
    var patch := new Patch();
    patch.lastMatchCount := 1;
    ghost var s := Snap({lines});
    assert Footprint([cleared]) == {lines} by {
      SingleOverlay(s, cleared);
      SingleGuard(s, ViewLines(false, lines), {});
    }
    OverlaySkipped(s, cleared);
    SingleOverlay(s, cleared);

    var logged := patch.MarkDiffLines([cleared]);
    assert lines[..] == s[lines];
    assert lines[0] == Line(329, true);
    assert !logged && patch.lastMatchCount == 0;
  }
}
