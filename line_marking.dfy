/**
 * The marking pass of the diff font patch, stated on values.
 *
 * The host page is abstracted to the parts the pass reads and writes:
 * - an overlay region (`.view-overlays`) is the list of its direct-child rows
 *   and, when it has one, the `.overflow-guard` ancestor, given as the list of
 *   `.view-lines` containers under it;
 * - a row records whether it holds a `.char-insert` element and its
 *   `style.top` text;
 * - a container records whether it carries `line-delete` and holds its
 *   `.view-line` elements in an array; a line is its `offsetTop` and whether it
 *   carries the `custom-diff-line` class.
 *
 * A `Snapshot` is the content of every line array at one moment. The pass is
 * the sequential fold of per-container steps over the guards of the overlays,
 * in document order; keying the snapshot by the array object makes the fold
 * exact even when two overlays reach the same container.
 */
module LineMarking {
  import opened Wrappers
  import opened EcmaParseInt

  datatype Line = Line(offsetTop: int, marked: bool)
  datatype Row = Row(hasInsert: bool, top: string)
  datatype ViewLines = ViewLines(isDelete: bool, lines: array<Line>)
  datatype Overlay = Overlay(rows: seq<Row>, guard: Option<seq<ViewLines>>)

  type Snapshot = map<array<Line>, seq<Line>>

  // ---------------------------------------------------------------------------
  // Step 1: the offsets of the insertion rows of one overlay

  /** The offsets read from the rows that hold an insertion marker and whose
      `style.top` is a number, rows taken in order. */
  function InsertTops(rows: seq<Row>): set<int> {
    if rows == [] then {}
    else
      var row := rows[|rows| - 1];
      var top := ParseInt(row.top);
      InsertTops(rows[..|rows| - 1]) + (if row.hasInsert && top.Some? then {top.value} else {})
  }

  /** An offset is in the set exactly when some row with an insertion marker
      has a `style.top` that reads as that offset. */
  lemma {:induction false} InsertTopsMembership(rows: seq<Row>, t: int)
    ensures t in InsertTops(rows) <==>
      exists i :: 0 <= i < |rows| && rows[i].hasInsert && ParseInt(rows[i].top) == Some(t)
  {
    if rows != [] {
      var init := rows[..|rows| - 1];
      InsertTopsMembership(init, t);
      if t in InsertTops(rows) && t !in InsertTops(init) {
        assert rows[|rows| - 1].hasInsert && ParseInt(rows[|rows| - 1].top) == Some(t);
      }
      if exists i :: 0 <= i < |rows| && rows[i].hasInsert && ParseInt(rows[i].top) == Some(t) {
        var i :| 0 <= i < |rows| && rows[i].hasInsert && ParseInt(rows[i].top) == Some(t);
        if i < |rows| - 1 {
          assert init[i] == rows[i];
        }
      }
    }
  }

  /** A row positioned with `style.top = "<n>px"` that holds an insertion
      marker contributes the offset n. */
  lemma InsertTopsOfPixelRow(rows: seq<Row>, i: nat, n: int)
    requires i < |rows| && rows[i].hasInsert && rows[i].top == Numeral(n) + "px"
    ensures n in InsertTops(rows)
  {
    ParseIntNumeral(n, "px");
    InsertTopsMembership(rows, n);
  }

  /** Rows without an insertion marker, or whose top is not a number, add
      nothing: when no row qualifies, the set is empty. */
  lemma InsertTopsEmpty(rows: seq<Row>)
    requires forall i :: 0 <= i < |rows| ==> !rows[i].hasInsert || ParseInt(rows[i].top).None?
    ensures InsertTops(rows) == {}
  {
    if t :| t in InsertTops(rows) {
      InsertTopsMembership(rows, t);
      assert false;
    }
  }

  // ---------------------------------------------------------------------------
  // Step 2: marking the lines of one container

  /** A line after the pass has compared it with the set: the mark is on
      exactly when the offset is in the set; the offset is kept. */
  function Mark(line: Line, tops: set<int>): Line {
    Line(line.offsetTop, line.offsetTop in tops)
  }

  /** Every line of a container, marked against the set. */
  function Relabel(lines: seq<Line>, tops: set<int>): seq<Line> {
    seq(|lines|, i requires 0 <= i < |lines| => Mark(lines[i], tops))
  }

  /** The number of lines whose offset is in the set: the matches one visit
      of the container adds to `totalMatches`. */
  function MatchCount(lines: seq<Line>, tops: set<int>): nat {
    if lines == [] then 0
    else MatchCount(lines[..|lines| - 1], tops) + (if lines[|lines| - 1].offsetTop in tops then 1 else 0)
  }

  /** The number of lines that carry the mark. */
  function MarkedCount(lines: seq<Line>): nat {
    if lines == [] then 0
    else MarkedCount(lines[..|lines| - 1]) + (if lines[|lines| - 1].marked then 1 else 0)
  }

  /** The offsets of a sequence of lines, in order. */
  function Offsets(lines: seq<Line>): seq<int> {
    seq(|lines|, i requires 0 <= i < |lines| => lines[i].offsetTop)
  }

  /** Marking keeps every offset: only the mark flag changes. */
  lemma RelabelKeepsOffsets(lines: seq<Line>, tops: set<int>)
    ensures |Relabel(lines, tops)| == |lines|
    ensures Offsets(Relabel(lines, tops)) == Offsets(lines)
  {
  }

  /** Marking twice is marking once with the second set: the first marks are
      overwritten, not merged. */
  lemma RelabelLastWins(lines: seq<Line>, first: set<int>, second: set<int>)
    ensures Relabel(Relabel(lines, first), second) == Relabel(lines, second)
  {
  }

  /** The count depends on the offsets only, not on the current marks. */
  lemma {:induction false} MatchCountByOffsets(a: seq<Line>, b: seq<Line>, tops: set<int>)
    requires Offsets(a) == Offsets(b)
    ensures MatchCount(a, tops) == MatchCount(b, tops)
  {
    assert |a| == |Offsets(a)| == |Offsets(b)| == |b|;
    if a != [] {
      var n := |a| - 1;
      assert a[n].offsetTop == Offsets(a)[n] == Offsets(b)[n] == b[n].offsetTop;
      assert Offsets(a[..n]) == Offsets(a)[..n] == Offsets(b)[..n] == Offsets(b[..n]);
      MatchCountByOffsets(a[..n], b[..n], tops);
    }
  }

  /** The lines that carry the mark after a visit are exactly as many as the
      matches the visit counts. */
  lemma {:induction false} MarkedCountOfRelabel(lines: seq<Line>, tops: set<int>)
    ensures MarkedCount(Relabel(lines, tops)) == MatchCount(lines, tops)
  {
    if lines != [] {
      var n := |lines| - 1;
      var r := Relabel(lines, tops);
      assert r[..n] == Relabel(lines[..n], tops);
      MarkedCountOfRelabel(lines[..n], tops);
    }
  }

  // ---------------------------------------------------------------------------
  // The pass as a fold over snapshots

  /** The line arrays of the containers of a guard. */
  function GuardArrays(guard: seq<ViewLines>): set<array<Line>> {
    set i | 0 <= i < |guard| :: guard[i].lines
  }

  lemma GuardArraysPrefix(guard: seq<ViewLines>, j: nat)
    requires j <= |guard|
    ensures GuardArrays(guard[..j]) <= GuardArrays(guard)
  {
    forall a | a in GuardArrays(guard[..j]) ensures a in GuardArrays(guard) {
      var i :| 0 <= i < j && guard[..j][i].lines == a;
      assert guard[i] == guard[..j][i];
    }
  }

  /** The line arrays an overlay can reach. */
  function OverlayArrays(overlay: Overlay): set<array<Line>> {
    if overlay.guard.Some? then GuardArrays(overlay.guard.value) else {}
  }

  /** The line arrays the whole pass can reach. */
  function Footprint(overlays: seq<Overlay>): set<array<Line>> {
    if overlays == [] then {}
    else Footprint(overlays[..|overlays| - 1]) + OverlayArrays(overlays[|overlays| - 1])
  }

  /** One container visit: a deletion container is skipped, any other one has
      all its lines marked against the set. */
  function MarkContainer(s: Snapshot, vl: ViewLines, tops: set<int>): (r: Snapshot)
    requires vl.lines in s
    ensures r.Keys == s.Keys
  {
    if vl.isDelete then s else s[vl.lines := Relabel(s[vl.lines], tops)]
  }

  /** The matches one container visit counts. */
  function ContainerMatches(s: Snapshot, vl: ViewLines, tops: set<int>): nat
    requires vl.lines in s
  {
    if vl.isDelete then 0 else MatchCount(s[vl.lines], tops)
  }

  /** The containers of a guard visited in order. */
  function MarkGuard(s: Snapshot, guard: seq<ViewLines>, tops: set<int>): (r: Snapshot)
    requires GuardArrays(guard) <= s.Keys
    ensures r.Keys == s.Keys
  {
    if guard == [] then s
    else
      var init := guard[..|guard| - 1];
      GuardArraysPrefix(guard, |guard| - 1);
      MarkContainer(MarkGuard(s, init, tops), guard[|guard| - 1], tops)
  }

  /** Visiting one more container of a guard. */
  lemma MarkGuardStep(s: Snapshot, guard: seq<ViewLines>, j: nat, tops: set<int>)
    requires j < |guard| && GuardArrays(guard) <= s.Keys
    ensures GuardArrays(guard[..j]) <= s.Keys && guard[j].lines in s
    ensures MarkGuard(s, guard[..j + 1], tops) == MarkContainer(MarkGuard(s, guard[..j], tops), guard[j], tops)
    ensures GuardMatches(s, guard[..j + 1], tops) ==
      GuardMatches(s, guard[..j], tops) + ContainerMatches(MarkGuard(s, guard[..j], tops), guard[j], tops)
  {
    GuardArraysPrefix(guard, j);
    assert guard[j].lines in GuardArrays(guard);
    assert guard[..j + 1][..j] == guard[..j];
  }

  /** The matches counted while visiting the containers of a guard. */
  function GuardMatches(s: Snapshot, guard: seq<ViewLines>, tops: set<int>): nat
    requires GuardArrays(guard) <= s.Keys
  {
    if guard == [] then 0
    else
      var init := guard[..|guard| - 1];
      GuardArraysPrefix(guard, |guard| - 1);
      GuardMatches(s, init, tops) + ContainerMatches(MarkGuard(s, init, tops), guard[|guard| - 1], tops)
  }

  /** One overlay: its set is built from its rows; an empty set, or a missing
      guard, leaves everything as it was. */
  function MarkOverlay(s: Snapshot, overlay: Overlay): (r: Snapshot)
    requires OverlayArrays(overlay) <= s.Keys
    ensures r.Keys == s.Keys
  {
    var tops := InsertTops(overlay.rows);
    if |tops| == 0 then s
    else match overlay.guard
      case None => s
      case Some(guard) => MarkGuard(s, guard, tops)
  }

  /** The matches counted for one overlay. */
  function OverlayMatches(s: Snapshot, overlay: Overlay): nat
    requires OverlayArrays(overlay) <= s.Keys
  {
    var tops := InsertTops(overlay.rows);
    if |tops| == 0 then 0
    else match overlay.guard
      case None => 0
      case Some(guard) => GuardMatches(s, guard, tops)
  }

  /** Every overlay of the document, in document order. */
  function MarkPass(s: Snapshot, overlays: seq<Overlay>): (r: Snapshot)
    requires Footprint(overlays) <= s.Keys
    ensures r.Keys == s.Keys
  {
    if overlays == [] then s
    else MarkOverlay(MarkPass(s, overlays[..|overlays| - 1]), overlays[|overlays| - 1])
  }

  /** `totalMatches` at the end of the pass. */
  function PassMatches(s: Snapshot, overlays: seq<Overlay>): nat
    requires Footprint(overlays) <= s.Keys
  {
    if overlays == [] then 0
    else
      var init := overlays[..|overlays| - 1];
      PassMatches(s, init) + OverlayMatches(MarkPass(s, init), overlays[|overlays| - 1])
  }

  /** Step 3: a log line is written when the count differs from the one the
      previous pass recorded and is positive. */
  predicate LogsCount(totalMatches: nat, lastMatchCount: nat) {
    totalMatches != lastMatchCount && totalMatches > 0
  }

  // ---------------------------------------------------------------------------
  // What the pass does to each array, in closed form

  /** For each array the pass reaches, the set its lines were last marked
      against. */
  type Effect = map<array<Line>, set<int>>

  /** The snapshot after marking each reached array against its set; arrays
      the effect does not name keep their lines. */
  function Apply(s: Snapshot, e: Effect): (r: Snapshot)
    ensures r.Keys == s.Keys
  {
    map a | a in s :: if a in e then Relabel(s[a], e[a]) else s[a]
  }

  /** The arrays of the non-deletion containers of a guard, each with the set. */
  function GuardEffect(guard: seq<ViewLines>, tops: set<int>): Effect {
    if guard == [] then map[]
    else
      var e := GuardEffect(guard[..|guard| - 1], tops);
      var vl := guard[|guard| - 1];
      if vl.isDelete then e else e[vl.lines := tops]
  }

  /** An overlay that reaches a guard with a non-empty set, its effect. */
  function OverlayEffect(overlay: Overlay): Effect {
    var tops := InsertTops(overlay.rows);
    if |tops| == 0 || overlay.guard.None? then map[]
    else GuardEffect(overlay.guard.value, tops)
  }

  /** The effects of the overlays in order: a later overlay overrides. */
  function PassEffect(overlays: seq<Overlay>): Effect {
    if overlays == [] then map[]
    else PassEffect(overlays[..|overlays| - 1]) + OverlayEffect(overlays[|overlays| - 1])
  }

  /** An overlay reaches an array when its set is not empty and a container of
      its guard that is not a deletion container holds that array. */
  predicate Reaches(overlay: Overlay, a: array<Line>) {
    && |InsertTops(overlay.rows)| > 0
    && overlay.guard.Some?
    && exists i :: 0 <= i < |overlay.guard.value| && overlay.guard.value[i].lines == a
                   && !overlay.guard.value[i].isDelete
  }

  lemma ApplyNothing(s: Snapshot)
    ensures Apply(s, map[]) == s
  {
  }

  /** Applying two effects in turn is applying their union, the second
      overriding the first. */
  lemma ApplyThen(s: Snapshot, e1: Effect, e2: Effect)
    ensures Apply(Apply(s, e1), e2) == Apply(s, e1 + e2)
  {
    forall a | a in s
      ensures Apply(Apply(s, e1), e2)[a] == Apply(s, e1 + e2)[a]
    {
      if a in e1 && a in e2 {
        RelabelLastWins(s[a], e1[a], e2[a]);
      }
    }
  }

  /** Visiting the containers of a guard applies the guard's effect. */
  lemma {:induction false} MarkGuardIsApply(s: Snapshot, guard: seq<ViewLines>, tops: set<int>)
    requires GuardArrays(guard) <= s.Keys
    ensures MarkGuard(s, guard, tops) == Apply(s, GuardEffect(guard, tops))
  {
    if guard == [] {
      ApplyNothing(s);
    } else {
      var init := guard[..|guard| - 1];
      var vl := guard[|guard| - 1];
      GuardArraysPrefix(guard, |guard| - 1);
      MarkGuardIsApply(s, init, tops);
      var e := GuardEffect(init, tops);
      if !vl.isDelete {
        ApplyThen(s, e, map[vl.lines := tops]);
        assert e + map[vl.lines := tops] == e[vl.lines := tops];
        var t := Apply(s, e);
        assert t[vl.lines := Relabel(t[vl.lines], tops)] == Apply(t, map[vl.lines := tops]);
      }
    }
  }

  lemma MarkOverlayIsApply(s: Snapshot, overlay: Overlay)
    requires OverlayArrays(overlay) <= s.Keys
    ensures MarkOverlay(s, overlay) == Apply(s, OverlayEffect(overlay))
  {
    var tops := InsertTops(overlay.rows);
    if |tops| == 0 || overlay.guard.None? {
      ApplyNothing(s);
    } else {
      MarkGuardIsApply(s, overlay.guard.value, tops);
    }
  }

  /** The whole pass applies the union of the overlays' effects. */
  lemma {:induction false} MarkPassIsApply(s: Snapshot, overlays: seq<Overlay>)
    requires Footprint(overlays) <= s.Keys
    ensures MarkPass(s, overlays) == Apply(s, PassEffect(overlays))
  {
    if overlays == [] {
      ApplyNothing(s);
    } else {
      var init := overlays[..|overlays| - 1];
      MarkPassIsApply(s, init);
      MarkOverlayIsApply(MarkPass(s, init), overlays[|overlays| - 1]);
      ApplyThen(s, PassEffect(init), OverlayEffect(overlays[|overlays| - 1]));
    }
  }

  /** A guard's effect names exactly the arrays of its non-deletion
      containers, each with the overlay's set. */
  lemma {:induction false} GuardEffectReaches(guard: seq<ViewLines>, tops: set<int>, a: array<Line>)
    ensures a in GuardEffect(guard, tops) <==>
      exists i :: 0 <= i < |guard| && guard[i].lines == a && !guard[i].isDelete
    ensures a in GuardEffect(guard, tops) ==> GuardEffect(guard, tops)[a] == tops
  {
    if guard != [] {
      var init := guard[..|guard| - 1];
      GuardEffectReaches(init, tops, a);
      if exists i :: 0 <= i < |guard| && guard[i].lines == a && !guard[i].isDelete {
        var i :| 0 <= i < |guard| && guard[i].lines == a && !guard[i].isDelete;
        if i < |guard| - 1 {
          assert init[i] == guard[i];
        }
      }
      if exists i :: 0 <= i < |init| && init[i].lines == a && !init[i].isDelete {
        var i :| 0 <= i < |init| && init[i].lines == a && !init[i].isDelete;
        assert guard[i] == init[i];
      }
    }
  }

  /** An overlay's effect names exactly the arrays it reaches, with its set. */
  lemma OverlayEffectReaches(overlay: Overlay, a: array<Line>)
    ensures a in OverlayEffect(overlay) <==> Reaches(overlay, a)
    ensures a in OverlayEffect(overlay) ==> OverlayEffect(overlay)[a] == InsertTops(overlay.rows)
  {
    if overlay.guard.Some? {
      GuardEffectReaches(overlay.guard.value, InsertTops(overlay.rows), a);
    }
  }

  // ---------------------------------------------------------------------------
  // Properties of one overlay

  /** After an overlay with a non-empty set is processed, every line of every
      non-deletion container under its guard carries the mark exactly when its
      offset is in the set, and keeps its offset. */
  lemma OverlayMarksExactly(s: Snapshot, overlay: Overlay, i: nat, k: nat)
    requires OverlayArrays(overlay) <= s.Keys
    requires |InsertTops(overlay.rows)| > 0 && overlay.guard.Some?
    requires i < |overlay.guard.value| && !overlay.guard.value[i].isDelete
    requires k < |s[overlay.guard.value[i].lines]|
    ensures var before := s[overlay.guard.value[i].lines];
            var after := MarkOverlay(s, overlay)[overlay.guard.value[i].lines];
            |after| == |before| && after[k].offsetTop == before[k].offsetTop &&
            (after[k].marked <==> before[k].offsetTop in InsertTops(overlay.rows))
  {
    var a := overlay.guard.value[i].lines;
    MarkOverlayIsApply(s, overlay);
    OverlayEffectReaches(overlay, a);
  }

  /** An array that no non-deletion container of the overlay's guard holds —
      a deletion container's lines, or lines elsewhere — is left as it was. */
  lemma OverlayKeepsUnreached(s: Snapshot, overlay: Overlay, a: array<Line>)
    requires OverlayArrays(overlay) <= s.Keys && a in s
    requires overlay.guard.Some? ==>
      forall i :: 0 <= i < |overlay.guard.value| && overlay.guard.value[i].lines == a ==>
        overlay.guard.value[i].isDelete
    ensures MarkOverlay(s, overlay)[a] == s[a]
  {
    MarkOverlayIsApply(s, overlay);
    OverlayEffectReaches(overlay, a);
  }

  /** An overlay none of whose rows holds an insertion marker with a numeric
      top, or that has no guard, changes nothing and counts nothing: marks set
      by earlier passes stay. */
  lemma OverlaySkipped(s: Snapshot, overlay: Overlay)
    requires OverlayArrays(overlay) <= s.Keys
    requires overlay.guard.None? ||
      forall i :: 0 <= i < |overlay.rows| ==>
        !overlay.rows[i].hasInsert || ParseInt(overlay.rows[i].top).None?
    ensures MarkOverlay(s, overlay) == s && OverlayMatches(s, overlay) == 0
  {
    if overlay.guard.Some? {
      InsertTopsEmpty(overlay.rows);
    }
  }

  // ---------------------------------------------------------------------------
  // Properties of the whole pass

  /** Two snapshots of the same arrays that agree on every offset. */
  predicate SameOffsets(x: Snapshot, y: Snapshot) {
    x.Keys == y.Keys && forall a :: a in x ==> Offsets(x[a]) == Offsets(y[a])
  }

  lemma ApplyKeepsOffsets(s: Snapshot, e: Effect)
    ensures SameOffsets(s, Apply(s, e))
  {
    forall a | a in s && a in e ensures Offsets(s[a]) == Offsets(Apply(s, e)[a]) {
      RelabelKeepsOffsets(s[a], e[a]);
    }
  }

  /** The pass changes marks only: every offset of every line is kept. */
  lemma PassKeepsOffsets(s: Snapshot, overlays: seq<Overlay>)
    requires Footprint(overlays) <= s.Keys
    ensures SameOffsets(s, MarkPass(s, overlays))
  {
    MarkPassIsApply(s, overlays);
    ApplyKeepsOffsets(s, PassEffect(overlays));
  }

  lemma {:induction false} GuardMatchesByOffsets(x: Snapshot, y: Snapshot, guard: seq<ViewLines>, tops: set<int>)
    requires SameOffsets(x, y) && GuardArrays(guard) <= x.Keys
    ensures GuardMatches(x, guard, tops) == GuardMatches(y, guard, tops)
  {
    if guard != [] {
      var init := guard[..|guard| - 1];
      var vl := guard[|guard| - 1];
      GuardArraysPrefix(guard, |guard| - 1);
      GuardMatchesByOffsets(x, y, init, tops);
      MarkGuardIsApply(x, init, tops);
      MarkGuardIsApply(y, init, tops);
      var e := GuardEffect(init, tops);
      ApplyKeepsOffsets(x, e);
      ApplyKeepsOffsets(y, e);
      assert vl.lines in GuardArrays(guard);
      if !vl.isDelete {
        MatchCountByOffsets(Apply(x, e)[vl.lines], Apply(y, e)[vl.lines], tops);
      }
    }
  }

  /** `totalMatches` depends on the offsets only, not on the marks the lines
      carried before the pass. */
  lemma {:induction false} PassMatchesByOffsets(x: Snapshot, y: Snapshot, overlays: seq<Overlay>)
    requires SameOffsets(x, y) && Footprint(overlays) <= x.Keys
    ensures PassMatches(x, overlays) == PassMatches(y, overlays)
  {
    if overlays != [] {
      var init := overlays[..|overlays| - 1];
      var overlay := overlays[|overlays| - 1];
      PassMatchesByOffsets(x, y, init);
      PassKeepsOffsets(x, init);
      PassKeepsOffsets(y, init);
      var tops := InsertTops(overlay.rows);
      if |tops| > 0 && overlay.guard.Some? {
        GuardMatchesByOffsets(MarkPass(x, init), MarkPass(y, init), overlay.guard.value, tops);
      }
    }
  }

  /** Idempotence: a second pass over unchanged overlays leaves every mark as
      the first pass left it, counts the same matches and so writes no log
      line. */
  lemma SecondPassQuiet(s: Snapshot, overlays: seq<Overlay>)
    requires Footprint(overlays) <= s.Keys
    ensures var first := MarkPass(s, overlays);
            MarkPass(first, overlays) == first &&
            PassMatches(first, overlays) == PassMatches(s, overlays) &&
            !LogsCount(PassMatches(first, overlays), PassMatches(s, overlays))
  {
    var e := PassEffect(overlays);
    var first := MarkPass(s, overlays);
    MarkPassIsApply(s, overlays);
    MarkPassIsApply(first, overlays);
    ApplyThen(s, e, e);
    assert e + e == e;
    PassKeepsOffsets(s, overlays);
    PassMatchesByOffsets(s, first, overlays);
  }

  /** Effects applied in order, a later one overriding an earlier one. */
  function Combine(effects: seq<Effect>): Effect {
    if effects == [] then map[]
    else Combine(effects[..|effects| - 1]) + effects[|effects| - 1]
  }

  /** The effect of each overlay, in order. */
  function OverlayEffects(overlays: seq<Overlay>): seq<Effect> {
    seq(|overlays|, k requires 0 <= k < |overlays| => OverlayEffect(overlays[k]))
  }

  lemma {:induction false} PassEffectIsCombine(overlays: seq<Overlay>)
    ensures PassEffect(overlays) == Combine(OverlayEffects(overlays))
  {
    if overlays != [] {
      var n := |overlays| - 1;
      PassEffectIsCombine(overlays[..n]);
      assert OverlayEffects(overlays)[..n] == OverlayEffects(overlays[..n]);
    }
  }

  /** A key no effect names is not named by their combination. */
  lemma {:induction false} CombineUnnamed(effects: seq<Effect>, a: array<Line>)
    requires forall k :: 0 <= k < |effects| ==> a !in effects[k]
    ensures a !in Combine(effects)
  {
    if effects != [] {
      var init := effects[..|effects| - 1];
      assert forall k :: 0 <= k < |init| ==> init[k] == effects[k];
      CombineUnnamed(init, a);
    }
  }

  /** A key named by effect j and by no later effect has effect j's value in
      their combination. */
  lemma {:induction false} CombineLast(effects: seq<Effect>, a: array<Line>, j: nat)
    requires j < |effects| && a in effects[j]
    requires forall k :: j < k < |effects| ==> a !in effects[k]
    ensures a in Combine(effects) && Combine(effects)[a] == effects[j][a]
  {
    var n := |effects| - 1;
    var init := effects[..n];
    if j < n {
      assert init[j] == effects[j];
      assert forall k :: j < k < |init| ==> init[k] == effects[k];
      CombineLast(init, a, j);
    }
  }

  /** Which overlays reach an array, read from their effects. */
  lemma ReachesByEffect(overlays: seq<Overlay>, a: array<Line>)
    ensures forall k :: 0 <= k < |overlays| ==>
      (a in OverlayEffects(overlays)[k] <==> Reaches(overlays[k], a)) &&
      (a in OverlayEffects(overlays)[k] ==> OverlayEffects(overlays)[k][a] == InsertTops(overlays[k].rows))
  {
    forall k | 0 <= k < |overlays|
      ensures a in OverlayEffects(overlays)[k] <==> Reaches(overlays[k], a)
      ensures a in OverlayEffects(overlays)[k] ==> OverlayEffects(overlays)[k][a] == InsertTops(overlays[k].rows)
    {
      OverlayEffectReaches(overlays[k], a);
    }
  }

  /** After the pass, a line array no overlay reached keeps its lines. */
  lemma PassKeepsUnreached(s: Snapshot, overlays: seq<Overlay>, a: array<Line>)
    requires Footprint(overlays) <= s.Keys && a in s
    requires forall j :: 0 <= j < |overlays| ==> !Reaches(overlays[j], a)
    ensures MarkPass(s, overlays)[a] == s[a]
  {
    MarkPassIsApply(s, overlays);
    PassEffectIsCombine(overlays);
    ReachesByEffect(overlays, a);
    CombineUnnamed(OverlayEffects(overlays), a);
  }

  /** After the pass, every line of an array reached by overlay j and by no
      later overlay carries the mark exactly when its offset is in overlay j's
      set; earlier overlays' marks on it are overwritten. */
  lemma PassMarksByLastOverlay(s: Snapshot, overlays: seq<Overlay>, a: array<Line>, j: nat)
    requires Footprint(overlays) <= s.Keys && a in s
    requires j < |overlays| && Reaches(overlays[j], a)
    requires forall k :: j < k < |overlays| ==> !Reaches(overlays[k], a)
    ensures MarkPass(s, overlays)[a] == Relabel(s[a], InsertTops(overlays[j].rows))
  {
    MarkPassIsApply(s, overlays);
    PassEffectIsCombine(overlays);
    ReachesByEffect(overlays, a);
    CombineLast(OverlayEffects(overlays), a, j);
  }

  /** The arrays of one overlay, and of the overlays before it, are among the
      arrays the pass can reach. */
  lemma {:induction false} FootprintCovers(overlays: seq<Overlay>, i: nat)
    requires i < |overlays|
    ensures OverlayArrays(overlays[i]) <= Footprint(overlays)
    ensures Footprint(overlays[..i]) <= Footprint(overlays)
    ensures Footprint(overlays[..i + 1]) == Footprint(overlays[..i]) + OverlayArrays(overlays[i])
  {
    var n := |overlays| - 1;
    assert overlays[..i + 1][..i] == overlays[..i];
    if i < n {
      FootprintCovers(overlays[..n], i);
      assert overlays[..n][i] == overlays[i];
      assert overlays[..n][..i] == overlays[..i];
      assert overlays[..n][..i + 1] == overlays[..i + 1];
    }
  }
}
