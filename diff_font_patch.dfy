/**
 * The marking pass as the script runs it: loops over the overlays, their
 * rows and the containers under their guard, marks the lines of each
 * container in place, and keeps the module-level `lastMatchCount`. Each
 * method is proved against the fold of `LineMarking`.
 */
module DiffFontPatch {
  import opened Wrappers
  import opened EcmaParseInt
  import opened LineMarking

  /** The page state when every array of the footprint holds what the
      snapshot says. */
  ghost predicate Holds(footprint: set<array<Line>>, s: Snapshot)
    reads footprint
  {
    s.Keys == footprint && forall a :: a in footprint ==> a[..] == s[a]
  }

  /** The snapshot of the arrays of the footprint as they are now. */
  ghost function Snap(footprint: set<array<Line>>): (s: Snapshot)
    reads footprint
    ensures Holds(footprint, s)
  {
    map a | a in footprint :: a[..]
  }

  /** A snapshot the page agrees with is the page's snapshot. */
  lemma SnapOfHolds(footprint: set<array<Line>>, s: Snapshot)
    requires Holds(footprint, s)
    ensures Snap(footprint) == s
  {
  }

  /** Builds an overlay's offset set from its direct-child rows: the `style.top`
      of each row holding an insertion marker, read with `parseInt`, NaN
      skipped. */
  method CollectInsertTops(rows: seq<Row>) returns (insertTops: set<int>)
    ensures insertTops == InsertTops(rows)
  {
    insertTops := {};
    var i := 0;
    while i < |rows|
      invariant 0 <= i <= |rows|
      invariant insertTops == InsertTops(rows[..i])
    {
      assert rows[..i + 1][..i] == rows[..i];
      var row := rows[i];
      if row.hasInsert {
        var top := ParseInt(row.top);
        if top.Some? {
          insertTops := insertTops + {top.value};
        }
      }
      i := i + 1;
    }
    assert rows[..i] == rows;
  }

  /** Walks the lines of one container: a line whose offset is in the set
      gains the mark (when it lacks it) and is counted; any other line loses
      it. */
  method MarkLines(lines: array<Line>, tops: set<int>) returns (matches: nat)
    modifies lines
    ensures lines[..] == Relabel(old(lines[..]), tops)
    ensures matches == MatchCount(old(lines[..]), tops)
  {
    ghost var before := lines[..];
    matches := 0;
    var i := 0;
    while i < lines.Length
      invariant 0 <= i <= lines.Length
      invariant forall k :: 0 <= k < i ==> lines[k] == Mark(before[k], tops)
      invariant forall k :: i <= k < lines.Length ==> lines[k] == before[k]
      invariant matches == MatchCount(before[..i], tops)
    {
      assert before[..i + 1][..i] == before[..i];
      var top := lines[i].offsetTop;
      if top in tops {
        if !lines[i].marked {
          lines[i] := lines[i].(marked := true);
        }
        matches := matches + 1;
      } else {
        lines[i] := lines[i].(marked := false);
      }
      i := i + 1;
    }
    assert before[..i] == before;
  }

  /** Visits one container: a deletion container, or one without lines, is
      left alone; otherwise its lines are marked. */
  method VisitContainer(vl: ViewLines, tops: set<int>, ghost footprint: set<array<Line>>, ghost s: Snapshot)
    returns (matches: nat)
    requires vl.lines in footprint && Holds(footprint, s)
    modifies vl.lines
    ensures Holds(footprint, MarkContainer(s, vl, tops))
    ensures matches == ContainerMatches(s, vl, tops)
  {
    if vl.isDelete {
      return 0;
    }
    if vl.lines.Length == 0 {
      assert Relabel(s[vl.lines], tops) == s[vl.lines];
      return 0;
    }
    matches := MarkLines(vl.lines, tops);
  }

  /** Visits the containers under a guard in order. */
  method MarkGuardLines(guard: seq<ViewLines>, tops: set<int>, ghost footprint: set<array<Line>>, ghost s: Snapshot)
    returns (matches: nat)
    requires GuardArrays(guard) <= footprint && Holds(footprint, s)
    modifies GuardArrays(guard)
    ensures Holds(footprint, MarkGuard(s, guard, tops))
    ensures matches == GuardMatches(s, guard, tops)
  {
    matches := 0;
    var j := 0;
    while j < |guard|
      invariant 0 <= j <= |guard|
      invariant Holds(footprint, MarkGuard(s, guard[..j], tops))
      invariant matches == GuardMatches(s, guard[..j], tops)
    {
      MarkGuardStep(s, guard, j, tops);
      assert guard[j].lines in GuardArrays(guard);
      var m := VisitContainer(guard[j], tops, footprint, MarkGuard(s, guard[..j], tops));
      matches := matches + m;
      j := j + 1;
    }
    assert guard[..j] == guard;
  }

  /** Processes one overlay: builds its set, returns when the set is empty or
      there is no guard, otherwise visits the containers under the guard. */
  method MarkOverlayLines(overlay: Overlay, ghost footprint: set<array<Line>>, ghost s: Snapshot)
    returns (matches: nat)
    requires OverlayArrays(overlay) <= footprint && Holds(footprint, s)
    modifies OverlayArrays(overlay)
    ensures Holds(footprint, MarkOverlay(s, overlay))
    ensures matches == OverlayMatches(s, overlay)
  {
    var insertTops := CollectInsertTops(overlay.rows);
    if |insertTops| == 0 {
      return 0;
    }
    match overlay.guard
    case None =>
      return 0;
    case Some(guard) =>
      matches := MarkGuardLines(guard, insertTops, footprint, s);
  }

  /** The two states of start-up: polling for the editor root, then
      observing the page for the rest of its life. */
  datatype Phase = WaitingForHost | Observing

  /** What a scheduled timeout calls. */
  datatype Callback = RunInit | RunMarkDiffLines

  /** A timeout handed to the host's timer: a delay in milliseconds and a
      callback. */
  datatype Timeout = Timeout(delayMs: nat, callback: Callback)

  const InitRetryMs: nat := 500
  const FallbackMarkMs: nat := 1000

  /** The script's module-level state. */
  class Patch {
    /** The match count of the last pass that changed it; 0 at load. */
    var lastMatchCount: nat
    var phase: Phase

    constructor ()
      ensures lastMatchCount == 0 && phase == WaitingForHost
    {
      lastMatchCount := 0;
      phase := WaitingForHost;
    }

    /** One marking pass over the overlays of the document, in document
        order. Every line array reachable from them ends up as the fold
        `MarkPass` says, `lastMatchCount` becomes the pass's match count, and
        a log line is written exactly when that count changed and is
        positive. */
    method MarkDiffLines(overlays: seq<Overlay>) returns (logged: bool)
      modifies this`lastMatchCount, Footprint(overlays)
      ensures Holds(Footprint(overlays), MarkPass(old(Snap(Footprint(overlays))), overlays))
      ensures lastMatchCount == PassMatches(old(Snap(Footprint(overlays))), overlays)
      ensures logged == LogsCount(lastMatchCount, old(lastMatchCount))
    {
      ghost var footprint := Footprint(overlays);
      ghost var s0 := Snap(footprint);
      var totalMatches := 0;
      var i := 0;
      while i < |overlays|
        invariant 0 <= i <= |overlays|
        invariant Footprint(overlays[..i]) <= footprint
        invariant Holds(footprint, MarkPass(s0, overlays[..i]))
        invariant totalMatches == PassMatches(s0, overlays[..i])
        invariant lastMatchCount == old(lastMatchCount)
      {
        FootprintCovers(overlays, i);
        assert overlays[..i + 1][..i] == overlays[..i] && overlays[..i + 1][i] == overlays[i];
        var m := MarkOverlayLines(overlays[i], footprint, MarkPass(s0, overlays[..i]));
        totalMatches := totalMatches + m;
        i := i + 1;
      }
      assert overlays[..i] == overlays;
      logged := false;
      if totalMatches != lastMatchCount {
        if totalMatches > 0 {
          logged := true;
        }
        lastMatchCount := totalMatches;
      }
    }

    /** Start-up: when the editor root is present the page is observed and a
        fallback pass is scheduled; otherwise start-up is retried later. */
    method Init(editorPresent: bool) returns (scheduled: Timeout)
      modifies this`phase
      ensures phase == (if editorPresent then Observing else old(phase))
      ensures scheduled == if editorPresent then Timeout(FallbackMarkMs, RunMarkDiffLines)
                           else Timeout(InitRetryMs, RunInit)
    {
      if editorPresent {
        phase := Observing;
        scheduled := Timeout(FallbackMarkMs, RunMarkDiffLines);
      } else {
        scheduled := Timeout(InitRetryMs, RunInit);
      }
    }
  }
}
