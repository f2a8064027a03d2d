/**
  The pose merger: every view of the project is looked up in the trajectory by
  its frame index, and its rotation and center are written into the project's
  pose list, either as a built list with one locked pose per view (mode 0) or
  by overwriting, in place, the existing poses that carry the view's poseId
  (mode 1).
 */
module PoseMerger {
  import opened Results
  import opened PoseMath

  /** A view of the project; `frame` is the integer basename of its image path. */
  datatype View = View(poseId: string, frame: int)

  /** A pose record: `rotation` (9 values) and `center` (3 values) of its transform,
      and its `locked` flag. */
  datatype Pose = Pose(poseId: string, rotation: seq<real>, center: seq<real>, locked: string)

  /** The merged pose list and the number of pose writes the merger counted. */
  datatype Merged = Merged(poses: seq<Pose>, count: nat)

  datatype MergeError =
    | FrameOutOfRange(view: nat, frame: int)
    | PosesUnbound

  /** The flag that marks a pose as fixed for downstream optimisation. */
  const LOCKED: string := "1"

  /** Python list indexing of the trajectory: negative indices count from the end. */
  function Lookup(traj: seq<Mat4>, frame: int): (r: Option<Mat4>)
    ensures r.Some? <==> -|traj| <= frame < |traj|
  {
    if 0 <= frame < |traj| then Some(traj[frame])
    else if -|traj| <= frame < 0 then Some(traj[|traj| + frame])
    else None
  }

  /** The wrap of a negative index is the index modulo the trajectory's length. */
  lemma LookupWraps(traj: seq<Mat4>, frame: int)
    requires -|traj| <= frame < |traj|
    ensures Lookup(traj, frame) == Some(traj[frame % |traj|])
  {
    var n := |traj|;
    if frame < 0 {
      assert frame % n == frame + n;
    } else {
      assert frame % n == frame;
    }
  }

  predicate Resolves(traj: seq<Mat4>, v: View) {
    Lookup(traj, v.frame).Some?
  }

  predicate AllResolve(traj: seq<Mat4>, views: seq<View>) {
    forall k :: 0 <= k < |views| ==> Resolves(traj, views[k])
  }

  function FrameOf(traj: seq<Mat4>, v: View): Mat4
    requires Resolves(traj, v)
  {
    Lookup(traj, v.frame).value
  }

  /** The pose a view yields in mode 0. */
  function NewPose(poseId: string, m: Mat4): (p: Pose)
    ensures p.poseId == poseId && p.locked == LOCKED
    ensures |p.rotation| == 9 && |p.center| == 3
  {
    Pose(poseId, Rotation(m), Center(m), LOCKED)
  }

  /** The in-place update of mode 1: rotation, center and locked overwritten. */
  function Refresh(p: Pose, m: Mat4): (q: Pose)
    ensures q.poseId == p.poseId && q.locked == LOCKED
    ensures |q.rotation| == 9 && |q.center| == 3
  {
    p.(rotation := Rotation(m), center := Center(m), locked := LOCKED)
  }

  /** The first view whose frame index is out of range, or |views| when there is none. */
  function FirstUnresolved(traj: seq<Mat4>, views: seq<View>): (k: nat)
    ensures k <= |views|
    ensures forall i :: 0 <= i < k ==> Resolves(traj, views[i])
    ensures k < |views| ==> !Resolves(traj, views[k])
  {
    if |views| == 0 then 0
    else if !Resolves(traj, views[0]) then 0
    else 1 + FirstUnresolved(traj, views[1..])
  }

  /** The index of the last view carrying `poseId`, or -1. */
  function LastIndexOf(views: seq<View>, poseId: string): (k: int)
    ensures -1 <= k < |views|
    ensures k >= 0 ==> views[k].poseId == poseId
    ensures forall i :: k < i < |views| ==> views[i].poseId != poseId
  {
    if |views| == 0 then -1
    else if views[|views| - 1].poseId == poseId then |views| - 1
    else LastIndexOf(views[..|views| - 1], poseId)
  }

  /** Mode 0 as a fold over the views: one appended pose per view, in view order. */
  function Mode0Poses(traj: seq<Mat4>, views: seq<View>): (r: seq<Pose>)
    requires AllResolve(traj, views)
    ensures |r| == |views|
  {
    if |views| == 0 then []
    else
      var n := |views| - 1;
      Mode0Poses(traj, views[..n]) + [NewPose(views[n].poseId, FrameOf(traj, views[n]))]
  }

  /** One pass of mode 1's inner loop: every pose carrying the view's poseId is refreshed. */
  function ApplyView(poses: seq<Pose>, poseId: string, m: Mat4): (r: seq<Pose>)
    ensures |r| == |poses|
    ensures forall j :: 0 <= j < |r| ==> r[j].poseId == poses[j].poseId
    ensures forall j :: 0 <= j < |r| && poses[j].poseId != poseId ==> r[j] == poses[j]
  {
    seq(|poses|, j requires 0 <= j < |poses| =>
      if poses[j].poseId == poseId then Refresh(poses[j], m) else poses[j])
  }

  /** Mode 1 as a fold over the views, applied to the existing pose list. */
  function Mode1Poses(traj: seq<Mat4>, views: seq<View>, existing: seq<Pose>): (r: seq<Pose>)
    requires AllResolve(traj, views)
    ensures |r| == |existing|
  {
    if |views| == 0 then existing
    else
      var n := |views| - 1;
      ApplyView(Mode1Poses(traj, views[..n], existing), views[n].poseId, FrameOf(traj, views[n]))
  }

  /** The number of poses carrying `poseId`. */
  function CountId(poses: seq<Pose>, poseId: string): nat {
    if |poses| == 0 then 0
    else CountId(poses[..|poses| - 1], poseId) + (if poses[|poses| - 1].poseId == poseId then 1 else 0)
  }

  /** The number of (view, pose) pairs with equal poseId. */
  function PairCount(views: seq<View>, poses: seq<Pose>): nat {
    if |views| == 0 then 0
    else PairCount(views[..|views| - 1], poses) + CountId(poses, views[|views| - 1].poseId)
  }

  /** What the view loop has built after the given views: in mode 0 the appended
      poses and one write per view, in mode 1 the updated list and the pair count. */
  function Partial(traj: seq<Mat4>, views: seq<View>, mode: int, existing: seq<Pose>): Merged
    requires AllResolve(traj, views)
  {
    if mode == 0 then Merged(Mode0Poses(traj, views), |views|)
    else if mode == 1 then Merged(Mode1Poses(traj, views, existing), PairCount(views, existing))
    else Merged([], 0)
  }

  /** The whole merge: the frame lookups of every view come first, in both modes. */
  function Merge(traj: seq<Mat4>, views: seq<View>, mode: int, existing: seq<Pose>): (r: Result<Merged, MergeError>)
    ensures r.Success? && mode == 0 ==> r.value.count == |views|
    ensures r.Success? && mode == 1 ==> r.value.count == PairCount(views, existing)
  {
    var k := FirstUnresolved(traj, views);
    if k < |views| then Failure(FrameOutOfRange(k, views[k].frame))
    else if mode == 0 || mode == 1 then Success(Partial(traj, views, mode, existing))
    else Failure(PosesUnbound)
  }

  /** The merge fails exactly on an out-of-range frame index (the first such view is
      reported, whatever the mode) or on a mode other than 0 and 1. */
  lemma MergeErrors(traj: seq<Mat4>, views: seq<View>, mode: int, existing: seq<Pose>)
    ensures Merge(traj, views, mode, existing).Success? <==> AllResolve(traj, views) && (mode == 0 || mode == 1)
    ensures Merge(traj, views, mode, existing).Failure? && !AllResolve(traj, views) ==>
      var e := Merge(traj, views, mode, existing).error;
      e.FrameOutOfRange? && e.view < |views| && e.frame == views[e.view].frame &&
      !Resolves(traj, views[e.view]) && forall i :: 0 <= i < e.view ==> Resolves(traj, views[i])
  {
  }

  /** Mode 0 completeness: one pose per view, in view order, each the locked pose built
      from the view's poseId and the view's trajectory entry. */
  lemma {:induction false} Mode0Complete(traj: seq<Mat4>, views: seq<View>)
    requires AllResolve(traj, views)
    ensures |Mode0Poses(traj, views)| == |views|
    ensures forall i :: 0 <= i < |views| ==>
      Mode0Poses(traj, views)[i] == NewPose(views[i].poseId, FrameOf(traj, views[i]))
  {
    if |views| > 0 {
      var n := |views| - 1;
      var front := views[..n];
      assert AllResolve(traj, front);
      Mode0Complete(traj, front);
      var built := Mode0Poses(traj, views);
      assert built == Mode0Poses(traj, front) + [NewPose(views[n].poseId, FrameOf(traj, views[n]))];
      forall i | 0 <= i < n
        ensures built[i] == NewPose(views[i].poseId, FrameOf(traj, views[i]))
      {
        assert front[i] == views[i];
      }
    }
  }

  /** Mode 1 selectivity: length and order kept; an entry whose poseId no view carries
      is unchanged; a matched entry is locked and takes the rotation and center of the
      last view carrying its poseId, its other fields unchanged. */
  lemma {:induction false} Mode1Selective(traj: seq<Mat4>, views: seq<View>, existing: seq<Pose>)
    requires AllResolve(traj, views)
    ensures |Mode1Poses(traj, views, existing)| == |existing|
    ensures forall j :: 0 <= j < |existing| ==>
      var k := LastIndexOf(views, existing[j].poseId);
      Mode1Poses(traj, views, existing)[j] ==
        if k < 0 then existing[j] else Refresh(existing[j], FrameOf(traj, views[k]))
  {
    if |views| > 0 {
      var n := |views| - 1;
      assert AllResolve(traj, views[..n]);
      Mode1Selective(traj, views[..n], existing);
      forall j | 0 <= j < |existing|
        ensures var k := LastIndexOf(views, existing[j].poseId);
          Mode1Poses(traj, views, existing)[j] ==
            if k < 0 then existing[j] else Refresh(existing[j], FrameOf(traj, views[k]))
      {
        var k := LastIndexOf(views[..n], existing[j].poseId);
        if k >= 0 {
          assert views[..n][k] == views[k];
        }
      }
    }
  }

  /** Mode 1 never changes the poseIds of the list. */
  lemma Mode1KeepsIds(traj: seq<Mat4>, views: seq<View>, existing: seq<Pose>)
    requires AllResolve(traj, views)
    ensures |Mode1Poses(traj, views, existing)| == |existing|
    ensures forall j :: 0 <= j < |existing| ==> Mode1Poses(traj, views, existing)[j].poseId == existing[j].poseId
  {
    Mode1Selective(traj, views, existing);
  }

  /** Running mode 1 twice with the same views and trajectory changes nothing more. */
  lemma Mode1Idempotent(traj: seq<Mat4>, views: seq<View>, existing: seq<Pose>)
    requires AllResolve(traj, views)
    ensures Mode1Poses(traj, views, Mode1Poses(traj, views, existing)) == Mode1Poses(traj, views, existing)
  {
    var once := Mode1Poses(traj, views, existing);
    Mode1Selective(traj, views, existing);
    Mode1Selective(traj, views, once);
  }

  predicate DistinctPoseIds(views: seq<View>) {
    forall i, j :: 0 <= i < j < |views| ==> views[i].poseId != views[j].poseId
  }

  /** Mode 1 over the output of mode 0, with the same views, reproduces that output
      when no two views share a poseId. */
  lemma Mode1AfterMode0(traj: seq<Mat4>, views: seq<View>)
    requires AllResolve(traj, views)
    requires DistinctPoseIds(views)
    ensures Mode1Poses(traj, views, Mode0Poses(traj, views)) == Mode0Poses(traj, views)
  {
    var built := Mode0Poses(traj, views);
    Mode0Complete(traj, views);
    Mode1Selective(traj, views, built);
    forall j | 0 <= j < |built|
      ensures LastIndexOf(views, built[j].poseId) == j
    {
      var k := LastIndexOf(views, built[j].poseId);
      assert k >= j;
      assert !(k > j);
    }
  }

  /** A successful mode 0 merge: one locked pose per view, in view order, and one
      counted write per view. */
  lemma MergeMode0(traj: seq<Mat4>, views: seq<View>, existing: seq<Pose>)
    requires Merge(traj, views, 0, existing).Success?
    ensures var merged := Merge(traj, views, 0, existing).value;
      |merged.poses| == |views| && merged.count == |views| &&
      forall i :: 0 <= i < |views| ==>
        merged.poses[i].poseId == views[i].poseId && merged.poses[i].locked == LOCKED &&
        merged.poses[i] == NewPose(views[i].poseId, FrameOf(traj, views[i]))
  {
    MergeErrors(traj, views, 0, existing);
    Mode0Complete(traj, views);
  }

  /** A successful mode 1 merge: the existing list with its length, order and poseIds,
      unmatched entries untouched, matched entries locked with the last matching view's
      transform, and one counted write per (view, pose) pair with equal poseId. */
  lemma MergeMode1(traj: seq<Mat4>, views: seq<View>, existing: seq<Pose>)
    requires Merge(traj, views, 1, existing).Success?
    ensures var merged := Merge(traj, views, 1, existing).value;
      |merged.poses| == |existing| && merged.count == PairCount(views, existing) &&
      forall j :: 0 <= j < |existing| ==>
        var k := LastIndexOf(views, existing[j].poseId);
        merged.poses[j].poseId == existing[j].poseId &&
        (k < 0 ==> merged.poses[j] == existing[j]) &&
        (k >= 0 ==> merged.poses[j].locked == LOCKED &&
                    merged.poses[j] == Refresh(existing[j], FrameOf(traj, views[k])))
  {
    MergeErrors(traj, views, 1, existing);
    Mode1Selective(traj, views, existing);
  }

  /** CountId depends only on the poseIds of the list. */
  lemma {:induction false} CountIdSameIds(ps: seq<Pose>, qs: seq<Pose>, poseId: string)
    requires |ps| == |qs|
    requires forall j :: 0 <= j < |ps| ==> ps[j].poseId == qs[j].poseId
    ensures CountId(ps, poseId) == CountId(qs, poseId)
  {
    if |ps| > 0 {
      CountIdSameIds(ps[..|ps| - 1], qs[..|qs| - 1], poseId);
    }
  }

  /** No pose write happens in mode 1 exactly when no view shares a poseId with a pose. */
  lemma {:induction false} PairCountZero(views: seq<View>, poses: seq<Pose>)
    ensures PairCount(views, poses) == 0 <==>
      forall k, j :: 0 <= k < |views| && 0 <= j < |poses| ==> views[k].poseId != poses[j].poseId
  {
    if |views| > 0 {
      var n := |views| - 1;
      PairCountZero(views[..n], poses);
      CountIdZero(poses, views[n].poseId);
      assert forall k :: 0 <= k < n ==> views[..n][k] == views[k];
    }
  }

  lemma {:induction false} CountIdZero(poses: seq<Pose>, poseId: string)
    ensures CountId(poses, poseId) == 0 <==> forall j :: 0 <= j < |poses| ==> poses[j].poseId != poseId
  {
    if |poses| > 0 {
      var n := |poses| - 1;
      CountIdZero(poses[..n], poseId);
      assert forall j :: 0 <= j < n ==> poses[..n][j] == poses[j];
    }
  }

  /** Mode 1's inner loop for one view: scan the pose list, overwrite every entry
      carrying `poseId`, and count the overwrites. */
  method RefreshMatching(poses: seq<Pose>, poseId: string, m: Mat4) returns (updated: seq<Pose>, writes: nat)
    ensures updated == ApplyView(poses, poseId, m)
    ensures writes == CountId(poses, poseId)
  {
    updated := poses;
    writes := 0;
    var j := 0;
    while j < |updated|
      invariant 0 <= j <= |updated| == |poses|
      invariant forall q :: 0 <= q < j ==> updated[q] == ApplyView(poses, poseId, m)[q]
      invariant forall q :: j <= q < |updated| ==> updated[q] == poses[q]
      invariant writes == CountId(poses[..j], poseId)
    {
      assert poses[..j + 1][..j] == poses[..j];
      if updated[j].poseId == poseId {
        updated := updated[j := Refresh(updated[j], m)];
        writes := writes + 1;
      }
      j := j + 1;
    }
    assert poses[..j] == poses;
  }

  /** The first i views resolve and view i does not: the merge reports view i. */
  lemma FirstUnresolvedAt(traj: seq<Mat4>, views: seq<View>, i: nat)
    requires i < |views|
    requires AllResolve(traj, views[..i])
    requires !Resolves(traj, views[i])
    ensures FirstUnresolved(traj, views) == i
  {
    assert forall k :: 0 <= k < i ==> views[..i][k] == views[k];
  }

  /** One more resolved view: mode 0 appends one pose and counts one write, mode 1
      refreshes the entries carrying the view's poseId and counts them. */
  lemma ViewStep(traj: seq<Mat4>, views: seq<View>, i: nat, mode: int, existing: seq<Pose>)
    requires i < |views|
    requires AllResolve(traj, views[..i])
    requires Resolves(traj, views[i])
    ensures AllResolve(traj, views[..i + 1])
    ensures var before := Partial(traj, views[..i], mode, existing);
      var id := views[i].poseId;
      var m := FrameOf(traj, views[i]);
      Partial(traj, views[..i + 1], mode, existing) ==
        if mode == 0 then Merged(before.poses + [NewPose(id, m)], before.count + 1)
        else if mode == 1 then Merged(ApplyView(before.poses, id, m), before.count + CountId(before.poses, id))
        else before
  {
    assert views[..i + 1][..i] == views[..i];
    if mode == 1 {
      Mode1KeepsIds(traj, views[..i], existing);
      CountIdSameIds(Mode1Poses(traj, views[..i], existing), existing, views[i].poseId);
    }
  }

  /** The view loop of the converter. Every view's frame is looked up first; mode 0
      then appends a locked pose, mode 1 scans the pose list and overwrites every
      entry with the view's poseId; `count` tallies the pose writes. A mode other
      than 0 or 1 leaves the pose list unbound, which fails after the loop. */
  method MergePoses(traj: seq<Mat4>, views: seq<View>, mode: int, existing: seq<Pose>)
    returns (r: Result<Merged, MergeError>)
    ensures r == Merge(traj, views, mode, existing)
  {
    var poses: seq<Pose> := if mode == 1 then existing else [];
    var count: nat := 0;
    var i := 0;
    while i < |views|
      invariant 0 <= i <= |views|
      invariant AllResolve(traj, views[..i])
      invariant Merged(poses, count) == Partial(traj, views[..i], mode, existing)
    {
      var view := views[i];
      var m := Lookup(traj, view.frame);
      if m.None? {
        FirstUnresolvedAt(traj, views, i);
        assert Merge(traj, views, mode, existing) == Failure(FrameOutOfRange(i, view.frame));
        return Failure(FrameOutOfRange(i, view.frame));
      }
      ViewStep(traj, views, i, mode, existing);
      if mode == 0 {
        poses := poses + [NewPose(view.poseId, m.value)];
        count := count + 1;
      } else if mode == 1 {
        var writes;
        poses, writes := RefreshMatching(poses, view.poseId, m.value);
        count := count + writes;
      }
      i := i + 1;
    }
    assert views[..i] == views;
    assert FirstUnresolved(traj, views) == |views|;
    if mode == 0 || mode == 1 {
      r := Success(Merged(poses, count));
    } else {
      r := Failure(PosesUnbound);
    }
  }
}
