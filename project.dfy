/**
  The SfM project and the converter's run: the project dict loses its two
  cache keys, the trajectory is loaded, the views are merged into the pose
  list, and `poses` is set to the result. Every other key is passed through.
 */
module SfmConverter {
  import opened Results
  import opened PoseMath
  import opened TrajectoryLoader
  import opened PoseMerger

  /** A JSON value of a key the converter passes through untouched. */
  datatype Json =
    | Null
    | Bool(b: bool)
    | Number(n: real)
    | Str(s: string)
    | Array(items: seq<Json>)
    | Object(fields: map<string, Json>)

  const VIEWS_KEY: string := "views"
  const POSES_KEY: string := "poses"
  const FEATURES_FOLDERS: string := "featuresFolders"
  const MATCHES_FOLDERS: string := "matchesFolders"

  /** The project's keys after both cache keys are popped; everything else is kept. */
  function DropCacheKeys(keys: map<string, Json>): (r: map<string, Json>)
    ensures FEATURES_FOLDERS !in r && MATCHES_FOLDERS !in r
    ensures forall k :: k in keys && k != FEATURES_FOLDERS && k != MATCHES_FOLDERS ==> k in r && r[k] == keys[k]
    ensures forall k :: k in r ==> k in keys
  {
    keys - {FEATURES_FOLDERS, MATCHES_FOLDERS}
  }

  datatype RunError =
    | MissingPoses
    | LoadFailed(load: LoadError)
    | MergeFailed(merge: MergeError)

  /** What a run computes from the inputs: the missing-poses check of mode 1, then the
      trajectory load, then the merge. */
  function Outcome(views: seq<View>, poses: Option<seq<Pose>>, records: seq<Record>, mode: int): (r: Result<Merged, RunError>)
    ensures r.Failure? && r.error.MissingPoses? <==> mode == 1 && poses.None?
    ensures r.Failure? && r.error.LoadFailed? ==> Load(records).Failure? && !(mode == 1 && poses.None?)
  {
    if mode == 1 && poses.None? then Failure(MissingPoses)
    else
      match Load(records)
      case Failure(e) => Failure(LoadFailed(e))
      case Success(traj) =>
        var existing := if poses.Some? then poses.value else [];
        match Merge(traj, views, mode, existing)
        case Failure(e) => Failure(MergeFailed(e))
        case Success(merged) => Success(merged)
  }

  /** An out-of-range frame index fails the run in both modes, even when in mode 1 no
      pose carries that view's poseId. */
  lemma OutOfRangeFailsInBothModes(views: seq<View>, poses: seq<Pose>, records: seq<Record>, mode: int, k: nat)
    requires mode == 0 || mode == 1
    requires Load(records).Success?
    requires k < |views| && !Resolves(Load(records).value, views[k])
    ensures Outcome(views, Some(poses), records, mode).Failure?
    ensures Outcome(views, Some(poses), records, mode).error.MergeFailed?
  {
    MergeErrors(Load(records).value, views, mode, poses);
  }

  /** A worked example: 20 log records with a unit bottom-right entry, stride 10, give
      two trajectory entries; two views with frames 0 and 1 in mode 0 give two locked
      poses built from the converted record, and a count of 2. */
  lemma TwoFrameExample(flat: seq<real>, records: seq<Record>)
    requires |flat| == 16 && flat[15] == 1.0
    requires |records| == 20 && forall i :: 0 <= i < 20 ==> records[i] == Some(flat)
    ensures var views := [View("0", 0), View("1", 1)];
      var o := Outcome(views, None, records, 0);
      o.Success? && |o.value.poses| == 2 && o.value.count == 2 &&
      o.value.poses[0] == NewPose("0", ConvertPose(flat)) &&
      o.value.poses[1] == NewPose("1", ConvertPose(flat))
  {
    var views := [View("0", 0), View("1", 1)];
    LoadSucceeds(records);
    LoadStride(records);
    var traj := Load(records).value;
    assert |traj| == 2;
    assert AllResolve(traj, views);
    MergeErrors(traj, views, 0, []);
    Mode0Complete(traj, views);
  }

  /** The project file as the converter holds it in memory: `views`, the optional
      `poses`, and every other key in `others`. */
  class SfmProject {
    var views: seq<View>
    var poses: Option<seq<Pose>>
    var others: map<string, Json>

    /** The keys of the project dict: the pass-through keys, `views`, and `poses`
        when the project has one. */
    function Keys(): set<string>
      reads this
    {
      others.Keys + {VIEWS_KEY} + (if poses.Some? then {POSES_KEY} else {})
    }

    constructor (views: seq<View>, poses: Option<seq<Pose>>, others: map<string, Json>)
      requires VIEWS_KEY !in others && POSES_KEY !in others
      ensures this.views == views && this.poses == poses && this.others == others
    {
      this.views := views;
      this.poses := poses;
      this.others := others;
    }

    /** `dict.pop(key, None)`: removes the key when it is there, no error when it is not. */
    method Pop(key: string)
      requires key != VIEWS_KEY && key != POSES_KEY
      modifies this
      ensures Keys() == old(Keys()) - {key}
      ensures others == old(others) - {key}
      ensures views == old(views) && poses == old(poses)
    {
      others := others - {key};
    }

    /** One run of the converter on this project, with the log records and the mode.
        On success the cache keys are gone, `poses` holds the merged list and the
        pose-write count is returned; on a failure the error is returned and the
        in-memory project is discarded by the caller. */
    method Run(records: seq<Record>, mode: int) returns (r: Result<nat, RunError>)
      modifies this
      ensures views == old(views)
      ensures r.Success? ==> Keys() == old(Keys()) - {FEATURES_FOLDERS, MATCHES_FOLDERS} + {POSES_KEY}
      ensures r.Failure? && r.error != MissingPoses ==> Keys() == old(Keys()) - {FEATURES_FOLDERS, MATCHES_FOLDERS}
      ensures mode == 1 && old(poses).None? ==> r == Failure(MissingPoses) && others == old(others)
      ensures !(mode == 1 && old(poses).None?) ==> others == DropCacheKeys(old(others))
      ensures var o := Outcome(old(views), old(poses), records, mode);
        (o.Success? ==> r == Success(o.value.count) && poses == Some(o.value.poses)) &&
        (o.Failure? ==> r == Failure(o.error) && poses == old(poses))
    {
      if mode == 1 && poses.None? {
        return Failure(MissingPoses);
      }
      var existing := if poses.Some? then poses.value else [];
      Pop(FEATURES_FOLDERS);
      Pop(MATCHES_FOLDERS);
      assert others == DropCacheKeys(old(others));
      var trajectory := LoadTrajectory(records);
      if trajectory.Failure? {
        return Failure(LoadFailed(trajectory.error));
      }
      var merged := MergePoses(trajectory.value, views, mode, existing);
      if merged.Failure? {
        return Failure(MergeFailed(merged.error));
      }
      poses := Some(merged.value.poses);
      r := Success(merged.value.count);
    }
  }
}
