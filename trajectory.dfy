/**
  The trajectory loader: every STEP-th record of the trajectory log is read,
  its `transform` converted into the SfM convention, and appended to the
  trajectory, so that trajectory entry k is the pose of log record STEP * k.
  A retained record whose transform is absent, not of 16 elements, or with a
  zero bottom-right entry aborts the load; records in between are never parsed.
 */
module TrajectoryLoader {
  import opened Results
  import opened PoseMath

  /** The image extraction kept one video frame in ten. */
  const STEP: nat := 10

  /** The `transform` value of one log record; None when the record has none. */
  type Record = Option<seq<real>>

  datatype LoadError =
    | MissingTransform(index: nat)
    | BadShape(index: nat, size: nat)
    | ZeroScale(index: nat)

  /** The processing of one retained record, at 0-based log index `index`. */
  function ConvertRecord(index: nat, rec: Record): (r: Result<Mat4, LoadError>)
    ensures r.Success? <==> rec.Some? && |rec.value| == 16 && rec.value[15] != 0.0
    ensures r.Failure? ==> r.error.index == index
  {
    match rec
    case None => Failure(MissingTransform(index))
    case Some(flat) =>
      if |flat| != 16 then Failure(BadShape(index, |flat|))
      else if flat[15] == 0.0 then Failure(ZeroScale(index))
      else Success(ConvertPose(flat))
  }

  /** The loader as a fold over the log, one record at a time, in log order. */
  function Load(records: seq<Record>): (r: Result<seq<Mat4>, LoadError>)
    ensures r.Failure? ==> r.error.index < |records| && r.error.index % STEP == 0
  {
    if |records| == 0 then Success([])
    else
      var n := |records| - 1;
      match Load(records[..n])
      case Failure(e) => Failure(e)
      case Success(traj) =>
        if n % STEP != 0 then Success(traj)
        else
          match ConvertRecord(n, records[n])
          case Failure(e) => Failure(e)
          case Success(m) => Success(traj + [m])
  }

  /** Once a prefix of the log fails, the whole load fails with the same error. */
  lemma {:induction false} LoadFailurePersists(records: seq<Record>, n: nat)
    requires n <= |records|
    requires Load(records[..n]).Failure?
    ensures Load(records) == Load(records[..n])
    decreases |records| - n
  {
    if n < |records| {
      assert records[..n + 1][..n] == records[..n];
      LoadFailurePersists(records, n + 1);
    } else {
      assert records[..n] == records;
    }
  }

  /** The load succeeds exactly when every retained record converts. */
  lemma {:induction false} LoadSucceeds(records: seq<Record>)
    ensures Load(records).Success? <==>
      forall i :: 0 <= i < |records| && i % STEP == 0 ==> ConvertRecord(i, records[i]).Success?
  {
    if |records| > 0 {
      var n := |records| - 1;
      var front := records[..n];
      LoadSucceeds(front);
      assert forall i :: 0 <= i < n ==> front[i] == records[i];
    }
  }

  /** Stride and alignment: ceil(L / STEP) entries, entry k converted from record STEP * k. */
  lemma {:induction false} LoadStride(records: seq<Record>)
    requires Load(records).Success?
    ensures |Load(records).value| == (|records| + STEP - 1) / STEP
    ensures forall k :: 0 <= k < |Load(records).value| ==>
      STEP * k < |records| &&
      ConvertRecord(STEP * k, records[STEP * k]) == Success(Load(records).value[k])
  {
    if |records| > 0 {
      var n := |records| - 1;
      var front := records[..n];
      LoadStride(front);
      var traj := Load(front).value;
      assert forall i :: 0 <= i < n ==> front[i] == records[i];
      if n % STEP == 0 {
        assert (n + 1 + STEP - 1) / STEP == (n + STEP - 1) / STEP + 1;
        assert STEP * |traj| == n;
      } else {
        assert (n + 1 + STEP - 1) / STEP == (n + STEP - 1) / STEP;
      }
    }
  }

  /** Every matrix of a loaded trajectory has bottom-right entry exactly 1. */
  lemma LoadNormalised(records: seq<Record>)
    requires Load(records).Success?
    ensures forall k :: 0 <= k < |Load(records).value| ==> Load(records).value[k][3][3] == 1.0
  {
    LoadStride(records);
    forall k | 0 <= k < |Load(records).value|
      ensures Load(records).value[k][3][3] == 1.0
    {
      var rec := records[STEP * k];
      assert ConvertRecord(STEP * k, rec).Success?;
      ConvertPoseNormalised(rec.value);
    }
  }

  /** A failed load names the first retained record that does not convert. */
  lemma {:induction false} LoadFirstError(records: seq<Record>)
    requires Load(records).Failure?
    ensures var i := Load(records).error.index;
      i < |records| && i % STEP == 0 &&
      ConvertRecord(i, records[i]) == Failure(Load(records).error) &&
      forall i' :: 0 <= i' < i && i' % STEP == 0 ==> ConvertRecord(i', records[i']).Success?
  {
    var n := |records| - 1;
    var front := records[..n];
    assert forall i :: 0 <= i < n ==> front[i] == records[i];
    if Load(front).Failure? {
      LoadFirstError(front);
    } else {
      LoadSucceeds(front);
    }
  }

  /** The load loop of the converter: enumerate the log, keep the records whose
      index is a multiple of STEP, and append their converted transforms. */
  method LoadTrajectory(records: seq<Record>) returns (r: Result<seq<Mat4>, LoadError>)
    ensures r == Load(records)
  {
    var trajectory: seq<Mat4> := [];
    var i := 0;
    while i < |records|
      invariant 0 <= i <= |records|
      invariant Load(records[..i]) == Success(trajectory)
    {
      assert records[..i + 1][..i] == records[..i];
      if i % STEP == 0 {
        var converted := ConvertRecord(i, records[i]);
        if converted.Failure? {
          LoadFailurePersists(records, i + 1);
          return Failure(converted.error);
        }
        trajectory := trajectory + [converted.value];
      }
      i := i + 1;
    }
    assert records[..i] == records;
    r := Success(trajectory);
  }
}
