# SfmConverter in Dafny

A model of `main` in `main.py` of SfmConverter. The tool merges a per-frame
camera trajectory into a structure-from-motion (SfM) project file. It has four parts:

- **Trajectory loader.** It keeps every 10th record of the trajectory log.
  It reads the record's 16-element `transform` column-major, right-multiplies it by
  diag(1, -1, -1, 1) and divides it by its bottom-right entry.
- **Pose extraction.** For the view's trajectory entry M it computes `rotation`
  (the transposed 3x3 block, flattened row-major) and `center` (R^T applied to
  -t, where t is the translation column).
- **Pose merger.**
  - Mode 0 builds one locked pose per view, in view order.
  - Mode 1 overwrites, in the existing pose list, every entry carrying the view's
    `poseId`.
  - Both modes count the pose writes.
- **Project update.** `featuresFolders` and `matchesFolders` are removed and
  `poses` is replaced. Every other key passes through.

Matrices are sequences of `real`. The project is a class, because `main` changes
the project dict in place with `pop` and assignment. Its `views` and `poses` are
fields, and every other key sits in a map of JSON values.

Modules, one per component:

- `Results` (results.dfy): Option and Result.
- `PoseMath` (pose_math.dfy): the matrix arithmetic.
- `TrajectoryLoader` (trajectory.dfy): the loader.
  - The fold `Load` gives its meaning.
  - The loop `LoadTrajectory` is proved equal to `Load`.
- `PoseMerger` (merger.dfy): the view loop.
  - The folds `Mode0Poses` and `Mode1Poses` and the function `Merge` give its meaning.
  - The loop `MergePoses` is proved equal to `Merge`.
- `SfmConverter` (project.dfy): the project class and the whole run.

One behaviour of the code is modelled as written. A mode other than 0 or 1 fails
at `sfm['poses'] = poses` (the name is unbound), and this happens only after the
frame lookups of every view.

One behaviour is a deliberate difference. The code divides by the bottom-right
entry without a guard. The model reports a zero bottom-right entry as the error
`ZeroScale` (see "## Left out"), so every loaded matrix has bottom-right entry 1.

## Model

| member | source | states |
|---|---|---|
| PoseMath.FlipAxes | main.py:62 | the camera axis change: the matrix right-multiplied by diag(1, -1, -1, 1) (its entries are stated by FlipAxesEntry) |
| PoseMath.FlippedEntries | main.py:58-62 | before the division, entry (r, c) of the read and flipped matrix is `flat[4c+r] * s[c]` |
| PoseMath.ConvertPose | main.py:58-63 | entry (r, c) of a loaded matrix is `flat[4c+r] * s[c] / flat[15]` with s = (1, -1, -1, 1): column-major read, Y/Z flip, homogeneous normalisation |
| PoseMath.ConvertPoseNormalised | main.py:63 | after loading, entry [3][3] is exactly 1 whenever the raw entry flat[15] is non-zero |
| PoseMath.FlipAxesEntry | main.py:62 | right-multiplying by diag(1,-1,-1,1) negates columns 1 and 2 and leaves columns 0 and 3 (the translation) as they were |
| PoseMath.FlipAxesInvolution | main.py:62 | applying the axis flip twice gives back the original matrix |
| PoseMath.Rotation | main.py:76 | `rotation` has 9 entries and entry 3i+j is M[j][i] (transposed block, row-major) |
| PoseMath.Center | main.py:77-78 | `center` has 3 entries and entry i is minus the dot product of column i of the rotation block with the translation column |
| PoseMath.CenterInvertsExtrinsic | main.py:77-78 | when the rotation block's rows are orthonormal, R * center + t == 0, so center is the camera position |
| TrajectoryLoader.ConvertRecord | main.py:56-63 | a retained record converts exactly when its transform is present, has 16 entries and a non-zero last entry; an error names the record's log index |
| TrajectoryLoader.Load | main.py:51-64 | the loader as a fold over the log in log order; a failure names a retained record, at an index inside the log that is a multiple of 10 |
| TrajectoryLoader.LoadSucceeds | main.py:53-64 | the load succeeds if and only if every record whose index is a multiple of 10 converts; the other records are never looked at |
| TrajectoryLoader.LoadStride | main.py:51-64 | a loaded trajectory of L records has ceil(L/10) entries, and entry k is the converted record 10k |
| TrajectoryLoader.LoadFirstError | main.py:54-59 | a failed load reports the first retained record that does not convert, and every earlier retained record converts |
| TrajectoryLoader.LoadNormalised | main.py:63-64 | every matrix of a loaded trajectory has bottom-right entry exactly 1 |
| TrajectoryLoader.LoadTrajectory | main.py:51-64 | the enumerate / `i % step` / append loop computes exactly the fold `Load` |
| PoseMerger.Lookup | main.py:76 | a frame index finds an entry exactly when -len <= index < len, as in Python list indexing |
| PoseMerger.LookupWraps | main.py:76 | a found entry is the entry at the index modulo the trajectory's length, so negative indices count from the end |
| PoseMerger.FirstUnresolved | main.py:73-78 | the first view whose frame index finds no trajectory entry: all earlier views resolve, that one does not |
| PoseMerger.LastIndexOf | main.py:89-95 | the last view carrying a poseId: it carries it and no later view does, or -1 when none does |
| PoseMerger.NewPose | main.py:81-85 | the pose dict mode 0 appends: the view's poseId, locked, with a 9-entry rotation and a 3-entry center from the matrix |
| PoseMerger.Refresh | main.py:92-94 | the overwrite of mode 1: rotation, center and locked are replaced and the poseId is kept |
| PoseMerger.ApplyView | main.py:90-95 | one pass of mode 1's inner loop: same length and poseIds, entries with another poseId unchanged |
| PoseMerger.Mode0Poses | main.py:69-86 | mode 0 as a fold over the views: one pose appended per view, so one pose per view |
| PoseMerger.Mode1Poses | main.py:89-95 | mode 1 as a fold over the views applied to the existing list, whose length it keeps |
| PoseMerger.Merge | main.py:69-97 | the whole merge, whose failure cases MergeErrors states; a successful merge counts one write per view in mode 0 and one per matching (view, pose) pair in mode 1 |
| PoseMerger.MergeErrors | main.py:72-97 | the merge succeeds if and only if every view resolves and the mode is 0 or 1; otherwise the first unresolvable view is reported, in either mode |
| PoseMerger.Mode0Complete | main.py:80-87 | mode 0 yields exactly one pose per view, in view order, each the locked pose from the view's poseId and trajectory entry |
| PoseMerger.Mode1Selective | main.py:89-95 | mode 1 keeps the length and order; an entry whose poseId no view carries is unchanged; a matched entry is refreshed from the last view carrying its poseId |
| PoseMerger.Mode1KeepsIds | main.py:89-95 | mode 1 never changes any entry's poseId and never adds or removes entries |
| PoseMerger.Mode1Idempotent | main.py:89-95 | running mode 1 again with the same views and trajectory changes nothing more |
| PoseMerger.Mode1AfterMode0 | main.py:69-95 | when no two views share a poseId, mode 1 over the output of mode 0 reproduces it |
| PoseMerger.PairCountZero | main.py:90-95 | the mode-1 count is zero if and only if no view shares a poseId with any pose |
| PoseMerger.MergeMode0 | main.py:69-87 | a successful mode-0 merge has |views| poses with the views' poseIds, all locked, and count == |views| |
| PoseMerger.MergeMode1 | main.py:89-95 | a successful mode-1 merge keeps length, order and poseIds, leaves unmatched entries as they were, locks matched ones with the last matching view's transform, and counts the matching (view, pose) pairs |
| PoseMerger.RefreshMatching | main.py:90-95 | the inner scan over the pose list overwrites exactly the entries carrying the poseId and counts them |
| PoseMerger.MergePoses | main.py:69-97 | the view loop (lookup first, then the mode branch, then the unbound-poses failure) computes exactly `Merge` |
| SfmConverter.DropCacheKeys | main.py:46-47 | the project has neither `featuresFolders` nor `matchesFolders` afterwards; every other key is kept with its value |
| SfmConverter.Outcome | main.py:37-97 | the whole run as a value: missing poses are reported exactly in mode 1 without poses; a load failure is reported only after that check |
| SfmConverter.OutOfRangeFailsInBothModes | main.py:73-78 | an out-of-range frame index fails the run in mode 0 and in mode 1, even when no pose carries that view's poseId |
| SfmConverter.TwoFrameExample | main.py:51-87 | 20 log records give 2 trajectory entries; views with frames 0 and 1 in mode 0 give the 2 locked poses built from the converted record, and count 2 |
| SfmConverter.SfmProject.Pop | main.py:46-47 | `pop(key, None)` removes the key if present: the dict's key set loses exactly that key, and views and poses are unchanged |
| SfmConverter.SfmProject.Run | main.py:37-97 | missing `poses` in mode 1 fails first, with the dict untouched; otherwise the key set of the project dict is the old one without `featuresFolders` and `matchesFolders`, plus `poses` on success; the cache keys are dropped, the trajectory is loaded, the views are merged, and `poses` is set to the merged list (or the load or merge error is returned) |

## Left out

- Argument parsing (main.py:106-118) is left out. The mode and the log records
  are parameters of `SfmProject.Run`.
- File handling is left out: open, read and write, `json.load`, `json.loads` and
  `json.dump` (main.py:40-41, 53-56, 102-103).
  - A record is modelled as the value of its `transform`, or None when it has none.
  - A retained line that is not valid JSON is not modelled.
  - The missing `views` key (main.py:42) is not modelled: `views` is a field.
- The `print` diagnostics (main.py:66, 98-100) are left out. `Run` returns the
  write count instead.
- Floating point is left out: values are `real`, not doubles, so rounding is not modelled.
- The decimal strings made by `.astype('str')` (main.py:76, 78) are left out.
  Rotation and center stay numbers; formatting belongs to serialisation.
- Path parsing is left out: `os.path.basename`, `splitext` and `int()` (main.py:75).
  - The view's frame index is an integer field.
  - A basename that is not a number is not modelled.
- TrajectoryLoader.ConvertRecord: a zero bottom-right entry is reported as the
  error `ZeroScale`. Under numpy the division gives infinities or NaN and the run
  goes on; infinities cannot be represented over `real`.
- TrajectoryLoader.ConvertRecord: a transform with non-numeric or nested entries
  is not modelled. Its entries are reals, and only the element count is checked.
- PoseMath.CenterInvertsExtrinsic: the hypothesis is that the block's rows are
  orthonormal (R R^T = I). For square matrices this is equivalent to orthonormal
  columns, but that equivalence is not proved.
- A pose keeps only `poseId`, `rotation`, `center` and `locked`. Other fields of
  a pose dict, and its nested `pose` / `transform` layout, are not modelled.
- SfmConverter.SfmProject.Run: on a failure, `poses` is left as it was. In mode
  1 the source may already have overwritten some pose dicts before the failing
  lookup. The in-memory project is discarded in both cases and nothing is written.
- Mode 1 aliasing is not modelled. In the source, the pose dicts are mutated in
  place inside the project's own list. The model computes the updated sequence and
  assigns it to `poses`, which gives the same final project.
