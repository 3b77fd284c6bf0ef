/** The window's checks: whether a batch may start, whether the scene's
    cameras differ from the listed ones, and the project name the settings
    key is derived from. */
module Validation {
  import opened Wrappers
  import opened Host
  import opened Configs
  import opened Strings

  /** How many camera entries are enabled. */
  function CountEnabledCameras(configs: seq<CameraConfig>): (n: nat)
    reads configs
    ensures n <= |configs|
    ensures n > 0 <==> exists j :: 0 <= j < |configs| && configs[j].enabled
  {
    if configs == [] then 0
    else
      assert forall j :: 1 <= j < |configs| ==> configs[j] == configs[1..][j - 1];
      (if configs[0].enabled then 1 else 0) + CountEnabledCameras(configs[1..])
  }

  /** How many image entries are enabled. */
  function CountEnabledImages(configs: seq<ImageConfig>): (n: nat)
    reads configs
    ensures n <= |configs|
    ensures n > 0 <==> exists j :: 0 <= j < |configs| && configs[j].enabled
  {
    if configs == [] then 0
    else
      assert forall j :: 1 <= j < |configs| ==> configs[j] == configs[1..][j - 1];
      (if configs[0].enabled then 1 else 0) + CountEnabledImages(configs[1..])
  }

  /** The save folder is usable: not empty, and free of the characters the
      platform forbids in paths (`invalidPathChars`). */
  function IsValidFolder(saveFolder: string, invalidPathChars: set<char>): (ok: bool)
    ensures ok <==> |saveFolder| > 0 && forall i :: 0 <= i < |saveFolder| ==> saveFolder[i] !in invalidPathChars
  {
    !(|saveFolder| == 0 || IndexOfAny(saveFolder, invalidPathChars) >= 0)
  }

  /** The window's `_canProcess` flag: at least one enabled camera entry, at
      least one enabled image entry, and a valid save folder. The counts decide
      first; an invalid folder then turns the flag off. */
  function CanProcess(cameras: seq<CameraConfig>, images: seq<ImageConfig>,
                      saveFolder: string, invalidPathChars: set<char>): (ok: bool)
    reads cameras, images
    ensures ok <==>
      && (exists j :: 0 <= j < |cameras| && cameras[j].enabled)
      && (exists j :: 0 <= j < |images| && images[j].enabled)
      && |saveFolder| > 0
      && (forall i :: 0 <= i < |saveFolder| ==> saveFolder[i] !in invalidPathChars)
  {
    var canProcess := CountEnabledCameras(cameras) > 0 && CountEnabledImages(images) > 0;
    if !IsValidFolder(saveFolder, invalidPathChars) then false else canProcess
  }

  /** The camera of every entry, in order (`Select`). */
  function CamerasOf(configs: seq<CameraConfig>): (cams: seq<Camera?>)
    reads configs
    ensures |cams| == |configs|
    ensures forall i :: 0 <= i < |configs| ==> cams[i] == configs[i].camera
  {
    if configs == [] then [] else [configs[0].camera] + CamerasOf(configs[1..])
  }

  /** `first.Except(second)`: the distinct elements of `first` that are not in
      `excluded`, in order of first appearance. */
  function Except<T(==)>(first: seq<T>, excluded: set<T>): (r: seq<T>)
    ensures forall k :: 0 <= k < |r| ==> r[k] in first && r[k] !in excluded
    ensures forall i :: 0 <= i < |first| && first[i] !in excluded ==> first[i] in r
    ensures forall k, l :: 0 <= k < l < |r| ==> r[k] != r[l]
  {
    if first == [] then []
    else if first[0] in excluded then Except(first[1..], excluded)
    else [first[0]] + Except(first[1..], excluded + {first[0]})
  }

  /** Whether the listed cameras differ from the scene's cameras: some listed
      camera is not in the scene, or some scene camera is not listed. Order and
      repetition do not matter. */
  function IsCameraChanged(listed: seq<CameraConfig>, scene: seq<Camera>): (changed: bool)
    reads listed
    ensures changed <==>
      || (exists i :: 0 <= i < |listed| && listed[i].camera !in scene)
      || (exists j :: 0 <= j < |scene| && scene[j] !in CamerasOf(listed))
  {
    var cams := CamerasOf(listed);
    var sceneCams: seq<Camera?> := scene;
    var exceptA := Except(cams, set c | c in sceneCams);
    var exceptB := Except(sceneCams, set c | c in cams);
    assert exceptA != [] <==> exists i :: 0 <= i < |cams| && cams[i] !in sceneCams by {
      if exceptA != [] { assert exceptA[0] in cams; }
    }
    assert exceptB != [] <==> exists j :: 0 <= j < |sceneCams| && sceneCams[j] !in cams by {
      if exceptB != [] { assert exceptB[0] in sceneCams; }
    }
    |exceptA| > 0 || |exceptB| > 0
  }

  /** The project's folder name: the second-to-last `/`-separated piece of
      the assets path. A path without `/` has a single piece, and indexing
      before it fails. */
  function GetProjectName(dataPath: string): (r: Result<string>)
    ensures r.Err? <==> '/' !in dataPath
    ensures r.Err? ==> r.error == IndexOutOfRange
    ensures r.Ok? ==> '/' !in r.value
  {
    SplitPieces(dataPath, '/');
    var s := Split(dataPath, '/');
    if |s| < 2 then Err(IndexOutOfRange) else Ok(s[|s| - 2])
  }

  /** For a data path `<parent>/<project>/<last>`, with no `/` in the last
      two pieces, the project name is the second-to-last piece, whatever the
      parent path is (the tool's data path ends in `/Assets`). */
  lemma ProjectNameOfDataPath(parent: string, project: string, last: string)
    requires '/' !in project && '/' !in last
    ensures GetProjectName(parent + "/" + project + "/" + last) == Ok(project)
  {
    var tail := project + ['/'] + last;
    assert parent + "/" + project + "/" + last == parent + ['/'] + tail;
    SplitWithoutSeparator(project, '/');
    SplitWithoutSeparator(last, '/');
    SplitAround(project, '/', last);
    SplitAround(parent, '/', tail);
    var parts := Split(parent + ['/'] + tail, '/');
    assert parts == Split(parent, '/') + [project, last];
    assert parts[|parts| - 2] == project;
  }

  /** With a single separator the project name is the piece before it. */
  lemma ProjectNameOfShortPath(project: string, last: string)
    requires '/' !in project && '/' !in last
    ensures GetProjectName(project + "/" + last) == Ok(project)
  {
    assert project + "/" + last == project + ['/'] + last;
    SplitWithoutSeparator(project, '/');
    SplitWithoutSeparator(last, '/');
    SplitAround(project, '/', last);
  }
}
