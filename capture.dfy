/** One capture's camera work: a scope that saves a camera's four render
    settings, overrides them for an off-screen render and puts them back; and
    the loop that renders every enabled camera through such a scope into one
    shared target. */
module Capture {
  import opened Host
  import opened Configs

  /** The clear mode used while capturing: a skybox camera clears to a solid
      colour when the alpha channel is kept; any other mode stays. */
  function CaptureClearFlags(flags: ClearFlags, preserveAlpha: bool): (r: ClearFlags)
    ensures r != flags <==> flags == Skybox && preserveAlpha
    ensures r == SolidColor <==> flags == SolidColor || (flags == Skybox && preserveAlpha)
  {
    if flags == Skybox && preserveAlpha then SolidColor else flags
  }

  /** The settings of a camera inside a scope opened on settings `s`. */
  function ScopedState(s: CameraState, preserveAlpha: bool): (t: CameraState)
    ensures t.clearFlags == CaptureClearFlags(s.clearFlags, preserveAlpha)
    ensures t.backgroundColor == Clear && !t.allowMSAA
    ensures t.targetTexture == s.targetTexture
  {
    CameraState(CaptureClearFlags(s.clearFlags, preserveAlpha), Clear, false, s.targetTexture)
  }

  /** Saves the four settings on construction, overrides three of them, and
      restores all four on disposal. */
  class CameraSetupScope {
    const cam: Camera
    const clearFlags: ClearFlags
    const backgroundColor: Color
    const targetTexture: RenderTexture?
    const allowMSAA: bool

    /** The settings the scope will restore. */
    function Saved(): (saved: CameraState)
    {
      CameraState(clearFlags, backgroundColor, allowMSAA, targetTexture)
    }

    constructor (cam: Camera, preserveAlpha: bool)
      modifies cam
      ensures this.cam == cam
      ensures Saved() == old(cam.State())
      ensures cam.State() == ScopedState(old(cam.State()), preserveAlpha)
    {
      this.cam := cam;
      clearFlags := cam.clearFlags;
      allowMSAA := cam.allowMSAA;
      targetTexture := cam.targetTexture;
      backgroundColor := cam.backgroundColor;
      new;
      cam.clearFlags := if clearFlags == Skybox && preserveAlpha then SolidColor else cam.clearFlags;
      cam.backgroundColor := Clear;
      cam.allowMSAA := false;
    }

    /** Restores all four saved settings, whatever was assigned in between. */
    method Dispose()
      modifies cam
      ensures cam.State() == Saved()
    {
      cam.targetTexture := targetTexture;
      cam.allowMSAA := allowMSAA;
      cam.clearFlags := clearFlags;
      cam.backgroundColor := backgroundColor;
    }
  }

  /** One render call of the host, recorded with the settings the camera had
      when it drew. */
  datatype RenderCall = RenderCall(camera: Camera, settings: CameraState)

  /** The settings a camera opened in a scope on `s` renders with, once the
      shared target has been assigned. */
  function RenderSettings(s: CameraState, preserveAlpha: bool, target: RenderTexture): (r: CameraState)
  {
    ScopedState(s, preserveAlpha).(targetTexture := target)
  }

  /** The body of the `using` block for one camera: open the scope, point the
      camera at the shared target, render, and dispose of the scope. */
  method ScopedRender(cam: Camera, preserveAlpha: bool, target: RenderTexture) returns (call: RenderCall)
    modifies cam
    ensures call == RenderCall(cam, RenderSettings(old(cam.State()), preserveAlpha, target))
    ensures cam.State() == old(cam.State())
  {
    var scope := new CameraSetupScope(cam, preserveAlpha);
    cam.targetTexture := target;
    call := RenderCall(cam, cam.State());
    scope.Dispose();
  }

  /** The cameras of the enabled entries, in list order (null where an
      entry's camera is gone). */
  function EnabledCameras(configs: seq<CameraConfig>): (cams: seq<Camera?>)
    reads configs
    ensures |cams| <= |configs|
    ensures forall c :: c in cams ==> exists j :: 0 <= j < |configs| && configs[j].enabled && configs[j].camera == c
    ensures forall j :: 0 <= j < |configs| && configs[j].enabled ==> configs[j].camera in cams
  {
    if configs == [] then []
    else
      var rest := EnabledCameras(configs[1..]);
      assert forall j :: 1 <= j < |configs| ==> configs[j] == configs[1..][j - 1];
      (if configs[0].enabled then [configs[0].camera] else []) + rest
  }

  /** The cameras that still exist, in order. */
  function NonNull(cams: seq<Camera?>): (r: seq<Camera>)
    ensures |r| <= |cams|
    ensures forall k :: 0 <= k < |r| ==> r[k] in cams
    ensures forall j :: 0 <= j < |cams| && cams[j] != null ==> cams[j] in r
  {
    if cams == [] then []
    else
      var last := cams[|cams| - 1];
      assert cams == cams[..|cams| - 1] + [last];
      NonNull(cams[..|cams| - 1]) + (if last != null then [last] else [])
  }

  /** The cameras one capture renders: the enabled entries' cameras that are
      not null, in list order. */
  function ShotCameras(configs: seq<CameraConfig>): (r: seq<Camera>)
    reads configs
    ensures forall k :: 0 <= k < |r| ==>
      exists j :: 0 <= j < |configs| && configs[j].enabled && configs[j].camera == r[k]
    ensures forall j :: 0 <= j < |configs| && configs[j].enabled && configs[j].camera != null ==>
      configs[j].camera in r
  {
    NonNull(EnabledCameras(configs))
  }

  lemma NonNullSnoc(cams: seq<Camera?>, c: Camera?)
    ensures NonNull(cams + [c]) == NonNull(cams) + (if c != null then [c] else [])
  {
    assert (cams + [c])[..|cams|] == cams;
  }

  /** Dropping the null entries works piece by piece: the survivors of `a`
      come first, in their order, then those of `b`. */
  lemma {:induction false} NonNullAppend(a: seq<Camera?>, b: seq<Camera?>)
    ensures NonNull(a + b) == NonNull(a) + NonNull(b)
    decreases |b|
  {
    if b == [] {
      assert a + b == a;
    } else {
      var front, c := b[..|b| - 1], b[|b| - 1];
      assert b == front + [c];
      assert a + b == (a + front) + [c];
      NonNullAppend(a, front);
      NonNullSnoc(a + front, c);
      NonNullSnoc(front, c);
    }
  }

  /** Selecting the enabled entries works piece by piece: the cameras of the
      enabled entries of `a` come first, in their order, then those of `b`. */
  lemma {:induction false} EnabledCamerasAppend(a: seq<CameraConfig>, b: seq<CameraConfig>)
    ensures EnabledCameras(a + b) == EnabledCameras(a) + EnabledCameras(b)
    decreases |a|
  {
    if a == [] {
      assert a + b == b;
    } else {
      assert (a + b)[1..] == a[1..] + b;
      EnabledCamerasAppend(a[1..], b);
    }
  }

  /** The cameras a capture renders, piece by piece: those of the entries of
      `a`, in order, then those of `b`; and one entry gives its camera exactly
      when it is enabled and the camera still exists. Together these fix the
      order and the number of renders of every camera: one per enabled entry,
      in list order. */
  lemma ShotCamerasAppend(a: seq<CameraConfig>, b: seq<CameraConfig>)
    ensures ShotCameras(a + b) == ShotCameras(a) + ShotCameras(b)
  {
    EnabledCamerasAppend(a, b);
    NonNullAppend(EnabledCameras(a), EnabledCameras(b));
  }

  lemma ShotCamerasOne(e: CameraConfig)
    ensures ShotCameras([e]) == (if e.enabled && e.camera != null then [e.camera] else [])
  {
    assert [e][1..] == [];
    var cams := if e.enabled then [e.camera] else [];
    assert EnabledCameras([e]) == cams;
    if cams != [] {
      assert cams[..0] == [];
    }
  }

  /** The camera loop of a capture, over the selected cameras: each non-null
      camera renders in order through its own scope into `target`, with the
      scoped settings, and ends with the settings it started with. A null
      entry renders nothing. */
  method RenderCameras(cameras: seq<Camera?>, preserveAlpha: bool, target: RenderTexture)
    returns (renders: seq<RenderCall>)
    modifies NonNull(cameras)
    ensures |renders| == |NonNull(cameras)|
    ensures forall k :: 0 <= k < |renders| ==>
      renders[k] == RenderCall(NonNull(cameras)[k], RenderSettings(old(NonNull(cameras)[k].State()), preserveAlpha, target))
    ensures forall j :: 0 <= j < |NonNull(cameras)| ==> NonNull(cameras)[j].State() == old(NonNull(cameras)[j].State())
  {
    ghost var shot := NonNull(cameras);
    ghost var done: seq<Camera> := [];
    renders := [];
    var i := 0;
    while i < |cameras|
      invariant 0 <= i <= |cameras|
      invariant done == NonNull(cameras[..i])
      invariant |renders| == |done|
      invariant forall k :: 0 <= k < |renders| ==>
        renders[k] == RenderCall(done[k], RenderSettings(old(done[k].State()), preserveAlpha, target))
      invariant forall j :: 0 <= j < |shot| ==> shot[j].State() == old(shot[j].State())
    {
      var cam := cameras[i];
      assert cameras[..i + 1] == cameras[..i] + [cam];
      NonNullSnoc(cameras[..i], cam);
      if cam != null {
        assert cam in shot;
        var call := ScopedRender(cam, preserveAlpha, target);
        renders := renders + [call];
        done := done + [cam];
      }
      i := i + 1;
    }
    assert cameras[..i] == cameras;
  }

  /** One capture's camera work: the cameras of the enabled entries, in list
      order, go through the camera loop. Only the enabled, non-null cameras
      may change, and each ends with the settings it started with. */
  method TakeShot(configs: seq<CameraConfig>, preserveAlpha: bool, target: RenderTexture)
    returns (renders: seq<RenderCall>)
    modifies ShotCameras(configs)
    ensures |renders| == |ShotCameras(configs)|
    ensures forall k :: 0 <= k < |renders| ==>
      renders[k] == RenderCall(ShotCameras(configs)[k],
                               RenderSettings(old(ShotCameras(configs)[k].State()), preserveAlpha, target))
    ensures forall j :: 0 <= j < |ShotCameras(configs)| ==>
      ShotCameras(configs)[j].State() == old(ShotCameras(configs)[j].State())
  {
    var cameras := EnabledCameras(configs);
    renders := RenderCameras(cameras, preserveAlpha, target);
  }

  /** A scope opened and disposed on a camera gives back every setting it
      had, even when the target texture was reassigned inside. */
  method ScopeRoundTrip(cam: Camera, preserveAlpha: bool, inside: RenderTexture?)
    modifies cam
    ensures cam.State() == old(cam.State())
  {
    var scope := new CameraSetupScope(cam, preserveAlpha);
    cam.targetTexture := inside;
    scope.Dispose();
  }
}
