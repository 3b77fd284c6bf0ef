/** The few host-engine types the capture code touches: a camera with the four
    render settings that a capture overrides, its clear mode, its background
    colour and the render texture it draws into. */
module Host {

  /** How a camera clears its target before drawing. `SolidColor` is the value
      the engine also calls `Color`. */
  datatype ClearFlags = Skybox | SolidColor | Depth | Nothing

  /** A background colour. Only the fully transparent colour `Clear` is
      distinguished; any other colour is an abstract `Tint`. */
  datatype Color = Clear | Tint(code: int)

  /** An off-screen render target. Only its identity matters here. */
  class RenderTexture {
    constructor () { }
  }

  /** The four camera settings a capture overrides, as one value. */
  datatype CameraState = CameraState(
    clearFlags: ClearFlags,
    backgroundColor: Color,
    allowMSAA: bool,
    targetTexture: RenderTexture?)

  class Camera {
    var clearFlags: ClearFlags
    var backgroundColor: Color
    var allowMSAA: bool
    var targetTexture: RenderTexture?

    constructor (s: CameraState)
      ensures State() == s
    {
      clearFlags := s.clearFlags;
      backgroundColor := s.backgroundColor;
      allowMSAA := s.allowMSAA;
      targetTexture := s.targetTexture;
    }

    /** The camera's current render settings. */
    function State(): CameraState
      reads this
    {
      CameraState(clearFlags, backgroundColor, allowMSAA, targetTexture)
    }
  }
}
