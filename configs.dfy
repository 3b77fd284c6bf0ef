/** The two configuration records of the tool. Both are reference objects in
    `See1Shot.cs` (lists hold and remove them by identity), so both are
    classes here. */
module Configs {
  import opened Host

  /** The output formats the image-configuration enum declares. Only PNG and
      JPG have an encoder; EXR is declared but not handled. */
  datatype Format = PNG | JPG | EXR

  /** One requested output image: its name, its size and its format. */
  class ImageConfig {
    var name: string
    var width: int
    var height: int
    var format: Format
    var enabled: bool

    /** A new configuration starts enabled. */
    constructor (name: string, width: int, height: int, format: Format)
      ensures this.name == name && this.width == width && this.height == height
      ensures this.format == format && enabled
    {
      this.name := name;
      this.width := width;
      this.height := height;
      this.format := format;
      enabled := true;
    }
  }

  /** One camera taking part in a capture. The camera reference may be null
      once the scene object it names is gone. */
  class CameraConfig {
    var camera: Camera?
    var enabled: bool

    /** A new camera entry starts enabled. */
    constructor (camera: Camera)
      ensures this.camera == camera && enabled
    {
      this.camera := camera;
      enabled := true;
    }
  }
}
