/** A media frame, as the program feed and the standby cache hold it. */
module Media {
  import opened Common

  datatype Frame = Frame(video: bool, keyframe: bool, payload: Option<seq<byte>>, pts: int)

  /** What a released slot holds. */
  const NO_FRAME := Frame(false, false, None, 0)

  function Size(f: Frame): nat
  {
    match f.payload
    case Some(data) => |data|
    case None => 0
  }

  /** The octets of the frames' payloads, one after the other. */
  function Octets(frames: seq<Frame>): seq<byte>
  {
    if frames == [] then []
    else Octets(frames[..|frames| - 1])
         + match frames[|frames| - 1].payload
           case Some(data) => data
           case None => []
  }
}
