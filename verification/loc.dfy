/** Points, layers and surfaces: the addresses every other component works with. */
module Loc {
  import opened Wrappers

  datatype RouteSeg =
    | This
    | Local
    | Remote
    | Global
    | Domain(domain: string)
    | Tag(tag: string)
    | Star(star: string)

  datatype PointSeg =
    | Root
    | Space(name: string)
    | Base(name: string)
    | FilesystemRootDir
    | Dir(name: string)
    | File(name: string)
    | Version(version: string)
  {
    predicate IsFilesystemSeg() {
      FilesystemRootDir? || Dir? || File?
    }

    predicate IsMeshSeg() {
      Root? || Space? || Base? || Version?
    }
  }

  datatype PushError = MeshAfterFilesystem | FilesystemBeforeRoot

  datatype Point = Point(route: RouteSeg, segments: seq<PointSeg>) {
    predicate IsRoot() {
      segments == []
    }

    predicate HasFilesystem() {
      exists i | 0 <= i < |segments| :: segments[i].FilesystemRootDir?
    }

    function PushSegment(segment: PointSeg): Result<Point, PushError> {
      if (HasFilesystem() && segment.IsFilesystemSeg()) || segment.IsMeshSeg() then
        Ok(Point(route, segments + [segment]))
      else if HasFilesystem() then
        Err(MeshAfterFilesystem)
      else
        Err(FilesystemBeforeRoot)
    }

    /** The point reached by following `tail` downwards. */
    function Below(tail: seq<PointSeg>): Point {
      Point(route, segments + tail)
    }
  }

  const ROOT := Point(This, [])

  /** hyperspace:users:hyperuser */
  const HYPERUSER := Point(This, [Space("hyperspace"), Base("users"), Base("hyperuser")])

  datatype Layer = Gravity | Field | Shell | Portal | Host | Guest | Core

  datatype Topic = NoTopic | NotTopic | AnyTopic | Uuid(uuid: string) | Path(path: string) | Cli

  datatype Surface = Surface(point: Point, layer: Layer, topic: Topic) {
    function WithLayer(layer: Layer): Surface {
      Surface(point, layer, topic)
    }
  }

  function ToSurface(point: Point): Surface {
    Surface(point, Core, NoTopic)
  }
}
