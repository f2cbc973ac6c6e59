/** The drag-to-look-around machine of the panorama viewer. Its state is the
    set of variables the viewer's set-up closes over: whether a pointer is
    captured, the pointer position and orientation recorded at pointer-down,
    and the current longitude and latitude in degrees. Angles and pointer
    coordinates are reals: the program's doubles without their rounding. */
module Orientation {

  /** Degrees of rotation per pixel of pointer travel. */
  const Sensitivity: real := 0.1

  /** Degrees of longitude added by each animation frame while idle. */
  const AutoRotateStep: real := 0.05

  /** The latitude is clamped to [-MaxLat, MaxLat] by every animation frame. */
  const MaxLat: real := 85.0

  /** A pointer position on the render surface (mouse or first touch). */
  datatype Pointer = Pointer(x: real, y: real)

  /** The viewer's closure state: `interacting` is true while a pointer is
      captured; `down`, `downLon` and `downLat` are the pointer-down snapshot. */
  datatype Viewer = Viewer(
    interacting: bool,
    down: Pointer,
    downLon: real,
    downLat: real,
    lon: real,
    lat: real)

  /** The variables as the set-up declares them, before any frame runs. */
  function Initial(): (v: Viewer)
    ensures !v.interacting && v.lon == 0.0 && v.lat == 0.0
    ensures v.downLon == v.lon && v.downLat == v.lat
  {
    Viewer(false, Pointer(0.0, 0.0), 0.0, 0.0, 0.0, 0.0)
  }

  function Min(a: real, b: real): real
  {
    if a <= b then a else b
  }

  function Max(a: real, b: real): real
  {
    if a >= b then a else b
  }

  /** `max(-85, min(85, lat))`: the nearest latitude in [-85, 85]. */
  function Clamp(lat: real): (r: real)
    ensures -MaxLat <= r <= MaxLat
    ensures -MaxLat <= lat <= MaxLat ==> r == lat
    ensures lat > MaxLat ==> r == MaxLat
    ensures lat < -MaxLat ==> r == -MaxLat
  {
    Max(-MaxLat, Min(MaxLat, lat))
  }

  /** Pointer-down: capture the pointer and snapshot its position and the
      current orientation. */
  function OnPointerDown(v: Viewer, p: Pointer): (r: Viewer)
    ensures r.interacting && r.down == p
    ensures r.downLon == v.lon && r.downLat == v.lat
    ensures r.lon == v.lon && r.lat == v.lat
  {
    v.(interacting := true, down := p, downLon := v.lon, downLat := v.lat)
  }

  /** Pointer-move: while a pointer is captured, recompute the orientation
      from the snapshot and the pointer's offset from the snapshot position;
      otherwise ignore the event. The latitude is not clamped here. */
  function OnPointerMove(v: Viewer, p: Pointer): (r: Viewer)
    ensures r.interacting == v.interacting && r.down == v.down
    ensures r.downLon == v.downLon && r.downLat == v.downLat
    ensures !v.interacting ==> r == v
  {
    if v.interacting then
      v.(lon := (v.down.x - p.x) * Sensitivity + v.downLon,
         lat := (p.y - v.down.y) * Sensitivity + v.downLat)
    else v
  }

  /** Pointer-up: release the pointer. */
  function OnPointerUp(v: Viewer): (r: Viewer)
    ensures !r.interacting
    ensures r.lon == v.lon && r.lat == v.lat
    ensures r.down == v.down && r.downLon == v.downLon && r.downLat == v.downLat
  {
    v.(interacting := false)
  }

  /** The state part of one animation frame: rotate while idle, then clamp
      the latitude. */
  function AnimateStep(v: Viewer): (r: Viewer)
    ensures -MaxLat <= r.lat <= MaxLat
    ensures -MaxLat <= v.lat <= MaxLat ==> r.lat == v.lat
    ensures r.lon == if v.interacting then v.lon else v.lon + AutoRotateStep
    ensures r.interacting == v.interacting && r.down == v.down
    ensures r.downLon == v.downLon && r.downLat == v.downLat
  {
    v.(lon := if !v.interacting then v.lon + AutoRotateStep else v.lon,
       lat := Clamp(v.lat))
  }

  /** The state right after the viewer is set up for a stop: the variables
      start at their initial values and the first frame runs immediately, so
      the viewer is idle at latitude 0, one rotation step past longitude 0. */
  function Mounted(): (r: Viewer)
    ensures !r.interacting
    ensures r.lat == 0.0 && r.lon == AutoRotateStep
  {
    AnimateStep(Initial())
  }

  /** The state after `k` animation frames with no pointer event between. */
  function Frames(v: Viewer, k: nat): (r: Viewer)
    ensures r.interacting == v.interacting
    ensures k > 0 ==> -MaxLat <= r.lat <= MaxLat
    decreases k
  {
    if k == 0 then v else AnimateStep(Frames(v, k - 1))
  }

  /** The state after a run of pointer-moves, oldest first. */
  function Moves(v: Viewer, path: seq<Pointer>): Viewer
    decreases |path|
  {
    if path == [] then v else Moves(OnPointerMove(v, path[0]), path[1..])
  }

  /** A move with no pointer captured changes nothing. */
  lemma MoveIgnoredWhenIdle(v: Viewer, p: Pointer)
    requires !v.interacting
    ensures OnPointerMove(v, p) == v
  {
  }

  /** While dragging, the orientation moves against the horizontal pointer
      offset and with the vertical one, a tenth of a degree per unit, from
      the snapshot; the snapshot and the capture are untouched. */
  lemma MoveFollowsOffset(v: Viewer, p: Pointer)
    requires v.interacting
    ensures OnPointerMove(v, p).lon - v.downLon == -Sensitivity * (p.x - v.down.x)
    ensures OnPointerMove(v, p).lat - v.downLat == Sensitivity * (p.y - v.down.y)
    ensures OnPointerMove(v, p).(lon := v.lon, lat := v.lat) == v
  {
  }

  /** A move depends only on the snapshot and the pointer, not on earlier
      moves of the same drag. */
  lemma MoveOverridesMove(v: Viewer, p: Pointer, q: Pointer)
    ensures OnPointerMove(OnPointerMove(v, p), q) == OnPointerMove(v, q)
  {
  }

  /** A whole run of moves ends where its last move alone would. */
  lemma {:induction false} MovesEndAtLast(v: Viewer, path: seq<Pointer>)
    requires path != []
    ensures Moves(v, path) == OnPointerMove(v, path[|path| - 1])
    decreases |path|
  {
    if |path| > 1 {
      MovesEndAtLast(OnPointerMove(v, path[0]), path[1..]);
      MoveOverridesMove(v, path[0], path[|path| - 1]);
    }
  }

  /** A drag whose pointer comes back to where it went down restores the
      orientation the drag started from, whatever path it took. */
  lemma DragBackRestores(v: Viewer, start: Pointer, path: seq<Pointer>)
    requires path != [] && path[|path| - 1] == start
    ensures Moves(OnPointerDown(v, start), path).lon == v.lon
    ensures Moves(OnPointerDown(v, start), path).lat == v.lat
  {
    MovesEndAtLast(OnPointerDown(v, start), path);
  }

  /** Pointer-up always releases the pointer, keeps the orientation, and
      every later move is ignored until the next pointer-down. */
  lemma PointerUpReleases(v: Viewer, path: seq<Pointer>)
    ensures !OnPointerUp(v).interacting
    ensures OnPointerUp(v).lon == v.lon && OnPointerUp(v).lat == v.lat
    ensures Moves(OnPointerUp(v), path) == OnPointerUp(v)
  {
    if path != [] {
      MovesEndAtLast(OnPointerUp(v), path);
    }
  }

  /** While idle, `k` frames rotate the longitude by exactly `k` steps. */
  lemma {:induction false} IdleFramesRotate(v: Viewer, k: nat)
    requires !v.interacting
    ensures Frames(v, k).lon == v.lon + AutoRotateStep * k as real
  {
    if k > 0 {
      IdleFramesRotate(v, k - 1);
    }
  }

  /** While dragging, frames never move the longitude. */
  lemma {:induction false} DraggingFramesHoldLon(v: Viewer, k: nat)
    requires v.interacting
    ensures Frames(v, k).lon == v.lon
  {
    if k > 0 {
      DraggingFramesHoldLon(v, k - 1);
    }
  }

  /** Frames leave a latitude that is already in range alone, and bring any
      other latitude to the nearest bound on the first frame. */
  lemma {:induction false} FramesKeepLat(v: Viewer, k: nat)
    requires k > 0
    ensures Frames(v, k).lat == Clamp(v.lat)
  {
    if k > 1 {
      FramesKeepLat(v, k - 1);
    }
  }

  /** The clamp lives only in the frame: a move can leave the latitude out of
      range until the next frame brings it back to the bound. */
  lemma MoveCanLeaveLatOutOfRange()
    ensures OnPointerMove(OnPointerDown(Initial(), Pointer(0.0, 0.0)), Pointer(0.0, 5000.0)).lat == 500.0
    ensures AnimateStep(OnPointerMove(OnPointerDown(Initial(), Pointer(0.0, 0.0)), Pointer(0.0, 5000.0))).lat == MaxLat
  {
  }

}
