/** The 360-degree route tour on the About page: the four stops along the route
    to the hotel, the navigator's current stop, and the panorama viewer's drag
    and animation state, gathered in one object whose methods are the
    component's event handlers. */
module VirtualTour {
  import Nav = TourNavigator
  import O = Orientation

  /** One waypoint of the route. */
  datatype TourStop = TourStop(name: string, description: string, color: string, position: string)

  /** The fixed route, in order. */
  const TourStops: seq<TourStop> := [
    TourStop("Highway Exit", "Start your journey from the main highway exit", "#4A90E2", "14.6°N, 121.0°E"),
    TourStop("Main Road Turn", "Turn right at the main intersection", "#7B68EE", "200m from highway"),
    TourStop("Neighborhood Street", "Continue through the peaceful neighborhood", "#50C878", "500m from highway"),
    TourStop("Hotel Entrance", "Welcome to Vencio's Garden Hotel!", "#D4AF37", "Arrival")
  ]

  class TourViewer {
    /** The stops of the tour; fixed for the viewer's lifetime. */
    const stops: seq<TourStop>
    /** The navigator's current stop index. */
    var currentStop: int
    /** The component's dragging flag, which only picks the cursor. */
    var isDragging: bool

    // The variables the viewer's set-up closes over.
    var interacting: bool
    var downX: real
    var downY: real
    var downLon: real
    var downLat: real
    var lon: real
    var lat: real

    ghost predicate Valid()
      reads this
    {
      stops == TourStops && Nav.InRange(currentStop, |stops|)
    }

    /** The viewer's closure state as a value. */
    function View(): O.Viewer
      reads this
    {
      O.Viewer(interacting, O.Pointer(downX, downY), downLon, downLat, lon, lat)
    }

    /** The stop the tour is showing. */
    function Current(): TourStop
      reads this
      requires Valid()
    {
      stops[currentStop]
    }

    /** Mounting the component: the tour starts at the first stop and the
        viewer is set up for it. */
    constructor ()
      ensures Valid() && currentStop == 0 && Current() == TourStops[0]
      ensures !isDragging && View() == O.Mounted()
    {
      stops := TourStops;
      currentStop := 0;
      isDragging := false;
      new;
      SetUpViewer();
    }

    /** The set-up that runs whenever the current stop changes: fresh closure
        variables, then the first animation frame immediately. */
    method SetUpViewer()
      modifies this
      ensures View() == O.Mounted()
      ensures currentStop == old(currentStop) && isDragging == old(isDragging)
    {
      interacting := false;
      downX, downY := 0.0, 0.0;
      lon, lat := 0.0, 0.0;
      downLon, downLat := 0.0, 0.0;
      AnimationFrame();
    }

    /** `goToStop(index)`: apply an in-range index and ignore any other. The
        viewer is set up afresh only when the stop actually changes; setting
        the same index again does not re-run the set-up. The cursor flag is
        component state that the set-up does not touch. */
    method GoToStop(index: int)
      requires Valid()
      modifies this
      ensures Valid()
      ensures currentStop == Nav.GoTo(old(currentStop), index, |stops|)
      ensures Nav.InRange(index, |stops|) ==> Current() == stops[index]
      ensures View() == if currentStop == old(currentStop) then old(View()) else O.Mounted()
      ensures isDragging == old(isDragging)
    {
      if index >= 0 && index < |stops| {
        var previous := currentStop;
        currentStop := index;
        if currentStop != previous {
          SetUpViewer();
        }
      }
    }

    /** The "previous" button: `goToStop(currentStop - 1)`. */
    method Previous()
      requires Valid()
      modifies this
      ensures Valid()
      ensures currentStop == if Nav.PrevDisabled(old(currentStop)) then old(currentStop) else old(currentStop) - 1
      ensures View() == if currentStop == old(currentStop) then old(View()) else O.Mounted()
      ensures isDragging == old(isDragging)
    {
      GoToStop(currentStop - 1);
    }

    /** The "next" button: `goToStop(currentStop + 1)`. */
    method Next()
      requires Valid()
      modifies this
      ensures Valid()
      ensures currentStop == if Nav.NextDisabled(old(currentStop), |stops|) then old(currentStop) else old(currentStop) + 1
      ensures View() == if currentStop == old(currentStop) then old(View()) else O.Mounted()
      ensures isDragging == old(isDragging)
    {
      GoToStop(currentStop + 1);
    }

    /** Mouse-down or touch-start at `(x, y)`. */
    method PointerDown(x: real, y: real)
      modifies this
      ensures View() == O.OnPointerDown(old(View()), O.Pointer(x, y))
      ensures isDragging && currentStop == old(currentStop)
    {
      interacting := true;
      isDragging := true;
      downX := x;
      downY := y;
      downLon := lon;
      downLat := lat;
    }

    /** Mouse-move or touch-move at `(x, y)`. */
    method PointerMove(x: real, y: real)
      modifies this
      ensures View() == O.OnPointerMove(old(View()), O.Pointer(x, y))
      ensures isDragging == old(isDragging) && currentStop == old(currentStop)
    {
      if interacting {
        lon := (downX - x) * O.Sensitivity + downLon;
        lat := (y - downY) * O.Sensitivity + downLat;
      }
    }

    /** Mouse-up or touch-end. */
    method PointerUp()
      modifies this
      ensures View() == O.OnPointerUp(old(View()))
      ensures !isDragging && currentStop == old(currentStop)
    {
      interacting := false;
      isDragging := false;
    }

    /** The state part of one animation frame. */
    method AnimationFrame()
      modifies this
      ensures View() == O.AnimateStep(old(View()))
      ensures -O.MaxLat <= lat <= O.MaxLat
      ensures isDragging == old(isDragging) && currentStop == old(currentStop)
    {
      if !interacting {
        lon := lon + O.AutoRotateStep;
      }
      lat := O.Clamp(lat);
    }
  }

  /** The route has four stops with distinct names, from the highway exit to
      the hotel entrance. */
  lemma RouteStops()
    ensures |TourStops| == 4
    ensures TourStops[0].name == "Highway Exit"
    ensures TourStops[3].name == "Hotel Entrance" && TourStops[3].position == "Arrival"
    ensures forall i, j :: 0 <= i < j < |TourStops| ==> TourStops[i].name != TourStops[j].name
  {
  }

  /** With the four stops of the route, the last stop disables "next", keeps
      "previous" enabled and draws only the left arrow. */
  lemma LastStopScenario()
    ensures |TourStops| == 4
    ensures Nav.NextDisabled(3, |TourStops|) && !Nav.PrevDisabled(3)
    ensures !Nav.ShowsRightArrow(3, |TourStops|) && Nav.ShowsLeftArrow(3)
    ensures Nav.GoTo(3, 4, |TourStops|) == 3
  {
  }

  /** A drag that is still held when the stop changes: the viewer drops the
      capture, while the cursor flag stays on until the next pointer-up. */
  method StopChangeDuringDrag() returns (t: TourViewer)
    ensures t.Valid() && t.currentStop == 1
    ensures !t.interacting && t.isDragging
  {
    t := new TourViewer();
    t.PointerDown(100.0, 100.0);
    t.PointerMove(50.0, 120.0);
    t.GoToStop(1);
  }
}
