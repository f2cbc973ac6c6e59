/** The tour navigator of the 360-degree route tour: a fixed, non-empty list of
    stops and the index of the current one. The index only ever changes through
    the guarded setter `goToStop`, which applies an in-range index and silently
    ignores every other one (it does not clamp). */
module TourNavigator {

  /** Whether `index` names one of the `n` stops. */
  predicate InRange(index: int, n: int)
  {
    0 <= index < n
  }

  /** The index that `goToStop(index)` leaves behind when the tour is at `cur`
      and has `n` stops. */
  function GoTo(cur: int, index: int, n: int): (r: int)
    ensures InRange(index, n) ==> r == index
    ensures r == index || r == cur
    ensures r != cur ==> InRange(index, n)
    ensures InRange(cur, n) ==> InRange(r, n)
  {
    if index >= 0 && index < n then index else cur
  }

  /** The "previous" button is disabled exactly at the first stop. */
  predicate PrevDisabled(cur: int)
    ensures forall n :: InRange(cur, n) ==> (PrevDisabled(cur) <==> !InRange(cur - 1, n))
  {
    cur == 0
  }

  /** The "next" button is disabled exactly at the last stop. */
  predicate NextDisabled(cur: int, n: int)
    ensures InRange(cur, n) ==> (NextDisabled(cur, n) <==> !InRange(cur + 1, n))
  {
    cur == n - 1
  }

  /** The texture of the current stop carries a right-hand arrow glyph. */
  predicate ShowsRightArrow(cur: int, n: int)
    ensures InRange(cur, n) ==> (ShowsRightArrow(cur, n) <==> InRange(cur + 1, n))
  {
    cur < n - 1
  }

  /** The texture of the current stop carries a left-hand arrow glyph. */
  predicate ShowsLeftArrow(cur: int)
    ensures forall n :: InRange(cur, n) ==> (ShowsLeftArrow(cur) <==> InRange(cur - 1, n))
  {
    cur > 0
  }

  lemma GoToAccepts(cur: int, index: int, n: int)
    requires InRange(index, n)
    ensures GoTo(cur, index, n) == index
  {
  }

  lemma GoToIgnores(cur: int, index: int, n: int)
    requires !InRange(index, n)
    ensures GoTo(cur, index, n) == cur
  {
  }

  /** "Previous" is `goToStop(cur - 1)` and "next" is `goToStop(cur + 1)`; at
      a stop in range each of them is a no-op exactly when its button is
      disabled, so the disabled state never hides a move that would happen. */
  lemma ButtonsDisabledIffNoOp(cur: int, n: int)
    requires InRange(cur, n)
    ensures PrevDisabled(cur) <==> GoTo(cur, cur - 1, n) == cur
    ensures NextDisabled(cur, n) <==> GoTo(cur, cur + 1, n) == cur
    ensures !PrevDisabled(cur) ==> GoTo(cur, cur - 1, n) == cur - 1
    ensures !NextDisabled(cur, n) ==> GoTo(cur, cur + 1, n) == cur + 1
  {
  }

  /** The arrow glyphs drawn into the texture agree with the buttons: an arrow
      is drawn exactly when the button in its direction is enabled. */
  lemma ArrowsMatchButtons(cur: int, n: int)
    requires InRange(cur, n)
    ensures ShowsRightArrow(cur, n) <==> !NextDisabled(cur, n)
    ensures ShowsLeftArrow(cur) <==> !PrevDisabled(cur)
  {
  }

  /** The index after a history of `goToStop` requests, oldest first, starting
      at `start`. */
  function Follow(start: int, requests: seq<int>, n: int): (r: int)
    ensures r == start || r in requests
    ensures InRange(start, n) ==> InRange(r, n)
    decreases |requests|
  {
    if requests == [] then start
    else
      var earlier := requests[..|requests| - 1];
      assert forall i :: i in earlier ==> i in requests;
      GoTo(Follow(start, earlier, n), requests[|requests| - 1], n)
  }

  /** No request of `requests` names a stop. */
  ghost predicate AllRejected(requests: seq<int>, n: int)
  {
    forall j :: 0 <= j < |requests| ==> !InRange(requests[j], n)
  }

  /** `r` is the last request that named a stop, or `start` when none did. */
  ghost predicate IsLastAccepted(r: int, start: int, requests: seq<int>, n: int)
  {
    if AllRejected(requests, n) then r == start
    else exists j :: 0 <= j < |requests| && InRange(requests[j], n) && r == requests[j]
                  && AllRejected(requests[j + 1..], n)
  }

  /** Following a history of requests lands on the last request that named a
      stop, and stays put when none did. */
  lemma {:induction false} FollowIsLastAccepted(start: int, requests: seq<int>, n: int)
    ensures IsLastAccepted(Follow(start, requests, n), start, requests, n)
  {
    if requests != [] {
      var k := |requests| - 1;
      var earlier := requests[..k];
      var last := requests[k];
      assert requests == earlier + [last];
      var r := Follow(start, requests, n);
      if InRange(last, n) {
        assert requests[k + 1..] == [];
        assert !AllRejected(requests, n);
      } else {
        FollowIsLastAccepted(start, earlier, n);
        assert r == Follow(start, earlier, n);
        if AllRejected(earlier, n) {
          assert AllRejected(requests, n);
        } else {
          var j :| 0 <= j < |earlier| && InRange(earlier[j], n) && r == earlier[j]
                && AllRejected(earlier[j + 1..], n);
          assert requests[j + 1..] == earlier[j + 1..] + [last];
          assert AllRejected(requests[j + 1..], n);
          assert !AllRejected(requests, n);
        }
      }
    }
  }

  /** The current index starts at 0 and only `goToStop` changes it, so on a
      non-empty tour it is always a valid stop. */
  lemma ReachableIndexInRange(requests: seq<int>, n: int)
    requires n > 0
    ensures InRange(Follow(0, requests, n), n)
  {
  }
}
