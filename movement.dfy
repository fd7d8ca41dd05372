/**
 * Keyboard movement on the toroidal grid (lib/onMovement.ts): `Wrap` is the
 * step arithmetic, `Step` is what one call of `modifyMovement` does to the
 * handler's state, `Run` replays a stream of key events, and the class
 * `MovementHandler` is the closure state that the source mutates in place.
 */
module Movement {
  import opened Wrappers
  import opened Coordinates
  import opened Games

  /** A location lies on the grid: x is a column, y is a row. */
  predicate InGrid(c: Coordinate)
  {
    0 <= c.x < GameColumns && 0 <= c.y < GameRows
  }

  /**
   * Brings a value at most one grid length below zero back into [0, max):
   * negative values are shifted up by max, others are reduced modulo max.
   */
  function Wrap(x: int, max: int): (r: int)
    requires max > 0 && -max <= x
    ensures 0 <= r < max
    ensures r == x % max
  {
    if x < 0 then x + max else x % max
  }

  /** Wrap is periodic in its bound. */
  lemma WrapPeriodic(x: int, max: int)
    requires max > 0 && -max <= x
    ensures Wrap(x, max) == Wrap(x + max, max)
  {
    if x < 0 {
      assert Wrap(x + max, max) == (x + max) % max == x + max;
    } else {
      ModOfDecomposition(x + max, max, x / max + 1, x % max);
    }
  }

  /** A value written as q * m + rem with 0 <= rem < m has remainder rem. */
  lemma ModOfDecomposition(v: int, m: int, q: int, rem: int)
    requires m > 0 && 0 <= rem < m && v == q * m + rem
    ensures v % m == rem
  {
    var d := q - v / m;
    MulDistributes(q, v / m, m);
    assert d * m == v % m - rem;
    if d >= 1 {
      MulAtLeast(d, m);
    } else if d <= -1 {
      MulAtLeast(-d, m);
      MulDistributes(0, d, m);
    }
  }

  lemma MulDistributes(a: int, b: int, m: int)
    ensures (a - b) * m == a * m - b * m
  {
  }

  lemma MulAtLeast(d: int, m: int)
    requires d >= 1 && m > 0
    ensures d * m >= m
  {
  }

  /** Stepping off either edge lands on the opposite edge. */
  lemma WrapEdges(max: int)
    requires max > 0
    ensures Wrap(-1, max) == max - 1
    ensures Wrap(max, max) == 0
  {
  }

  /** Lower-casing of one character (ASCII letters only). */
  function LowerChar(c: char): char
  {
    if 'A' <= c <= 'Z' then (c as int - 'A' as int + 'a' as int) as char else c
  }

  /** The key name lower-cased character by character. */
  function ToLower(key: string): (r: string)
    ensures |r| == |key|
    ensures forall i :: 0 <= i < |key| ==> r[i] == LowerChar(key[i])
  {
    if key == [] then [] else [LowerChar(key[0])] + ToLower(key[1..])
  }

  /** Lower-casing twice is lower-casing once. */
  lemma ToLowerIdempotent(key: string)
    ensures ToLower(ToLower(key)) == ToLower(key)
  {
    var once := ToLower(key);
    assert forall i :: 0 <= i < |once| ==> LowerChar(once[i]) == once[i];
  }

  /** The four keys that move the player: up, left, down, right. */
  predicate IsMoveKey(k: string)
  {
    k == "w" || k == "a" || k == "s" || k == "d"
  }

  /** Reference definition of the neighbouring cell on the torus, written with explicit edge cases. */
  function Neighbour(c: Coordinate, k: string): (r: Coordinate)
    requires InGrid(c) && IsMoveKey(k)
  {
    if k == "w" then Coordinate(c.x, if c.y == 0 then GameRows - 1 else c.y - 1)
    else if k == "s" then Coordinate(c.x, if c.y == GameRows - 1 then 0 else c.y + 1)
    else if k == "a" then Coordinate(if c.x == 0 then GameColumns - 1 else c.x - 1, c.y)
    else Coordinate(if c.x == GameColumns - 1 then 0 else c.x + 1, c.y)
  }

  /** Moving one way and then the opposite way returns to the start. */
  lemma OppositeMovesCancel(c: Coordinate)
    requires InGrid(c)
    ensures Neighbour(Neighbour(c, "w"), "s") == c && Neighbour(Neighbour(c, "s"), "w") == c
    ensures Neighbour(Neighbour(c, "a"), "d") == c && Neighbour(Neighbour(c, "d"), "a") == c
  {
  }

  /** The state `modifyMovement` closes over: the tracked location and the keys held down. */
  datatype TrackerState = TrackerState(location: Coordinate, keys: set<string>)

  /** One call of `modifyMovement(key, down)`: the new state and the location it emits, if any. */
  function Step(s: TrackerState, key: string, down: bool): (r: (TrackerState, Option<Coordinate>))
    requires InGrid(s.location)
    ensures InGrid(r.0.location)
    ensures r.1.Some? <==> down && ToLower(key) !in s.keys && IsMoveKey(ToLower(key))
    ensures r.1.Some? ==> r.1.value == r.0.location == Neighbour(s.location, ToLower(key))
    ensures r.1.None? ==> r.0.location == s.location
    ensures r.0.keys == if !down then s.keys - {ToLower(key)}
                        else if r.1.Some? then s.keys + {ToLower(key)}
                        else s.keys
  {
    var k := ToLower(key);
    var loc := s.location;
    if !down then (s.(keys := s.keys - {k}), None)
    else if k in s.keys then (s, None)
    else
      var moved :=
        if k == "w" then Some(loc.(y := Wrap(loc.y - 1, GameRows)))
        else if k == "a" then Some(loc.(x := Wrap(loc.x - 1, GameColumns)))
        else if k == "s" then Some(loc.(y := Wrap(loc.y + 1, GameRows)))
        else if k == "d" then Some(loc.(x := Wrap(loc.x + 1, GameColumns)))
        else None;
      match moved
      case None => (s, None)
      case Some(c) => (TrackerState(c, s.keys + {k}), Some(c))
  }

  /** Keys are compared lower-cased: 'W' behaves exactly like 'w'. */
  lemma StepIgnoresCase(s: TrackerState, key: string, down: bool)
    requires InGrid(s.location)
    ensures Step(s, key, down) == Step(s, ToLower(key), down)
  {
    ToLowerIdempotent(key);
  }

  /** A key event as delivered by the browser. */
  datatype KeyEvent = KeyEvent(key: string, down: bool)

  /** Replays events through `Step`: the final state and every emitted location, in order. */
  function Run(s: TrackerState, events: seq<KeyEvent>): (r: (TrackerState, seq<Coordinate>))
    requires InGrid(s.location)
    decreases |events|
    ensures InGrid(r.0.location)
    ensures forall c :: c in r.1 ==> InGrid(c)
    ensures r.1 != [] ==> r.1[|r.1| - 1] == r.0.location
    ensures r.1 == [] ==> r.0.location == s.location
  {
    if events == [] then (s, [])
    else
      var (next, out) := Step(s, events[0].key, events[0].down);
      var (last, rest) := Run(next, events[1..]);
      (last, (if out.Some? then [out.value] else []) + rest)
  }

  /** Number of key-down events. */
  function CountDowns(events: seq<KeyEvent>): nat
  {
    if events == [] then 0 else (if events[0].down then 1 else 0) + CountDowns(events[1..])
  }

  /** At most one location is emitted per key-down event. */
  lemma {:induction false} RunEmitsAtMostOnePerDown(s: TrackerState, events: seq<KeyEvent>)
    requires InGrid(s.location)
    decreases |events|
    ensures |Run(s, events).1| <= CountDowns(events)
  {
    if events != [] {
      var (next, _) := Step(s, events[0].key, events[0].down);
      RunEmitsAtMostOnePerDown(next, events[1..]);
    }
  }

  /** `n` key-down events for the same key, as key repeat delivers them. */
  function Held(key: string, n: nat): (r: seq<KeyEvent>)
  {
    if n == 0 then [] else [KeyEvent(key, true)] + Held(key, n - 1)
  }

  /** While a key is held, further key-downs for it change nothing and emit nothing. */
  lemma {:induction false} HeldKeyIgnored(s: TrackerState, key: string, n: nat)
    requires InGrid(s.location) && ToLower(key) in s.keys
    ensures Run(s, Held(key, n)) == (s, [])
  {
    if n > 0 {
      HeldKeyIgnored(s, key, n - 1);
    }
  }

  /** A sustained key-down (n repeated downs, no up) moves exactly once. */
  lemma HeldKeyMovesOnce(s: TrackerState, key: string, n: nat)
    requires InGrid(s.location)
    requires IsMoveKey(ToLower(key)) && ToLower(key) !in s.keys
    requires n >= 1
    ensures Run(s, Held(key, n)).1 == [Neighbour(s.location, ToLower(key))]
  {
    var (next, _) := Step(s, key, true);
    HeldKeyIgnored(next, key, n - 1);
  }

  /** Down, up, down on the same key moves twice: releasing re-arms the key. */
  lemma PressReleasePressMovesTwice(s: TrackerState, key: string)
    requires InGrid(s.location)
    requires IsMoveKey(ToLower(key)) && ToLower(key) !in s.keys
    ensures var once := Neighbour(s.location, ToLower(key));
            Run(s, [KeyEvent(key, true), KeyEvent(key, false), KeyEvent(key, true)]).1 ==
            [once, Neighbour(once, ToLower(key))]
  {
    var events := [KeyEvent(key, true), KeyEvent(key, false), KeyEvent(key, true)];
    var (s1, _) := Step(s, key, true);
    var (s2, _) := Step(s1, key, false);
    assert events[1..][1..] == [KeyEvent(key, true)];
    assert Run(s2, events[1..][1..]).1 == [Neighbour(s2.location, ToLower(key))];
  }

  /** The location object that `modifyMovement` updates field by field. */
  class MutableCoordinate {
    var x: int
    var y: int

    constructor (c: Coordinate)
      ensures Value() == c
    {
      x := c.x;
      y := c.y;
    }

    function Value(): Coordinate
      reads this
    {
      Coordinate(x, y)
    }
  }

  /**
   * The state held by one `onMovement` closure: the location object, the set
   * of keys held down, and (ghost) every location passed to `setLocation`.
   */
  class MovementHandler {
    const location: MutableCoordinate
    var keys: set<string>
    ghost var emitted: seq<Coordinate>

    ghost predicate Valid()
      reads this, location
    {
      InGrid(location.Value())
    }

    function State(): TrackerState
      reads this, location
    {
      TrackerState(location.Value(), keys)
    }

    /** Starts at the zero coordinate with no keys held and nothing emitted. */
    constructor ()
      ensures Valid() && fresh(location)
      ensures location.Value() == ZeroCoordinate() && keys == {} && emitted == []
    {
      location := new MutableCoordinate(ZeroCoordinate());
      keys := {};
      emitted := [];
    }

    /** Handles one key event; a location passed to `setLocation` is appended to `emitted`. */
    method ModifyMovement(key: string, down: bool)
      requires Valid()
      modifies this, location
      ensures Valid()
      ensures State() == Step(old(State()), key, down).0
      ensures emitted == old(emitted) + match Step(old(State()), key, down).1
                                         case None => []
                                         case Some(c) => [c]
    {
      var k := ToLower(key);
      if !down {
        keys := keys - {k};
        return;
      }
      if k in keys {
        return;
      }
      if k == "w" {
        location.y := Wrap(location.y - 1, GameRows);
      } else if k == "a" {
        location.x := Wrap(location.x - 1, GameColumns);
      } else if k == "s" {
        location.y := Wrap(location.y + 1, GameRows);
      } else if k == "d" {
        location.x := Wrap(location.x + 1, GameColumns);
      } else {
        return;
      }
      emitted := emitted + [location.Value()];
      keys := keys + {k};
    }
  }
}
