/**
 * Finding the player who stands on a cell (lib/getUserOnLocation.ts): a
 * first-match search over the user list, in list order.
 */
module UserLookup {
  import opened Wrappers
  import opened Coordinates
  import opened Users

  /** Position of the first user standing on `location`, if any. */
  function FindIndex(users: seq<User>, location: Coordinate): (r: Option<nat>)
    ensures r.Some? ==> r.value < |users| && users[r.value].location == location
    ensures r.Some? ==> forall j :: 0 <= j < r.value ==> users[j].location != location
    ensures r.None? ==> forall j :: 0 <= j < |users| ==> users[j].location != location
  {
    if users == [] then None
    else if AreCoordinatesEqual(users[0].location, location) then Some(0)
    else match FindIndex(users[1..], location)
      case None => None
      case Some(i) => Some(i + 1)
  }

  /** The first user (in list order) whose location equals `location`. */
  function GetUserOnLocation(users: seq<User>, location: Coordinate): (r: Option<User>)
    ensures r.Some? ==> r.value in users && r.value.location == location
    ensures r.None? <==> forall u :: u in users ==> u.location != location
  {
    match FindIndex(users, location)
    case None => None
    case Some(i) => Some(users[i])
  }

  /** When several users share the cell, the earliest in list order is found. */
  lemma GetUserOnLocationIsEarliest(users: seq<User>, location: Coordinate, i: nat)
    requires i < |users| && users[i].location == location
    requires forall j :: 0 <= j < i ==> users[j].location != location
    ensures GetUserOnLocation(users, location) == Some(users[i])
  {
  }

  /** Reference definition: every user on the cell, in list order. */
  function Occupants(users: seq<User>, location: Coordinate): (r: seq<User>)
    ensures forall u :: u in r ==> u in users && u.location == location
    ensures forall u :: u in users && u.location == location ==> u in r
  {
    if users == [] then []
    else if users[0].location == location then [users[0]] + Occupants(users[1..], location)
    else Occupants(users[1..], location)
  }

  /** The search returns the head of the occupants list, and nothing when it is empty. */
  lemma {:induction false} GetUserOnLocationIsFirstOccupant(users: seq<User>, location: Coordinate)
    ensures GetUserOnLocation(users, location) ==
            if Occupants(users, location) == [] then None else Some(Occupants(users, location)[0])
  {
    if users != [] && users[0].location != location {
      GetUserOnLocationIsFirstOccupant(users[1..], location);
      assert users == [users[0]] + users[1..];
      match FindIndex(users[1..], location)
      case None =>
      case Some(i) =>
        assert FindIndex(users, location) == Some(i + 1);
    }
  }

  /**
   * Searching a concatenation: a user found in the front part wins over
   * any in the back part.
   */
  lemma {:induction false} GetUserOnLocationAppend(front: seq<User>, back: seq<User>, location: Coordinate)
    ensures GetUserOnLocation(front + back, location) ==
            if GetUserOnLocation(front, location).Some? then GetUserOnLocation(front, location)
            else GetUserOnLocation(back, location)
  {
    if front != [] {
      assert (front + back)[1..] == front[1..] + back;
      GetUserOnLocationAppend(front[1..], back, location);
      if front[0].location != location {
        match FindIndex(front[1..] + back, location)
        case None =>
        case Some(i) =>
          assert FindIndex(front + back, location) == Some(i + 1);
        match FindIndex(front[1..], location)
        case None =>
        case Some(i) =>
          assert FindIndex(front, location) == Some(i + 1);
      }
    } else {
      assert front + back == back;
    }
  }
}
