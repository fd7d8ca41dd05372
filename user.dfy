/** A participant as the client sees it (models/User.ts). */
module Users {
  import opened Coordinates

  datatype User = User(id: string, color: string, score: int, location: Coordinate)
}
