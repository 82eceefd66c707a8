/** The records produced by the OSM PBF decoder, reduced to the fields the
    reader looks at. The decoder itself is not part of this model: a decoded
    stream is a finite sequence of these records. */
module Osm {
  import Models

  datatype Tag = Tag(key: string, value: string)

  /** A node reference inside a way. */
  datatype WayNode = WayNode(id: int)

  /** A relation member with the position the decoder attached to it (zero
      when it had none). */
  datatype Member = Member(
    kind: string,
    ref: int,
    role: string,
    version: int,
    lat: Models.Coordinate,
    lon: Models.Coordinate,
    orientation: int)

  /** One decoded record. `Other` stands for any object type the reader's
      type switch does not list. */
  datatype Record =
    | Way(id: int, visible: bool, version: int, timestamp: Models.Timestamp,
          tags: seq<Tag>, nodes: seq<WayNode>)
    | Node(id: int, visible: bool, version: int, timestamp: Models.Timestamp,
           tags: seq<Tag>, lat: Models.Coordinate, lon: Models.Coordinate)
    | Relation(id: int, visible: bool, version: int, timestamp: Models.Timestamp,
               tags: seq<Tag>, members: seq<Member>)
    | Other(description: string)
}
