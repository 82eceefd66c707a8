/** Document shapes written by the loader: the object that travels from the
    reader to the writers, its identity key, its tags, the members of a
    relation and the GeoJSON point used for locations. */
module Models {

  /** An optional value; `None` stands for a nil pointer or a nil slice. */
  datatype Option<+T> = None | Some(value: T)

  /** An error reported by a collaborator (the decoder or the store). Its
      content is opaque to the loader, which only passes it on. */
  datatype Failure = Failure(reason: string)

  /** Latitude or longitude. The loader never computes with coordinates: it
      compares them with zero and puts them in place. */
  type Coordinate = real

  /** Timestamps are copied from record to document and never inspected. */
  type Timestamp = int

  /** A GeoJSON geometry: its type name and its coordinate list. */
  datatype Coords = Coords(kind: string, coordinates: seq<Coordinate>)

  /** The GeoJSON point at a position, longitude first. */
  function Point(lon: Coordinate, lat: Coordinate): Coords
  {
    Coords("Point", [lon, lat])
  }

  datatype Tag = Tag(key: string, value: string)

  /** The kind tag of a stored object. */
  datatype ObjectType = WayType | NodeType | RelationType

  /** The identity of a stored object: OSM id, kind and version. In
      incremental mode this whole value is the upsert filter. */
  datatype ID = ID(id: int, kind: ObjectType, version: int)

  /** A relation member as stored. `kind` is the member's OSM type name
      ("node", "way", "relation"); `location` is absent when the reader could
      not place the member. */
  datatype Member = Member(
    kind: string,
    ref: int,
    role: string,
    version: int,
    location: Option<Coords>,
    orientation: int)

  /** The normalised object pushed by the reader and written by a worker.
      `location` is set for nodes only, `nodes` for ways only and `members`
      for relations only. */
  datatype Object = Object(
    id: ID,
    tags: seq<Tag>,
    timestamp: Timestamp,
    location: Option<Coords>,
    nodes: Option<seq<int>>,
    members: Option<seq<Member>>)
}
