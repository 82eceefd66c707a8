/** The reader (reader.go): it walks the decoded records in order, drops those
    whose layer is not enabled or that are not visible, converts the rest into
    objects and finally reports the decoder's terminal error, if any. */
module Reader {
  import opened Models
  import opened Helpers
  import Osm

  const WaysLayer := "ways"
  const NodesLayer := "nodes"
  const RelationsLayer := "relations"

  /** The three layer names the reader looks up. */
  predicate Known(name: string)
  {
    name == WaysLayer || name == NodesLayer || name == RelationsLayer
  }

  /** The layer table: the three known names start out false and every name
      listed in `layers`, known or not, is set to true. */
  function LayerMap(layers: seq<string>): (m: map<string, bool>)
    ensures forall name :: name in m <==> Known(name) || name in layers
    ensures forall name :: name in m ==> (m[name] <==> name in layers)
  {
    if |layers| == 0 then
      map[WaysLayer := false, NodesLayer := false, RelationsLayer := false]
    else
      var init := layers[..|layers| - 1];
      assert layers == init + [layers[|layers| - 1]];
      LayerMap(init)[layers[|layers| - 1] := true]
  }

  /** Whether a known layer is switched on. */
  function Enabled(layers: seq<string>, name: string): bool
    requires Known(name)
  {
    LayerMap(layers)[name]
  }

  /** The layer a kind of object belongs to. */
  function LayerOf(kind: ObjectType): string
  {
    match kind
    case WayType => WaysLayer
    case NodeType => NodesLayer
    case RelationType => RelationsLayer
  }

  /** The kind tag a decoded record is stored under. */
  function KindOf(r: Osm.Record): ObjectType
    requires !r.Other?
  {
    if r.Way? then WayType else if r.Node? then NodeType else RelationType
  }

  /** The reader's filter. A record passes when it is a way, node or relation,
      it is visible, and its layer name is among `layers`; other names in
      `layers` play no part. */
  function Accepts(layers: seq<string>, r: Osm.Record): (pass: bool)
    ensures pass <==> !r.Other? && r.visible && LayerOf(KindOf(r)) in layers
  {
    if r.Way? then Enabled(layers, WaysLayer) && r.visible
    else if r.Node? then Enabled(layers, NodesLayer) && r.visible
    else if r.Relation? then Enabled(layers, RelationsLayer) && r.visible
    else false
  }

  /** The node ids a way refers to, in order. */
  function WayNodeIds(nodes: seq<Osm.WayNode>): (ids: seq<int>)
    ensures |ids| == |nodes|
    ensures forall i :: 0 <= i < |nodes| ==> ids[i] == nodes[i].id
  {
    if |nodes| == 0 then []
    else WayNodeIds(nodes[..|nodes| - 1]) + [nodes[|nodes| - 1].id]
  }

  /** A stored member. Its location is set only when both coordinates are
      non-zero; the member's own version is not carried over. */
  function ConvertMember(m: Osm.Member): (r: Member)
    ensures r.kind == m.kind && r.ref == m.ref && r.role == m.role && r.orientation == m.orientation
    ensures r.version == 0
    ensures r.location == if m.lat != 0.0 && m.lon != 0.0 then Some(Point(m.lon, m.lat)) else None
  {
    var location := if m.lat != 0.0 && m.lon != 0.0 then Some(Point(m.lon, m.lat)) else None;
    Member(m.kind, m.ref, m.role, 0, location, m.orientation)
  }

  function ConvertMembers(members: seq<Osm.Member>): (r: seq<Member>)
    ensures |r| == |members|
    ensures forall i :: 0 <= i < |members| ==> r[i] == ConvertMember(members[i])
  {
    if |members| == 0 then []
    else ConvertMembers(members[..|members| - 1]) + [ConvertMember(members[|members| - 1])]
  }

  /** The object built from an accepted record. */
  function Convert(r: Osm.Record): (o: Object)
    requires !r.Other?
    ensures o.id == ID(r.id, KindOf(r), r.version)
    ensures o.tags == ConvertTags(r.tags) && o.timestamp == r.timestamp
    ensures r.Node? ==> o.location == Some(Point(r.lon, r.lat)) && o.nodes == None && o.members == None
    ensures r.Way? ==> o.nodes == Some(WayNodeIds(r.nodes)) && o.location == None && o.members == None
    ensures r.Relation? ==>
      o.members == Some(ConvertMembers(r.members)) && o.location == None && o.nodes == None
  {
    match r
    case Way(id, _, version, timestamp, tags, nodes) =>
      Object(ID(id, WayType, version), ConvertTags(tags), timestamp,
             None, Some(WayNodeIds(nodes)), None)
    case Node(id, _, version, timestamp, tags, lat, lon) =>
      Object(ID(id, NodeType, version), ConvertTags(tags), timestamp,
             Some(Point(lon, lat)), None, None)
    case Relation(id, _, version, timestamp, tags, members) =>
      Object(ID(id, RelationType, version), ConvertTags(tags), timestamp,
             None, None, Some(ConvertMembers(members)))
  }

  /** The objects pushed to the channel for a sequence of records, in order. */
  function Dispatch(records: seq<Osm.Record>, layers: seq<string>): (out: seq<Object>)
    ensures |out| <= |records|
    ensures forall o :: o in out ==> LayerOf(o.id.kind) in layers
  {
    if |records| == 0 then []
    else
      var init := Dispatch(records[..|records| - 1], layers);
      var r := records[|records| - 1];
      if Accepts(layers, r) then init + [Convert(r)] else init
  }

  /** Reference definition of the filter: the positions of the accepted
      records, strictly increasing, and every accepted position among them. */
  function AcceptedIndices(records: seq<Osm.Record>, layers: seq<string>): (idx: seq<nat>)
    ensures forall k :: 0 <= k < |idx| ==> idx[k] < |records| && Accepts(layers, records[idx[k]])
    ensures forall k, l :: 0 <= k < l < |idx| ==> idx[k] < idx[l]
    ensures forall i :: 0 <= i < |records| && Accepts(layers, records[i]) ==> i in idx
  {
    if |records| == 0 then []
    else
      var n := |records| - 1;
      var init := AcceptedIndices(records[..n], layers);
      assert forall k :: 0 <= k < |init| ==> records[..n][init[k]] == records[init[k]];
      if Accepts(layers, records[n]) then init + [n] else init
  }

  /** `out[k]` is the object converted from record `idx[k]`, for every k. */
  predicate Matches(out: seq<Object>, idx: seq<nat>, records: seq<Osm.Record>)
  {
    && |out| == |idx|
    && forall k :: 0 <= k < |idx| ==>
         idx[k] < |records| && !records[idx[k]].Other? && out[k] == Convert(records[idx[k]])
  }

  lemma MatchesExtend(out: seq<Object>, idx: seq<nat>, records: seq<Osm.Record>, r: Osm.Record, keep: bool)
    requires Matches(out, idx, records)
    requires keep ==> !r.Other?
    ensures keep ==> Matches(out + [Convert(r)], idx + [|records|], records + [r])
    ensures !keep ==> Matches(out, idx, records + [r])
  {
    var all := records + [r];
    assert forall k :: 0 <= k < |idx| ==> all[idx[k]] == records[idx[k]];
  }

  /** Dispatch emits exactly one object per accepted record, in input order. */
  lemma {:induction false} DispatchMatchesIndices(records: seq<Osm.Record>, layers: seq<string>)
    ensures Matches(Dispatch(records, layers), AcceptedIndices(records, layers), records)
  {
    if |records| > 0 {
      var n := |records| - 1;
      DispatchMatchesIndices(records[..n], layers);
      assert records == records[..n] + [records[n]];
      MatchesExtend(Dispatch(records[..n], layers), AcceptedIndices(records[..n], layers),
                    records[..n], records[n], Accepts(layers, records[n]));
    }
  }

  /** Dispatch works record by record: the output of a concatenation is the
      concatenation of the outputs. */
  lemma {:induction false} DispatchAppend(a: seq<Osm.Record>, b: seq<Osm.Record>, layers: seq<string>)
    ensures Dispatch(a + b, layers) == Dispatch(a, layers) + Dispatch(b, layers)
  {
    if |b| == 0 {
      assert a + b == a;
    } else {
      var init := b[..|b| - 1];
      DispatchAppend(a, init, layers);
      assert (a + b)[..|a + b| - 1] == a + init;
    }
  }

  /** One record on its own. */
  lemma DispatchSingle(r: Osm.Record, layers: seq<string>)
    ensures Dispatch([r], layers) == if Accepts(layers, r) then [Convert(r)] else []
  {
    assert [r][..0] == [];
  }

  /** A rejected record leaves no trace in the output, wherever it stands. */
  lemma DispatchSkipsRejected(a: seq<Osm.Record>, r: Osm.Record, b: seq<Osm.Record>, layers: seq<string>)
    requires !Accepts(layers, r)
    ensures Dispatch(a + [r] + b, layers) == Dispatch(a + b, layers)
  {
    DispatchAppend(a + [r], b, layers);
    DispatchAppend(a, [r], layers);
    DispatchAppend(a, b, layers);
    DispatchSingle(r, layers);
  }

  /** A record that is not visible is never emitted, whatever the layers. */
  lemma InvisibleNeverEmitted(a: seq<Osm.Record>, r: Osm.Record, b: seq<Osm.Record>, layers: seq<string>)
    requires !r.Other? && !r.visible
    ensures Dispatch(a + [r] + b, layers) == Dispatch(a + b, layers)
  {
    DispatchSkipsRejected(a, r, b, layers);
  }

  /** An accepted record contributes its object exactly at its place. */
  lemma DispatchKeepsAccepted(a: seq<Osm.Record>, r: Osm.Record, b: seq<Osm.Record>, layers: seq<string>)
    requires Accepts(layers, r)
    ensures Dispatch(a + [r] + b, layers) == Dispatch(a, layers) + [Convert(r)] + Dispatch(b, layers)
  {
    DispatchAppend(a + [r], b, layers);
    DispatchAppend(a, [r], layers);
    DispatchSingle(r, layers);
  }

  /** With no known layer name enabled (in particular with no layers at all)
      nothing is emitted. */
  lemma NoKnownLayerEmitsNothing(records: seq<Osm.Record>, layers: seq<string>)
    requires forall name :: name in layers ==> !Known(name)
    ensures Dispatch(records, layers) == []
  {
    var out := Dispatch(records, layers);
    if |out| > 0 {
      assert out[0] in out;
      assert Known(LayerOf(out[0].id.kind));
    }
  }

  /** Adding a name the reader does not know changes nothing. */
  lemma {:induction false} UnknownLayerIgnored(records: seq<Osm.Record>, layers: seq<string>, name: string)
    requires !Known(name)
    ensures Dispatch(records, layers + [name]) == Dispatch(records, layers)
  {
    if |records| > 0 {
      UnknownLayerIgnored(records[..|records| - 1], layers, name);
      var r := records[|records| - 1];
      assert Accepts(layers + [name], r) == Accepts(layers, r);
    }
  }

  /** The decoded stream: its records and the decoder's terminal error. */
  datatype Decoded = Decoded(records: seq<Osm.Record>, failure: Option<Failure>)

  /** What the reader produced: the objects pushed, in order, and its result. */
  datatype ReadResult = ReadResult(emitted: seq<Object>, failure: Option<Failure>)

  /** The reader over a whole stream. Every accepted record is pushed, in
      order, before the decoder's terminal error is returned; without such an
      error the result is nil. */
  function Read(source: Decoded, layers: seq<string>): (r: ReadResult)
    ensures r.failure == source.failure
    ensures |r.emitted| == |AcceptedIndices(source.records, layers)|
    ensures forall k :: 0 <= k < |r.emitted| ==>
      r.emitted[k] == Convert(source.records[AcceptedIndices(source.records, layers)[k]])
  {
    DispatchMatchesIndices(source.records, layers);
    ReadResult(Dispatch(source.records, layers), source.failure)
  }

  /* Recovering records from objects: the partner of the conversion. */

  /** The decoder member a stored member stands for; a missing location reads
      back as (0, 0). */
  function RestoreMember(m: Member): Osm.Member
  {
    if m.location.Some? && |m.location.value.coordinates| == 2 then
      Osm.Member(m.kind, m.ref, m.role, m.version,
                 m.location.value.coordinates[1], m.location.value.coordinates[0], m.orientation)
    else
      Osm.Member(m.kind, m.ref, m.role, m.version, 0.0, 0.0, m.orientation)
  }

  function RestoreMembers(members: seq<Member>): seq<Osm.Member>
  {
    seq(|members|, i requires 0 <= i < |members| => RestoreMember(members[i]))
  }

  function WayNodes(ids: seq<int>): seq<Osm.WayNode>
  {
    seq(|ids|, i requires 0 <= i < |ids| => Osm.WayNode(ids[i]))
  }

  /** The visible decoder record an object stands for, when it has the shape
      the reader gives objects of its kind. */
  function Restore(o: Object): Option<Osm.Record>
  {
    match o.id.kind
    case WayType =>
      if o.nodes.Some? then
        Some(Osm.Way(o.id.id, true, o.id.version, o.timestamp, TagPairs(o.tags), WayNodes(o.nodes.value)))
      else None
    case NodeType =>
      if o.location.Some? && |o.location.value.coordinates| == 2 then
        Some(Osm.Node(o.id.id, true, o.id.version, o.timestamp, TagPairs(o.tags),
                      o.location.value.coordinates[1], o.location.value.coordinates[0]))
      else None
    case RelationType =>
      if o.members.Some? then
        Some(Osm.Relation(o.id.id, true, o.id.version, o.timestamp, TagPairs(o.tags),
                          RestoreMembers(o.members.value)))
      else None
  }

  /** A member survives conversion unchanged exactly when its version is zero
      (the reader drops it) and its coordinates are both zero or both
      non-zero (one zero coordinate drops the location). */
  predicate MemberLossless(m: Osm.Member)
  {
    m.version == 0 && (m.lat == 0.0 <==> m.lon == 0.0)
  }

  /** Which records the conversion keeps in full. */
  predicate Lossless(r: Osm.Record)
  {
    r.Relation? ==> forall i :: 0 <= i < |r.members| ==> MemberLossless(r.members[i])
  }

  /** The member location rule: a location is stored iff both coordinates are
      non-zero, and it is then the point at (lon, lat). */
  lemma MemberLocationRule(m: Osm.Member)
    ensures ConvertMember(m).location.Some? <==> m.lat != 0.0 && m.lon != 0.0
    ensures ConvertMember(m).location.Some? ==> ConvertMember(m).location.value == Point(m.lon, m.lat)
  {
  }

  /** What a member keeps through conversion. */
  lemma MemberRoundTrip(m: Osm.Member)
    ensures RestoreMember(ConvertMember(m)) == m <==> MemberLossless(m)
  {
  }

  /** The conversion of a visible record can be undone exactly when the
      record is lossless: ways and nodes always, relations when every member
      is. So ids, kind, version, tags, node references (with duplicates) and
      node positions are all carried into the object. */
  lemma ConvertRoundTrip(r: Osm.Record)
    requires !r.Other? && r.visible
    ensures Restore(Convert(r)) == Some(r) <==> Lossless(r)
  {
    ConvertTagsRoundTrip(r.tags);
    match r
    case Way(_, _, _, _, _, nodes) =>
      assert WayNodes(WayNodeIds(nodes)) == nodes;
    case Node(_, _, _, _, _, _, _) =>
    case Relation(_, _, _, _, _, members) =>
      var back := RestoreMembers(ConvertMembers(members));
      forall i | 0 <= i < |members|
        ensures back[i] == members[i] <==> MemberLossless(members[i])
      {
        MemberRoundTrip(members[i]);
      }
      if Lossless(r) {
        assert back == members;
      } else {
        assert back != members;
      }
  }

  /** A member reported at latitude 0 and longitude 0 is stored without a
      location, not at the origin. */
  lemma OriginMemberHasNoLocation(m: Osm.Member)
    requires m.lat == 0.0 && m.lon == 0.0
    ensures ConvertMember(m).location == None
  {
  }

  /** A member on the equator (latitude 0) or on the prime meridian
      (longitude 0) loses its location too, although its other coordinate is
      known. */
  lemma AxisMemberHasNoLocation(m: Osm.Member)
    requires m.lat == 0.0 || m.lon == 0.0
    ensures ConvertMember(m).location == None
  {
  }
}
