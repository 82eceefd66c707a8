/** Conversion of the decoder's tag pairs into stored tags (helpers.go). */
module Helpers {
  import opened Models
  import Osm

  /** Tags in source order, one stored tag per pair; duplicate keys are kept. */
  function ConvertTags(tags: seq<Osm.Tag>): (r: seq<Tag>)
    ensures |r| == |tags|
    ensures forall i :: 0 <= i < |tags| ==> r[i].key == tags[i].key && r[i].value == tags[i].value
  {
    if |tags| == 0 then []
    else
      var last := tags[|tags| - 1];
      ConvertTags(tags[..|tags| - 1]) + [Tag(last.key, last.value)]
  }

  /** The decoder's tag pairs a stored tag list stands for. */
  function TagPairs(tags: seq<Tag>): seq<Osm.Tag>
  {
    seq(|tags|, i requires 0 <= i < |tags| => Osm.Tag(tags[i].key, tags[i].value))
  }

  /** Converting loses nothing: the pairs come back exactly. */
  lemma ConvertTagsRoundTrip(tags: seq<Osm.Tag>)
    ensures TagPairs(ConvertTags(tags)) == tags
  {
  }

  /** Every stored tag list is the conversion of some pair list. */
  lemma ConvertTagsOnto(tags: seq<Tag>)
    ensures ConvertTags(TagPairs(tags)) == tags
  {
  }

  lemma ConvertTagsEmpty()
    ensures ConvertTags([]) == []
  {
  }

  /** Conversion distributes over concatenation, so it works element by element. */
  lemma ConvertTagsAppend(a: seq<Osm.Tag>, b: seq<Osm.Tag>)
    ensures ConvertTags(a + b) == ConvertTags(a) + ConvertTags(b)
  {
  }

  /** How often a key occurs in a list of keys. */
  function Occurrences(keys: seq<string>, key: string): nat
  {
    if |keys| == 0 then 0
    else Occurrences(keys[..|keys| - 1], key) + (if keys[|keys| - 1] == key then 1 else 0)
  }

  /** The keys of a stored tag list, in order. */
  function Keys(tags: seq<Tag>): seq<string>
  {
    seq(|tags|, i requires 0 <= i < |tags| => tags[i].key)
  }

  /** The keys of the decoder's pairs, in order. */
  function PairKeys(tags: seq<Osm.Tag>): seq<string>
  {
    seq(|tags|, i requires 0 <= i < |tags| => tags[i].key)
  }

  /** No pair is merged or dropped: each key occurs as often after the
      conversion as before it, duplicates included. */
  lemma ConvertTagsKeepsDuplicates(tags: seq<Osm.Tag>, key: string)
    ensures Occurrences(Keys(ConvertTags(tags)), key) == Occurrences(PairKeys(tags), key)
  {
    assert Keys(ConvertTags(tags)) == PairKeys(tags);
  }

}
