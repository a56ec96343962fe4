/** The media taxonomy of the OnlyFans API facade: four media kinds, each
    with a fixed list of raw aliases, and the reverse lookup from a raw
    media type to its kind. */
module MediaTaxonomy {
  import opened Wrappers
  import opened TaxonomyErrors

  /** The attributes of `MediaTypes` in declaration order: each key with
      its alias list. */
  const MediaTable: seq<(string, seq<string>)> := [
    ("Images", ["photo", "image"]),
    ("Videos", ["video", "stream", "gif", "application"]),
    ("Audios", ["audio"]),
    ("Texts", ["text"])
  ]

  /** No alias belongs to two entries of `table`. */
  ghost predicate PairwiseDisjoint(table: seq<(string, seq<string>)>) {
    forall i, j, a :: 0 <= i < j < |table| && a in table[i].1 ==> a !in table[j].1
  }

  /** The four alias lists share no alias. */
  lemma MediaTableDisjoint()
    ensures PairwiseDisjoint(MediaTable)
  {
    forall i, j, a | 0 <= i < j < |MediaTable| && a in MediaTable[i].1
      ensures a !in MediaTable[j].1
    {
      assert i == 0 || i == 1 || i == 2;
      assert j == 1 || j == 2 || j == 3;
    }
  }

  /** `get_keys()`: the four key names, in declaration order. */
  function GetKeys(): (keys: seq<string>)
    ensures |keys| == |MediaTable|
    ensures forall i :: 0 <= i < |keys| ==> keys[i] == MediaTable[i].0
    ensures keys == ["Images", "Videos", "Audios", "Texts"]
  {
    seq(|MediaTable|, i requires 0 <= i < |MediaTable| => MediaTable[i].0)
  }

  /** The key of the last entry whose aliases contain `value`, as left
      behind by a loop that overwrites its result on every match. */
  function LastContaining(table: seq<(string, seq<string>)>, value: string): (r: Option<nat>)
    ensures r.Some? ==> r.value < |table| && value in table[r.value].1
    ensures r.Some? ==> forall j :: r.value < j < |table| ==> value !in table[j].1
    ensures r.None? <==> forall j :: 0 <= j < |table| ==> value !in table[j].1
  {
    if table == [] then None
    else match LastContaining(table[1..], value)
      case Some(i) => Some(i + 1)
      case None => if value in table[0].1 then Some(0) else None
  }

  /** `find_by_value(value)`: the unique key whose alias list contains
      `value` exactly (case-sensitive); raises when no list does. */
  function FindByValue(value: string): (r: Result<string, TaxonomyError>)
    ensures r.Success? <==> exists i :: 0 <= i < |MediaTable| && value in MediaTable[i].1
    ensures forall i :: 0 <= i < |MediaTable| && value in MediaTable[i].1 ==>
      r == Success(MediaTable[i].0)
    ensures r.Failure? ==> r.error == NoMediaTypeFound
  {
    MediaTableDisjoint();
    match LastContaining(MediaTable, value)
    case Some(i) =>
      var key := MediaTable[i].0;
      assert |key| > 0 by {
        assert i == 0 || i == 1 || i == 2 || i == 3;
      }
      // The falsiness test `if not final_media_type` after the loop; no
      // key is empty, so it only fails when nothing matched.
      if |key| == 0 then Failure(NoMediaTypeFound) else Success(key)
    case None => Failure(NoMediaTypeFound)
  }

  /** Concrete lookups: aliases resolve to their key, and the comparison
      is exact. */
  lemma FindByValueExamples()
    ensures FindByValue("photo") == Success("Images")
    ensures FindByValue("stream") == Success("Videos")
    ensures FindByValue("audio") == Success("Audios")
    ensures FindByValue("unknown") == Failure(NoMediaTypeFound)
    ensures FindByValue("Photo") == Failure(NoMediaTypeFound)
  {
    assert "photo" in MediaTable[0].1;
    assert "stream" in MediaTable[1].1;
    assert "audio" in MediaTable[2].1;
    forall i | 0 <= i < |MediaTable|
      ensures "unknown" !in MediaTable[i].1 && "Photo" !in MediaTable[i].1
    {
      assert i == 0 || i == 1 || i == 2 || i == 3;
    }
  }
}
