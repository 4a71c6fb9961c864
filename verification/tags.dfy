/**
  Bucket tags: the diff of two tag maps, and the encoding of a map as a tag list.  Go maps
  are visited in no fixed order, so the loops over maps pick any key that is left.
  A tag whose key starts with `aws:` belongs to AWS and is ignored both ways.
 */
module Tags {
  type TagMap = map<string, string>
  datatype Tag = Tag(key: string, value: string)

  predicate Ignored(key: string) { |key| >= 4 && key[..4] == "aws:" }

  /** A tag map without the keys that belong to AWS. */
  function Visible(m: TagMap): TagMap { map k | k in m && !Ignored(k) :: m[k] }

  /** The map a tag list denotes: ignored keys dropped, the last value of a key kept. */
  function ToMap(ts: seq<Tag>): TagMap {
    if ts == [] then map[]
    else
      var last := ts[|ts| - 1];
      var m := ToMap(ts[..|ts| - 1]);
      if Ignored(last.key) then m else m[last.key := last.value]
  }

  /** A list that holds each pair of `m` once and nothing else. */
  predicate Lists(ts: seq<Tag>, m: TagMap) {
    && (forall i | 0 <= i < |ts| :: ts[i].key in m && ts[i].value == m[ts[i].key])
    && (forall k | k in m :: exists i :: 0 <= i < |ts| && ts[i].key == k)
    && (forall i, j | 0 <= i < j < |ts| :: ts[i].key != ts[j].key)
  }

  // ---------------------------------------------------------------- the four procedures

  method TagIgnoredS3(t: Tag) returns (ignored: bool)
    ensures ignored <==> Ignored(t.key)
  {
    var filter := ["aws:"];
    for i := 0 to |filter|
      invariant i > 0 ==> !Ignored(t.key)
    {
      if |filter[i]| <= |t.key| && t.key[..|filter[i]|] == filter[i] { return true; }
    }
    return false;
  }

  method TagsToMapS3(ts: seq<Tag>) returns (result: TagMap)
    ensures result == ToMap(ts)
  {
    result := map[];
    for i := 0 to |ts|
      invariant result == ToMap(ts[..i])
    {
      assert ts[..i + 1][..i] == ts[..i];
      var ignored := TagIgnoredS3(ts[i]);
      if !ignored {
        result := result[ts[i].key := ts[i].value];
      }
    }
    assert ts[..|ts|] == ts;
  }

  /** Whatever order the map is visited in, the list holds exactly its visible pairs. */
  method TagsFromMapS3(m: TagMap) returns (result: seq<Tag>)
    ensures Lists(result, Visible(m))
  {
    result := [];
    ghost var done: TagMap := map[];
    var left := m.Keys;
    while left != {}
      invariant left <= m.Keys
      invariant done == map k | k in m && k !in left && !Ignored(k) :: m[k]
      invariant Lists(result, done)
      decreases left
    {
      var k :| k in left;
      left := left - {k};
      var t := Tag(k, m[k]);
      var ignored := TagIgnoredS3(t);
      if !ignored {
        ListsMore(result, done, t);
        result := result + [t];
        done := done[k := m[k]];
      }
    }
    assert done == Visible(m);
  }

  /** The pairs of `old` that `new` lacks or changes; all of `new` is to be created. */
  method DiffTagsS3(oldTags: TagMap, newTags: TagMap) returns (create: TagMap, remove: TagMap)
    ensures create == newTags
    ensures remove == map k | k in oldTags && !(k in newTags && newTags[k] == oldTags[k]) :: oldTags[k]
  {
    remove := map[];
    var left := oldTags.Keys;
    while left != {}
      invariant left <= oldTags.Keys
      invariant remove == map k | k in oldTags && k !in left && !(k in newTags && newTags[k] == oldTags[k]) ::
                            oldTags[k]
      decreases left
    {
      var k :| k in left;
      left := left - {k};
      if k !in newTags || newTags[k] != oldTags[k] {
        remove := remove[k := oldTags[k]];
      }
    }
    create := newTags;
  }

  // ---------------------------------------------------------------- round trip

  lemma ListsMore(ts: seq<Tag>, m: TagMap, t: Tag)
    requires Lists(ts, m) && t.key !in m
    ensures Lists(ts + [t], m[t.key := t.value])
  {
    var us, n := ts + [t], m[t.key := t.value];
    forall k | k in n ensures exists i :: 0 <= i < |us| && us[i].key == k {
      if k == t.key {
        assert us[|ts|].key == k;
      } else {
        var i :| 0 <= i < |ts| && ts[i].key == k;
        assert us[i].key == k;
      }
    }
  }

  lemma {:induction false} ToMapHolds(ts: seq<Tag>, k: string)
    requires forall i, j | 0 <= i < j < |ts| :: ts[i].key != ts[j].key
    ensures k in ToMap(ts) <==> !Ignored(k) && exists i :: 0 <= i < |ts| && ts[i].key == k
    ensures forall i | 0 <= i < |ts| && ts[i].key == k && !Ignored(k) :: ToMap(ts)[k] == ts[i].value
  {
    if ts != [] {
      var init := ts[..|ts| - 1];
      ToMapHolds(init, k);
      if exists i :: 0 <= i < |ts| && ts[i].key == k {
        var i :| 0 <= i < |ts| && ts[i].key == k;
        if i < |init| { assert init[i].key == k; }
      }
    }
  }

  /** Reading back any encoding of a map gives the map without the keys that belong to AWS. */
  lemma TagsRoundTrip(ts: seq<Tag>, m: TagMap)
    requires Lists(ts, Visible(m))
    ensures ToMap(ts) == Visible(m)
  {
    forall k ensures (k in ToMap(ts) <==> k in Visible(m)) && (k in Visible(m) ==> ToMap(ts)[k] == Visible(m)[k]) {
      ToMapHolds(ts, k);
    }
  }

  /** Tags of AWS's own anywhere in the list do not change what the list denotes. */
  lemma {:induction false} ToMapPrefix(sys: seq<Tag>, ts: seq<Tag>)
    requires forall i | 0 <= i < |sys| :: Ignored(sys[i].key)
    ensures ToMap(sys + ts) == ToMap(ts)
  {
    if ts != [] {
      assert (sys + ts)[..|sys + ts| - 1] == sys + ts[..|ts| - 1];
      ToMapPrefix(sys, ts[..|ts| - 1]);
    } else {
      assert sys + ts == sys;
      ToMapIgnored(sys);
    }
  }

  lemma {:induction false} ToMapIgnored(sys: seq<Tag>)
    requires forall i | 0 <= i < |sys| :: Ignored(sys[i].key)
    ensures ToMap(sys) == map[]
  {
    if sys != [] {
      ToMapIgnored(sys[..|sys| - 1]);
    }
  }

  lemma {:induction false} ToMapVisible(ts: seq<Tag>)
    ensures Visible(ToMap(ts)) == ToMap(ts)
  {
    if ts != [] {
      ToMapVisible(ts[..|ts| - 1]);
    }
  }
}
