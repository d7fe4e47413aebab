/** Plain objects: what is left of a list of fields assigned one after another. */
module Objects {
  import opened Utf8

  datatype Field<V> = Field(key: Text, value: V)

  /** Of two fields with one key the later stands. */
  function AsObject<V>(fs: seq<Field<V>>): map<Text, V> {
    if fs == [] then map[]
    else AsObject(fs[..|fs| - 1])[fs[|fs| - 1].key := fs[|fs| - 1].value]
  }

  ghost predicate DistinctKeys<V>(fs: seq<Field<V>>) {
    forall i, j :: 0 <= i < j < |fs| ==> fs[i].key != fs[j].key
  }

  lemma NoFields<V>()
    ensures AsObject<V>([]) == map[]
  {
  }

  lemma OneMoreField<V>(fs: seq<Field<V>>, f: Field<V>)
    ensures AsObject(fs + [f]) == AsObject(fs)[f.key := f.value]
  {
    assert (fs + [f])[..|fs|] == fs;
  }

  lemma OneField<V>(f: Field<V>)
    ensures AsObject([f]) == map[f.key := f.value]
  {
    OneMoreField([], f);
    NoFields<V>();
    assert [] + [f] == [f];
  }

  lemma {:induction false} ObjectKeys<V>(fs: seq<Field<V>>, key: Text)
    ensures key in AsObject(fs) <==> exists i :: 0 <= i < |fs| && fs[i].key == key
    decreases |fs|
  {
    if fs != [] {
      var n := |fs| - 1;
      ObjectKeys(fs[..n], key);
      assert forall i :: 0 <= i < n ==> fs[..n][i] == fs[i];
      assert key == fs[n].key ==> exists i :: 0 <= i < |fs| && fs[i].key == key;
    }
  }

  /** With distinct keys, as an object's are, every field is there and nothing else is. */
  lemma {:induction false} ObjectHolds<V>(fs: seq<Field<V>>, key: Text, value: V)
    requires DistinctKeys(fs)
    ensures (key in AsObject(fs) && AsObject(fs)[key] == value) <==> Field(key, value) in fs
    decreases |fs|
  {
    if fs != [] {
      var n := |fs| - 1;
      var init, last := fs[..n], fs[n];
      assert fs == init + [last];
      assert forall i :: 0 <= i < n ==> init[i] == fs[i];
      ObjectHolds(init, key, value);
      ObjectKeys(init, last.key);
    }
  }

  /** The keys of one list are those of another after their way over the wire. */
  ghost predicate KeysCarried<V>(fs: seq<Field<V>>, rs: seq<Field<V>>) {
    |rs| == |fs| && forall i :: 0 <= i < |fs| ==> rs[i].key == Carried(fs[i].key)
  }

  /** If the object received has everything the object sent had, then every field arrived as it was. */
  lemma ObjectArrives<V>(fs: seq<Field<V>>, rs: seq<Field<V>>)
    requires DistinctKeys(fs) && KeysCarried(fs, rs)
    requires forall k :: k in AsObject(fs) ==> k in AsObject(rs) && AsObject(rs)[k] == AsObject(fs)[k]
    ensures rs == fs && forall i :: 0 <= i < |fs| ==> Intact(fs[i].key)
  {
    hide AsObject, Carried, Intact;
    var keys := set i | 0 <= i < |fs| :: fs[i].key;
    forall k | k in keys
      ensures exists l :: l in keys && Carried(l) == k
    {
      ObjectKeys(fs, k);
      ObjectKeys(rs, k);
      var i :| 0 <= i < |rs| && rs[i].key == k;
      assert fs[i].key in keys;
    }
    KeysArriveIntact(keys);
    forall i | 0 <= i < |fs|
      ensures Intact(fs[i].key) && rs[i].key == fs[i].key
    {
      assert fs[i].key in keys;
      CarriedExactly(fs[i].key);
    }
    forall i | 0 <= i < |fs|
      ensures rs[i] == fs[i]
    {
      assert fs[i] in fs && rs[i] in rs;
      ObjectHolds(fs, fs[i].key, fs[i].value);
      ObjectHolds(rs, rs[i].key, rs[i].value);
    }
  }
}
