/** `LocalIOUtils.mergeProperties`: makes a properties configuration carry exactly the
    keys of another one, keeping the values it already has. */
module LocalIOUtils {
  import opened Wrappers

  /** What `to` holds after its keys that `from` lacks are dropped. */
  function Retained(from: map<string, seq<string>>, to: map<string, seq<string>>): map<string, seq<string>>
  {
    map k | k in to && k in from :: to[k]
  }

  /** What `to` holds after the keys of `from` it lacks are added with `from`'s values. */
  function Completed(from: map<string, seq<string>>, to: map<string, seq<string>>): map<string, seq<string>>
  {
    map k | k in to.Keys + from.Keys :: if k in to then to[k] else from[k]
  }

  /** What `to` holds after the merge: both phases, one after the other. */
  function Merged(from: map<string, seq<string>>, to: map<string, seq<string>>): (r: map<string, seq<string>>)
    ensures r.Keys == from.Keys
  {
    Completed(from, Retained(from, to))
  }

  /** After the merge `to` has exactly the keys of `from`; a key of both keeps `to`'s
      values, a key of `from` alone gets `from`'s values, a key of `to` alone is gone. */
  lemma MergedCharacterized(from: map<string, seq<string>>, to: map<string, seq<string>>)
    ensures Merged(from, to).Keys == from.Keys
    ensures forall k :: k in from && k in to ==> Merged(from, to)[k] == to[k]
    ensures forall k :: k in from && k !in to ==> Merged(from, to)[k] == from[k]
  {
  }

  /** Merging a second time changes nothing. */
  lemma MergeIdempotent(from: map<string, seq<string>>, to: map<string, seq<string>>)
    ensures Merged(from, Merged(from, to)) == Merged(from, to)
  {
    var once := Merged(from, to);
    MergedCharacterized(from, to);
    assert Retained(from, once) == once;
    assert Completed(from, once) == once;
  }

  /** A configuration merged into itself stays as it is. */
  lemma MergeSelf(properties: map<string, seq<string>>)
    ensures Merged(properties, properties) == properties
  {
    assert Retained(properties, properties) == properties;
  }

  /** The part of `PropertiesConfiguration` the merge uses: each key with its list of
      values. */
  class PropertiesConfiguration {
    var properties: map<string, seq<string>>

    constructor()
      ensures properties == map[]
    {
      properties := map[];
    }

    function ContainsKey(key: string): (r: bool)
      reads this
      ensures r <==> key in properties.Keys
    {
      key in properties
    }

    /** `getProperty`: the values of `key`, or `null` (`None`). */
    function GetProperty(key: string): (r: Option<seq<string>>)
      reads this
      ensures r.Some? <==> key in properties.Keys
      ensures r.Some? ==> r.value == properties[key]
    {
      if key in properties then Some(properties[key]) else None
    }

    /** `remove()` on the key iterator standing at `key`. */
    method RemoveKey(key: string)
      modifies this
      ensures properties == old(properties) - {key}
    {
      properties := properties - {key};
    }

    /** `addProperty`: appends the values to those of `key`, or adds the key. */
    method AddProperty(key: string, value: seq<string>)
      modifies this
      ensures key in old(properties) ==> properties == old(properties)[key := old(properties)[key] + value]
      ensures key !in old(properties) ==> properties == old(properties)[key := value]
    {
      if key in properties {
        properties := properties[key := properties[key] + value];
      } else {
        properties := properties[key := value];
      }
    }
  }

  /** The first loop of `mergeProperties`: walks the keys of `to` and removes, through
      the iterator, each one `from` does not contain. */
  method RemoveKeysNotIn(from: PropertiesConfiguration, to: PropertiesConfiguration)
    modifies to
    ensures to.properties == Retained(old(from.properties), old(to.properties))
  {
    var remaining := to.properties.Keys;
    while remaining != {}
      invariant remaining <= old(to.properties).Keys
      invariant to.properties ==
        map k | k in old(to.properties) && (k in remaining || k in old(from.properties)) :: old(to.properties)[k]
      invariant from != to ==> from.properties == old(from.properties)
      decreases remaining
    {
      var key :| key in remaining;
      if !from.ContainsKey(key) {
        to.RemoveKey(key);
      }
      remaining := remaining - {key};
    }
  }

  /** The second loop of `mergeProperties`: walks the keys of `from` and adds each one
      `to` does not contain, with `from`'s values. */
  method AddKeysMissingFrom(from: PropertiesConfiguration, to: PropertiesConfiguration)
    modifies to
    ensures to.properties == Completed(old(from.properties), old(to.properties))
  {
    var remaining := from.properties.Keys;
    while remaining != {}
      invariant remaining <= old(from.properties).Keys
      invariant to.properties ==
        map k | k in old(to.properties).Keys + (old(from.properties).Keys - remaining) ::
          if k in old(to.properties) then old(to.properties)[k] else old(from.properties)[k]
      invariant from != to ==> from.properties == old(from.properties)
      invariant from == to ==> to.properties == old(to.properties)
      decreases remaining
    {
      var key :| key in remaining;
      if !to.ContainsKey(key) {
        to.AddProperty(key, from.GetProperty(key).value);
      }
      remaining := remaining - {key};
    }
  }

  /** `mergeProperties`: first drops every key of `to` that `from` lacks, then adds
      every key of `from` that `to` lacks with `from`'s values. `from` and `to` may be
      the same configuration. */
  method MergeProperties(from: PropertiesConfiguration, to: PropertiesConfiguration)
    modifies to
    ensures to.properties == Merged(old(from.properties), old(to.properties))
    ensures from != to ==> from.properties == old(from.properties)
  {
    RemoveKeysNotIn(from, to);
    assert from == to ==> to.properties == old(to.properties);
    AddKeysMissingFrom(from, to);
  }
}
