/** `RedisConnection` (common/redis_db_connection.py): a JSON-encoding wrapper
    over a key-value server. The server is the map `store` from keys to stored
    strings plus the map `ttl` of keys that carry an expiry; `encode` stands
    for `jsons.dumps` and `decode` for `jsons.loads`, which may fail. */
module Redis {
  import opened Wrappers
  import opened Json

  /** What a read hands back: `False` for a missing key, the decoded value,
      or the raw stored string when decoding raised. */
  datatype Lookup = Missing | Decoded(value: Json) | Raw(text: string)

  /** An exception out of a wrapper method. */
  datatype RedisError =
    | InvalidExpiry      // the server refuses a non-positive expiry
    | NotADict           // item assignment on a value that is not a dict
    | MissingNewValue    // `new_values[i]` out of range

  /** Field `names[i]` set to `values[i]`, one after the other. */
  function UpdateFields(fields: map<string, Json>, names: seq<string>, values: seq<Json>): map<string, Json>
    requires |names| <= |values|
  {
    if names == [] then fields
    else
      var n := |names| - 1;
      UpdateFields(fields, names[..n], values[..n])[names[n] := values[n]]
  }

  /** The entries of `data` whose keys are in `done`, encoded. */
  function Encoded(data: map<string, Json>, done: set<string>, encode: Json -> string): (m: map<string, string>)
    ensures m.Keys == data.Keys * done
  {
    map k | k in data && k in done :: encode(data[k])
  }

  /** Writing one more entry of `data` over `s + Encoded(..)` extends `done` by its key. */
  lemma EncodedStep(s: map<string, string>, data: map<string, Json>, done: set<string>, k: string, encode: Json -> string)
    requires k in data
    ensures (s + Encoded(data, done, encode))[k := encode(data[k])] == s + Encoded(data, done + {k}, encode)
  {
    var lhs := (s + Encoded(data, done, encode))[k := encode(data[k])];
    var rhs := s + Encoded(data, done + {k}, encode);
    assert lhs.Keys == rhs.Keys;
    forall x | x in lhs.Keys
      ensures lhs[x] == rhs[x]
    {
      if x != k && x in data && x in done {
        assert Encoded(data, done, encode)[x] == encode(data[x]);
      }
    }
  }

  /** `update_redis_field` adds exactly the named fields. */
  lemma {:induction false} UpdateFieldsKeys(fields: map<string, Json>, names: seq<string>, values: seq<Json>)
    requires |names| <= |values|
    ensures UpdateFields(fields, names, values).Keys == fields.Keys + (set x | x in names)
  {
    if names != [] {
      var n := |names| - 1;
      assert names == names[..n] + [names[n]];
      UpdateFieldsKeys(fields, names[..n], values[..n]);
      assert (set x | x in names) == (set x | x in names[..n]) + {names[n]};
    }
  }

  /** `update_redis_field` keeps every field it is not asked to set. */
  lemma {:induction false} UpdateFieldsKeepsOthers(fields: map<string, Json>, names: seq<string>, values: seq<Json>, k: string)
    requires |names| <= |values|
    requires k in fields && k !in names
    ensures k in UpdateFields(fields, names, values) && UpdateFields(fields, names, values)[k] == fields[k]
  {
    if names != [] {
      var n := |names| - 1;
      assert names == names[..n] + [names[n]];
      UpdateFieldsKeepsOthers(fields, names[..n], values[..n], k);
    }
  }

  /** Each named field ends with the value at the last position naming it. */
  lemma {:induction false} UpdateFieldsSets(fields: map<string, Json>, names: seq<string>, values: seq<Json>, i: nat)
    requires |names| <= |values|
    requires i < |names| && names[i] !in names[i + 1..]
    ensures names[i] in UpdateFields(fields, names, values)
    ensures UpdateFields(fields, names, values)[names[i]] == values[i]
  {
    var n := |names| - 1;
    if i < n {
      var init := names[..n];
      assert names[i + 1..] == init[i + 1..] + [names[n]];
      assert init[i] == names[i];
      UpdateFieldsSets(fields, init, values[..n], i);
    }
  }

  class RedisConnection {
    var store: map<string, string>
    var ttl: map<string, int>
    const encode: Json -> string
    const decode: string -> Option<Json>

    /** Connecting to a server that already holds `store`. */
    constructor (store: map<string, string>, ttl: map<string, int>, encode: Json -> string, decode: string -> Option<Json>)
      ensures this.store == store && this.ttl == ttl && this.encode == encode && this.decode == decode
    {
      this.store := store;
      this.ttl := ttl;
      this.encode := encode;
      this.decode := decode;
    }

    /** `jsons.loads(data)`, falling back to the raw string when it raises. */
    function DecodeOrRaw(s: string): (r: Lookup)
      ensures !r.Missing?
      ensures r.Raw? <==> decode(s).None?
      ensures r.Raw? ==> r.text == s
      ensures r.Decoded? ==> r.value == decode(s).value
    {
      match decode(s)
      case Some(v) => Decoded(v)
      case None => Raw(s)
    }

    /** `get`: False for an absent key or an empty stored string, otherwise
        the decoded value or the raw string. Reads only. */
    method Get(key: string) returns (r: Lookup)
      ensures r.Missing? <==> key !in store || store[key] == ""
      ensures !r.Missing? ==> r == DecodeOrRaw(store[key])
    {
      if key in store && store[key] != "" {
        r := DecodeOrRaw(store[key]);
      } else {
        r := Missing;
      }
    }

    /** `set`: stores the encoded value. A truthy `ex` sets the expiry (the
        server refuses one that is not positive); without one, SET drops any
        expiry the key had. */
    method Set(key: string, value: Json, ex: Option<int>) returns (r: Result<(), RedisError>)
      modifies this
      ensures r.Err? <==> ex.Some? && ex.value < 0
      ensures r.Err? ==> store == old(store) && ttl == old(ttl)
      ensures r.Ok? ==> store == old(store)[key := encode(value)]
      ensures r.Ok? ==> ttl == if ex.Some? && ex.value != 0 then old(ttl)[key := ex.value] else old(ttl) - {key}
    {
      if ex.Some? && ex.value != 0 {
        if ex.value < 0 {
          return Err(InvalidExpiry);
        }
        store := store[key := encode(value)];
        ttl := ttl[key := ex.value];
      } else {
        store := store[key := encode(value)];
        ttl := ttl - {key};
      }
      r := Ok(());
    }

    /** `set_with_expiry`: SETEX with the value stored as given, unencoded. */
    method SetWithExpiry(key: string, value: string, expiry: int) returns (r: Result<(), RedisError>)
      modifies this
      ensures r.Err? <==> expiry <= 0
      ensures r.Err? ==> store == old(store) && ttl == old(ttl)
      ensures r.Ok? ==> store == old(store)[key := value] && ttl == old(ttl)[key := expiry]
    {
      if expiry <= 0 {
        return Err(InvalidExpiry);
      }
      store := store[key := value];
      ttl := ttl[key := expiry];
      r := Ok(());
    }

    /** `bulk_set`: one SET per key of the dict, each encoded, in a pipeline;
        no other key changes. */
    method BulkSet(data: map<string, Json>)
      modifies this
      ensures store == old(store) + map k | k in data :: encode(data[k])
      ensures ttl == old(ttl) - data.Keys
    {
      var pending := data.Keys;
      while pending != {}
        invariant pending <= data.Keys
        invariant store == old(store) + Encoded(data, data.Keys - pending, encode)
        invariant ttl == old(ttl) - (data.Keys - pending)
        decreases pending
      {
        var k :| k in pending;
        EncodedStep(old(store), data, data.Keys - pending, k, encode);
        store := store[k := encode(data[k])];
        ttl := ttl - {k};
        assert data.Keys - (pending - {k}) == (data.Keys - pending) + {k};
        pending := pending - {k};
      }
      assert Encoded(data, data.Keys, encode) == map k | k in data :: encode(data[k]);
    }

    /** `bulk_get`: the requested keys that exist, each decoded or raw. An
        empty stored string is returned (unlike `get`). Reads only. */
    method BulkGet(keys: seq<string>) returns (r: map<string, Lookup>)
      ensures r.Keys == set k | k in keys && k in store
      ensures forall k :: k in r ==> r[k] == DecodeOrRaw(store[k])
      ensures keys == [] ==> r == map[]
    {
      r := map[];
      if keys == [] {
        return;
      }
      var i := 0;
      while i < |keys|
        invariant 0 <= i <= |keys|
        invariant r.Keys == set k | k in keys[..i] && k in store
        invariant forall k :: k in r ==> r[k] == DecodeOrRaw(store[k])
      {
        var key := keys[i];
        if key in store {
          r := r[key := DecodeOrRaw(store[key])];
        }
        assert keys[..i + 1] == keys[..i] + [key];
        i := i + 1;
      }
      assert keys[..i] == keys;
    }

    /** The value `get` hands back, as `set` would encode it. */
    function LookupAsJson(l: Lookup): Json {
      match l
      case Missing => JBool(false)
      case Decoded(v) => v
      case Raw(s) => JStr(s)
    }

    /** `update_redis_field`: reads the stored dict, sets `names[i]` to
        `values[i]` for each i and writes it back encoded under the same key.
        With no names it writes back whatever `get` returned. */
    method UpdateRedisField(key: string, names: seq<string>, values: seq<Json>) returns (r: Result<(), RedisError>)
      modifies this
      ensures var before := if key in old(store) && old(store)[key] != "" then DecodeOrRaw(old(store)[key]) else Missing;
        && (r.Err? <==> names != [] && (!(before.Decoded? && before.value.JObj?) || |values| < |names|))
        && (r.Err? ==> store == old(store) && ttl == old(ttl))
        && (r.Ok? && names == [] ==> store == old(store)[key := encode(LookupAsJson(before))])
        && (r.Ok? && names != [] ==>
              store == old(store)[key := encode(JObj(UpdateFields(before.value.fields, names, values)))])
        && (r.Ok? ==> ttl == old(ttl) - {key})
    {
      var data := Get(key);
      if names == [] {
        r := Set(key, LookupAsJson(data), None);
        return;
      }
      if !(data.Decoded? && data.value.JObj?) {
        return Err(NotADict);
      }
      var fields := data.value.fields;
      var i := 0;
      while i < |names|
        invariant 0 <= i <= |names|
        invariant i <= |values|
        invariant fields == UpdateFields(data.value.fields, names[..i], values[..i])
      {
        if i >= |values| {
          return Err(MissingNewValue);
        }
        assert names[..i + 1][..i] == names[..i] && values[..i + 1][..i] == values[..i];
        fields := fields[names[i] := values[i]];
        i := i + 1;
      }
      assert names[..i] == names;
      assert values[..i] == values[..|names|];
      UpdateFieldsPrefix(data.value.fields, names, values);
      r := Set(key, JObj(fields), None);
    }
  }

  /** Only the first |names| values are read. */
  lemma UpdateFieldsPrefix(fields: map<string, Json>, names: seq<string>, values: seq<Json>)
    requires |names| <= |values|
    ensures UpdateFields(fields, names, values[..|names|]) == UpdateFields(fields, names, values)
  {
    if names != [] {
      var n := |names| - 1;
      assert values[..|names|][..n] == values[..n];
    }
  }
}
