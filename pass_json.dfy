/** The `wrapper` that `pass_json(*keys, **keyvals)` puts around a handler
    (mydecorator.py), written as the loops it runs and proved against `RemapSpec.Remap`. */
module PassJson {
  import opened RemapSpec

  /** Handles one request whose parsed body is `json`: builds the handler's arguments and
      calls `func` with them. A key the decorator looks up and does not find ends the request
      with that lookup error before `func` is called. */
  method Wrapper<V, R>(json: map<string, V>, keys: seq<string>, keyvals: seq<Rule>, func: Args<V> -> R)
    returns (result: Result<R>)
    ensures Remap(json, keys, keyvals).Ok? ==> result == Ok(func(Remap(json, keys, keyvals).value))
    ensures Remap(json, keys, keyvals).Err? ==> result == Err(Remap(json, keys, keyvals).missing)
  {
    var argsList: seq<V> := [];
    var argsDict: map<string, V> := map[];
    if |keys| > 0 {
      // List mode: one positional argument per key, in the caller's order.
      for i := 0 to |keys|
        invariant |argsList| == i
        invariant forall j :: 0 <= j < i ==> keys[j] in json && argsList[j] == json[keys[j]]
      {
        if keys[i] !in json {
          PositionalFirstMissing(json, keys, i);
          return Err(keys[i]);
        }
        argsList := argsList + [json[keys[i]]];
      }
      PositionalSucceeds(json, keys);
      assert Positional(json, keys).value == argsList;
    } else {
      // Clone the body key by key.
      var pending := json.Keys;
      while pending != {}
        invariant pending <= json.Keys
        invariant forall k :: k in argsDict <==> k in json && k !in pending
        invariant forall k :: k in argsDict ==> argsDict[k] == json[k]
        decreases pending
      {
        var key :| key in pending;
        argsDict := argsDict[key := json[key]];
        pending := pending - {key};
      }
      assert argsDict == json;
      // Move each rule's source entry to its target, in order.
      for i := 0 to |keyvals|
        invariant Renamed(json, keyvals) == Renamed(argsDict, keyvals[i..])
      {
        var rule := keyvals[i];
        assert keyvals[i..][0] == rule && keyvals[i..][1..] == keyvals[i + 1..];
        if rule.source !in argsDict {
          return Err(rule.source);
        }
        ghost var before := argsDict;
        var val := argsDict[rule.source];
        argsDict := argsDict - {rule.source};
        argsDict := argsDict[rule.target := val];
        assert argsDict == MoveKey(before, rule);
      }
      assert keyvals[|keyvals|..] == [];
    }
    result := Ok(func(Args(argsList, argsDict)));
  }
}
