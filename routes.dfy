/** The three endpoints of app.py, as uses of the remapping: what each decorator turns the
    documented request body into, for any two values sent as the name and the family. */
module Routes {
  import opened RemapSpec

  /** `/hello` uses `@pass_json()`: the body reaches `hello(name, family)` unchanged. */
  lemma Hello<V>(name: V, family: V)
    ensures Remap(map["name" := name, "family" := family], [], []) ==
            Ok(Args([], map["name" := name, "family" := family]))
  {
  }

  /** `/seeyou` uses `@pass_json("key1", "key2")`: `seeyou(name, family)` gets the values
      under `key1` and `key2` as its first and second positional arguments. */
  lemma SeeYou<V>(name: V, family: V)
    ensures Remap(map["key1" := name, "key2" := family], ["key1", "key2"], []) ==
            Ok(Args([name, family], map[]))
  {
    var body := map["key1" := name, "key2" := family];
    assert ["key1", "key2"][1..] == ["key2"] && ["key2"][1..] == [];
    assert "key2" in body && body["key2"] == family;
    assert Positional(body, []) == Ok([]) && [family] + [] == [family];
    assert Positional(body, ["key2"]) == Ok([family]);
    assert "key1" != "key2" by { assert "key1"[3] != "key2"[3]; }
    assert body["key1"] == name && [name] + [family] == [name, family];
    assert Positional(body, ["key1", "key2"]) == Ok([name, family]);
  }

  /** `/seeyou` with `key2` missing from the body fails on `key2`, so `seeyou` is not called. */
  lemma SeeYouMissingKey<V>(name: V)
    ensures Remap(map["key1" := name], ["key1", "key2"], []) == Err("key2")
  {
    assert Positional(map["key1" := name], ["key2"]) == Err("key2");
  }

  /** `/thankyou` uses `@pass_json(family="key2")`: `name` passes through and the value
      under `key2` is renamed to `family`. */
  lemma ThankYou<V>(name: V, family: V)
    ensures Remap(map["name" := name, "key2" := family], [], [Rule("family", "key2")]) ==
            Ok(Args([], map["name" := name, "family" := family]))
  {
    var body := map["name" := name, "key2" := family];
    assert Renamed(body, [Rule("family", "key2")]) == Renamed(MoveKey(body, Rule("family", "key2")), []);
    assert MoveKey(body, Rule("family", "key2")) == map["name" := name, "family" := family];
  }
}
