/**
 * GenerateAddonConfig: the values map handed to an addon's chart, with the
 * addon's on/off switch stored under the key "enabled".
 */
module AddonConfig {

  /** A chart value; the source's maps hold untyped values (interface{}). */
  datatype Value = Bool(b: bool) | Int(i: int) | Str(s: string)

  const EnabledKey: string := "enabled"

  /**
   * A disabled addon gets only the switch; an enabled one gets all of
   * `values` with the switch added (it replaces a value stored under the
   * same key).
   */
  function GenerateAddonConfig(values: map<string, Value>, enabled: bool): (r: map<string, Value>)
    ensures EnabledKey in r && r[EnabledKey] == Bool(enabled)
    ensures r.Keys == if enabled then values.Keys + {EnabledKey} else {EnabledKey}
    ensures enabled ==> forall k :: k in values && k != EnabledKey ==> r[k] == values[k]
  {
    if enabled then values[EnabledKey := Bool(true)] else map[EnabledKey := Bool(false)]
  }

  /**
   * Size of the result: 1 when disabled; when enabled, one more than the
   * number of values unless they already carry the switch's key.
   */
  lemma GenerateAddonConfigSize(values: map<string, Value>, enabled: bool)
    ensures |GenerateAddonConfig(values, enabled)| ==
              if !enabled then 1
              else if EnabledKey in values then |values|
              else 1 + |values|
  {
    var r := GenerateAddonConfig(values, enabled);
    if enabled {
      assert r.Keys == values.Keys + {EnabledKey};
      if EnabledKey in values {
        assert r.Keys == values.Keys;
      } else {
        assert values.Keys !! {EnabledKey};
        assert |r.Keys| == |values.Keys| + |{EnabledKey}|;
      }
    } else {
      assert r.Keys == {EnabledKey};
    }
  }

  /** A disabled addon's configuration does not depend on the values. */
  lemma DisabledIgnoresValues(v1: map<string, Value>, v2: map<string, Value>)
    ensures GenerateAddonConfig(v1, false) == GenerateAddonConfig(v2, false) == map[EnabledKey := Bool(false)]
  {
  }

  /** Generating again from a generated configuration changes nothing. */
  lemma GenerateAddonConfigIdempotent(values: map<string, Value>, enabled: bool)
    ensures var r := GenerateAddonConfig(values, enabled);
            GenerateAddonConfig(r, enabled) == r
  {
  }

  /** The documented cases: nil or empty values and one value "foo": "bar", both switch settings. */
  lemma Examples()
    ensures GenerateAddonConfig(map[], false) == map[EnabledKey := Bool(false)]
    ensures GenerateAddonConfig(map[], true) == map[EnabledKey := Bool(true)]
    ensures GenerateAddonConfig(map["foo" := Str("bar")], false) == map[EnabledKey := Bool(false)]
    ensures GenerateAddonConfig(map["foo" := Str("bar")], true) == map["foo" := Str("bar"), EnabledKey := Bool(true)]
    ensures |GenerateAddonConfig(map["foo" := Str("bar")], true)| == 2
  {
    GenerateAddonConfigSize(map["foo" := Str("bar")], true);
  }
}
