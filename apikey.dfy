/**
 * `getApiKey`: the YOUTUBE_API_KEYS setting is split at commas and one entry,
 * chosen by Math.random, is returned with surrounding white space trimmed.
 */
module ApiKey {
  import opened Wrappers
  import opened Text

  /** Math.floor(random * n) for a Math.random() value. */
  function PickIndex(random: real, n: nat): (i: nat)
    requires 0.0 <= random < 1.0 && n >= 1
    ensures i < n
  {
    assert 0.0 <= random * n as real < n as real;
    (random * n as real).Floor
  }

  /**
   * getApiKey: None for an unset or empty setting, otherwise the trimmed key
   * at index floor(random * number of keys).
   */
  function GetApiKey(setting: Option<string>, random: real): (r: Option<string>)
    requires 0.0 <= random < 1.0
    ensures r.None? <==> setting.None? || setting.value == ""
    ensures r.Some? ==> ',' !in r.value
    ensures r.Some? ==> exists i :: 0 <= i < |Split(setting.value, ',')| && r.value == Trim(Split(setting.value, ',')[i])
  {
    if setting.None? || setting.value == "" then None
    else
      var keys := Split(setting.value, ',');
      var i := PickIndex(random, |keys|);
      SplitJoin(setting.value, ',');
      TrimSpec(keys[i]);
      Some(Trim(keys[i]))
  }

  /** PickIndex(i / n, n) == i. */
  lemma PickIndexExact(i: nat, n: nat)
    requires i < n
    ensures 0.0 <= i as real / n as real < 1.0
    ensures PickIndex(i as real / n as real, n) == i
  {
    var x := i as real / n as real;
    assert x * n as real == i as real;
  }

  /** Every configured key is chosen for some random value: the i-th key for random = i / n. */
  lemma GetApiKeyReachesEveryKey(setting: string, i: nat)
    requires setting != "" && i < |Split(setting, ',')|
    ensures var n := |Split(setting, ',')|;
            GetApiKey(Some(setting), i as real / n as real) == Some(Trim(Split(setting, ',')[i]))
  {
    PickIndexExact(i, |Split(setting, ',')|);
  }
}
