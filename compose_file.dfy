/** The parsed form of a docker-compose file (pod/src/docker_compose.rs; the
    same declarations are repeated in both frontends/docker_compose.rs files).
    YAML parsing itself is not modelled: a file is given as its service map. */
module ComposeFile {
  import opened Wrappers
  import opened Strings

  /** A key/value setting written either as a mapping or as a list of `KEY=VALUE`
      strings. */
  datatype MapList = Map(entries: map<string, string>) | List(items: seq<string>)

  /** `MapList::default()`: an empty list. */
  const DefaultMapList := List([])

  datatype Build =
    | Short(context: string)
    | Extended(
        context: string,
        dockerfile: Option<string>,
        args: MapList,
        cacheFrom: seq<string>,
        labels: MapList,
        shmSize: Option<string>,
        target: Option<string>)

  datatype Service = Service(
    replicas: Option<nat>,
    image: Option<string>,
    build: Option<Build>,
    ports: seq<string>)

  /** The file after parsing: services keyed by name (a `BTreeMap`). */
  datatype DockerComposeFile = DockerComposeFile(version: string, services: map<string, Service>)

  /** `MapList::split_value`: cuts at the first `=`. The value keeps that `=`,
      because `split_at` puts the split index in the second half. */
  function SplitValue(s: string): (r: (string, string))
    ensures r.0 + r.1 == s
    ensures '=' !in r.0
    ensures r.1 == [] || r.1[0] == '='
  {
    match IndexOf(s, '=')
    case Some(i) => (s[..i], s[i..])
    case None => (s, "")
  }

  /** The three properties of `SplitValue` determine its result: the key is the
      longest prefix free of `=`, and the value is everything after it. */
  lemma SplitValueUnique(s: string, key: string, value: string)
    requires key + value == s
    requires '=' !in key
    requires value == [] || value[0] == '='
    ensures SplitValue(s) == (key, value)
  {
    var (k, v) := SplitValue(s);
    assert k == s[..|k|] && key == s[..|key|];
  }

  /** The pairs of a `KEY=VALUE` list collected into a map, in list order. */
  function ListToMap(items: seq<string>): map<string, string>
  {
    if items == [] then map[]
    else
      var (k, v) := SplitValue(items[|items| - 1]);
      ListToMap(items[..|items| - 1])[k := v]
  }

  lemma ListToMapKeys(items: seq<string>)
    ensures forall k :: k in ListToMap(items) <==> exists i :: 0 <= i < |items| && SplitValue(items[i]).0 == k
  {
    var pairs := seq(|items|, i requires 0 <= i < |items| => SplitValue(items[i]));
    ListToMapPairs(items, pairs);
    PairsToMapKeys(pairs);
    forall k | k in ListToMap(items)
      ensures exists i :: 0 <= i < |items| && SplitValue(items[i]).0 == k
    {
      var i :| 0 <= i < |pairs| && pairs[i].0 == k;
      assert SplitValue(items[i]).0 == k;
    }
    forall k, i | 0 <= i < |items| && SplitValue(items[i]).0 == k
      ensures k in ListToMap(items)
    {
      assert pairs[i].0 == k;
    }
  }

  /** Pairs collected into a map, a later pair replacing an earlier one. */
  function PairsToMap(pairs: seq<(string, string)>): map<string, string>
  {
    if pairs == [] then map[]
    else PairsToMap(pairs[..|pairs| - 1])[pairs[|pairs| - 1].0 := pairs[|pairs| - 1].1]
  }

  lemma {:induction false} ListToMapPairs(items: seq<string>, pairs: seq<(string, string)>)
    requires |pairs| == |items| && forall i :: 0 <= i < |items| ==> pairs[i] == SplitValue(items[i])
    ensures ListToMap(items) == PairsToMap(pairs)
  {
    if items != [] {
      ListToMapPairs(items[..|items| - 1], pairs[..|pairs| - 1]);
    }
  }

  lemma {:induction false} PairsToMapKeys(pairs: seq<(string, string)>)
    ensures forall k :: k in PairsToMap(pairs) <==> exists i :: 0 <= i < |pairs| && pairs[i].0 == k
  {
    if pairs != [] {
      var init := pairs[..|pairs| - 1];
      PairsToMapKeys(init);
      assert forall i :: 0 <= i < |init| ==> init[i] == pairs[i];
    }
  }

  /** A later entry with the same key replaces an earlier one. */
  lemma {:induction false} ListToMapLastWins(items: seq<string>, i: nat)
    requires i < |items| && LastWithKey(items, i)
    ensures SplitValue(items[i]).0 in ListToMap(items)
    ensures ListToMap(items)[SplitValue(items[i]).0] == SplitValue(items[i]).1
  {
    var init := items[..|items| - 1];
    if i < |items| - 1 {
      assert init[i] == items[i];
      assert LastWithKey(init, i) by {
        forall j | i < j < |init| ensures SplitValue(init[j]).0 != SplitValue(init[i]).0 {
          assert init[j] == items[j];
        }
      }
      ListToMapLastWins(init, i);
    }
  }

  /** No entry after index `i` has the same key as entry `i`. */
  predicate LastWithKey(items: seq<string>, i: nat)
    requires i < |items|
  {
    forall j :: i < j < |items| ==> SplitValue(items[j]).0 != SplitValue(items[i]).0
  }

  /** `MapList::to_map`: a mapping is returned as it is, a list is split entry
      by entry. */
  function ToMap(ml: MapList): (r: map<string, string>)
    ensures ml.Map? ==> r == ml.entries
    ensures ml.List? ==> forall k :: k in r <==> exists i :: 0 <= i < |ml.items| && SplitValue(ml.items[i]).0 == k
    ensures ml.List? ==> forall i :: 0 <= i < |ml.items| && LastWithKey(ml.items, i) ==>
              r[SplitValue(ml.items[i]).0] == SplitValue(ml.items[i]).1
    ensures ml == DefaultMapList ==> r == map[]
  {
    match ml
    case Map(entries) => entries
    case List(items) =>
      ListToMapKeys(items);
      forall i | 0 <= i < |items| && LastWithKey(items, i)
        ensures ListToMap(items)[SplitValue(items[i]).0] == SplitValue(items[i]).1
      {
        ListToMapLastWins(items, i);
      }
      ListToMap(items)
  }
}
