/** The reconciliation logic of pod-compose/src/controller.rs: from the
    composition (the container specs asked for) and the snapshot (the project's
    containers as the runtime reported them) it computes which operations bring
    the runtime in line, and it turns each operation into backend calls. */
module Controller {
  import opened Wrappers
  import opened Strings
  import opened Models
  import opened Backend
  import Podman

  const LabelProject: string := "io.podman.compose.project"
  const LabelService: string := "io.podman.compose.service"
  const LabelHash: string := "io.podman.compose.hash"

  datatype ContainerOperation = Create | Recreate | Start | Stop | Remove

  /** The hex blake3 digest of a spec. Only its determinism matters here, so it
      is an arbitrary function of the spec. */
  type Digest = ContainerSpec -> string

  type Operations = seq<(ContainerName, ContainerOperation)>

  /** The set of service names the composition's containers belong to. */
  function ServiceNames(specs: seq<ContainerSpec>): set<string> {
    set i | 0 <= i < |specs| :: specs[i].serviceName
  }

  /** The names of `names` that `keep` accepts, in their order. */
  function Filter(names: seq<string>, keep: string -> bool): (r: seq<string>)
    ensures forall n :: n in r <==> n in names && keep(n)
    ensures Ascending(names) ==> Ascending(r)
  {
    if names == [] then []
    else
      var rest := Filter(names[1..], keep);
      if keep(names[0]) then
        assert Ascending(names) ==> Ascending([names[0]] + rest) by {
          if Ascending(names) {
            forall x | x in rest ensures Less(names[0], x) {
              var j :| 0 <= j < |names[1..]| && names[1..][j] == x;
              assert names[j + 1] == x;
            }
            ConsAscending(names[0], rest);
          }
        }
        [names[0]] + rest
      else rest
  }

  /** No container name occurs twice in the list of operations. */
  predicate OperationNamesDistinct(ops: Operations) {
    forall k, l :: 0 <= k < l < |ops| ==> ops[k].0 != ops[l].0
  }

  /** Each name paired with `Remove`. */
  function Removals(names: seq<ContainerName>): (r: Operations)
    ensures |r| == |names|
    ensures forall i :: 0 <= i < |names| ==> r[i] == (names[i], Remove)
  {
    seq(|names|, i requires 0 <= i < |names| => (names[i], Remove))
  }

  // ---------------------------------------------------------------------------
  // find_orphans

  /** A container is an orphan when it has no service label, or one naming a
      service the composition does not have. */
  predicate IsOrphan(c: Container, services: set<string>) {
    LabelService !in c.labels || c.labels[LabelService] !in services
  }

  /** `Controller::find_orphans`, in the snapshot's (ascending) name order. */
  function Orphans(specs: seq<ContainerSpec>, containers: Snapshot): (r: seq<ContainerName>)
    ensures forall n :: n in r <==> n in containers && IsOrphan(containers[n], ServiceNames(specs))
    ensures Ascending(r)
  {
    var services := ServiceNames(specs);
    Filter(SortedElements(containers.Keys), n => n in containers && IsOrphan(containers[n], services))
  }

  // ---------------------------------------------------------------------------
  // start_containers_diff

  /** The first spec with the given name (`iter().find`). */
  function FindSpec(specs: seq<ContainerSpec>, name: ContainerName): (r: Option<ContainerSpec>)
    ensures r.None? <==> forall i :: 0 <= i < |specs| ==> specs[i].name != name
    ensures r.Some? ==> exists i :: 0 <= i < |specs| && specs[i] == r.value && r.value.name == name &&
                          forall j :: 0 <= j < i ==> specs[j].name != name
  {
    if specs == [] then None
    else if specs[0].name == name then
      Some(specs[0])
    else
      var r := FindSpec(specs[1..], name);
      assert r.Some? ==> exists i :: 0 <= i < |specs| && specs[i] == r.value && r.value.name == name &&
                          forall j :: 0 <= j < i ==> specs[j].name != name by {
        if r.Some? {
        var i :| 0 <= i < |specs[1..]| && specs[1..][i] == r.value && r.value.name == name &&
                 forall j :: 0 <= j < i ==> specs[1..][j].name != name;
        assert specs[i + 1] == r.value;
        assert forall j :: 0 <= j < i + 1 ==> specs[j].name != name by {
          forall j | 0 <= j < i + 1 ensures specs[j].name != name {
            if j > 0 {
              assert specs[j] == specs[1..][j - 1];
            }
          }
        }
        }
      }
      assert r.None? ==> forall i :: 0 <= i < |specs| ==> specs[i].name != name by {
        if r.None? {
        assert forall i :: 0 <= i < |specs| ==> specs[i].name != name by {
          forall i | 0 <= i < |specs| ensures specs[i].name != name {
            if i > 0 {
              assert specs[i] == specs[1..][i - 1];
            }
          }
        }
        }
      }
      r
  }

  /** The container carries a hash label equal to the spec's digest. */
  predicate HashMatches(c: Container, spec: ContainerSpec, digest: Digest) {
    LabelHash in c.labels && c.labels[LabelHash] == digest(spec)
  }

  /** What one spec needs. A missing container is created; a container whose
      hash label is missing or stale is recreated; a current container is left
      alone when running, started when configured or exited, and recreated
      when its state is unknown. */
  function SpecOperation(spec: ContainerSpec, containers: Snapshot, digest: Digest): (r: Option<ContainerOperation>)
    ensures r == Some(Create) <==> spec.name !in containers
    ensures r == None <==>
              spec.name in containers && HashMatches(containers[spec.name], spec, digest) &&
              containers[spec.name].status == Running
    ensures r == Some(Start) <==>
              spec.name in containers && HashMatches(containers[spec.name], spec, digest) &&
              containers[spec.name].status in {Configured, Exited}
    ensures r == Some(Recreate) <==>
              spec.name in containers &&
              (!HashMatches(containers[spec.name], spec, digest) || containers[spec.name].status == Unknown)
    ensures r != Some(Stop) && r != Some(Remove)
  {
    if spec.name !in containers then Some(Create)
    else
      var container := containers[spec.name];
      if LabelHash in container.labels && container.labels[LabelHash] == digest(spec) then
        match container.status
        case Configured => Some(Start)
        case Running => None
        case Exited => Some(Start)
        case Unknown => Some(Recreate)
      else Some(Recreate)
  }

  /** The part of `start_containers_diff` that walks the composition: one entry
      per spec that needs an operation, in composition order. */
  function CompositionDiff(specs: seq<ContainerSpec>, containers: Snapshot, digest: Digest): (r: Operations)
    ensures |r| <= |specs|
    ensures forall k :: 0 <= k < |r| ==>
              exists i :: 0 <= i < |specs| && specs[i].name == r[k].0 && SpecOperation(specs[i], containers, digest) == Some(r[k].1)
  {
    if specs == [] then []
    else
      var init, last := specs[..|specs| - 1], specs[|specs| - 1];
      var before := CompositionDiff(init, containers, digest);
      var op := SpecOperation(last, containers, digest);
      var r := if op.Some? then before + [(last.name, op.value)] else before;
      assert forall i :: 0 <= i < |init| ==> init[i] == specs[i];
      r
  }

  /** The container is labelled with a service of the composition but no spec
      has its name: the service was scaled down. */
  predicate IsScaledDown(name: ContainerName, c: Container, specs: seq<ContainerSpec>) {
    && LabelService in c.labels
    && c.labels[LabelService] in ServiceNames(specs)
    && FindSpec(specs, name).None?
  }

  /** The scaled-down containers, in the snapshot's (ascending) name order. */
  function ScaledDown(specs: seq<ContainerSpec>, containers: Snapshot): (r: seq<ContainerName>)
    ensures forall n :: n in r <==> n in containers && IsScaledDown(n, containers[n], specs)
    ensures Ascending(r)
  {
    Filter(SortedElements(containers.Keys), n => n in containers && IsScaledDown(n, containers[n], specs))
  }

  /** `Controller::start_containers_diff`: the composition's entries, then one
      `Remove` per scaled-down container. */
  function StartDiff(specs: seq<ContainerSpec>, containers: Snapshot, digest: Digest): Operations {
    CompositionDiff(specs, containers, digest) + Removals(ScaledDown(specs, containers))
  }

  // ---------------------------------------------------------------------------
  // stop_containers_diff and remove_containers_diff

  /** `Controller::stop_containers_diff`. */
  function StopDiff(specs: seq<ContainerSpec>, containers: Snapshot): (r: Operations)
    ensures |r| <= |specs|
    ensures forall name, op :: (name, op) in r <==>
              op == Stop && name in containers && containers[name].status == Running &&
              exists i :: 0 <= i < |specs| && specs[i].name == name
  {
    if specs == [] then []
    else
      var init, last := specs[..|specs| - 1], specs[|specs| - 1];
      var before := StopDiff(init, containers);
      assert forall i :: 0 <= i < |init| ==> init[i] == specs[i];
      if last.name in containers && containers[last.name].status == Running then before + [(last.name, Stop)]
      else before
  }

  /** `Controller::remove_containers_diff`. */
  function RemoveDiff(specs: seq<ContainerSpec>, containers: Snapshot): (r: Operations)
    ensures |r| <= |specs|
    ensures forall name, op :: (name, op) in r <==>
              op == Remove && name in containers && exists i :: 0 <= i < |specs| && specs[i].name == name
  {
    if specs == [] then []
    else
      var init, last := specs[..|specs| - 1], specs[|specs| - 1];
      var before := RemoveDiff(init, containers);
      assert forall i :: 0 <= i < |init| ==> init[i] == specs[i];
      if last.name in containers then before + [(last.name, Remove)] else before
  }

  /** The names of the specs, in composition order. */
  function SpecNames(specs: seq<ContainerSpec>): (r: seq<ContainerName>)
    ensures |r| == |specs| && forall i :: 0 <= i < |specs| ==> r[i] == specs[i].name
  {
    seq(|specs|, i requires 0 <= i < |specs| => specs[i].name)
  }

  /** Whether the snapshot has a container of that name. */
  function ExistsIn(containers: Snapshot): string -> bool {
    n => n in containers
  }

  /** Whether the snapshot has a running container of that name. */
  function RunningIn(containers: Snapshot): string -> bool {
    n => n in containers && containers[n].status == Running
  }

  /** Each name paired with `op`. */
  predicate PairedWith(ops: Operations, names: seq<ContainerName>, op: ContainerOperation) {
    |ops| == |names| && forall k :: 0 <= k < |ops| ==> ops[k] == (names[k], op)
  }

  lemma {:induction false} FilterSnoc(names: seq<string>, x: string, keep: string -> bool)
    ensures Filter(names + [x], keep) == Filter(names, keep) + if keep(x) then [x] else []
  {
    if names != [] {
      assert (names + [x])[1..] == names[1..] + [x];
      FilterSnoc(names[1..], x, keep);
    }
  }

  /** No name occurs twice. */
  predicate Distinct(names: seq<string>) {
    forall i, j :: 0 <= i < j < |names| ==> names[i] != names[j]
  }

  lemma {:induction false} FilterDistinct(names: seq<string>, keep: string -> bool)
    requires Distinct(names)
    ensures Distinct(Filter(names, keep))
  {
    if names != [] {
      var rest, r := Filter(names[1..], keep), Filter(names, keep);
      assert Distinct(names[1..]) by {
        forall i, j | 0 <= i < j < |names[1..]| ensures names[1..][i] != names[1..][j] {
          assert names[1..][i] == names[i + 1] && names[1..][j] == names[j + 1];
        }
      }
      FilterDistinct(names[1..], keep);
      if keep(names[0]) {
        assert names[0] !in names[1..] by {
          forall j | 0 <= j < |names[1..]| ensures names[1..][j] != names[0] {
            assert names[1..][j] == names[j + 1];
          }
        }
        assert r == [names[0]] + rest;
        forall i, j | 0 <= i < j < |r| ensures r[i] != r[j] {
          assert r[j] == rest[j - 1] && rest[j - 1] in rest;
          if i > 0 {
            assert r[i] == rest[i - 1];
          }
        }
      }
    }
  }

  lemma {:induction false} StopDiffFiltered(specs: seq<ContainerSpec>, containers: Snapshot)
    ensures PairedWith(StopDiff(specs, containers), Filter(SpecNames(specs), RunningIn(containers)), Stop)
  {
    if specs != [] {
      var init, last := specs[..|specs| - 1], specs[|specs| - 1];
      assert SpecNames(specs) == SpecNames(init) + [last.name];
      FilterSnoc(SpecNames(init), last.name, RunningIn(containers));
      StopDiffFiltered(init, containers);
    }
  }

  lemma {:induction false} RemoveDiffFiltered(specs: seq<ContainerSpec>, containers: Snapshot)
    ensures PairedWith(RemoveDiff(specs, containers), Filter(SpecNames(specs), ExistsIn(containers)), Remove)
  {
    if specs != [] {
      var init, last := specs[..|specs| - 1], specs[|specs| - 1];
      assert SpecNames(specs) == SpecNames(init) + [last.name];
      FilterSnoc(SpecNames(init), last.name, ExistsIn(containers));
      RemoveDiffFiltered(init, containers);
    }
  }

  /** `stop_containers_diff` is one `Stop` per spec whose container is
      running, in composition order; with distinct spec names no container is
      stopped twice. */
  lemma StopDiffInOrder(specs: seq<ContainerSpec>, containers: Snapshot)
    ensures var running := Filter(SpecNames(specs), RunningIn(containers));
            && (forall n :: n in running <==>
                  n in containers && containers[n].status == Running && exists i :: 0 <= i < |specs| && specs[i].name == n)
            && PairedWith(StopDiff(specs, containers), running, Stop)
    ensures NamesDistinct(specs) ==> OperationNamesDistinct(StopDiff(specs, containers))
  {
    var names := SpecNames(specs);
    StopDiffFiltered(specs, containers);
    forall n ensures n in names <==> exists i :: 0 <= i < |specs| && specs[i].name == n {
      if n in names {
        var i :| 0 <= i < |names| && names[i] == n;
      }
    }
    if NamesDistinct(specs) {
      FilterDistinct(names, RunningIn(containers));
    }
  }

  /** `remove_containers_diff` is one `Remove` per spec that has a container,
      in composition order; with distinct spec names no container is removed
      twice. */
  lemma RemoveDiffInOrder(specs: seq<ContainerSpec>, containers: Snapshot)
    ensures var existing := Filter(SpecNames(specs), ExistsIn(containers));
            && (forall n :: n in existing <==> n in containers && exists i :: 0 <= i < |specs| && specs[i].name == n)
            && PairedWith(RemoveDiff(specs, containers), existing, Remove)
    ensures NamesDistinct(specs) ==> OperationNamesDistinct(RemoveDiff(specs, containers))
  {
    var names := SpecNames(specs);
    RemoveDiffFiltered(specs, containers);
    forall n ensures n in names <==> exists i :: 0 <= i < |specs| && specs[i].name == n {
      if n in names {
        var i :| 0 <= i < |names| && names[i] == n;
      }
    }
    if NamesDistinct(specs) {
      FilterDistinct(names, ExistsIn(containers));
    }
  }

  // ---------------------------------------------------------------------------
  // What the start diff contains

  /** Every spec that needs an operation has its entry. */
  lemma {:induction false} CompositionDiffComplete(specs: seq<ContainerSpec>, containers: Snapshot, digest: Digest, i: nat)
    requires i < |specs| && SpecOperation(specs[i], containers, digest).Some?
    ensures (specs[i].name, SpecOperation(specs[i], containers, digest).value) in CompositionDiff(specs, containers, digest)
  {
    var init := specs[..|specs| - 1];
    if i < |init| {
      assert init[i] == specs[i];
      CompositionDiffComplete(init, containers, digest, i);
    }
  }

  lemma {:induction false} CompositionDiffPrefix(specs: seq<ContainerSpec>, k: nat, containers: Snapshot, digest: Digest)
    requires k <= |specs|
    ensures var d := CompositionDiff(specs[..k], containers, digest);
            d <= CompositionDiff(specs, containers, digest)
  {
    if k < |specs| {
      var init := specs[..|specs| - 1];
      assert init[..k] == specs[..k];
      CompositionDiffPrefix(init, k, containers, digest);
    } else {
      assert specs[..k] == specs;
    }
  }

  lemma {:induction false} CompositionDiffDistinct(specs: seq<ContainerSpec>, containers: Snapshot, digest: Digest)
    requires NamesDistinct(specs)
    ensures OperationNamesDistinct(CompositionDiff(specs, containers, digest))
  {
    if specs != [] {
      var init, last := specs[..|specs| - 1], specs[|specs| - 1];
      var before := CompositionDiff(init, containers, digest);
      var op := SpecOperation(last, containers, digest);
      assert CompositionDiff(specs, containers, digest) == if op.Some? then before + [(last.name, op.value)] else before;
      assert NamesDistinct(init) by {
        forall i, j | 0 <= i < j < |init| ensures init[i].name != init[j].name {
          assert init[i] == specs[i] && init[j] == specs[j];
        }
      }
      CompositionDiffDistinct(init, containers, digest);
      forall k | 0 <= k < |before|
        ensures before[k].0 != last.name
      {
        var i :| 0 <= i < |init| && init[i].name == before[k].0 && SpecOperation(init[i], containers, digest) == Some(before[k].1);
        assert init[i] == specs[i];
      }
      var d := CompositionDiff(specs, containers, digest);
      forall k, l | 0 <= k < l < |d|
        ensures d[k].0 != d[l].0
      {
        if l < |before| {
          assert d[k] == before[k] && d[l] == before[l];
          assert before[k].0 != before[l].0;
        } else {
          assert op.Some? && d[l] == (last.name, op.value);
          assert d[k] == before[k];
          assert before[k].0 != last.name;
        }
      }
    }
  }

  lemma StartDiffCompositionPart(specs: seq<ContainerSpec>, containers: Snapshot, digest: Digest)
    ensures var d, c := StartDiff(specs, containers, digest), |CompositionDiff(specs, containers, digest)|;
            && (forall k :: 0 <= k <= |specs| ==> CompositionDiff(specs[..k], containers, digest) <= d)
            && (forall k :: 0 <= k < c ==>
                  d[k].1 != Remove && exists i :: 0 <= i < |specs| && specs[i].name == d[k].0)
  {
    var d, comp := StartDiff(specs, containers, digest), CompositionDiff(specs, containers, digest);
    assert comp <= d;
    forall k | 0 <= k <= |specs|
      ensures CompositionDiff(specs[..k], containers, digest) <= d
    {
      CompositionDiffPrefix(specs, k, containers, digest);
    }
    forall k | 0 <= k < |comp|
      ensures d[k].1 != Remove && exists i :: 0 <= i < |specs| && specs[i].name == d[k].0
    {
      assert d[k] == comp[k];
    }
  }

  lemma RemovalsAfter(before: Operations, names: seq<ContainerName>)
    ensures var d := before + Removals(names);
            && |d| - |before| == |names|
            && forall k :: |before| <= k < |d| ==> d[k] == (names[k - |before|], Remove)
  {
  }

  lemma StartDiffRemovalsScaledDown(specs: seq<ContainerSpec>, containers: Snapshot, digest: Digest)
    ensures var d, c := StartDiff(specs, containers, digest), |CompositionDiff(specs, containers, digest)|;
            forall k :: c <= k < |d| ==>
              && d[k].1 == Remove
              && d[k].0 in containers
              && IsScaledDown(d[k].0, containers[d[k].0], specs)
  {
    var d, c := StartDiff(specs, containers, digest), |CompositionDiff(specs, containers, digest)|;
    var scaled := ScaledDown(specs, containers);
    RemovalsAfter(CompositionDiff(specs, containers, digest), scaled);
    forall k | c <= k < |d|
      ensures d[k].0 in containers && IsScaledDown(d[k].0, containers[d[k].0], specs)
    {
      assert scaled[k - c] in scaled;
    }
  }

  lemma RemovalsAscending(before: Operations, names: seq<ContainerName>)
    requires Ascending(names)
    ensures var d := before + Removals(names);
            forall k, l :: |before| <= k < l < |d| ==> Less(d[k].0, d[l].0)
  {
    var d := before + Removals(names);
    forall k, l | |before| <= k < l < |d|
      ensures Less(d[k].0, d[l].0)
    {
      assert d[k].0 == names[k - |before|] && d[l].0 == names[l - |before|];
    }
  }

  lemma StartDiffRemovalsAscending(specs: seq<ContainerSpec>, containers: Snapshot, digest: Digest)
    ensures var d, c := StartDiff(specs, containers, digest), |CompositionDiff(specs, containers, digest)|;
            forall k, l :: c <= k < l < |d| ==> Less(d[k].0, d[l].0)
  {
    RemovalsAscending(CompositionDiff(specs, containers, digest), ScaledDown(specs, containers));
  }

  lemma StartDiffRemovalsComplete(specs: seq<ContainerSpec>, containers: Snapshot, digest: Digest)
    ensures var d, c := StartDiff(specs, containers, digest), |CompositionDiff(specs, containers, digest)|;
            forall n :: n in containers && IsScaledDown(n, containers[n], specs) ==> (n, Remove) in d[c..]
  {
    var d, c := StartDiff(specs, containers, digest), |CompositionDiff(specs, containers, digest)|;
    var scaled := ScaledDown(specs, containers);
    RemovalsAfter(CompositionDiff(specs, containers, digest), scaled);
    forall n | n in containers && IsScaledDown(n, containers[n], specs)
      ensures (n, Remove) in d[c..]
    {
      var j :| 0 <= j < |scaled| && scaled[j] == n;
      assert d[c..][j] == (n, Remove);
    }
  }

  /** `start_containers_diff` lists the composition's entries first, in
      composition order (the diff of a prefix of the composition is a prefix of
      the diff); each of them names a spec and is never a `Remove`. After them
      come the `Remove`s of exactly the scaled-down containers, in ascending name
      order; a scaled-down container is never an orphan and never has a spec. */
  lemma StartDiffShape(specs: seq<ContainerSpec>, containers: Snapshot, digest: Digest)
    ensures var d, c := StartDiff(specs, containers, digest), |CompositionDiff(specs, containers, digest)|;
            && (forall k :: 0 <= k <= |specs| ==> CompositionDiff(specs[..k], containers, digest) <= d)
            && (forall k :: 0 <= k < c ==>
                  d[k].1 != Remove && exists i :: 0 <= i < |specs| && specs[i].name == d[k].0)
            && (forall k :: c <= k < |d| ==>
                  && d[k].1 == Remove
                  && d[k].0 in containers
                  && IsScaledDown(d[k].0, containers[d[k].0], specs)
                  && !IsOrphan(containers[d[k].0], ServiceNames(specs))
                  && forall i :: 0 <= i < |specs| ==> specs[i].name != d[k].0)
            && (forall k, l :: c <= k < l < |d| ==> Less(d[k].0, d[l].0))
            && (forall n :: n in containers && IsScaledDown(n, containers[n], specs) ==> (n, Remove) in d[c..])
  {
    StartDiffCompositionPart(specs, containers, digest);
    StartDiffRemovalsScaledDown(specs, containers, digest);
    StartDiffRemovalsAscending(specs, containers, digest);
    StartDiffRemovalsComplete(specs, containers, digest);
  }

  /** When no two specs share a name, no container name appears twice in
      `start_containers_diff`. */
  lemma StartDiffDistinct(specs: seq<ContainerSpec>, containers: Snapshot, digest: Digest)
    requires NamesDistinct(specs)
    ensures OperationNamesDistinct(StartDiff(specs, containers, digest))
  {
    var d, comp := StartDiff(specs, containers, digest), CompositionDiff(specs, containers, digest);
    CompositionDiffDistinct(specs, containers, digest);
    StartDiffShape(specs, containers, digest);
    forall k, l | 0 <= k < l < |d|
      ensures d[k].0 != d[l].0
    {
      if l >= |comp| && k >= |comp| {
        LessIrreflexive(d[k].0);
      } else if l >= |comp| {
        var i :| 0 <= i < |specs| && specs[i].name == d[k].0;
      } else {
        assert d[k] == comp[k] && d[l] == comp[l];
      }
    }
  }

  /** `start_containers_diff` is empty exactly when every spec has a running
      container whose hash label is the spec's digest and no container is a
      scaled-down one. */
  lemma StartDiffEmpty(specs: seq<ContainerSpec>, containers: Snapshot, digest: Digest)
    ensures StartDiff(specs, containers, digest) == [] <==>
              && (forall i :: 0 <= i < |specs| ==>
                    specs[i].name in containers && HashMatches(containers[specs[i].name], specs[i], digest) &&
                    containers[specs[i].name].status == Running)
              && (forall n :: n in containers ==> !IsScaledDown(n, containers[n], specs))
  {
    var comp, scaled := CompositionDiff(specs, containers, digest), ScaledDown(specs, containers);
    assert StartDiff(specs, containers, digest) == comp + Removals(scaled);
    if comp != [] {
      var k := 0;
      var i :| 0 <= i < |specs| && specs[i].name == comp[k].0 && SpecOperation(specs[i], containers, digest) == Some(comp[k].1);
    } else {
      forall i | 0 <= i < |specs|
        ensures SpecOperation(specs[i], containers, digest) == None
      {
        if SpecOperation(specs[i], containers, digest).Some? {
          CompositionDiffComplete(specs, containers, digest, i);
        }
      }
    }
    if scaled != [] {
      assert scaled[0] in scaled;
    }
  }

  /** `Controller::container_create` stamps the spec before creating it: the
      project, the service and the digest of the spec as it was before the
      stamping; every other label is kept. */
  function Labelled(spec: ContainerSpec, project: string, digest: Digest): (r: ContainerSpec)
    ensures r.name == spec.name && r.serviceName == spec.serviceName && r.imageName == spec.imageName
    ensures r.labels.Keys == spec.labels.Keys + {LabelProject, LabelService, LabelHash}
    ensures r.labels[LabelProject] == project
    ensures r.labels[LabelService] == spec.serviceName
    ensures r.labels[LabelHash] == digest(spec)
    ensures forall k :: k in spec.labels && k !in {LabelProject, LabelService, LabelHash} ==> r.labels[k] == spec.labels[k]
  {
    spec.(labels := spec.labels[LabelProject := project][LabelService := spec.serviceName][LabelHash := digest(spec)])
  }

  /** Running the composition's containers as `container_create` stamped them
      leaves nothing to do: if every spec has a running container whose hash
      label is the one `Labelled` gives it (other labels may differ), and every
      container has a spec, then `start_containers_diff` is empty. */
  lemma CreatedAndRunningIsIdle(specs: seq<ContainerSpec>, containers: Snapshot, project: string, digest: Digest)
    requires forall i :: 0 <= i < |specs| ==>
               specs[i].name in containers && containers[specs[i].name].status == Running &&
               LabelHash in containers[specs[i].name].labels &&
               containers[specs[i].name].labels[LabelHash] == Labelled(specs[i], project, digest).labels[LabelHash]
    requires forall n :: n in containers ==> exists i :: 0 <= i < |specs| && specs[i].name == n
    ensures StartDiff(specs, containers, digest) == []
  {
    forall n | n in containers
      ensures !IsScaledDown(n, containers[n], specs)
    {
      var i :| 0 <= i < |specs| && specs[i].name == n;
    }
    StartDiffEmpty(specs, containers, digest);
  }

  // ---------------------------------------------------------------------------
  // container_apply

  /** One backend call of an operation. `StartCreated` starts the container
      that the preceding create returned. */
  datatype Step = Issue(request: Request) | StartCreated

  /** The `CreateContainer` call `container_create` makes for a spec. */
  function CreateRequest(spec: ContainerSpec, project: string, digest: Digest): Request {
    Request.CreateContainer(Labelled(spec, project, digest))
  }

  /** A container is stopped before it is removed only when it is running. */
  function StopIfRunning(c: Container, timeout: nat): seq<Step> {
    if c.status == Running then [Issue(Request.StopContainer(c.id, timeout))] else []
  }

  function UnknownName(name: ContainerName): string {
    "unknown container name: " + name
  }

  function NotFound(name: ContainerName): string {
    "could not find container " + name
  }

  /** The calls `Controller::container_apply` makes for one operation, or the
      error it returns before making any: `Create` and `Recreate` need a spec
      of that name, every operation but `Create` needs a container of that name
      in the snapshot, and the spec is looked up first. */
  function Plan(name: ContainerName, operation: ContainerOperation, timeout: nat,
                specs: seq<ContainerSpec>, containers: Snapshot, project: string, digest: Digest): Result<seq<Step>>
  {
    match operation
    case Create =>
      (match FindSpec(specs, name)
       case None => Err(UnknownName(name))
       case Some(spec) => Ok([Issue(CreateRequest(spec, project, digest)), StartCreated]))
    case Recreate =>
      (match FindSpec(specs, name)
       case None => Err(UnknownName(name))
       case Some(spec) =>
         if name !in containers then Err(NotFound(name))
         else
           var c := containers[name];
           Ok((StopIfRunning(c, timeout) + [Issue(Request.RemoveContainer(c.id, false, false))]) +
              [Issue(CreateRequest(spec, project, digest)), StartCreated]))
    case Start =>
      if name !in containers then Err(NotFound(name))
      else Ok([Issue(Request.StartContainer(containers[name].id))])
    case Stop =>
      if name !in containers then Err(NotFound(name))
      else Ok([Issue(Request.StopContainer(containers[name].id, timeout))])
    case Remove =>
      if name !in containers then Err(NotFound(name))
      else
        var c := containers[name];
        Ok(StopIfRunning(c, timeout) + [Issue(Request.RemoveContainer(c.id, false, false))])
  }

  /** An operation fails before any call exactly when a `Create` or `Recreate`
      names no spec, or an operation other than `Create` names a container the
      snapshot does not have; the spec is looked up first. */
  lemma PlanFails(name: ContainerName, op: ContainerOperation, timeout: nat,
                  specs: seq<ContainerSpec>, containers: Snapshot, project: string, digest: Digest)
    ensures var p := Plan(name, op, timeout, specs, containers, project, digest);
            var noSpec := (op == Create || op == Recreate) && FindSpec(specs, name).None?;
            && (p.Err? <==> noSpec || (op != Create && name !in containers))
            && (noSpec ==> p == Err(UnknownName(name)))
            && (!noSpec && op != Create && name !in containers ==> p == Err(NotFound(name)))
  {
  }

  /** `Remove` and `Recreate` always remove the container, and stop it first
      exactly when it is running; `Remove` does nothing else. `Create` and
      `Recreate` end by creating the stamped spec and starting what the create
      returned, and `Recreate` does that right after the removal. */
  lemma PlanSteps(name: ContainerName, op: ContainerOperation, timeout: nat,
                  specs: seq<ContainerSpec>, containers: Snapshot, project: string, digest: Digest)
    ensures var p := Plan(name, op, timeout, specs, containers, project, digest);
            && (p.Ok? && (op == Remove || op == Recreate) ==>
                  && name in containers
                  && Issue(Request.RemoveContainer(containers[name].id, false, false)) in p.value
                  && (Issue(Request.StopContainer(containers[name].id, timeout)) in p.value <==>
                        containers[name].status == Running))
            && (p.Ok? && op == Remove ==>
                  var c := containers[name];
                  p.value == (if c.status == Running then [Issue(Request.StopContainer(c.id, timeout))] else []) +
                             [Issue(Request.RemoveContainer(c.id, false, false))])
            && (p.Ok? && op == Recreate ==>
                  var c := containers[name];
                  && |p.value| >= 2
                  && p.value[..|p.value| - 2] ==
                       (if c.status == Running then [Issue(Request.StopContainer(c.id, timeout))] else []) +
                       [Issue(Request.RemoveContainer(c.id, false, false))])
            && (p.Ok? && (op == Create || op == Recreate) ==>
                  && FindSpec(specs, name).Some?
                  && |p.value| >= 2
                  && p.value[|p.value| - 2..] == [Issue(CreateRequest(FindSpec(specs, name).value, project, digest)), StartCreated])
            && (p.Ok? && op == Start ==>
                  name in containers && p.value == [Issue(Request.StartContainer(containers[name].id))])
            && (p.Ok? && op == Stop ==>
                  name in containers && p.value == [Issue(Request.StopContainer(containers[name].id, timeout))])
  {
    var p := Plan(name, op, timeout, specs, containers, project, digest);
    if p.Ok? && (op == Remove || op == Recreate) {
      var c := containers[name];
      var rest := if op == Remove then [] else [Issue(CreateRequest(FindSpec(specs, name).value, project, digest)), StartCreated];
      RemovalSteps(c, timeout, rest);
    }
  }

  /** The steps that remove a container, at the head of a plan. */
  lemma RemovalSteps(c: Container, timeout: nat, rest: seq<Step>)
    requires Issue(Request.StopContainer(c.id, timeout)) !in rest
    ensures var steps := (StopIfRunning(c, timeout) + [Issue(Request.RemoveContainer(c.id, false, false))]) + rest;
            && Issue(Request.RemoveContainer(c.id, false, false)) in steps
            && (Issue(Request.StopContainer(c.id, timeout)) in steps <==> c.status == Running)
  {
    var removal := StopIfRunning(c, timeout) + [Issue(Request.RemoveContainer(c.id, false, false))];
    var steps := removal + rest;
    assert removal[|removal| - 1] == steps[|removal| - 1];
    if c.status == Running {
      assert removal[0] == steps[0];
    } else {
      assert steps == [removal[0]] + rest;
    }
  }

  /** The request a step makes, given the id the last create returned. */
  function RequestOf(step: Step, created: ContainerId): Request {
    match step
    case Issue(request) => request
    case StartCreated => Request.StartContainer(created)
  }

  /** The id a later `StartCreated` starts after this call. */
  function CreatedAfter(call: Call, created: ContainerId): ContainerId {
    if call.request.CreateContainer? && call.reply.Id? then call.reply.id else created
  }

  /** `calls` are the calls made while carrying out `steps` in order, each
      succeeding until one fails, after which nothing more is called; `ok` says
      whether all of them succeeded. */
  ghost predicate Performs(steps: seq<Step>, calls: seq<Call>, ok: bool, created: ContainerId)
    decreases |steps|
  {
    if steps == [] then calls == [] && ok
    else
      && |calls| >= 1
      && calls[0].request == RequestOf(steps[0], created)
      && if calls[0].reply.Failed? then calls == [calls[0]] && !ok
         else Performs(steps[1..], calls[1..], ok, CreatedAfter(calls[0], created))
  }

  /** Carrying out an operation: the error of its plan and no call, or the
      calls of its plan. */
  ghost predicate Applies(plan: Result<seq<Step>>, calls: seq<Call>, ok: bool) {
    match plan
    case Err(_) => calls == [] && !ok
    case Ok(steps) => Performs(steps, calls, ok, "")
  }

  lemma PerformsFirstFails(steps: seq<Step>, call: Call, created: ContainerId)
    requires steps != [] && call.request == RequestOf(steps[0], created) && call.reply.Failed?
    ensures Performs(steps, [call], false, created)
  {
  }

  lemma PerformsFirstSucceeds(steps: seq<Step>, call: Call, calls: seq<Call>, ok: bool, created: ContainerId)
    requires steps != [] && call.request == RequestOf(steps[0], created) && !call.reply.Failed?
    requires Performs(steps[1..], calls, ok, CreatedAfter(call, created))
    ensures Performs(steps, [call] + calls, ok, created)
  {
    assert ([call] + calls)[1..] == calls;
  }

  /** The id the last create among `calls` returned, or `created` if none. */
  function CreatedAfterAll(calls: seq<Call>, created: ContainerId): ContainerId
    decreases |calls|
  {
    if calls == [] then created else CreatedAfterAll(calls[1..], CreatedAfter(calls[0], created))
  }

  lemma {:induction false} PerformsAppend(a: seq<Step>, b: seq<Step>, c1: seq<Call>, c2: seq<Call>, ok: bool, created: ContainerId)
    requires Performs(a, c1, true, created)
    requires Performs(b, c2, ok, CreatedAfterAll(c1, created))
    ensures Performs(a + b, c1 + c2, ok, created)
    decreases |a|
  {
    if a == [] {
      assert a + b == b && c1 + c2 == c2;
    } else {
      assert (a + b)[1..] == a[1..] + b;
      assert (c1 + c2)[0] == c1[0] && (c1 + c2)[1..] == c1[1..] + c2;
      PerformsAppend(a[1..], b, c1[1..], c2, ok, CreatedAfter(c1[0], created));
    }
  }

  lemma {:induction false} PerformsFailedPrefix(a: seq<Step>, b: seq<Step>, calls: seq<Call>, created: ContainerId)
    requires Performs(a, calls, false, created)
    ensures Performs(a + b, calls, false, created)
    decreases |a|
  {
    assert a != [];
    assert (a + b)[0] == a[0] && (a + b)[1..] == a[1..] + b;
    if !calls[0].reply.Failed? {
      PerformsFailedPrefix(a[1..], b, calls[1..], CreatedAfter(calls[0], created));
    }
  }

  /** The names of the images to pull, in order. */
  function ImageNames(specs: seq<ImagePullSpec>): (r: seq<ImageName>)
    ensures |r| == |specs| && forall i :: 0 <= i < |specs| ==> r[i] == specs[i].name
  {
    seq(|specs|, i requires 0 <= i < |specs| => specs[i].name)
  }

  /** Whether `pull_images` pulls an image, given what `get_image` found. */
  predicate NeedsPull(policy: PullPolicy, image: Option<Image>) {
    policy == Always || image.None?
  }

  /** `calls` are the calls `pull_images` makes for the images `names` under
      `policy`: per image a `get_image`, then a `pull_image` when `NeedsPull`,
      stopping at the first failed call; `ok` says whether none failed. */
  ghost predicate Pulls(names: seq<ImageName>, policy: PullPolicy, calls: seq<Call>, ok: bool)
    decreases |names|
  {
    if names == [] then calls == [] && ok
    else
      && |calls| >= 1
      && calls[0].request == Request.GetImage(names[0])
      && match calls[0].reply
         case Failed(_) => |calls| == 1 && !ok
         case ImageInfo(image) =>
           if NeedsPull(policy, image) then
             && |calls| >= 2
             && calls[1].request == Request.PullImage(names[0])
             && match calls[1].reply
                case Failed(_) => |calls| == 2 && !ok
                case Id(_) => Pulls(names[1..], policy, calls[2..], ok)
                case _ => false
           else Pulls(names[1..], policy, calls[1..], ok)
         case _ => false
  }

  lemma {:induction false} PullsAppend(a: seq<ImageName>, b: seq<ImageName>, policy: PullPolicy,
                                       c1: seq<Call>, c2: seq<Call>, ok: bool)
    requires Pulls(a, policy, c1, true)
    requires Pulls(b, policy, c2, ok)
    ensures Pulls(a + b, policy, c1 + c2, ok)
    decreases |a|
  {
    if a == [] {
      assert a + b == b && c1 + c2 == c2;
    } else {
      assert (a + b)[0] == a[0] && (a + b)[1..] == a[1..] + b;
      assert (c1 + c2)[0] == c1[0];
      match c1[0].reply {
        case ImageInfo(image) =>
          if NeedsPull(policy, image) {
            assert (c1 + c2)[1] == c1[1] && (c1 + c2)[2..] == c1[2..] + c2;
            PullsAppend(a[1..], b, policy, c1[2..], c2, ok);
          } else {
            assert (c1 + c2)[1..] == c1[1..] + c2;
            PullsAppend(a[1..], b, policy, c1[1..], c2, ok);
          }
      }
    }
  }

  /** One more image of `pull_images`: a success extends the trace, a failure
      ends the whole run. */
  lemma PullsStep(names: seq<ImageName>, i: nat, policy: PullPolicy, before: seq<Call>, after: seq<Call>, ok: bool)
    requires i < |names|
    requires Pulls(names[..i], policy, before, true)
    requires Pulls([names[i]], policy, after, ok)
    ensures ok ==> Pulls(names[..i + 1], policy, before + after, true)
    ensures !ok ==> Pulls(names, policy, before + after, false)
  {
    if ok {
      PullsAppend(names[..i], [names[i]], policy, before, after, true);
      assert names[..i] + [names[i]] == names[..i + 1];
    } else {
      PullsFailedFirst(names[i..], policy, after);
      PullsAppend(names[..i], names[i..], policy, before, after, false);
      assert names[..i] + names[i..] == names;
    }
  }

  /** The calls `pull_images` makes for one image. */
  lemma PullsOne(name: ImageName, policy: PullPolicy, calls: seq<Call>, ok: bool)
    requires 1 <= |calls| <= 2 && calls[0].request == Request.GetImage(name)
    requires calls[0].reply.Failed? ==> |calls| == 1 && !ok
    requires calls[0].reply.ImageInfo? ==>
               if NeedsPull(policy, calls[0].reply.image)
               then |calls| == 2 && calls[1].request == Request.PullImage(name) &&
                    (calls[1].reply.Failed? || calls[1].reply.Id?) && (ok <==> calls[1].reply.Id?)
               else |calls| == 1 && ok
    requires calls[0].reply.Failed? || calls[0].reply.ImageInfo?
    ensures Pulls([name], policy, calls, ok)
  {
    assert [name][1..] == [];
    if |calls| == 2 {
      assert calls[2..] == [];
    } else {
      assert calls[1..] == [];
    }
  }

  /** A failure on the first image does not depend on the images after it. */
  lemma PullsFailedFirst(names: seq<ImageName>, policy: PullPolicy, calls: seq<Call>)
    requires |names| >= 1
    requires Pulls([names[0]], policy, calls, false)
    ensures Pulls(names, policy, calls, false)
  {
    assert [names[0]][1..] == [];
  }

  /** The images a sequence of calls asked `get_image` about, in order. */
  function Queried(calls: seq<Call>): seq<ImageName>
    decreases |calls|
  {
    if calls == [] then []
    else (if calls[0].request.GetImage? then [calls[0].request.image] else []) + Queried(calls[1..])
  }

  /** `pull_images` asks about every image in order when it succeeds, and
      about a leading part of them, ending in a failed call, when it fails. */
  lemma {:induction false} PullsQueried(names: seq<ImageName>, policy: PullPolicy, calls: seq<Call>, ok: bool)
    requires Pulls(names, policy, calls, ok)
    ensures ok ==> Queried(calls) == names
    ensures !ok ==> && |calls| >= 1 && calls[|calls| - 1].reply.Failed?
                    && |Queried(calls)| >= 1 && Queried(calls) <= names
    decreases |names|
  {
    if names != [] {
      var skip := PullsFirst(names, policy, calls, ok);
      if skip < |calls| || ok {
        var rest := calls[skip..];
        PullsQueried(names[1..], policy, rest, ok);
        if !ok {
          assert calls[|calls| - 1] == rest[|rest| - 1];
        }
      }
    }
  }

  /** The calls for the first image: `skip` of them, all but the first one
      being a pull, and either the rest of the run follows or the run ended
      failing on the last of them. */
  lemma PullsFirst(names: seq<ImageName>, policy: PullPolicy, calls: seq<Call>, ok: bool) returns (skip: nat)
    requires names != [] && Pulls(names, policy, calls, ok)
    ensures 1 <= skip <= 2 && skip <= |calls|
    ensures Queried(calls) == [names[0]] + Queried(calls[skip..])
    ensures (skip == |calls| && !ok && calls[skip - 1].reply.Failed?) || Pulls(names[1..], policy, calls[skip..], ok)
  {
    match calls[0].reply {
      case Failed(_) =>
        skip := 1;
      case ImageInfo(image) =>
        skip := if NeedsPull(policy, image) then 2 else 1;
        if skip == 2 {
          assert calls[1..][1..] == calls[2..];
          assert Queried(calls[1..]) == Queried(calls[2..]);
        }
    }
  }

  /** Under `Always` every image is fetched and then pulled, in order. */
  lemma {:induction false} PullsAlways(names: seq<ImageName>, calls: seq<Call>)
    requires Pulls(names, Always, calls, true)
    ensures |calls| == 2 * |names|
    ensures forall i :: 0 <= i < |names| ==>
              calls[2 * i].request == Request.GetImage(names[i]) &&
              calls[2 * i + 1].request == Request.PullImage(names[i])
    decreases |names|
  {
    if names != [] {
      PullsAlways(names[1..], calls[2..]);
      forall i | 1 <= i < |names|
        ensures calls[2 * i].request == Request.GetImage(names[i])
        ensures calls[2 * i + 1].request == Request.PullImage(names[i])
      {
        assert calls[2 * i] == calls[2..][2 * (i - 1)];
        assert calls[2 * i + 1] == calls[2..][2 * (i - 1) + 1];
      }
    }
  }

  /** Under `IfNotPresent` an image is pulled only right after `get_image`
      reported it missing. */
  lemma {:induction false} PullsIfNotPresent(names: seq<ImageName>, calls: seq<Call>, ok: bool)
    requires Pulls(names, IfNotPresent, calls, ok)
    ensures forall j :: 0 <= j < |calls| && calls[j].request.PullImage? ==>
              j >= 1 && calls[j - 1].request == Request.GetImage(calls[j].request.image) &&
              calls[j - 1].reply == ImageInfo(None)
    ensures |calls| >= 1 ==> calls[0].request.GetImage?
    decreases |names|
  {
    if names != [] {
      match calls[0].reply {
        case Failed(_) =>
        case ImageInfo(image) =>
          var skip := if NeedsPull(IfNotPresent, image) then 2 else 1;
          if skip == 2 && calls[1].reply.Failed? {
          } else {
            PullsIfNotPresent(names[1..], calls[skip..], ok);
            forall j | skip < j < |calls| && calls[j].request.PullImage?
              ensures calls[j - 1].request == Request.GetImage(calls[j].request.image)
              ensures calls[j - 1].reply == ImageInfo(None)
            {
              assert calls[j] == calls[skip..][j - skip];
              assert calls[j - 1] == calls[skip..][j - skip - 1];
            }
            if skip < |calls| {
              assert calls[skip] == calls[skip..][0];
            }
          }
      }
    }
  }

  class Controller {
    const backend: Backend
    const composition: Composition
    /** The snapshot taken by `init`; it is never refreshed. */
    const containers: Snapshot
    const projectName: string
    const digest: Digest

    constructor(projectName: string, backend: Backend, composition: Composition, containers: Snapshot, digest: Digest)
      ensures this.projectName == projectName && this.backend == backend && this.composition == composition
      ensures this.containers == containers && this.digest == digest
    {
      this.projectName := projectName;
      this.backend := backend;
      this.composition := composition;
      this.containers := containers;
      this.digest := digest;
    }

    /** `Controller::init`: the snapshot is the backend's list of the containers
        labelled with this project. */
    static method Init(projectName: string, backend: Backend, composition: Composition, digest: Digest)
      returns (r: Result<Controller>)
      modifies backend
      ensures backend.log == old(backend.log) +
                [Call(Request.ListContainers([(LabelProject, projectName)]),
                      if r.Err? then Failed(r.message) else Listing(r.value.containers))]
      ensures r.Ok? ==> && fresh(r.value)
                        && r.value.backend == backend && r.value.composition == composition
                        && r.value.projectName == projectName && r.value.digest == digest
      ensures r.Ok? ==> forall n :: n in r.value.containers ==>
                r.value.containers[n].name == n &&
                LabelProject in r.value.containers[n].labels && r.value.containers[n].labels[LabelProject] == projectName
    {
      var filter := [(LabelProject, projectName)];
      var listed := backend.ListContainers(filter);
      if listed.Err? {
        return Err(listed.message);
      }
      forall n | n in listed.value
        ensures LabelProject in listed.value[n].labels && listed.value[n].labels[LabelProject] == projectName
      {
        assert filter[0] == (LabelProject, projectName);
      }
      var controller := new Controller(projectName, backend, composition, listed.value, digest);
      r := Ok(controller);
    }

    /** `Controller::container_create`: the spec is created with the labels
        `Labelled` stamps on it. */
    method ContainerCreate(spec: ContainerSpec) returns (r: Result<ContainerId>)
      modifies backend
      ensures backend.log == old(backend.log) + [Call(CreateRequest(spec, projectName, digest), IdReply(r))]
    {
      var hash := digest(spec);
      var stamped := spec;
      stamped := stamped.(labels := stamped.labels[LabelProject := projectName]);
      stamped := stamped.(labels := stamped.labels[LabelService := stamped.serviceName]);
      stamped := stamped.(labels := stamped.labels[LabelHash := hash]);
      assert stamped == Labelled(spec, projectName, digest);
      r := backend.CreateContainer(stamped);
    }

    /** The tail of `Remove` and `Recreate`: stop the container if it is
        running, then remove it without its volumes. */
    method StopAndRemove(c: Container, timeout: nat) returns (r: Result<()>)
      modifies backend
      ensures |old(backend.log)| <= |backend.log| && backend.log[..|old(backend.log)|] == old(backend.log)
      ensures Performs(StopIfRunning(c, timeout) + [Issue(Request.RemoveContainer(c.id, false, false))],
                       backend.log[|old(backend.log)|..], r.Ok?, "")
      ensures CreatedAfterAll(backend.log[|old(backend.log)|..], "") == ""
    {
      ghost var start := |backend.log|;
      ghost var steps := StopIfRunning(c, timeout) + [Issue(Request.RemoveContainer(c.id, false, false))];
      if c.status == Running {
        var stopped := backend.StopContainer(c.id, timeout);
        assert backend.log[start..] == [backend.log[start]];
        if stopped.Err? {
          PerformsFirstFails(steps, backend.log[start], "");
          return Err(stopped.message);
        }
      }
      ghost var mid := |backend.log|;
      var removed := backend.RemoveContainer(c.id, false);
      ghost var last := backend.log[mid];
      assert backend.log[mid..] == [last];
      ghost var rest := [Issue(Request.RemoveContainer(c.id, false, false))];
      if removed.Err? {
        PerformsFirstFails(rest, last, "");
        r := Err(removed.message);
      } else {
        PerformsFirstSucceeds(rest, last, [], true, "");
        r := Ok(());
      }
      assert CreatedAfterAll([last], "") == CreatedAfter(last, "") == "";
      if c.status == Running {
        ghost var first := backend.log[start];
        assert backend.log[start..] == [first, last];
        PerformsFirstSucceeds(steps, first, [last], r.Ok?, "");
        assert CreatedAfterAll([first, last], "") == CreatedAfterAll([last], CreatedAfter(first, "")) == "";
      } else {
        assert backend.log[start..] == [last];
      }
    }

    /** The tail of `Create` and `Recreate`: create the stamped spec, then start
        the container the create returned. */
    method CreateAndStart(spec: ContainerSpec) returns (r: Result<()>)
      modifies backend
      ensures |old(backend.log)| <= |backend.log| && backend.log[..|old(backend.log)|] == old(backend.log)
      ensures Performs([Issue(CreateRequest(spec, projectName, digest)), StartCreated],
                       backend.log[|old(backend.log)|..], r.Ok?, "")
    {
      ghost var start := |backend.log|;
      ghost var steps := [Issue(CreateRequest(spec, projectName, digest)), StartCreated];
      var id := ContainerCreate(spec);
      ghost var first := backend.log[start];
      if id.Err? {
        assert backend.log[start..] == [first];
        PerformsFirstFails(steps, first, "");
        return Err(id.message);
      }
      var started := backend.StartContainer(id.value);
      ghost var second := backend.log[start + 1];
      assert backend.log[start..] == [first, second];
      assert CreatedAfter(first, "") == id.value;
      if started.Err? {
        PerformsFirstFails(steps[1..], second, id.value);
        r := Err(started.message);
      } else {
        PerformsFirstSucceeds(steps[1..], second, [], true, id.value);
        r := Ok(());
      }
      PerformsFirstSucceeds(steps, first, [second], r.Ok?, "");
    }

    /** `Controller::pull_images`: for each image to pull, in order, ask the
        backend for it and pull it when the policy says so; the first failed
        call ends the run with its error. */
    method PullImages(policy: PullPolicy) returns (r: Result<()>)
      modifies backend
      ensures |old(backend.log)| <= |backend.log| && backend.log[..|old(backend.log)|] == old(backend.log)
      ensures Pulls(ImageNames(composition.pullImages), policy, backend.log[|old(backend.log)|..], r.Ok?)
    {
      ghost var names := ImageNames(composition.pullImages);
      ghost var trace: seq<Call> := [];
      r := Ok(());
      var i := 0;
      while i < |composition.pullImages|
        invariant 0 <= i <= |composition.pullImages|
        invariant backend.log == old(backend.log) + trace
        invariant Pulls(names[..i], policy, trace, true)
        invariant r.Ok?
      {
        ghost var step;
        r, step := PullOne(composition.pullImages[i].name, policy);
        PullsStep(names, i, policy, trace, step, r.Ok?);
        trace := trace + step;
        if r.Err? {
          break;
        }
        i := i + 1;
      }
      if r.Ok? {
        assert names[..i] == names;
      }
      assert backend.log[|old(backend.log)|..] == trace;
    }

    /** The body of the loop of `pull_images`, for one image. */
    method PullOne(name: ImageName, policy: PullPolicy) returns (r: Result<()>, ghost step: seq<Call>)
      modifies backend
      ensures backend.log == old(backend.log) + step
      ensures Pulls([name], policy, step, r.Ok?)
    {
      var image := backend.GetImage(name);
      match image {
        case Err(message) =>
          r := Err(message);
          step := [Call(Request.GetImage(name), Failed(message))];
        case Ok(found) =>
          r := Ok(());
          step := [Call(Request.GetImage(name), ImageInfo(found))];
          if NeedsPull(policy, found) {
            var pulled := backend.PullImage(name);
            if pulled.Err? {
              r := Err(pulled.message);
            }
            step := step + [Call(Request.PullImage(name), IdReply(pulled))];
          }
      }
      PullsOne(name, policy, step, r.Ok?);
    }

    /** `Controller::container_apply`: the backend calls of the operation's
        plan, in order, until one fails; an unknown name is an error returned
        before any call. */
    method ContainerApply(name: ContainerName, operation: ContainerOperation, timeout: nat) returns (r: Result<()>)
      modifies backend
      ensures |old(backend.log)| <= |backend.log| && backend.log[..|old(backend.log)|] == old(backend.log)
      ensures Applies(Plan(name, operation, timeout, composition.containers, containers, projectName, digest),
                      backend.log[|old(backend.log)|..], r.Ok?)
      ensures Plan(name, operation, timeout, composition.containers, containers, projectName, digest).Err? ==>
                r == Err(Plan(name, operation, timeout, composition.containers, containers, projectName, digest).message)
    {
      ghost var start := |backend.log|;
      ghost var plan := Plan(name, operation, timeout, composition.containers, containers, projectName, digest);
      match operation {
        case Create =>
          var spec := FindSpec(composition.containers, name);
          if spec.None? {
            assert plan == Err(UnknownName(name));
            return Err(UnknownName(name));
          }
          assert plan == Ok([Issue(CreateRequest(spec.value, projectName, digest)), StartCreated]);
          r := CreateAndStart(spec.value);
        case Recreate =>
          var spec := FindSpec(composition.containers, name);
          if spec.None? {
            assert plan == Err(UnknownName(name));
            return Err(UnknownName(name));
          }
          if name !in containers {
            assert plan == Err(NotFound(name));
            return Err(NotFound(name));
          }
          var container := containers[name];
          assert plan == Ok((StopIfRunning(container, timeout) + [Issue(Request.RemoveContainer(container.id, false, false))]) +
                            [Issue(CreateRequest(spec.value, projectName, digest)), StartCreated]);
          r := Recreate(container, spec.value, timeout);
        case Start =>
          if name !in containers {
            assert plan == Err(NotFound(name));
            return Err(NotFound(name));
          }
          var started := backend.StartContainer(containers[name].id);
          ghost var steps := [Issue(Request.StartContainer(containers[name].id))];
          assert plan == Ok(steps);
          r := FinishSingle(steps, start, started);
        case Stop =>
          if name !in containers {
            assert plan == Err(NotFound(name));
            return Err(NotFound(name));
          }
          var stopped := backend.StopContainer(containers[name].id, timeout);
          ghost var steps := [Issue(Request.StopContainer(containers[name].id, timeout))];
          assert plan == Ok(steps);
          r := FinishSingle(steps, start, stopped);
        case Remove =>
          if name !in containers {
            assert plan == Err(NotFound(name));
            return Err(NotFound(name));
          }
          assert plan == Ok(StopIfRunning(containers[name], timeout) + [Issue(Request.RemoveContainer(containers[name].id, false, false))]);
          r := StopAndRemove(containers[name], timeout);
      }
    }

    /** The `Recreate` branch: stop and remove the container, then create and
        start the spec, unless the removal failed. */
    method Recreate(c: Container, spec: ContainerSpec, timeout: nat) returns (r: Result<()>)
      modifies backend
      ensures |old(backend.log)| <= |backend.log| && backend.log[..|old(backend.log)|] == old(backend.log)
      ensures Performs((StopIfRunning(c, timeout) + [Issue(Request.RemoveContainer(c.id, false, false))]) +
                       [Issue(CreateRequest(spec, projectName, digest)), StartCreated],
                       backend.log[|old(backend.log)|..], r.Ok?, "")
    {
      ghost var start := |backend.log|;
      ghost var removal := StopIfRunning(c, timeout) + [Issue(Request.RemoveContainer(c.id, false, false))];
      ghost var creation := [Issue(CreateRequest(spec, projectName, digest)), StartCreated];
      r := StopAndRemove(c, timeout);
      ghost var removed := backend.log;
      if r.Err? {
        PerformsFailedPrefix(removal, creation, removed[start..], "");
        return;
      }
      r := CreateAndStart(spec);
      Extended(removed, backend.log, start);
      PerformsAppend(removal, creation, removed[start..], backend.log[|removed|..], r.Ok?, "");
    }

    /** The result of an operation made of one call, `?` on its reply. */
    method FinishSingle(ghost steps: seq<Step>, ghost start: nat, reply: Result<ContainerId>) returns (r: Result<()>)
      requires |steps| == 1 && start + 1 == |backend.log|
      requires backend.log[start] == Call(RequestOf(steps[0], ""), IdReply(reply))
      ensures r.Ok? <==> reply.Ok?
      ensures r.Err? ==> r.message == reply.message
      ensures Performs(steps, backend.log[start..], r.Ok?, "")
    {
      assert backend.log[start..] == [backend.log[start]];
      if reply.Err? {
        PerformsFirstFails(steps, backend.log[start], "");
        return Err(reply.message);
      }
      PerformsFirstSucceeds(steps, backend.log[start], [], true, "");
      r := Ok(());
    }
  }
}
