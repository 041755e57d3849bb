/** The docker-compose frontend of pod-compose
    (pod-compose/src/frontends/docker_compose.rs): after parsing, every service
    becomes one image to build or pull and `replicas` container specs. */
module Frontend {
  import opened Wrappers
  import opened Strings
  import opened Models
  import opened ComposeFile

  /** `service.replicas.unwrap_or(1)`. */
  function ReplicaCount(svc: Service): nat {
    match svc.replicas
    case Some(n) => n
    case None => 1
  }

  /** The service's own image, or `{project}_{service}` when it names none. */
  function ImageNameOf(project: string, serviceName: string, svc: Service): ImageName {
    match svc.image
    case Some(image) => image
    case None => project + "_" + serviceName
  }

  /** `format!("{}_{}_{}", project, service, index)`. */
  function ContainerNameOf(project: string, serviceName: string, index: nat): ContainerName {
    project + "_" + serviceName + "_" + Decimal(index)
  }

  /** Replica `index` of a service: its name, service and image, and no labels. */
  function ReplicaSpec(project: string, serviceName: string, image: ImageName, index: nat): ContainerSpec {
    ContainerSpec(ContainerNameOf(project, serviceName, index), serviceName, image, map[])
  }

  /** The specs of replicas `0 .. n - 1`, in index order. */
  function ReplicaSpecs(project: string, serviceName: string, image: ImageName, n: nat): (r: seq<ContainerSpec>)
    ensures |r| == n
    ensures forall i :: 0 <= i < n ==> r[i] == ReplicaSpec(project, serviceName, image, i)
  {
    if n == 0 then [] else ReplicaSpecs(project, serviceName, image, n - 1) + [ReplicaSpec(project, serviceName, image, n - 1)]
  }

  /** The image a service asks for: a build when it has a `build` section,
      otherwise a pull. */
  datatype ImageRequest = BuildRequest(spec: ImageBuildSpec) | PullRequest(pull: ImagePullSpec)

  function ImageRequestOf(project: string, serviceName: string, svc: Service): ImageRequest {
    var image := ImageNameOf(project, serviceName, svc);
    match svc.build
    case Some(Short(context)) =>
      BuildRequest(ImageBuildSpec(image, context, "Dockerfile", None, map[], map[]))
    case Some(Extended(context, dockerfile, args, _, _, _, target)) =>
      var file := match dockerfile case Some(f) => f case None => "Dockerfile";
      BuildRequest(ImageBuildSpec(image, context, file, target, ToMap(args), map[]))
    case None =>
      PullRequest(ImagePullSpec(image))
  }

  /** One turn of the service loop: the image request, then the replicas. */
  function AddService(c: Composition, project: string, serviceName: string, svc: Service): Composition {
    var image := ImageNameOf(project, serviceName, svc);
    var containers := c.containers + ReplicaSpecs(project, serviceName, image, ReplicaCount(svc));
    match ImageRequestOf(project, serviceName, svc)
    case BuildRequest(spec) => Composition(c.buildImages + [spec], c.pullImages, containers)
    case PullRequest(pull) => Composition(c.buildImages, c.pullImages + [pull], containers)
  }

  /** The composition after the services `names` have been visited in order. */
  function ComposeServices(project: string, names: seq<string>, services: map<string, Service>): Composition
    requires forall n :: n in names ==> n in services
  {
    if names == [] then EmptyComposition
    else
      var last := names[|names| - 1];
      AddService(ComposeServices(project, names[..|names| - 1], services), project, last, services[last])
  }

  /** The composition of a parsed file: services in ascending name order, the
      order in which a `BTreeMap` is iterated. */
  function Composed(project: string, services: map<string, Service>): Composition {
    ComposeServices(project, SortedElements(services.Keys), services)
  }

  /** `DockerComposeFrontend::composition` after the file has been parsed. */
  method Compose(project: string, file: DockerComposeFile) returns (c: Composition)
    ensures c == Composed(project, file.services)
  {
    c := ComposeInOrder(project, SortedElements(file.services.Keys), file.services);
  }

  /** The service loop over the services `names`, visited in order. */
  method ComposeInOrder(project: string, names: seq<string>, services: map<string, Service>) returns (c: Composition)
    requires forall n :: n in names ==> n in services
    ensures c == ComposeServices(project, names, services)
  {
    c := EmptyComposition;
    var i := 0;
    while i < |names|
      invariant 0 <= i <= |names|
      invariant c == ComposeServices(project, names[..i], services)
    {
      c := PushService(c, project, names[i], services[names[i]]);
      assert names[..i + 1][..i] == names[..i];
      i := i + 1;
    }
    assert names[..i] == names;
  }

  /** The body of the service loop: push the image spec, then one container
      spec per replica. */
  method PushService(c0: Composition, project: string, serviceName: string, svc: Service) returns (c: Composition)
    ensures c == AddService(c0, project, serviceName, svc)
  {
    c := c0;
    var image := ImageNameOf(project, serviceName, svc);
    match svc.build {
      case Some(Short(context)) =>
        c := c.(buildImages := c.buildImages + [ImageBuildSpec(image, context, "Dockerfile", None, map[], map[])]);
      case Some(Extended(context, dockerfile, args, _, _, _, target)) =>
        var file := match dockerfile case Some(f) => f case None => "Dockerfile";
        c := c.(buildImages := c.buildImages + [ImageBuildSpec(image, context, file, target, ToMap(args), map[])]);
      case None =>
        c := c.(pullImages := c.pullImages + [ImagePullSpec(image)]);
    }
    ghost var next := AddService(c0, project, serviceName, svc);
    assert c.buildImages == next.buildImages && c.pullImages == next.pullImages;
    var n := ReplicaCount(svc);
    var index := 0;
    while index < n
      invariant 0 <= index <= n
      invariant c.containers == c0.containers + ReplicaSpecs(project, serviceName, image, index)
      invariant c.buildImages == next.buildImages && c.pullImages == next.pullImages
    {
      c := c.(containers := c.containers + [ReplicaSpec(project, serviceName, image, index)]);
      index := index + 1;
    }
  }

  // ---------------------------------------------------------------------------
  // What the composition contains

  /** The specs of one service, in the order they appear. */
  function OfService(specs: seq<ContainerSpec>, serviceName: string): (r: seq<ContainerSpec>)
  {
    if specs == [] then []
    else
      var rest := OfService(specs[..|specs| - 1], serviceName);
      if specs[|specs| - 1].serviceName == serviceName then rest + [specs[|specs| - 1]] else rest
  }

  lemma {:induction false} OfServiceAppend(a: seq<ContainerSpec>, b: seq<ContainerSpec>, serviceName: string)
    ensures OfService(a + b, serviceName) == OfService(a, serviceName) + OfService(b, serviceName)
    decreases |b|
  {
    if b != [] {
      assert (a + b)[..|a + b| - 1] == a + b[..|b| - 1];
      OfServiceAppend(a, b[..|b| - 1], serviceName);
    } else {
      assert a + b == a;
    }
  }

  lemma {:induction false} OfServiceReplicas(project: string, serviceName: string, image: ImageName, n: nat, other: string)
    ensures OfService(ReplicaSpecs(project, serviceName, image, n), other) ==
              if other == serviceName then ReplicaSpecs(project, serviceName, image, n) else []
  {
    if n > 0 {
      var r := ReplicaSpecs(project, serviceName, image, n);
      assert r[..n - 1] == ReplicaSpecs(project, serviceName, image, n - 1);
      OfServiceReplicas(project, serviceName, image, n - 1, other);
    }
  }

  lemma ComposeServicesLast(project: string, names: seq<string>, services: map<string, Service>)
    requires names != [] && forall n :: n in names ==> n in services
    ensures var last := names[|names| - 1];
            var svc := services[last];
            ComposeServices(project, names, services).containers ==
              ComposeServices(project, names[..|names| - 1], services).containers +
              ReplicaSpecs(project, last, ImageNameOf(project, last, svc), ReplicaCount(svc))
  {
  }

  lemma {:induction false} ComposeServicesOfService(project: string, names: seq<string>, services: map<string, Service>, serviceName: string)
    requires forall n :: n in names ==> n in services
    requires forall i, j :: 0 <= i < j < |names| ==> names[i] != names[j]
    ensures serviceName !in names ==> OfService(ComposeServices(project, names, services).containers, serviceName) == []
    ensures serviceName in names ==>
              OfService(ComposeServices(project, names, services).containers, serviceName) ==
              ReplicaSpecs(project, serviceName, ImageNameOf(project, serviceName, services[serviceName]),
                           ReplicaCount(services[serviceName]))
  {
    if names != [] {
      var init, last := names[..|names| - 1], names[|names| - 1];
      var svc := services[last];
      var image := ImageNameOf(project, last, svc);
      var before := ComposeServices(project, init, services).containers;
      var added := ReplicaSpecs(project, last, image, ReplicaCount(svc));
      ComposeServicesLast(project, names, services);
      ComposeServicesOfService(project, init, services, serviceName);
      OfServiceAppend(before, added, serviceName);
      OfServiceReplicas(project, last, image, ReplicaCount(svc), serviceName);
      assert serviceName in names <==> serviceName in init || serviceName == last;
      assert last !in init;
    }
  }

  /** Each service of the file yields exactly `replicas` container specs
      (one when it does not say), for indices `0 .. replicas - 1` in order, named
      `{project}_{service}_{index}`, carrying the service name and its image and
      no labels; a name that is not a service yields none. */
  lemma ComposedReplicas(project: string, services: map<string, Service>, serviceName: string)
    ensures var specs := OfService(Composed(project, services).containers, serviceName);
            if serviceName in services
            then var svc := services[serviceName];
                 && |specs| == ReplicaCount(svc)
                 && forall i :: 0 <= i < |specs| ==>
                      specs[i] == ContainerSpec(project + "_" + serviceName + "_" + Decimal(i), serviceName,
                                                ImageNameOf(project, serviceName, svc), map[])
            else specs == []
  {
    var names := SortedElements(services.Keys);
    AscendingDistinct(names);
    ComposeServicesOfService(project, names, services, serviceName);
  }

  lemma {:induction false} ComposeServicesImageCount(project: string, names: seq<string>, services: map<string, Service>)
    requires forall n :: n in names ==> n in services
    ensures var c := ComposeServices(project, names, services);
            |c.buildImages| + |c.pullImages| == |names|
  {
    if names != [] {
      ComposeServicesImageCount(project, names[..|names| - 1], services);
    }
  }

  lemma {:induction false} ComposeServicesImage(project: string, names: seq<string>, services: map<string, Service>, serviceName: string)
    requires forall n :: n in names ==> n in services
    requires serviceName in names
    ensures var c := ComposeServices(project, names, services);
            match ImageRequestOf(project, serviceName, services[serviceName])
            case BuildRequest(spec) => spec in c.buildImages
            case PullRequest(pull) => pull in c.pullImages
  {
    var init := names[..|names| - 1];
    if serviceName in init {
      ComposeServicesImage(project, init, services, serviceName);
    } else {
      assert serviceName == names[|names| - 1];
    }
  }

  /** The services among `names` that have a `build` section (when `building`)
      or have none (otherwise), in the order of `names`. */
  function ServicesThat(building: bool, names: seq<string>, services: map<string, Service>): seq<string>
    requires forall n :: n in names ==> n in services
  {
    if names == [] then []
    else
      var last := names[|names| - 1];
      ServicesThat(building, names[..|names| - 1], services) + if services[last].build.Some? == building then [last] else []
  }

  /** `ServicesThat` keeps exactly the services of the wanted kind and keeps
      their order. */
  lemma {:induction false} ServicesThatSelects(building: bool, names: seq<string>, services: map<string, Service>)
    requires forall n :: n in names ==> n in services
    ensures var r := ServicesThat(building, names, services);
            && (forall n :: n in r <==> n in names && services[n].build.Some? == building)
            && (Ascending(names) ==> Ascending(r))
  {
    if names != [] {
      var init, last := names[..|names| - 1], names[|names| - 1];
      var r0, r := ServicesThat(building, init, services), ServicesThat(building, names, services);
      ServicesThatSelects(building, init, services);
      assert forall n :: n in names <==> n in init || n == last;
      if Ascending(names) {
        assert forall i :: 0 <= i < |init| ==> init[i] == names[i];
        forall i, j | 0 <= i < j < |r|
          ensures Less(r[i], r[j])
        {
          if j < |r0| {
            assert r[i] == r0[i] && r[j] == r0[j];
          } else {
            assert r[j] == last && r[i] == r0[i] && r0[i] in r0;
            var k :| 0 <= k < |init| && init[k] == r0[i];
            assert names[k] == r0[i];
          }
        }
      }
    }
  }

  lemma {:induction false} ComposeServicesImageLists(project: string, names: seq<string>, services: map<string, Service>)
    requires forall n :: n in names ==> n in services
    ensures var c := ComposeServices(project, names, services);
            var built := ServicesThat(true, names, services);
            var pulled := ServicesThat(false, names, services);
            && |c.buildImages| == |built| && |c.pullImages| == |pulled|
            && (forall i :: 0 <= i < |built| ==>
                  built[i] in services && ImageRequestOf(project, built[i], services[built[i]]) == BuildRequest(c.buildImages[i]))
            && (forall i :: 0 <= i < |pulled| ==>
                  pulled[i] in services && ImageRequestOf(project, pulled[i], services[pulled[i]]) == PullRequest(c.pullImages[i]))
  {
    if names != [] {
      var init := names[..|names| - 1];
      ComposeServicesImageLists(project, init, services);
      ServicesThatSelects(true, init, services);
      ServicesThatSelects(false, init, services);
    }
  }

  /** The two image lists are exactly the services' requests: the build specs
      of the services with a `build` section and the pull specs of the others,
      each list in ascending service-name order, one entry per service. */
  lemma ComposedImageLists(project: string, services: map<string, Service>)
    ensures var c := Composed(project, services);
            var built := ServicesThat(true, SortedElements(services.Keys), services);
            var pulled := ServicesThat(false, SortedElements(services.Keys), services);
            && Ascending(built) && Ascending(pulled)
            && (forall n :: n in built <==> n in services && services[n].build.Some?)
            && (forall n :: n in pulled <==> n in services && services[n].build.None?)
            && |c.buildImages| == |built| && |c.pullImages| == |pulled|
            && (forall i :: 0 <= i < |built| ==>
                  built[i] in services && ImageRequestOf(project, built[i], services[built[i]]) == BuildRequest(c.buildImages[i]))
            && (forall i :: 0 <= i < |pulled| ==>
                  pulled[i] in services && ImageRequestOf(project, pulled[i], services[pulled[i]]) == PullRequest(c.pullImages[i]))
  {
    var names := SortedElements(services.Keys);
    ServicesThatSelects(true, names, services);
    ServicesThatSelects(false, names, services);
    ComposeServicesImageLists(project, names, services);
  }

  /** Every service contributes exactly one image: a build spec when it has a
      `build` section (a short one builds `Dockerfile` with no target and no
      arguments, an extended one defaults its dockerfile to `Dockerfile`),
      otherwise a pull spec; the image is the service's own or
      `{project}_{service}`. */
  lemma ComposedImages(project: string, services: map<string, Service>, serviceName: string)
    requires serviceName in services
    ensures var c := Composed(project, services);
            var svc := services[serviceName];
            var image := if svc.image.Some? then svc.image.value else project + "_" + serviceName;
            && |c.buildImages| + |c.pullImages| == |services|
            && match svc.build
               case Some(Short(context)) =>
                 ImageBuildSpec(image, context, "Dockerfile", None, map[], map[]) in c.buildImages
               case Some(Extended(context, dockerfile, args, _, _, _, target)) =>
                 ImageBuildSpec(image, context, if dockerfile.Some? then dockerfile.value else "Dockerfile",
                                target, ToMap(args), map[]) in c.buildImages
               case None =>
                 ImagePullSpec(image) in c.pullImages
  {
    var names := SortedElements(services.Keys);
    ComposeServicesImageCount(project, names, services);
    ComposeServicesImage(project, names, services, serviceName);
    ImageRequestIn(ComposeServices(project, names, services), project, serviceName, services[serviceName]);
  }

  /** The request of a service, spelled out, is among the images of `c`. */
  lemma ImageRequestIn(c: Composition, project: string, serviceName: string, svc: Service)
    requires match ImageRequestOf(project, serviceName, svc)
             case BuildRequest(spec) => spec in c.buildImages
             case PullRequest(pull) => pull in c.pullImages
    ensures var image := if svc.image.Some? then svc.image.value else project + "_" + serviceName;
            match svc.build
            case Some(Short(context)) =>
              ImageBuildSpec(image, context, "Dockerfile", None, map[], map[]) in c.buildImages
            case Some(Extended(context, dockerfile, args, _, _, _, target)) =>
              ImageBuildSpec(image, context, if dockerfile.Some? then dockerfile.value else "Dockerfile",
                             target, ToMap(args), map[]) in c.buildImages
            case None =>
              ImagePullSpec(image) in c.pullImages
  {
    match svc.build {
      case Some(Short(_)) =>
      case Some(Extended(_, _, _, _, _, _, _)) =>
      case None =>
    }
  }

  lemma LongerServiceNameDiffers(project: string, s1: string, i1: nat, s2: string, i2: nat)
    requires |s1| < |s2|
    ensures ContainerNameOf(project, s1, i1) != ContainerNameOf(project, s2, i2)
  {
    var a, b := ContainerNameOf(project, s1, i1), ContainerNameOf(project, s2, i2);
    var p := |project| + 1;
    var d1 := Decimal(i1);
    assert a == project + "_" + s1 + "_" + d1;
    assert b == project + "_" + s2 + "_" + Decimal(i2);
    if |a| == |b| {
      assert b[p + |s2|] == '_';
      assert a[p + |s2|] == d1[|s2| - |s1| - 1];
    }
  }

  /** Container names determine the service and the replica index: the index is
      printed in decimal, so it holds no `_`. */
  lemma ContainerNameInjective(project: string, s1: string, i1: nat, s2: string, i2: nat)
    requires ContainerNameOf(project, s1, i1) == ContainerNameOf(project, s2, i2)
    ensures s1 == s2 && i1 == i2
  {
    var a, b := ContainerNameOf(project, s1, i1), ContainerNameOf(project, s2, i2);
    var p := |project| + 1;
    var d1, d2 := Decimal(i1), Decimal(i2);
    assert a == project + "_" + s1 + "_" + d1;
    assert b == project + "_" + s2 + "_" + d2;
    if |s1| < |s2| {
      LongerServiceNameDiffers(project, s1, i1, s2, i2);
    } else if |s2| < |s1| {
      LongerServiceNameDiffers(project, s2, i2, s1, i1);
    }
    assert s1 == a[p..p + |s1|] && s2 == b[p..p + |s2|];
    assert d1 == a[p + |s1| + 1..] && d2 == b[p + |s2| + 1..];
    DecimalInjective(i1, i2);
  }

  /** A spec that `ReplicaSpecs` made for some service and index. */
  ghost predicate NamedAsReplica(spec: ContainerSpec, project: string) {
    exists i: nat :: spec.name == ContainerNameOf(project, spec.serviceName, i)
  }

  lemma {:induction false} ComposeServicesShape(project: string, names: seq<string>, services: map<string, Service>)
    requires forall n :: n in names ==> n in services
    ensures forall spec :: spec in ComposeServices(project, names, services).containers ==>
              spec.serviceName in names && NamedAsReplica(spec, project)
  {
    if names != [] {
      var init, last := names[..|names| - 1], names[|names| - 1];
      var svc := services[last];
      var added := ReplicaSpecs(project, last, ImageNameOf(project, last, svc), ReplicaCount(svc));
      ComposeServicesLast(project, names, services);
      ComposeServicesShape(project, init, services);
      forall spec | spec in added
        ensures spec.serviceName == last && NamedAsReplica(spec, project)
      {
        var k :| 0 <= k < |added| && added[k] == spec;
        assert spec.name == ContainerNameOf(project, last, k);
      }
    }
  }

  lemma DistinctAppend(a: seq<ContainerSpec>, b: seq<ContainerSpec>)
    requires NamesDistinct(a) && NamesDistinct(b)
    requires forall x, y :: x in a && y in b ==> x.name != y.name
    ensures NamesDistinct(a + b)
  {
    var ab := a + b;
    forall i, j | 0 <= i < j < |ab|
      ensures ab[i].name != ab[j].name
    {
      if i < |a| && j >= |a| {
        assert ab[i] in a && ab[j] in b;
      } else if i >= |a| {
        assert ab[i] == b[i - |a|] && ab[j] == b[j - |a|];
      }
    }
  }

  lemma ReplicaSpecsDistinct(project: string, serviceName: string, image: ImageName, n: nat)
    ensures NamesDistinct(ReplicaSpecs(project, serviceName, image, n))
  {
    var r := ReplicaSpecs(project, serviceName, image, n);
    forall i, j | 0 <= i < j < n
      ensures r[i].name != r[j].name
    {
      if r[i].name == r[j].name {
        ContainerNameInjective(project, serviceName, i, serviceName, j);
      }
    }
  }

  lemma {:induction false} ComposeServicesNames(project: string, names: seq<string>, services: map<string, Service>)
    requires forall n :: n in names ==> n in services
    requires forall i, j :: 0 <= i < j < |names| ==> names[i] != names[j]
    ensures NamesDistinct(ComposeServices(project, names, services).containers)
  {
    if names != [] {
      var init, last := names[..|names| - 1], names[|names| - 1];
      var svc := services[last];
      var before := ComposeServices(project, init, services).containers;
      var added := ReplicaSpecs(project, last, ImageNameOf(project, last, svc), ReplicaCount(svc));
      ComposeServicesLast(project, names, services);
      ComposeServicesNames(project, init, services);
      ComposeServicesShape(project, init, services);
      ReplicaSpecsDistinct(project, last, ImageNameOf(project, last, svc), ReplicaCount(svc));
      assert last !in init;
      forall x, y | x in before && y in added
        ensures x.name != y.name
      {
        var i: nat :| x.name == ContainerNameOf(project, x.serviceName, i);
        var k :| 0 <= k < |added| && added[k] == y;
        if x.name == y.name {
          ContainerNameInjective(project, x.serviceName, i, last, k);
        }
      }
      DistinctAppend(before, added);
    }
  }

  /** No two container specs of a composition share a name. */
  lemma ComposedNamesDistinct(project: string, services: map<string, Service>)
    ensures NamesDistinct(Composed(project, services).containers)
  {
    var names := SortedElements(services.Keys);
    AscendingDistinct(names);
    ComposeServicesNames(project, names, services);
  }
}
