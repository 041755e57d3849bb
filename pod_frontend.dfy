/** The frontend of the earlier `pod` crate (pod/src/composer_frontend.rs, with
    an identical copy in pod/src/frontends/docker_compose.rs). It differs from
    pod-compose's frontend only in its images: it records build specs and
    nothing for a service that is pulled. */
module PodFrontend {
  import opened Wrappers
  import opened Strings
  import Models
  import opened ComposeFile
  import Frontend

  /** pod/src/models.rs `ImageSpec`. */
  datatype ImageSpec = ImageSpec(imageName: string, context: string, dockerfile: string, target: Option<string>, buildArgs: Models.Labels)

  /** pod/src/composer_frontend.rs `Composition`. */
  datatype Composition = Composition(images: seq<ImageSpec>, containers: seq<Models.ContainerSpec>)

  /** `Composition::default()`. */
  const EmptyComposition := Composition([], [])

  /** The image spec of a service with a `build` section. */
  function BuildSpecOf(project: string, serviceName: string, svc: Service): Option<ImageSpec> {
    var image := Frontend.ImageNameOf(project, serviceName, svc);
    match svc.build
    case Some(Short(context)) => Some(ImageSpec(image, context, "Dockerfile", None, map[]))
    case Some(Extended(context, dockerfile, args, _, _, _, target)) =>
      var file := match dockerfile case Some(f) => f case None => "Dockerfile";
      Some(ImageSpec(image, context, file, target, ToMap(args)))
    case None => None
  }

  function AddService(c: Composition, project: string, serviceName: string, svc: Service): Composition {
    var image := Frontend.ImageNameOf(project, serviceName, svc);
    var containers := c.containers + Frontend.ReplicaSpecs(project, serviceName, image, Frontend.ReplicaCount(svc));
    match BuildSpecOf(project, serviceName, svc)
    case Some(spec) => Composition(c.images + [spec], containers)
    case None => Composition(c.images, containers)
  }

  function ComposeServices(project: string, names: seq<string>, services: map<string, Service>): Composition
    requires forall n :: n in names ==> n in services
  {
    if names == [] then EmptyComposition
    else
      var last := names[|names| - 1];
      AddService(ComposeServices(project, names[..|names| - 1], services), project, last, services[last])
  }

  function Composed(project: string, services: map<string, Service>): Composition {
    ComposeServices(project, SortedElements(services.Keys), services)
  }

  /** `DockerComposeFrontend::composition` of the `pod` crate, after parsing.
      This and `ComposeInOrder` repeat `Frontend.Compose` and
      `Frontend.ComposeInOrder`, as the crate repeats the code; only
      `AddService` and `PushService` differ. */
  method Compose(project: string, file: DockerComposeFile) returns (c: Composition)
    ensures c == Composed(project, file.services)
  {
    c := ComposeInOrder(project, SortedElements(file.services.Keys), file.services);
  }

  /** The service loop over the services `names`, visited in order. */
  method ComposeInOrder(project: string, names: seq<string>, services: map<string, Service>) returns (c: Composition)
    requires forall n :: n in names ==> n in services
    ensures c == ComposeServices(project, names, services)
  {
    c := EmptyComposition;
    var i := 0;
    while i < |names|
      invariant 0 <= i <= |names|
      invariant c == ComposeServices(project, names[..i], services)
    {
      c := PushService(c, project, names[i], services[names[i]]);
      assert names[..i + 1][..i] == names[..i];
      i := i + 1;
    }
    assert names[..i] == names;
  }

  method PushService(c0: Composition, project: string, serviceName: string, svc: Service) returns (c: Composition)
    ensures c == AddService(c0, project, serviceName, svc)
  {
    c := c0;
    var image := Frontend.ImageNameOf(project, serviceName, svc);
    match svc.build {
      case Some(Short(context)) =>
        c := c.(images := c.images + [ImageSpec(image, context, "Dockerfile", None, map[])]);
      case Some(Extended(context, dockerfile, args, _, _, _, target)) =>
        var file := match dockerfile case Some(f) => f case None => "Dockerfile";
        c := c.(images := c.images + [ImageSpec(image, context, file, target, ToMap(args))]);
      case None =>
    }
    ghost var next := AddService(c0, project, serviceName, svc);
    assert c.images == next.images;
    var n := Frontend.ReplicaCount(svc);
    var index := 0;
    while index < n
      invariant 0 <= index <= n
      invariant c.containers == c0.containers + Frontend.ReplicaSpecs(project, serviceName, image, index)
      invariant c.images == next.images
    {
      c := c.(containers := c.containers + [Frontend.ReplicaSpec(project, serviceName, image, index)]);
      index := index + 1;
    }
  }

  // ---------------------------------------------------------------------------
  // What the composition contains

  lemma {:induction false} ComposeServicesContainers(project: string, names: seq<string>, services: map<string, Service>)
    requires forall n :: n in names ==> n in services
    ensures ComposeServices(project, names, services).containers ==
            Frontend.ComposeServices(project, names, services).containers
  {
    if names != [] {
      ComposeServicesContainers(project, names[..|names| - 1], services);
      Frontend.ComposeServicesLast(project, names, services);
    }
  }

  /** The `pod` crate expands replicas exactly as pod-compose does, so every
      service yields `replicas` specs (default one) named
      `{project}_{service}_{index}`, and no two specs share a name. */
  lemma ComposedContainersAgree(project: string, services: map<string, Service>)
    ensures Composed(project, services).containers == Frontend.Composed(project, services).containers
    ensures Models.NamesDistinct(Composed(project, services).containers)
  {
    ComposeServicesContainers(project, SortedElements(services.Keys), services);
    Frontend.ComposedNamesDistinct(project, services);
  }

  lemma ComposeServicesImagesLast(project: string, names: seq<string>, services: map<string, Service>)
    requires names != [] && forall n :: n in names ==> n in services
    ensures var last := names[|names| - 1];
            var before := ComposeServices(project, names[..|names| - 1], services).images;
            var b := BuildSpecOf(project, last, services[last]);
            ComposeServices(project, names, services).images == if b.Some? then before + [b.value] else before
  {
  }

  lemma {:induction false} ComposeServicesImagesComplete(project: string, names: seq<string>, services: map<string, Service>)
    requires forall n :: n in names ==> n in services
    ensures forall n :: n in names && BuildSpecOf(project, n, services[n]).Some? ==>
              BuildSpecOf(project, n, services[n]).value in ComposeServices(project, names, services).images
  {
    if names != [] {
      var init := names[..|names| - 1];
      ComposeServicesImagesComplete(project, init, services);
      ComposeServicesImagesLast(project, names, services);
      forall n | n in names && BuildSpecOf(project, n, services[n]).Some?
        ensures BuildSpecOf(project, n, services[n]).value in ComposeServices(project, names, services).images
      {
        if n !in init {
          assert n == names[|names| - 1];
        }
      }
    }
  }

  lemma {:induction false} ComposeServicesImageList(project: string, names: seq<string>, services: map<string, Service>)
    requires forall n :: n in names ==> n in services
    ensures var images := ComposeServices(project, names, services).images;
            var built := Frontend.ServicesThat(true, names, services);
            && |images| == |built|
            && forall i :: 0 <= i < |built| ==>
                 built[i] in services && BuildSpecOf(project, built[i], services[built[i]]) == Some(images[i])
  {
    if names != [] {
      var init := names[..|names| - 1];
      ComposeServicesImageList(project, init, services);
      Frontend.ServicesThatSelects(true, init, services);
    }
  }

  /** Exactly one image spec per service with a `build` section, in ascending
      service-name order, and none for a service without one. A short build
      builds `Dockerfile` with no target and no arguments; an extended one
      defaults its dockerfile to `Dockerfile` and takes its arguments through
      `to_map`. */
  lemma ComposedImages(project: string, services: map<string, Service>)
    ensures var images := Composed(project, services).images;
            var built := Frontend.ServicesThat(true, SortedElements(services.Keys), services);
            && Ascending(built)
            && (forall n :: n in built <==> n in services && services[n].build.Some?)
            && |images| == |built|
            && (forall i :: 0 <= i < |built| ==>
                  built[i] in services && BuildSpecOf(project, built[i], services[built[i]]) == Some(images[i]))
            && forall n :: n in services ==>
                 var image := if services[n].image.Some? then services[n].image.value else project + "_" + n;
                 match services[n].build
                 case Some(Short(context)) => ImageSpec(image, context, "Dockerfile", None, map[]) in images
                 case Some(Extended(context, dockerfile, args, _, _, _, target)) =>
                   ImageSpec(image, context, if dockerfile.Some? then dockerfile.value else "Dockerfile",
                             target, ToMap(args)) in images
                 case None => true
  {
    var names := SortedElements(services.Keys);
    var images := Composed(project, services).images;
    ComposeServicesImagesComplete(project, names, services);
    Frontend.ServicesThatSelects(true, names, services);
    ComposeServicesImageList(project, names, services);
    forall n | n in services && services[n].build.Some?
      ensures BuildSpecOf(project, n, services[n]).value in images
    {
      assert n in names;
    }
  }
}
