/** The records shared by the frontend, the controller and the backend
    (pod-compose/src/models.rs). A `BTreeMap<String, String>` is a `map`; the
    order in which it is iterated is `Strings.SortedElements` of its keys. */
module Models {
  import opened Wrappers

  type ContainerName = string
  type ContainerId = string
  type ImageName = string
  type ImageId = string
  type Labels = map<string, string>

  datatype ContainerStatus = Configured | Running | Exited | Unknown

  /** A container as observed in the runtime. */
  datatype Container = Container(id: ContainerId, name: ContainerName, status: ContainerStatus, labels: Labels)

  /** A container the composition asks for. */
  datatype ContainerSpec = ContainerSpec(name: ContainerName, serviceName: string, imageName: ImageName, labels: Labels)

  datatype ImageBuildSpec = ImageBuildSpec(
    name: ImageName,
    context: string,
    dockerfile: string,
    target: Option<string>,
    buildArgs: Labels,
    labels: Labels)

  datatype ImagePullSpec = ImagePullSpec(name: ImageName)

  datatype Image = Image(id: ImageId, labels: Labels)

  datatype PullPolicy = IfNotPresent | Always

  /** Everything a compose file asks for, in the order the frontend produced it. */
  datatype Composition = Composition(
    buildImages: seq<ImageBuildSpec>,
    pullImages: seq<ImagePullSpec>,
    containers: seq<ContainerSpec>)

  /** `Composition::default()`. */
  const EmptyComposition := Composition([], [], [])

  /** No two specs share a container name. */
  predicate NamesDistinct(specs: seq<ContainerSpec>) {
    forall i, j :: 0 <= i < j < |specs| ==> specs[i].name != specs[j].name
  }

  /** The snapshot of the runtime: containers keyed by name. */
  type Snapshot = map<ContainerName, Container>
}
