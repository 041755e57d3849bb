/** The container backend as the controller sees it (the `ContainerBackend`
    trait of pod-compose/src/services.rs, implemented by `PodmanBackend`). The
    runtime is outside the model: every call may fail or return any reply, and
    the call and its reply are appended to a ghost log, so that what the
    controller asks for, and in which order, can be stated. */
module Backend {
  import opened Wrappers
  import opened Models
  import Podman

  /** A call on the podman varlink interface, with the arguments
      `PodmanBackend` passes. */
  datatype Request =
    | GetImage(image: ImageName)
    | PullImage(image: ImageName)
    | ListContainers(filter: seq<(string, string)>)
    | CreateContainer(spec: ContainerSpec)
    | StartContainer(container: string)
    | StopContainer(container: string, timeout: nat)
    | RemoveContainer(container: string, force: bool, removeVolumes: bool)

  /** What a call gave back to the controller. */
  datatype Reply =
    | Failed(message: string)
    | Id(id: string)
    | ImageInfo(image: Option<Image>)
    | Listing(containers: Snapshot)

  datatype Call = Call(request: Request, reply: Reply)

  /** The reply recorded for a call that returns an id. */
  function IdReply(r: Result<string>): (reply: Reply)
    ensures reply.Failed? <==> r.Err?
    ensures r.Ok? ==> reply == Id(r.value)
  {
    match r
    case Ok(id) => Id(id)
    case Err(message) => Failed(message)
  }

  /** A log that grew from `prev`: its part from `start` on is `prev`'s part
      from `start` on followed by the new calls. */
  lemma Extended(prev: seq<Call>, log: seq<Call>, start: nat)
    requires start <= |prev| <= |log| && log[..|prev|] == prev
    ensures log[..start] == prev[..start]
    ensures log[start..] == prev[start..] + log[|prev|..]
  {
    assert log[..start] == log[..|prev|][..start];
    assert log[start..] == log[start..|prev|] + log[|prev|..];
  }

  class Backend {
    /** Every call made so far, oldest first. */
    ghost var log: seq<Call>

    constructor()
      ensures log == []
    {
      log := [];
    }

    /** `get_image`: the runtime's reply goes through `GetImageResult`. */
    method GetImage(name: ImageName) returns (r: Result<Option<Image>>)
      modifies this
      ensures log == old(log) + [Call(Request.GetImage(name), if r.Err? then Failed(r.message) else ImageInfo(r.value))]
    {
      var reply: Podman.GetImageReply := *;
      r := Podman.GetImageResult(reply);
      log := log + [Call(Request.GetImage(name), if r.Err? then Failed(r.message) else ImageInfo(r.value))];
    }

    /** `pull_image`: the id is chosen from the reply stream by
        `SelectImageId`; a stream without an id fails. */
    method PullImage(name: ImageName) returns (r: Result<ImageId>)
      modifies this
      ensures log == old(log) + [Call(Request.PullImage(name), IdReply(r))]
      ensures r.Ok? ==> r.value != ""
    {
      var stream: seq<Podman.StreamReply> := *;
      var selected := Podman.SelectImageId(stream);
      match selected {
        case Err(message) => r := Err(message);
        case Ok(None) => r := Err("the pull reported no image id");
        case Ok(Some(id)) => r := Ok(id);
      }
      log := log + [Call(Request.PullImage(name), IdReply(r))];
    }

    /** `list_containers`: the reply goes through the label filter of
        `Podman.ListContainers`, so every container returned carries each
        requested label with the requested value and is filed under its name. */
    method ListContainers(filter: seq<(string, string)>) returns (r: Result<Snapshot>)
      modifies this
      ensures log == old(log) + [Call(Request.ListContainers(filter), if r.Err? then Failed(r.message) else Listing(r.value))]
      ensures r.Ok? ==> forall name :: name in r.value ==>
                r.value[name].name == name && Podman.LabelsMatch(filter, r.value[name].labels)
    {
      var failure: Option<string> := *;
      if failure.Some? {
        r := Err(failure.value);
      } else {
        var reply: Option<seq<Podman.ListedContainer>> := *;
        var containers := Podman.ListContainers(filter, reply);
        match reply {
          case None =>
          case Some(listed) => Podman.ListContainersContents(filter, listed);
        }
        r := Ok(containers);
      }
      log := log + [Call(Request.ListContainers(filter), if r.Err? then Failed(r.message) else Listing(r.value))];
    }

    /** `create_container`: the call is built from the spec alone (the image
        as the only argument, the spec's name, and the labels as the `key=value`
        strings of `Podman.FormatLabels`), so the log records the spec. */
    method CreateContainer(spec: ContainerSpec) returns (r: Result<ContainerId>)
      modifies this
      ensures log == old(log) + [Call(Request.CreateContainer(spec), IdReply(r))]
    {
      r := *;
      log := log + [Call(Request.CreateContainer(spec), IdReply(r))];
    }

    method StartContainer(container: string) returns (r: Result<ContainerId>)
      modifies this
      ensures log == old(log) + [Call(Request.StartContainer(container), IdReply(r))]
    {
      r := *;
      log := log + [Call(Request.StartContainer(container), IdReply(r))];
    }

    /** `stop_container`: the `u32` timeout is widened to `i64` for the call,
        so it is passed unchanged. */
    method StopContainer(container: string, timeout: nat) returns (r: Result<ContainerId>)
      modifies this
      ensures log == old(log) + [Call(Request.StopContainer(container, timeout), IdReply(r))]
    {
      r := *;
      log := log + [Call(Request.StopContainer(container, timeout), IdReply(r))];
    }

    /** `remove_container`: never forced. */
    method RemoveContainer(container: string, removeVolumes: bool) returns (r: Result<ContainerId>)
      modifies this
      ensures log == old(log) + [Call(Request.RemoveContainer(container, false, removeVolumes), IdReply(r))]
    {
      r := *;
      log := log + [Call(Request.RemoveContainer(container, false, removeVolumes), IdReply(r))];
    }
  }
}
