/** What the podman backend (pod-compose/src/backends/podman.rs) does with the
    replies it receives over varlink. The varlink transport itself is not
    modelled: each operation takes the already-received reply. */
module Podman {
  import opened Wrappers
  import opened Strings
  import opened Models
  import ComposeFile

  // ---------------------------------------------------------------------------
  // list_containers

  /** A container as the `ListContainers` reply describes it. */
  datatype ListedContainer = ListedContainer(id: string, names: string, status: string, labels: Option<Labels>)

  /** The status strings podman reports; anything else is `Unknown`. */
  function ParseStatus(status: string): (r: ContainerStatus)
    ensures r == Configured <==> status == "configured"
    ensures r == Running <==> status == "running"
    ensures r == Exited <==> status == "exited"
    ensures r == Unknown <==> status !in {"configured", "running", "exited"}
  {
    match status
    case "configured" => Configured
    case "running" => Running
    case "exited" => Exited
    case _ => Unknown
  }

  /** A container without labels is treated as having none. */
  function LabelsOf(c: ListedContainer): Labels {
    match c.labels
    case Some(labels) => labels
    case None => map[]
  }

  /** Every requested `(label, value)` pair is present with exactly that value. */
  predicate LabelsMatch(filter: seq<(string, string)>, labels: Labels) {
    forall i :: 0 <= i < |filter| ==> filter[i].0 in labels && labels[filter[i].0] == filter[i].1
  }

  function ToContainer(c: ListedContainer): Container {
    Container(c.id, c.names, ParseStatus(c.status), LabelsOf(c))
  }

  /** The containers of `reply` that pass the filter, inserted in order into a
      map keyed by name. */
  function Listed(filter: seq<(string, string)>, reply: seq<ListedContainer>): Snapshot {
    if reply == [] then map[]
    else
      var before := Listed(filter, reply[..|reply| - 1]);
      var c := reply[|reply| - 1];
      if LabelsMatch(filter, LabelsOf(c)) then before[c.names := ToContainer(c)] else before
  }

  /** `PodmanBackend::list_containers` once the reply has arrived: no container
      list gives an empty map. */
  method ListContainers(filter: seq<(string, string)>, reply: Option<seq<ListedContainer>>) returns (containers: Snapshot)
    ensures reply.None? ==> containers == map[]
    ensures reply.Some? ==> containers == Listed(filter, reply.value)
  {
    containers := map[];
    if reply.None? {
      return;
    }
    var listed := reply.value;
    var i := 0;
    while i < |listed|
      invariant 0 <= i <= |listed|
      invariant containers == Listed(filter, listed[..i])
    {
      var container := listed[i];
      var labels := LabelsOf(container);
      var matches := true;
      var j := 0;
      while j < |filter|
        invariant 0 <= j <= |filter|
        invariant matches <==> LabelsMatch(filter[..j], labels)
      {
        var key, expected := filter[j].0, filter[j].1;
        if key !in labels || labels[key] != expected {
          matches := false;
          break;
        }
        assert filter[..j + 1][j] == filter[j];
        j := j + 1;
      }
      assert matches ==> filter[..j] == filter;
      assert !matches ==> !LabelsMatch(filter, labels);
      assert listed[..i + 1][..i] == listed[..i];
      if matches {
        var status := ParseStatus(container.status);
        containers := containers[container.names := Container(container.id, container.names, status, labels)];
      }
      i := i + 1;
    }
    assert listed[..i] == listed;
  }

  lemma {:induction false} ListedKeys(filter: seq<(string, string)>, reply: seq<ListedContainer>)
    ensures forall name :: name in Listed(filter, reply) <==>
              exists i :: 0 <= i < |reply| && reply[i].names == name && LabelsMatch(filter, LabelsOf(reply[i]))
  {
    if reply != [] {
      var init := reply[..|reply| - 1];
      ListedKeys(filter, init);
      assert forall i :: 0 <= i < |init| ==> init[i] == reply[i];
    }
  }

  /** Entry `i` passes the filter and no later entry that passes has its name. */
  predicate LastKept(filter: seq<(string, string)>, reply: seq<ListedContainer>, i: nat)
    requires i < |reply|
  {
    && LabelsMatch(filter, LabelsOf(reply[i]))
    && forall j :: i < j < |reply| && LabelsMatch(filter, LabelsOf(reply[j])) ==> reply[j].names != reply[i].names
  }

  lemma {:induction false} ListedLastWins(filter: seq<(string, string)>, reply: seq<ListedContainer>, i: nat)
    requires i < |reply| && LastKept(filter, reply, i)
    ensures reply[i].names in Listed(filter, reply)
    ensures Listed(filter, reply)[reply[i].names] == ToContainer(reply[i])
  {
    var init := reply[..|reply| - 1];
    if i < |reply| - 1 {
      assert init[i] == reply[i];
      assert LastKept(filter, init, i) by {
        forall j | i < j < |init| && LabelsMatch(filter, LabelsOf(init[j]))
          ensures init[j].names != init[i].names
        {
          assert init[j] == reply[j];
        }
      }
      ListedLastWins(filter, init, i);
    }
  }

  lemma {:induction false} ListedFiltered(filter: seq<(string, string)>, reply: seq<ListedContainer>)
    ensures forall name :: name in Listed(filter, reply) ==>
              var c := Listed(filter, reply)[name];
              c.name == name && LabelsMatch(filter, c.labels)
  {
    if reply != [] {
      ListedFiltered(filter, reply[..|reply| - 1]);
    }
  }

  /** The snapshot `list_containers` returns: a name is a key exactly when some
      listed container of that name carries every requested label with the
      requested value; the entry is the last such container, with its status
      parsed and its labels copied; and every entry is filed under its own name. */
  lemma ListContainersContents(filter: seq<(string, string)>, reply: seq<ListedContainer>)
    ensures var m := Listed(filter, reply);
            && (forall name :: name in m <==>
                  exists i :: 0 <= i < |reply| && reply[i].names == name && LabelsMatch(filter, LabelsOf(reply[i])))
            && (forall i :: 0 <= i < |reply| && LastKept(filter, reply, i) ==>
                  reply[i].names in m &&
                  m[reply[i].names] == Container(reply[i].id, reply[i].names, ParseStatus(reply[i].status), LabelsOf(reply[i])))
            && (forall name :: name in m ==> m[name].name == name && LabelsMatch(filter, m[name].labels))
  {
    ListedKeys(filter, reply);
    ListedFiltered(filter, reply);
    forall i | 0 <= i < |reply| && LastKept(filter, reply, i)
      ensures reply[i].names in Listed(filter, reply)
      ensures Listed(filter, reply)[reply[i].names] == ToContainer(reply[i])
    {
      ListedLastWins(filter, reply, i);
    }
  }

  // ---------------------------------------------------------------------------
  // pull_image and build_image

  /** One reply of a streamed pull or build: an image id (possibly empty) and
      log lines, or an error. */
  datatype StreamReply = Progress(id: string, logs: seq<string>) | StreamError(message: string)

  /** The image-id selection of `pull_image` (and, identically, `build_image`):
      the last non-empty id of the stream wins; a stream error is returned; a
      stream that never names an id gives `Ok(None)`, where the source panics
      on `unwrap`. */
  method SelectImageId(stream: seq<StreamReply>) returns (r: Result<Option<ImageId>>)
    ensures r.Err? <==> exists i :: 0 <= i < |stream| && stream[i].StreamError?
    ensures r.Err? ==> exists i :: 0 <= i < |stream| && stream[i] == StreamError(r.message) &&
                         forall j :: 0 <= j < i ==> stream[j].Progress?
    ensures r == Ok(None) <==> forall i :: 0 <= i < |stream| ==> stream[i].Progress? && stream[i].id == ""
    ensures r.Ok? && r.value.Some? ==>
              r.value.value != "" &&
              exists i :: 0 <= i < |stream| && stream[i].Progress? && stream[i].id == r.value.value &&
                forall j :: i < j < |stream| ==> stream[j].Progress? && stream[j].id == ""
  {
    var imageId: Option<ImageId> := None;
    ghost var last := -1;
    var i := 0;
    while i < |stream|
      invariant 0 <= i <= |stream|
      invariant forall j :: 0 <= j < i ==> stream[j].Progress?
      invariant -1 <= last < i
      invariant imageId.Some? <==> last >= 0
      invariant last >= 0 ==> imageId.value != "" && stream[last].id == imageId.value
      invariant forall j :: last < j < i ==> stream[j].id == ""
    {
      match stream[i] {
        case StreamError(message) =>
          assert stream[i] == StreamError(message);
          return Err(message);
        case Progress(id, _) =>
          if id != "" {
            imageId := Some(id);
            last := i;
          }
      }
      i := i + 1;
    }
    r := Ok(imageId);
  }

  // ---------------------------------------------------------------------------
  // get_image

  /** The reply to `GetImage`. */
  datatype GetImageReply =
    | Found(id: string, labels: Option<Labels>)
    | ImageNotFound(name: string)
    | CallFailed(message: string)

  /** `PodmanBackend::get_image`: a missing image is `Ok(None)`, any other error
      is returned, and a found image keeps its id and labels (none when the reply
      has none). */
  function GetImageResult(reply: GetImageReply): (r: Result<Option<Image>>)
    ensures r == Ok(None) <==> reply.ImageNotFound?
    ensures r.Err? <==> reply.CallFailed?
    ensures r.Ok? && r.value.Some? ==> reply.Found? && r.value.value.id == reply.id
  {
    match reply
    case Found(id, labels) =>
      Ok(Some(Image(id, match labels case Some(l) => l case None => map[])))
    case ImageNotFound(_) => Ok(None)
    case CallFailed(message) => Err(message)
  }

  // ---------------------------------------------------------------------------
  // create_container

  /** The `label` argument of the varlink `CreateContainer` call: one `key=value`
      string per label, in key order. */
  function FormatLabels(labels: Labels): seq<string> {
    var keys := SortedElements(labels.Keys);
    seq(|keys|, i requires 0 <= i < |keys| => keys[i] + "=" + labels[keys[i]])
  }

  /** One `key=value` string per label and nothing else. */
  lemma FormatLabelsContents(labels: Labels)
    ensures var r := FormatLabels(labels);
            && |r| == |labels|
            && (forall key :: key in labels ==> key + "=" + labels[key] in r)
            && (forall s :: s in r ==> exists key :: key in labels && s == key + "=" + labels[key])
  {
    var keys := SortedElements(labels.Keys);
    var r := FormatLabels(labels);
    forall key | key in labels
      ensures key + "=" + labels[key] in r
    {
      var i :| 0 <= i < |keys| && keys[i] == key;
      assert r[i] == key + "=" + labels[key];
    }
  }

  /** Splitting a formatted label with `MapList::split_value` gives back its key;
      the value keeps the `=`. */
  lemma SplitFormattedLabel(key: string, value: string)
    requires '=' !in key
    ensures ComposeFile.SplitValue(key + "=" + value) == (key, "=" + value)
  {
    assert key + "=" + value == key + ("=" + value);
    ComposeFile.SplitValueUnique(key + "=" + value, key, "=" + value);
  }

  lemma FormattedKeys(labels: Labels)
    requires forall key :: key in labels ==> '=' !in key
    ensures var items, keys := FormatLabels(labels), SortedElements(labels.Keys);
            forall i :: 0 <= i < |items| ==> ComposeFile.SplitValue(items[i]) == (keys[i], "=" + labels[keys[i]])
  {
    var items, keys := FormatLabels(labels), SortedElements(labels.Keys);
    forall i | 0 <= i < |items|
      ensures ComposeFile.SplitValue(items[i]) == (keys[i], "=" + labels[keys[i]])
    {
      SplitFormattedLabel(keys[i], labels[keys[i]]);
    }
  }

  lemma FormattedLastWithKey(labels: Labels, i: nat)
    requires forall key :: key in labels ==> '=' !in key
    requires i < |labels|
    ensures var items := FormatLabels(labels);
            ComposeFile.LastWithKey(items, i) &&
            ComposeFile.SplitValue(items[i]) == (SortedElements(labels.Keys)[i], "=" + labels[SortedElements(labels.Keys)[i]])
  {
    var items, keys := FormatLabels(labels), SortedElements(labels.Keys);
    AscendingDistinct(keys);
    FormattedKeys(labels);
    forall j | i < j < |items|
      ensures ComposeFile.SplitValue(items[j]).0 != ComposeFile.SplitValue(items[i]).0
    {
      assert keys[j] != keys[i];
    }
  }

  lemma FormattedMapSound(labels: Labels, key: string)
    requires forall key :: key in labels ==> '=' !in key
    requires key in labels
    ensures var m := ComposeFile.ToMap(ComposeFile.List(FormatLabels(labels)));
            key in m && m[key] == "=" + labels[key]
  {
    var keys := SortedElements(labels.Keys);
    var i :| 0 <= i < |keys| && keys[i] == key;
    FormattedLastWithKey(labels, i);
  }

  lemma FormattedMapComplete(labels: Labels, key: string)
    requires forall key :: key in labels ==> '=' !in key
    requires key in ComposeFile.ToMap(ComposeFile.List(FormatLabels(labels)))
    ensures key in labels
  {
    var items := FormatLabels(labels);
    var i :| 0 <= i < |items| && ComposeFile.SplitValue(items[i]).0 == key;
    FormattedLastWithKey(labels, i);
  }

  /** Reading the formatted labels back as a compose `KEY=VALUE` list recovers
      exactly the keys, each with its value behind a leading `=`. */
  lemma FormatLabelsRoundTrip(labels: Labels)
    requires forall key :: key in labels ==> '=' !in key
    ensures var m := ComposeFile.ToMap(ComposeFile.List(FormatLabels(labels)));
            && (forall key :: key in labels ==> key in m && m[key] == "=" + labels[key])
            && (forall key :: key in m ==> key in labels)
  {
    var m := ComposeFile.ToMap(ComposeFile.List(FormatLabels(labels)));
    forall key | key in labels
      ensures key in m && m[key] == "=" + labels[key]
    {
      FormattedMapSound(labels, key);
    }
    forall key | key in m
      ensures key in labels
    {
      FormattedMapComplete(labels, key);
    }
  }
}
