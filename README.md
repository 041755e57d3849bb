# pod-compose in Dafny

A model of pod-compose, a docker-compose compatible tool that runs containers
with podman, together with proofs about it. It also covers the compose frontend
of the earlier `pod` crate.

The model follows the program's structure:

- `compose_file.dfy` (module `ComposeFile`): the parsed compose file and
  `MapList::to_map` / `split_value`.
- `frontend.dfy` (module `Frontend`): pod-compose's frontend. Each service
  becomes one image to build or pull and `replicas` container specs named
  `{project}_{service}_{index}`.
- `pod_frontend.dfy` (module `PodFrontend`): the `pod` crate's frontend. It
  records build specs only. `pod/src/composer_frontend.rs` and
  `pod/src/frontends/docker_compose.rs` hold the same code, so one definition
  models both. `pod/src/docker_compose.rs` repeats `MapList`, and
  `ComposeFile` models that copy too.
- `podman.dfy` (module `Podman`): what `PodmanBackend` does with podman's
  replies:
  - the label filter and status parsing of `list_containers`;
  - the image-id selection of `pull_image` (`build_image` uses the same loop);
  - the not-found mapping of `get_image`;
  - the `key=value` label strings of `create_container`.
- `backend.dfy` (module `Backend`): the backend as the controller sees it. It
  is a class whose methods may fail or return any reply. Each call appends a
  `Call(request, reply)` to a ghost `log`. This lets the model state which
  calls the controller makes, and in what order.
- `controller.dfy` (module `Controller`): the reconciliation logic. This covers
  orphans, the start, stop and remove diffs, and the labels
  `container_create` stamps. The `Controller` class holds the backend, the
  composition and the container snapshot taken at `init`. Its methods are:
  - `PullImages`;
  - `ContainerApply`, which is proved against `Plan`. `Plan` is the list of
    calls an operation makes, or its error.
- `driver.dfy` (module `Driver`), from `main.rs`:
  - the compose-file search, with file existence as a function parameter;
  - the project name;
  - the orphan decision;
  - the progress-line layout;
  - the sequential, abort-on-first-failure application of operations;
  - command dispatch, with each command described as a list of `Stage`s.

Some modelling choices:

- A `BTreeMap` is a Dafny `map`. It is iterated in the order of
  `Strings.SortedElements`, which is ascending under `Strings.Less`
  (lexicographic order on characters).
- The blake3 digest of a spec is an arbitrary function of the spec
  (`Controller.Digest`). Only its determinism matters.
- `split_value` keeps the `=` at the start of the value, because
  `split_at(i)` puts index `i` in the second half. The model does the same.
  So the label strings `create_container` writes, read back through
  `to_map`, give values that start with `=` (`Podman.FormatLabelsRoundTrip`).

## Model

| member | source | states |
|---|---|---|
| ComposeFile.SplitValue | pod-compose/src/frontends/docker_compose.rs:78-87 | key followed by value is the input; the key holds no `=`; the value is empty or starts with `=` (also pod/src/docker_compose.rs:67-76, pod/src/frontends/docker_compose.rs:78-87) |
| ComposeFile.SplitValueUnique | pod-compose/src/frontends/docker_compose.rs:78-87 | those three properties determine the split completely: any key/value pair with them is the result |
| ComposeFile.ListToMapKeys | pod-compose/src/frontends/docker_compose.rs:74 | a key is in the collected map exactly when some list entry splits to it |
| ComposeFile.ListToMapLastWins | pod-compose/src/frontends/docker_compose.rs:74 | the value of a key comes from the last entry with that key |
| ComposeFile.ToMap | pod-compose/src/frontends/docker_compose.rs:64-76 | a mapping is returned unchanged; a list maps exactly its entries' keys, later duplicates overriding earlier ones; the default (empty list) gives the empty map (also pod/src/docker_compose.rs:53-65) |
| Frontend.ReplicaSpecs | pod-compose/src/frontends/docker_compose.rs:150-158 | `n` specs, the i-th being replica `i` of the service |
| Frontend.PushService | pod-compose/src/frontends/docker_compose.rs:106-158 | the loop body adds the service's image request and its replicas, as `AddService` describes |
| Frontend.Compose | pod-compose/src/frontends/docker_compose.rs:103-161 | the service loop builds `Composed`, the services visited in ascending name order |
| Frontend.ComposeInOrder | pod-compose/src/frontends/docker_compose.rs:106-159 | visiting the given services in order yields the composition `ComposeServices` folds from them |
| Frontend.ComposedReplicas | pod-compose/src/frontends/docker_compose.rs:150-158 | each service yields exactly `replicas` specs (1 by default, none for 0), for indices 0..n-1 in order, named `{project}_{service}_{i}`, with the service name, its image and no labels; a name that is not a service yields none |
| Frontend.ComposedImages | pod-compose/src/frontends/docker_compose.rs:106-147 | as many images as services, and each service's own among them: a build spec for a `build` section (short: `Dockerfile`, no target, no args; extended: dockerfile defaulting to `Dockerfile`, its target and `to_map` of its args), otherwise a pull spec; the image is the service's own or `{project}_{service}` |
| Frontend.ComposedImageLists | pod-compose/src/frontends/docker_compose.rs:106-147 | the build list is exactly the build requests of the services with a `build` section and the pull list exactly the pull requests of the others, each in ascending service-name order with one entry per service |
| Frontend.ContainerNameInjective | pod-compose/src/frontends/docker_compose.rs:154 | a container name determines its service and replica index |
| Frontend.ComposedNamesDistinct | pod-compose/src/frontends/docker_compose.rs:150-158 | no two container specs of a composition share a name |
| PodFrontend.PushService | pod/src/composer_frontend.rs:46-91 | the loop body adds the build spec (if any) and the replicas, as `AddService` describes |
| PodFrontend.Compose | pod/src/composer_frontend.rs:43-94 | the service loop builds `Composed`, in ascending service-name order (same code at pod/src/frontends/docker_compose.rs:99-165) |
| PodFrontend.ComposeInOrder | pod/src/composer_frontend.rs:46-92 | visiting the given services in order yields the composition `ComposeServices` folds from them |
| PodFrontend.ComposedContainersAgree | pod/src/composer_frontend.rs:83-91 | the container specs are exactly pod-compose's: `replicas` (default 1) per service named `{project}_{service}_{i}` with empty labels, and their names are distinct |
| PodFrontend.ComposedImages | pod/src/composer_frontend.rs:51-81 | the image specs are exactly one build spec per service with a `build` section, in ascending service-name order, and none for a service without one (short: `Dockerfile`, no target, no args; extended: dockerfile defaulting to `Dockerfile`, its target and `to_map` of its args; same code at pod/src/frontends/docker_compose.rs:117-145) |
| Podman.ParseStatus | pod-compose/src/backends/podman.rs:214-222 | `configured`, `running` and `exited` map to their statuses, and any other string to `Unknown`, in both directions |
| Podman.ListContainers | pod-compose/src/backends/podman.rs:196-233 | a reply without containers gives the empty map; otherwise the containers that pass the filter, inserted in reply order |
| Podman.ListedKeys | pod-compose/src/backends/podman.rs:205-231 | a name is listed exactly when some container of the reply with that name passes the filter |
| Podman.ListedLastWins | pod-compose/src/backends/podman.rs:230 | when several passing containers share a name, the last one is kept |
| Podman.ListedFiltered | pod-compose/src/backends/podman.rs:205-212 | every listed container carries each requested label with exactly the requested value, and is filed under its own name |
| Podman.ListContainersContents | pod-compose/src/backends/podman.rs:205-231 | the listing's keys, the container kept per key, and the filter property together |
| Podman.SelectImageId | pod-compose/src/backends/podman.rs:62-81 | the selection fails exactly when some reply is an error, with the first error; it gives no id exactly when every reply carries an empty id; otherwise it gives the last non-empty id (same loop at lines 168-188) |
| Podman.GetImageResult | pod-compose/src/backends/podman.rs:36-54 | image-not-found is `Ok(None)`; any other failure is an error; a found image keeps its id |
| Podman.FormatLabelsContents | pod-compose/src/backends/podman.rs:237-241 | exactly one `key=value` string per label, and nothing else |
| Podman.FormatLabelsRoundTrip | pod-compose/src/backends/podman.rs:237-241 | reading the label strings back as a compose `KEY=VALUE` list recovers every key, with its value behind the `=` that `split_value` keeps, and no other key (for keys without `=`) |
| Backend.Backend.GetImage | pod-compose/src/backends/podman.rs:36-54 | one `GetImage` call is logged with the returned result |
| Backend.Backend.PullImage | pod-compose/src/backends/podman.rs:56-82 | one `PullImage` call is logged; a success carries a non-empty id |
| Backend.Backend.ListContainers | pod-compose/src/backends/podman.rs:192-234 | one `ListContainers` call is logged; every container returned carries the filter's labels and is filed under its name |
| Backend.Backend.CreateContainer | pod-compose/src/backends/podman.rs:236-349 | one `CreateContainer` call is logged for the spec |
| Backend.Backend.StartContainer | pod-compose/src/backends/podman.rs:351-356 | one `StartContainer` call is logged |
| Backend.Backend.StopContainer | pod-compose/src/backends/podman.rs:358-366 | one `StopContainer` call is logged, with the timeout unchanged |
| Backend.Backend.RemoveContainer | pod-compose/src/backends/podman.rs:368-376 | one `RemoveContainer` call is logged, never forced |
| Controller.Orphans | pod-compose/src/controller.rs:71-96 | a snapshot container is an orphan exactly when its service label is absent or names no service of the composition; orphans come in ascending name order |
| Controller.FindSpec | pod-compose/src/controller.rs:197-204 | no result exactly when no spec has the name; otherwise the first spec with it |
| Controller.SpecOperation | pod-compose/src/controller.rs:104-124 | no container gives `Create`; a matching hash gives nothing when Running, `Start` when Configured or Exited, and `Recreate` when Unknown; a missing or different hash gives `Recreate` (each as an if-and-only-if); never `Stop` or `Remove` |
| Controller.CompositionDiff | pod-compose/src/controller.rs:99-125 | every entry names a spec and carries that spec's operation, and there are at most as many entries as specs |
| Controller.CompositionDiffComplete | pod-compose/src/controller.rs:99-125 | every spec that needs an operation has its entry |
| Controller.CompositionDiffDistinct | pod-compose/src/controller.rs:99-125 | with distinct spec names, no name appears twice, so at most one entry per spec |
| Controller.ScaledDown | pod-compose/src/controller.rs:137-155 | exactly the containers whose service label names a composition service but whose name no spec has, in ascending name order |
| Controller.StopDiff | pod-compose/src/controller.rs:162-176 | `(name, op)` is in the diff exactly when `op` is `Stop`, a spec has the name, and its container exists and is Running |
| Controller.StopDiffInOrder | pod-compose/src/controller.rs:162-176 | the diff is one `Stop` per spec whose container is running, in composition order; with distinct spec names no container appears twice |
| Controller.RemoveDiff | pod-compose/src/controller.rs:178-190 | `(name, op)` is in the diff exactly when `op` is `Remove`, a spec has the name, and its container exists, whatever its status |
| Controller.RemoveDiffInOrder | pod-compose/src/controller.rs:178-190 | the diff is one `Remove` per spec that has a container, in composition order; with distinct spec names no container appears twice |
| Controller.StartDiffShape | pod-compose/src/controller.rs:98-160 | the composition's entries come first in composition order, each naming a spec and never `Remove`; then the `Remove`s of exactly the scaled-down containers in ascending name order, none of them an orphan or a spec |
| Controller.StartDiffDistinct | pod-compose/src/controller.rs:98-160 | with distinct spec names, no container name appears twice in the start diff |
| Controller.StartDiffEmpty | pod-compose/src/controller.rs:98-160 | the start diff is empty exactly when every spec has a Running container with the spec's hash, and no container is scaled down |
| Controller.Labelled | pod-compose/src/controller.rs:257-272 | the project, service and hash labels are set, the hash being the digest of the spec before stamping; name, service, image and other labels are kept |
| Controller.CreatedAndRunningIsIdle | pod-compose/src/controller.rs:257-272 | containers running with the hash label `container_create` stamped (other labels free), one per spec and no others, give an empty start diff |
| Controller.PlanFails | pod-compose/src/controller.rs:197-251 | an operation fails before any call exactly when `Create`/`Recreate` names no spec (checked first) or another operation names a container missing from the snapshot, with the matching error text |
| Controller.PlanSteps | pod-compose/src/controller.rs:206-251 | `Remove` and `Recreate` remove the container and stop it first exactly when it is Running; `Remove` is exactly that stop (if any) then the removal, and `Recreate` is that removal followed by create and start; `Create` and `Recreate` end with creating the stamped spec and starting the created id; `Start` and `Stop` make one call |
| Controller.PullsQueried | pod-compose/src/controller.rs:53-66 | a successful `pull_images` asks about every image in order; a failed one asks about a leading part and ends with the failed call |
| Controller.PullsAlways | pod-compose/src/controller.rs:53-66 | under `Always` every image is fetched and then pulled, alternating, in order |
| Controller.PullsIfNotPresent | pod-compose/src/controller.rs:53-66 | under `IfNotPresent` an image is pulled only right after `get_image` reported it missing |
| Controller.Controller.Init | pod-compose/src/controller.rs:36-51 | one `ListContainers` call filtered on the project label; the snapshot holds only containers with that label, each under its own name |
| Controller.Controller.ContainerCreate | pod-compose/src/controller.rs:257-272 | one `CreateContainer` call, for the spec stamped as `Labelled` says |
| Controller.Controller.StopAndRemove | pod-compose/src/controller.rs:241-250 | stop if Running, then remove unforced, stopping at the first failure |
| Controller.Controller.CreateAndStart | pod-compose/src/controller.rs:207-212 | create the stamped spec, then start the id the create returned, stopping at the first failure |
| Controller.Controller.PullImages | pod-compose/src/controller.rs:53-66 | the calls made are those `Pulls` describes for the composition's images and the policy, and the result says whether all succeeded |
| Controller.Controller.PullOne | pod-compose/src/controller.rs:55-62 | one image: queries it, then pulls it when the policy is `Always` or it is missing; a failed query pulls nothing |
| Controller.Controller.ContainerApply | pod-compose/src/controller.rs:192-255 | the calls made are those of `Plan` for the operation, in order, stopping at the first failure; an error of the plan is returned with no call |
| Controller.Controller.Recreate | pod-compose/src/controller.rs:220-225 | stops the old container if it is running, removes it, creates the new one and starts it, stopping at the first failure |
| Driver.FindComposeFile | pod-compose/src/main.rs:74-88 | nothing is found exactly when no ancestor (the start included) holds either file; otherwise the nearest such ancestor's file, `docker-compose.yml` before `docker-compose.yaml` |
| Driver.NearestUnique | pod-compose/src/main.rs:74-88 | there is only one nearest ancestor, so the file found is determined |
| Driver.FoundProjectName | pod-compose/src/main.rs:104-114 | the project is named after the directory the compose file was found in; a compose file in the root directory leaves it unnamed |
| Driver.VerbInjective | pod-compose/src/main.rs:220-228 | the five verbs are distinct |
| Driver.LineInjective | pod-compose/src/main.rs:230-236 | a progress line determines its operation and container |
| Driver.Utf8Length | pod-compose/src/main.rs:238 | `line.len()` counts UTF-8 bytes: between one and four per character |
| Driver.Utf8LengthAscii | pod-compose/src/main.rs:238 | a line has as many bytes as characters exactly when it is ASCII |
| Driver.LongestLine | pod-compose/src/main.rs:238 | the longest line length in bytes, at least every line's, attained by some line, and 0 without lines |
| Driver.PaddingAligns | pod-compose/src/main.rs:238-246 | every padding is at least 1 (no underflow) and a line's bytes plus its padding are the same for every line; two ASCII lines' `...` share a column |
| Driver.MoveUpInRange | pod-compose/src/main.rs:256 | the number of lines moved up lies in `1..=lines.len()` |
| Driver.OrphanStagesRemoveOrphans | pod-compose/src/main.rs:184-212 | without `--remove-orphans` nothing is applied; with it, exactly one `Remove` per orphan in the order found |
| Driver.RunsSucceeded | pod-compose/src/main.rs:251-263 | a successful run had every operation name a known container and a successful build |
| Driver.RunsStopAtFailure | pod-compose/src/main.rs:251-263 | a failed run is a successful run of some leading stages, then the one stage that failed |
| Driver.ContainerApply | pod-compose/src/main.rs:214-264 | operations are applied one at a time in list order, stopping at the first failure |
| Driver.CheckOrphans | pod-compose/src/main.rs:184-212 | the calls are those of the orphan stages: removals only with `--remove-orphans` and when there are orphans |
| Driver.Run | pod-compose/src/main.rs:127-177 | each command runs its `Stages`: `build` only builds; `down` checks orphans, then applies the remove diff (ignoring `--volumes`); `stop` checks orphans, then applies the stop diff |
| Driver.RunUp | pod-compose/src/main.rs:147-167 | `up` checks orphans, pulls missing images, builds, then applies the start diff |
| Driver.PullAndBuild | pod-compose/src/main.rs:155-163 | pulls missing images, then builds with `Always` or `IfChanged` as `--build` says, skipping the build when the pull failed |
| Driver.OrphansThenApply | pod-compose/src/main.rs:142-145 | checks orphans, then applies the given diff only if that succeeded (also `stop` at lines 172-175) |
| Driver.Execute | pod-compose/src/main.rs:90-180 | no compose file in any ancestor, or one in the root directory, is an error before any call; otherwise the first call lists the containers of the project named after the compose file's directory |
| Driver.Locate | pod-compose/src/main.rs:97-115 | no compose file in any ancestor is `NoComposeFile`; a file in the root directory is `NoProjectName`; otherwise the name of the nearest ancestor holding one |
| Driver.ExecuteIn | pod-compose/src/main.rs:117-124 | with a project name, the first backend call lists the containers labelled with that project |

## Left out

- The varlink transport (`PodmanBackend::connect` and every call) is outside the model. A call may fail or give any reply, and the backend class only logs it.
- `build_image` is left out: its tar archive of the context, its temporary directory and its floating-point size report. Its image-id selection is the same loop as `pull_image` and is modelled by `Podman.SelectImageId`.
- `Controller::build_images` is called by `main.rs` but is not part of `controller.rs`, so it is not part of this model. A run takes its outcome as a parameter, and the build stage makes no logged calls. `BuildPolicy` appears only as the flag `always`.
- The `unwrap()` on a missing image id in `pull_image` panics. The model treats it as a failed call instead.
- blake3 hashing is left out: the digest is an arbitrary function of the spec.
- YAML parsing and `File::open` are left out, so the frontends start from the parsed file, and their parse and open errors are not modelled.
- Terminal output is left out: logging, the printed pull and build logs, the crossterm styling and cursor commands, and the "found orphans" notice. The line layout is modelled as numbers and strings.
- The `as u16` casts of the padding and cursor amounts are not modelled.
- Command-line parsing (structopt and the default timeout of 5) is left out; commands are given as values.
- Timeouts are natural numbers; the `u32` to `i64` widening for `stop_container` changes no value.
- The working directory is a list of path components. `env::set_current_dir`, the failure of `current_dir`, non-UTF-8 names and `..` components are left out.
- Error messages that format a container name with `{:?}` are modelled with the bare name: the debug form `ContainerName("x")` that `{:?}` prints is dropped.
- `pod/src/main.rs` is not part of this model.
- Controller.Controller.PullImages: does not state which error message a failed run returns, only which calls were made and that it failed.
- Driver.Execute: states only the errors raised before the controller exists and the first backend call; what follows is stated by `Driver.Run`.
- Backend.Backend.CreateContainer: logs the spec rather than the label strings sent to podman. The strings are `Podman.FormatLabels` of the spec's labels, and `Podman.FormatLabelsContents` states their contents.
