/** The command-line driver of pod-compose (pod-compose/src/main.rs): finding
    the compose file, naming the project, deciding what to do about orphans,
    laying out the progress lines, applying a list of operations one at a
    time, and dispatching each command to the controller. */
module Driver {
  import opened Wrappers
  import opened Models
  import opened Backend
  import opened Controller
  import ComposeFile
  import Frontend

  // ---------------------------------------------------------------------------
  // Finding the compose file

  /** An absolute path as its components; `[]` is the root directory. */
  type Path = seq<string>

  const ComposeYml: string := "docker-compose.yml"
  const ComposeYaml: string := "docker-compose.yaml"

  const NoComposeFile: string :=
    "Couldn't find a docker-compose.yml file in the current working directory or any of its parents."
  const NoParent: string := "Docker compose file has no parent."
  const NoProjectName: string := "Couldn't determine the project name."

  /** Whether a directory holds either compose file name; `present` stands
      for `Path::exists`. */
  predicate HasComposeFile(dir: Path, present: Path -> bool) {
    present(dir + [ComposeYml]) || present(dir + [ComposeYaml])
  }

  /** The compose file of a directory that has one, `.yml` first. */
  function ComposeFileIn(dir: Path, present: Path -> bool): Path
    requires HasComposeFile(dir, present)
  {
    if present(dir + [ComposeYml]) then dir + [ComposeYml] else dir + [ComposeYaml]
  }

  /** `start[..k]` is the nearest ancestor of `start` (itself included) that
      holds a compose file. */
  predicate Nearest(start: Path, present: Path -> bool, k: nat) {
    && k <= |start|
    && HasComposeFile(start[..k], present)
    && forall j :: k < j <= |start| ==> !HasComposeFile(start[..j], present)
  }

  /** There is at most one nearest ancestor. */
  lemma NearestUnique(start: Path, present: Path -> bool, k1: nat, k2: nat)
    requires Nearest(start, present, k1) && Nearest(start, present, k2)
    ensures k1 == k2
  {
  }

  /** `find_compose_file`: walk the ancestors of `start`, from `start` itself
      up to the root, and return the first compose file found. */
  method FindComposeFile(start: Path, present: Path -> bool) returns (r: Option<Path>)
    ensures r.None? <==> forall k :: 0 <= k <= |start| ==> !HasComposeFile(start[..k], present)
    ensures r.Some? ==> exists k: nat :: Nearest(start, present, k) && r.value == ComposeFileIn(start[..k], present)
  {
    var k := |start|;
    while true
      invariant 0 <= k <= |start|
      invariant forall j :: k < j <= |start| ==> !HasComposeFile(start[..j], present)
      decreases k
    {
      var dir := start[..k];
      if present(dir + [ComposeYml]) {
        assert Nearest(start, present, k);
        return Some(dir + [ComposeYml]);
      }
      if present(dir + [ComposeYaml]) {
        assert Nearest(start, present, k);
        return Some(dir + [ComposeYaml]);
      }
      if k == 0 {
        return None;
      }
      k := k - 1;
    }
  }

  /** `Path::parent`. */
  function Parent(p: Path): Option<Path> {
    if p == [] then None else Some(p[..|p| - 1])
  }

  /** `Path::file_name`. */
  function FileName(p: Path): Option<string> {
    if p == [] then None else Some(p[|p| - 1])
  }

  /** The project name: the last component of the compose file's directory. */
  function ProjectName(composeFile: Path): Result<string> {
    match Parent(composeFile)
    case None => Err(NoParent)
    case Some(dir) =>
      match FileName(dir)
      case None => Err(NoProjectName)
      case Some(name) => Ok(name)
  }

  /** The project of a compose file found in `start[..k]` is named after that
      directory, and a compose file in the root directory leaves it unnamed. */
  lemma FoundProjectName(start: Path, present: Path -> bool, k: nat)
    requires Nearest(start, present, k)
    ensures k == 0 ==> ProjectName(ComposeFileIn(start[..k], present)) == Err(NoProjectName)
    ensures k > 0 ==> ProjectName(ComposeFileIn(start[..k], present)) == Ok(start[k - 1])
  {
    var file := ComposeFileIn(start[..k], present);
    assert file[..|file| - 1] == start[..k];
  }

  // ---------------------------------------------------------------------------
  // Progress lines

  /** `operation_verb`. */
  function OperationVerb(op: ContainerOperation): string {
    match op
    case Create => "Creating"
    case Recreate => "Recreating"
    case Start => "Starting"
    case Stop => "Stopping"
    case Remove => "Removing"
  }

  /** The progress line of one operation. */
  function Line(name: ContainerName, op: ContainerOperation): string {
    OperationVerb(op) + " " + name
  }

  /** The verbs differ in their third letter. */
  lemma VerbInjective(a: ContainerOperation, b: ContainerOperation)
    requires OperationVerb(a) == OperationVerb(b)
    ensures a == b
  {
    match a {
      case Create => assert OperationVerb(b)[2] == 'e';
      case Recreate => assert OperationVerb(b)[2] == 'c';
      case Start => assert OperationVerb(b)[2] == 'a';
      case Stop => assert OperationVerb(b)[2] == 'o';
      case Remove => assert OperationVerb(b)[2] == 'm';
    }
  }

  /** A line is its verb, a space, and the container name. */
  lemma LineParts(name: ContainerName, op: ContainerOperation)
    ensures var v, l := OperationVerb(op), Line(name, op);
            && |l| == |v| + 1 + |name|
            && (forall i :: 0 <= i < |v| ==> l[i] == v[i] && v[i] != ' ')
            && l[|v|] == ' '
            && l[..|v|] == v && l[|v| + 1..] == name
  {
    var v, l := OperationVerb(op), Line(name, op);
    assert l == v + [' '] + name;
  }

  /** Different operations give different lines: the verb ends at the first
      space, so a line tells which operation on which container it reports. */
  lemma LineInjective(n1: ContainerName, o1: ContainerOperation, n2: ContainerName, o2: ContainerOperation)
    requires Line(n1, o1) == Line(n2, o2)
    ensures n1 == n2 && o1 == o2
  {
    LineParts(n1, o1);
    LineParts(n2, o2);
    var v1, v2 := OperationVerb(o1), OperationVerb(o2);
    if |v1| == |v2| {
      VerbInjective(o1, o2);
    }
  }

  function Lines(ops: Operations): (r: seq<string>)
    ensures |r| == |ops| && forall i :: 0 <= i < |ops| ==> r[i] == Line(ops[i].0, ops[i].1)
  {
    seq(|ops|, i requires 0 <= i < |ops| => Line(ops[i].0, ops[i].1))
  }

  /** The number of bytes `c` takes in UTF-8. */
  function Utf8Width(c: char): nat {
    if c as int < 0x80 then 1
    else if c as int < 0x800 then 2
    else if c as int < 0x1_0000 then 3
    else 4
  }

  /** `str::len`: the length of a string in UTF-8 bytes, between one and four
      bytes per character. */
  function Utf8Length(s: string): (r: nat)
    ensures |s| <= r <= 4 * |s|
  {
    if s == [] then 0 else Utf8Width(s[0]) + Utf8Length(s[1..])
  }

  predicate IsAscii(s: string) {
    forall i :: 0 <= i < |s| ==> s[i] as int < 0x80
  }

  /** A string has as many bytes as characters exactly when it is ASCII. */
  lemma {:induction false} Utf8LengthAscii(s: string)
    ensures Utf8Length(s) == |s| <==> IsAscii(s)
  {
    if s != [] {
      Utf8LengthAscii(s[1..]);
      assert forall i :: 1 <= i < |s| ==> s[i] == s[1..][i - 1];
      if !IsAscii(s) {
        var i :| 0 <= i < |s| && s[i] as int >= 0x80;
        if i > 0 {
          assert s[1..][i - 1] as int >= 0x80;
        }
      }
    }
  }

  /** `longest_line`: the greatest line length in bytes, or 0 without lines. */
  function LongestLine(lines: seq<string>): (r: nat)
    ensures forall i :: 0 <= i < |lines| ==> Utf8Length(lines[i]) <= r
    ensures lines == [] ==> r == 0
    ensures lines != [] ==> exists i :: 0 <= i < |lines| && Utf8Length(lines[i]) == r
  {
    if lines == [] then 0
    else
      var rest := LongestLine(lines[1..]);
      assert forall i :: 1 <= i < |lines| ==> lines[i] == lines[1..][i - 1];
      if Utf8Length(lines[0]) >= rest then Utf8Length(lines[0]) else rest
  }

  /** The cursor move between a line and its `...`: `longest_line - line.len() + 1`. */
  function Padding(longest: nat, line: string): nat
    requires Utf8Length(line) <= longest
  {
    longest - Utf8Length(line) + 1
  }

  /** Every line's padding is at least one, and a line's length in bytes plus
      its padding is the same for every line. Lines are measured in bytes but
      the cursor moves in columns, so two lines' `...` share a column when
      both lines are ASCII. */
  lemma PaddingAligns(lines: seq<string>, i: nat, j: nat)
    requires i < |lines| && j < |lines|
    ensures Utf8Length(lines[i]) <= LongestLine(lines) && Utf8Length(lines[j]) <= LongestLine(lines)
    ensures Padding(LongestLine(lines), lines[i]) >= 1
    ensures Utf8Length(lines[i]) + Padding(LongestLine(lines), lines[i]) ==
            Utf8Length(lines[j]) + Padding(LongestLine(lines), lines[j])
    ensures IsAscii(lines[i]) && IsAscii(lines[j]) ==>
              |lines[i]| + Padding(LongestLine(lines), lines[i]) == |lines[j]| + Padding(LongestLine(lines), lines[j])
  {
    Utf8LengthAscii(lines[i]);
    Utf8LengthAscii(lines[j]);
  }

  /** How many lines up the cursor moves to mark line `index` done. */
  function MoveUp(count: nat, index: nat): int
    requires index < count
  {
    count - index
  }

  lemma MoveUpInRange(count: nat, index: nat)
    requires index < count
    ensures 1 <= MoveUp(count, index) <= count
  {
  }

  // ---------------------------------------------------------------------------
  // What a run does

  /** One thing a command does, in order. */
  datatype Stage =
    | Apply(name: ContainerName, operation: ContainerOperation, timeout: nat)
    | PullImages(policy: PullPolicy)
      /** `build_images` is outside the model: only whether it succeeds. */
    | BuildImages(always: bool, pull: PullPolicy, succeeds: bool)

  /** The calls of one stage, and whether it succeeded. */
  ghost predicate StageRuns(c: Controller, stage: Stage, calls: seq<Call>, ok: bool) {
    match stage
    case Apply(name, op, timeout) =>
      Applies(Plan(name, op, timeout, c.composition.containers, c.containers, c.projectName, c.digest), calls, ok)
    case PullImages(policy) => Pulls(ImageNames(c.composition.pullImages), policy, calls, ok)
    case BuildImages(_, _, succeeds) => calls == [] && ok == succeeds
  }

  /** What a stage means: its calls and whether it succeeded. */
  type StageMeaning = (Stage, seq<Call>, bool) -> bool

  /** The meaning of the stages of a run on `c`. */
  ghost function Meaning(c: Controller): StageMeaning {
    (stage, calls, ok) => StageRuns(c, stage, calls, ok)
  }

  /** `calls` are the calls of `stages` run in order until one fails. */
  ghost predicate RunsStages(run: StageMeaning, stages: seq<Stage>, calls: seq<Call>, ok: bool)
    decreases |stages|
  {
    if stages == [] then calls == [] && ok
    else
      || (!ok && run(stages[0], calls, false))
      || exists k :: 0 <= k <= |calls| && run(stages[0], calls[..k], true) &&
                     RunsStages(run, stages[1..], calls[k..], ok)
  }

  lemma RunsSingle(run: StageMeaning, stage: Stage, calls: seq<Call>, ok: bool)
    requires run(stage, calls, ok)
    ensures RunsStages(run, [stage], calls, ok)
  {
    if ok {
      assert calls[..|calls|] == calls && calls[|calls|..] == [];
      assert [stage][1..] == [];
    }
  }

  lemma {:induction false} RunsAppend(run: StageMeaning, a: seq<Stage>, b: seq<Stage>, c1: seq<Call>, c2: seq<Call>, ok: bool)
    requires RunsStages(run, a, c1, true)
    requires RunsStages(run, b, c2, ok)
    ensures RunsStages(run, a + b, c1 + c2, ok)
    decreases |a|
  {
    if a == [] {
      assert a + b == b && c1 + c2 == c2;
    } else {
      var k :| 0 <= k <= |c1| && run(a[0], c1[..k], true) && RunsStages(run, a[1..], c1[k..], true);
      RunsAppend(run, a[1..], b, c1[k..], c2, ok);
      assert (a + b)[0] == a[0] && (a + b)[1..] == a[1..] + b;
      assert (c1 + c2)[..k] == c1[..k] && (c1 + c2)[k..] == c1[k..] + c2;
    }
  }

  lemma {:induction false} RunsFailedPrefix(run: StageMeaning, a: seq<Stage>, b: seq<Stage>, calls: seq<Call>)
    requires RunsStages(run, a, calls, false)
    ensures RunsStages(run, a + b, calls, false)
    decreases |a|
  {
    assert (a + b)[0] == a[0] && (a + b)[1..] == a[1..] + b;
    if !run(a[0], calls, false) {
      var k :| 0 <= k <= |calls| && run(a[0], calls[..k], true) && RunsStages(run, a[1..], calls[k..], false);
      RunsFailedPrefix(run, a[1..], b, calls[k..]);
    }
  }

  /** Whether a stage can succeed at all. */
  predicate CanSucceed(c: Controller, stage: Stage) {
    match stage
    case Apply(name, op, timeout) =>
      Plan(name, op, timeout, c.composition.containers, c.containers, c.projectName, c.digest).Ok?
    case PullImages(_) => true
    case BuildImages(_, _, succeeds) => succeeds
  }

  /** A run succeeds only if every operation names a known container and the
      build succeeds. */
  lemma {:induction false} RunsSucceeded(c: Controller, stages: seq<Stage>, calls: seq<Call>)
    requires RunsStages(Meaning(c), stages, calls, true)
    ensures forall i :: 0 <= i < |stages| ==> CanSucceed(c, stages[i])
    decreases |stages|
  {
    if stages != [] {
      var k :| 0 <= k <= |calls| && Meaning(c)(stages[0], calls[..k], true) && RunsStages(Meaning(c), stages[1..], calls[k..], true);
      RunsSucceeded(c, stages[1..], calls[k..]);
      assert forall i :: 1 <= i < |stages| ==> stages[i] == stages[1..][i - 1];
    }
  }

  /** A failed run is a successful run of some leading stages followed by the
      one stage that failed: the first failure aborts the rest. */
  lemma RunsStopAtFailure(run: StageMeaning, stages: seq<Stage>, calls: seq<Call>)
    requires RunsStages(run, stages, calls, false)
    ensures exists i, k :: 0 <= i < |stages| && 0 <= k <= |calls| &&
              RunsStages(run, stages[..i], calls[..k], true) && run(stages[i], calls[k..], false)
  {
    var i, k := FailingStage(run, stages, calls);
  }

  lemma {:induction false} FailingStage(run: StageMeaning, stages: seq<Stage>, calls: seq<Call>) returns (i: nat, k: nat)
    requires RunsStages(run, stages, calls, false)
    ensures i < |stages| && k <= |calls|
    ensures RunsStages(run, stages[..i], calls[..k], true) && run(stages[i], calls[k..], false)
    decreases |stages|
  {
    if run(stages[0], calls, false) {
      i, k := 0, 0;
      assert calls[0..] == calls;
    } else {
      var m :| 0 <= m <= |calls| && run(stages[0], calls[..m], true) && RunsStages(run, stages[1..], calls[m..], false);
      var i', k' := FailingStage(run, stages[1..], calls[m..]);
      i, k := i' + 1, m + k';
      FailingStageShift(run, stages, calls, m, i', k');
    }
  }

  lemma FailingStageShift(run: StageMeaning, stages: seq<Stage>, calls: seq<Call>, m: nat, i: nat, k: nat)
    requires 0 < |stages| && m <= |calls| && i < |stages| - 1 && k <= |calls| - m
    requires run(stages[0], calls[..m], true)
    requires RunsStages(run, stages[1..][..i], calls[m..][..k], true)
    requires run(stages[1..][i], calls[m..][k..], false)
    ensures RunsStages(run, stages[..i + 1], calls[..m + k], true)
    ensures run(stages[i + 1], calls[m + k..], false)
  {
    RunsSingle(run, stages[0], calls[..m], true);
    RunsAppend(run, [stages[0]], stages[1..][..i], calls[..m], calls[m..][..k], true);
    assert [stages[0]] + stages[1..][..i] == stages[..i + 1];
    assert calls[..m] + calls[m..][..k] == calls[..m + k];
    assert calls[m..][k..] == calls[m + k..];
  }

  /** One more stage of a run: it either extends the successful prefix or
      ends the whole run in failure. */
  lemma RunsStep(run: StageMeaning, stages: seq<Stage>, i: nat, before: seq<Call>, after: seq<Call>, ok: bool)
    requires i < |stages|
    requires RunsStages(run, stages[..i], before, true)
    requires run(stages[i], after, ok)
    ensures ok ==> RunsStages(run, stages[..i + 1], before + after, true)
    ensures !ok ==> RunsStages(run, stages, before + after, false)
  {
    if ok {
      RunsSingle(run, stages[i], after, true);
      RunsAppend(run, stages[..i], [stages[i]], before, after, true);
      assert stages[..i] + [stages[i]] == stages[..i + 1];
    } else {
      assert stages[i..][0] == stages[i];
      assert RunsStages(run, stages[i..], after, false);
      RunsAppend(run, stages[..i], stages[i..], before, after, false);
      assert stages[..i] + stages[i..] == stages;
    }
  }

  /** The stages of a list of operations. */
  function OperationStages(ops: Operations, timeout: nat): (r: seq<Stage>)
    ensures |r| == |ops| && forall i :: 0 <= i < |ops| ==> r[i] == Apply(ops[i].0, ops[i].1, timeout)
  {
    seq(|ops|, i requires 0 <= i < |ops| => Apply(ops[i].0, ops[i].1, timeout))
  }

  /** `check_orphans`: the orphans are removed only when asked to and there
      are some; otherwise nothing is applied. */
  function OrphanStages(c: Controller, removeOrphans: bool, timeout: nat): seq<Stage> {
    var orphans := Orphans(c.composition.containers, c.containers);
    if orphans != [] && removeOrphans then OperationStages(Removals(orphans), timeout) else []
  }

  /** Without `--remove-orphans` nothing is applied; with it, exactly one
      removal per orphan, in the order found, and only of containers of this
      project's snapshot that no composition service claims. */
  lemma OrphanStagesRemoveOrphans(c: Controller, removeOrphans: bool, timeout: nat)
    ensures var orphans := Orphans(c.composition.containers, c.containers);
            var r := OrphanStages(c, removeOrphans, timeout);
            && (!removeOrphans ==> r == [])
            && (removeOrphans ==> |r| == |orphans|)
            && (removeOrphans ==>
                  forall i :: 0 <= i < |r| ==>
                    && r[i] == Apply(orphans[i], Remove, timeout)
                    && orphans[i] in c.containers
                    && IsOrphan(c.containers[orphans[i]], ServiceNames(c.composition.containers)))
  {
    var orphans := Orphans(c.composition.containers, c.containers);
    assert forall i :: 0 <= i < |orphans| ==> orphans[i] in orphans;
  }

  /** A command of the command line. */
  datatype Command =
    | Build(pull: bool)
    | Down(volumes: bool, timeout: nat, removeOrphans: bool)
    | Up(detach: bool, build: bool, timeout: nat, removeOrphans: bool)
    | Stop(timeout: nat, removeOrphans: bool)

  /** The dispatch of `main`: what each command does, in order. */
  function Stages(c: Controller, cmd: Command, buildSucceeds: bool): seq<Stage> {
    match cmd
    case Build(pull) => [BuildImages(true, if pull then Always else IfNotPresent, buildSucceeds)]
    case Down(_, timeout, removeOrphans) =>
      OrphanStages(c, removeOrphans, timeout) + OperationStages(RemoveDiff(c.composition.containers, c.containers), timeout)
    case Up(_, build, timeout, removeOrphans) =>
      OrphanStages(c, removeOrphans, timeout) + [PullImages(IfNotPresent), BuildImages(build, IfNotPresent, buildSucceeds)] +
        OperationStages(StartDiff(c.composition.containers, c.containers, c.digest), timeout)
    case Stop(timeout, removeOrphans) =>
      OrphanStages(c, removeOrphans, timeout) + OperationStages(StopDiff(c.composition.containers, c.containers), timeout)
  }

  // ---------------------------------------------------------------------------
  // Running

  /** `container_apply` of main.rs: apply the operations one at a time, in
      order, stopping at the first that fails. */
  method ContainerApply(c: Controller, ops: Operations, timeout: nat) returns (r: Result<()>)
    modifies c.backend
    ensures |old(c.backend.log)| <= |c.backend.log| && c.backend.log[..|old(c.backend.log)|] == old(c.backend.log)
    ensures RunsStages(Meaning(c), OperationStages(ops, timeout), c.backend.log[|old(c.backend.log)|..], r.Ok?)
  {
    ghost var start := |c.backend.log|;
    var i := 0;
    while i < |ops|
      invariant 0 <= i <= |ops|
      invariant start <= |c.backend.log| && c.backend.log[..start] == old(c.backend.log)
      invariant RunsStages(Meaning(c), OperationStages(ops, timeout)[..i], c.backend.log[start..], true)
    {
      ghost var prev := c.backend.log;
      r := c.ContainerApply(ops[i].0, ops[i].1, timeout);
      Extended(prev, c.backend.log, start);
      ApplyStep(c, ops, timeout, i, prev[start..], c.backend.log[|prev|..], r.Ok?);
      if r.Err? {
        return;
      }
      i := i + 1;
    }
    assert OperationStages(ops, timeout)[..i] == OperationStages(ops, timeout);
    r := Ok(());
  }

  /** One more operation of `container_apply`. */
  lemma ApplyStep(c: Controller, ops: Operations, timeout: nat, i: nat, before: seq<Call>, after: seq<Call>, ok: bool)
    requires i < |ops|
    requires RunsStages(Meaning(c), OperationStages(ops, timeout)[..i], before, true)
    requires Applies(Plan(ops[i].0, ops[i].1, timeout, c.composition.containers, c.containers, c.projectName, c.digest), after, ok)
    ensures ok ==> RunsStages(Meaning(c), OperationStages(ops, timeout)[..i + 1], before + after, true)
    ensures !ok ==> RunsStages(Meaning(c), OperationStages(ops, timeout), before + after, false)
  {
    var stages := OperationStages(ops, timeout);
    assert Meaning(c)(stages[i], after, ok);
    RunsStep(Meaning(c), stages, i, before, after, ok);
  }

  /** `check_orphans`. */
  method CheckOrphans(c: Controller, removeOrphans: bool, timeout: nat) returns (r: Result<()>)
    modifies c.backend
    ensures |old(c.backend.log)| <= |c.backend.log| && c.backend.log[..|old(c.backend.log)|] == old(c.backend.log)
    ensures RunsStages(Meaning(c), OrphanStages(c, removeOrphans, timeout), c.backend.log[|old(c.backend.log)|..], r.Ok?)
  {
    var orphans := Orphans(c.composition.containers, c.containers);
    if orphans != [] && removeOrphans {
      r := ContainerApply(c, Removals(orphans), timeout);
    } else {
      assert c.backend.log[|c.backend.log|..] == [];
      r := Ok(());
    }
  }

  /** The command dispatch of `main`, once the controller exists; `built` is
      the outcome of `build_images`, which is outside the model. */
  method Run(c: Controller, cmd: Command, built: Result<()>) returns (r: Result<()>)
    modifies c.backend
    ensures |old(c.backend.log)| <= |c.backend.log| && c.backend.log[..|old(c.backend.log)|] == old(c.backend.log)
    ensures RunsStages(Meaning(c), Stages(c, cmd, built.Ok?), c.backend.log[|old(c.backend.log)|..], r.Ok?)
  {
    ghost var start := |c.backend.log|;
    match cmd {
      case Build(pull) =>
        RunsSingle(Meaning(c), Stages(c, cmd, built.Ok?)[0], [], built.Ok?);
        assert c.backend.log[start..] == [];
        r := built;
      case Down(_, timeout, removeOrphans) =>
        var diff := RemoveDiff(c.composition.containers, c.containers);
        r := OrphansThenApply(c, removeOrphans, timeout, diff);
      case Stop(timeout, removeOrphans) =>
        var diff := StopDiff(c.composition.containers, c.containers);
        r := OrphansThenApply(c, removeOrphans, timeout, diff);
      case Up(_, build, timeout, removeOrphans) =>
        r := RunUp(c, build, timeout, removeOrphans, built);
    }
  }

  /** `down` and `stop`: the orphan check, then the operations of the diff. */
  method OrphansThenApply(c: Controller, removeOrphans: bool, timeout: nat, ops: Operations) returns (r: Result<()>)
    modifies c.backend
    ensures |old(c.backend.log)| <= |c.backend.log| && c.backend.log[..|old(c.backend.log)|] == old(c.backend.log)
    ensures RunsStages(Meaning(c), OrphanStages(c, removeOrphans, timeout) + OperationStages(ops, timeout),
                       c.backend.log[|old(c.backend.log)|..], r.Ok?)
  {
    ghost var start := |c.backend.log|;
    r := CheckOrphans(c, removeOrphans, timeout);
    ghost var prev := c.backend.log;
    r := RunTail(c, start, r, OrphanStages(c, removeOrphans, timeout), ops, timeout);
    Extended(prev, c.backend.log, start);
  }

  /** `up`: the orphan check, pulling missing images, the build, then the
      operations of the start diff. */
  method RunUp(c: Controller, build: bool, timeout: nat, removeOrphans: bool, built: Result<()>) returns (r: Result<()>)
    modifies c.backend
    ensures |old(c.backend.log)| <= |c.backend.log| && c.backend.log[..|old(c.backend.log)|] == old(c.backend.log)
    ensures RunsStages(Meaning(c), OrphanStages(c, removeOrphans, timeout) +
                          [PullImages(IfNotPresent), BuildImages(build, IfNotPresent, built.Ok?)] +
                          OperationStages(StartDiff(c.composition.containers, c.containers, c.digest), timeout),
                       c.backend.log[|old(c.backend.log)|..], r.Ok?)
  {
    ghost var start := |c.backend.log|;
    ghost var orphanStages := OrphanStages(c, removeOrphans, timeout);
    ghost var prepare := [PullImages(IfNotPresent), BuildImages(build, IfNotPresent, built.Ok?)];
    r := CheckOrphans(c, removeOrphans, timeout);
    if r.Err? {
      RunsFailedPrefix(Meaning(c), orphanStages, prepare, c.backend.log[start..]);
    } else {
      ghost var prev := c.backend.log;
      r := PullAndBuild(c, build, built);
      Extended(prev, c.backend.log, start);
      RunsAppend(Meaning(c), orphanStages, prepare, prev[start..], c.backend.log[|prev|..], r.Ok?);
    }
    var diff := StartDiff(c.composition.containers, c.containers, c.digest);
    r := RunTail(c, start, r, orphanStages + prepare, diff, timeout);
  }

  /** The pull and the build of `up`: missing images are pulled, then the
      build runs unless the pull failed. */
  method PullAndBuild(c: Controller, build: bool, built: Result<()>) returns (r: Result<()>)
    modifies c.backend
    ensures |old(c.backend.log)| <= |c.backend.log| && c.backend.log[..|old(c.backend.log)|] == old(c.backend.log)
    ensures RunsStages(Meaning(c), [PullImages(IfNotPresent), BuildImages(build, IfNotPresent, built.Ok?)],
                       c.backend.log[|old(c.backend.log)|..], r.Ok?)
  {
    var pulled := c.PullImages(IfNotPresent);
    r := if pulled.Ok? then built else pulled;
    PrepareRuns(c, [PullImages(IfNotPresent), BuildImages(build, IfNotPresent, built.Ok?)],
                c.backend.log[|old(c.backend.log)|..], pulled.Ok?, r.Ok?);
  }

  /** The pull and the build of `up`, as stages. */
  lemma PrepareRuns(c: Controller, prepare: seq<Stage>, calls: seq<Call>, pulled: bool, ok: bool)
    requires |prepare| == 2 && prepare[0].PullImages? && prepare[1].BuildImages?
    requires StageRuns(c, prepare[0], calls, pulled)
    requires ok == (pulled && prepare[1].succeeds)
    ensures RunsStages(Meaning(c), prepare, calls, ok)
  {
    if pulled {
      RunsSingle(Meaning(c), prepare[1], [], ok);
      assert prepare[1..] == [prepare[1]];
      assert calls[..|calls|] == calls && calls[|calls|..] == [];
    }
  }

  /** The last stage of a command: apply `ops` if what came before succeeded. */
  method RunTail(c: Controller, ghost start: nat, previous: Result<()>, ghost done: seq<Stage>, ops: Operations, timeout: nat)
    returns (r: Result<()>)
    modifies c.backend
    requires start <= |c.backend.log|
    requires RunsStages(Meaning(c), done, c.backend.log[start..], previous.Ok?)
    ensures |old(c.backend.log)| <= |c.backend.log| && c.backend.log[..|old(c.backend.log)|] == old(c.backend.log)
    ensures RunsStages(Meaning(c), done + OperationStages(ops, timeout), c.backend.log[start..], r.Ok?)
    ensures previous.Err? ==> r == previous
  {
    if previous.Err? {
      RunsFailedPrefix(Meaning(c), done, OperationStages(ops, timeout), c.backend.log[start..]);
      return previous;
    }
    ghost var prev := c.backend.log;
    r := ContainerApply(c, ops, timeout);
    Extended(prev, c.backend.log, start);
    RunsAppend(Meaning(c), done, OperationStages(ops, timeout), prev[start..], c.backend.log[|prev|..], r.Ok?);
  }

  /** The first steps of `main`: find the compose file among the ancestors of
      `cwd` and name the project after its directory. */
  method Locate(cwd: Path, present: Path -> bool) returns (r: Result<string>)
    ensures (forall k :: 0 <= k <= |cwd| ==> !HasComposeFile(cwd[..k], present)) ==> r == Err(NoComposeFile)
    ensures forall k: nat :: Nearest(cwd, present, k) ==> r == (if k == 0 then Err(NoProjectName) else Ok(cwd[k - 1]))
    ensures r.Ok? || r == Err(NoComposeFile) || r == Err(NoProjectName)
  {
    var found := FindComposeFile(cwd, present);
    if found.None? {
      return Err(NoComposeFile);
    }
    ghost var k: nat :| Nearest(cwd, present, k) && found.value == ComposeFileIn(cwd[..k], present);
    FoundProjectName(cwd, present, k);
    forall k': nat | Nearest(cwd, present, k') ensures k' == k {
      NearestUnique(cwd, present, k, k');
    }
    r := ProjectName(found.value);
  }

  /** `main` after the command line is parsed: locate the compose file, build
      the composition from the parsed file, list the project's containers, then
      run the command. */
  method Execute(cwd: Path, present: Path -> bool, file: ComposeFile.DockerComposeFile, backend: Backend,
                 digest: Digest, cmd: Command, built: Result<()>) returns (r: Result<()>)
    modifies backend
    ensures |old(backend.log)| <= |backend.log| && backend.log[..|old(backend.log)|] == old(backend.log)
    ensures (forall k :: 0 <= k <= |cwd| ==> !HasComposeFile(cwd[..k], present)) ==>
              r == Err(NoComposeFile) && backend.log == old(backend.log)
    ensures forall k: nat :: Nearest(cwd, present, k) && k == 0 ==>
              r == Err(NoProjectName) && backend.log == old(backend.log)
    ensures forall k: nat :: Nearest(cwd, present, k) && k > 0 ==>
              |backend.log| > |old(backend.log)| &&
              backend.log[|old(backend.log)|].request == Request.ListContainers([(LabelProject, cwd[k - 1])])
  {
    var projectName := Locate(cwd, present);
    if projectName.Err? {
      return Err(projectName.message);
    }
    r := ExecuteIn(projectName.value, file, backend, digest, cmd, built);
  }

  /** The part of `main` after the project is named: compose, list the
      project's containers, run the command. */
  method ExecuteIn(projectName: string, file: ComposeFile.DockerComposeFile, backend: Backend,
                   digest: Digest, cmd: Command, built: Result<()>) returns (r: Result<()>)
    modifies backend
    ensures |old(backend.log)| < |backend.log| && backend.log[..|old(backend.log)|] == old(backend.log)
    ensures backend.log[|old(backend.log)|].request == Request.ListContainers([(LabelProject, projectName)])
  {
    var composition := Frontend.Compose(projectName, file);
    ghost var start := |backend.log|;
    var controller := Controller.Init(projectName, backend, composition, digest);
    if controller.Err? {
      return Err(controller.message);
    }
    ghost var listed := backend.log;
    r := Run(controller.value, cmd, built);
    Extended(listed, backend.log, start);
    assert backend.log[start] == listed[start];
  }
}
