/** `resolve_store_path` of `src/data/store.rs`: publishing an embedded store file
    by writing a private temporary file and renaming it into place, with any
    number of processes sharing the directory. */
module StorePublication {
  import opened Options

  type Bytes = seq<int>

  /** Paths in the shared directory: the published file of a version, and the
      temporary files, named after process id and counter */
  datatype Path = Shared(version: string) | Temp(version: string, pid: nat, counter: nat)

  // ----- the rename loop -----

  const MAX_RETRIES: nat := 5

  /** Milliseconds slept after `retries` failed renames */
  function Backoff(retries: nat): nat {
    if retries == 0 then 0 else Backoff(retries - 1) + 50 * retries
  }

  /** The loop around `rename`, where `renames(k)` is the result of the k-th try */
  method RenameIntoPlace(renames: nat -> bool) returns (ok: bool, tries: nat, slept: nat)
    ensures 1 <= tries <= 6
    ensures forall k: nat :: k < tries - 1 ==> !renames(k)
    ensures ok <==> renames(tries - 1)
    ensures !ok ==> tries == 6
    ensures slept == 25 * (tries - 1) * tries && slept <= 750
  {
    var retries: nat := 0;
    slept := 0;
    while true
      invariant retries <= MAX_RETRIES && slept == Backoff(retries)
      invariant forall k: nat :: k < retries ==> !renames(k)
      decreases MAX_RETRIES - retries
    {
      if renames(retries) {
        BackoffIsBounded(retries);
        return true, retries + 1, slept;
      }
      if retries >= MAX_RETRIES {
        BackoffIsBounded(retries);
        return false, retries + 1, slept;
      }
      retries := retries + 1;
      slept := slept + 50 * retries;
    }
  }

  lemma {:induction false} BackoffIsBounded(retries: nat)
    requires retries <= MAX_RETRIES
    ensures Backoff(retries) == 25 * retries * (retries + 1) <= 750
  {
    if retries > 0 {
      BackoffIsBounded(retries - 1);
    }
  }

  // ----- processes sharing the directory -----

  /** What the one caller that holds a process's lock is doing */
  datatype Task =
    | Idle
    | Writing(version: string, tmp: Path, written: nat)
    | Renaming(version: string, tmp: Path, retries: nat)

  /** `images` are the embedded files, `extracted` the process-wide map, `counter`
      the `UNIQUE` counter; `published` lists the successful renames. */
  datatype Process = Process(images: map<string, Bytes>, extracted: set<string>, counter: nat, task: Task,
      published: seq<string>)

  /** `builds` are the images of every process that ever ran. */
  datatype World = World(files: map<Path, Bytes>, processes: map<nat, Process>, builds: set<(string, Bytes)>)

  datatype Step =
    | Spawn(pid: nat, images: map<string, Bytes>)
    | Exit(pid: nat)
    | Begin(pid: nat, version: string)
    | WritePiece(pid: nat, count: nat)
    | WriteEnds(pid: nat)
    | WriteFails(pid: nat)
    | RenameWorks(pid: nat)
    | RenameFails(pid: nat)

  function WithTask(w: World, pid: nat, task: Task): World
    requires pid in w.processes
  {
    w.(processes := w.processes[pid := w.processes[pid].(task := task)])
  }

  function BuildsOf(images: map<string, Bytes>): set<(string, Bytes)> {
    set version | version in images :: (version, images[version])
  }

  /** A step that is not possible leaves the world as it is. */
  function Apply(w: World, step: Step): World {
    if step.Spawn? then
      if step.pid in w.processes then w
      else
        w.(processes := w.processes[step.pid := Process(step.images, {}, 0, Idle, [])],
           builds := w.builds + BuildsOf(step.images))
    else if step.pid !in w.processes then w
    else
      var p := w.processes[step.pid];
      match step
      case Exit(pid) => w.(processes := w.processes - {pid})
      case Begin(pid, version) =>
        if p.task.Idle? && version in p.images && version !in p.extracted then
          var tmp := Temp(version, pid, p.counter);
          w.(files := w.files[tmp := []],
             processes := w.processes[pid := p.(counter := p.counter + 1, task := Writing(version, tmp, 0))])
        else w
      case WritePiece(pid, count) =>
        if p.task.Writing? && p.task.version in p.images && p.task.written + count <= |p.images[p.task.version]| then
          var written := p.task.written + count;
          WithTask(w.(files := w.files[p.task.tmp := p.images[p.task.version][..written]]), pid,
            p.task.(written := written))
        else w
      case WriteEnds(pid) =>
        if p.task.Writing? && p.task.version in p.images && p.task.written == |p.images[p.task.version]|
        then WithTask(w, pid, Renaming(p.task.version, p.task.tmp, 0))
        else w
      case WriteFails(pid) =>
        if p.task.Writing? then WithTask(w, pid, Idle) else w
      case RenameWorks(pid) =>
        if p.task.Renaming? && p.task.tmp in w.files then
          var version := p.task.version;
          w.(files := (w.files - {p.task.tmp})[Shared(version) := w.files[p.task.tmp]],
             processes := w.processes[pid := p.(extracted := p.extracted + {version}, task := Idle,
               published := p.published + [version])])
        else w
      case RenameFails(pid) =>
        if p.task.Renaming? then
          WithTask(w, pid, if p.task.retries < MAX_RETRIES then p.task.(retries := p.task.retries + 1) else Idle)
        else w
  }

  function After(w: World, steps: seq<Step>): World {
    if steps == [] then w else Apply(After(w, steps[..|steps| - 1]), steps[|steps| - 1])
  }

  // ----- safety -----

  /** A file at a shared path is the complete image some process was built with. */
  ghost predicate Published(w: World) {
    forall version :: Shared(version) in w.files ==> (version, w.files[Shared(version)]) in w.builds
  }

  /** A process's temporary file is its own and holds what it has written. */
  ghost predicate TaskOk(w: World, pid: nat, p: Process) {
    && (forall version :: version in p.images ==> (version, p.images[version]) in w.builds)
    && (!p.task.Idle? ==>
          && p.task.version in p.images && p.task.version !in p.extracted
          && p.task.tmp.Temp? && p.task.tmp.pid == pid && p.task.tmp in w.files)
    && (p.task.Writing? ==>
          p.task.written <= |p.images[p.task.version]| &&
            w.files[p.task.tmp] == p.images[p.task.version][..p.task.written])
    && (p.task.Renaming? ==> p.task.retries <= MAX_RETRIES && w.files[p.task.tmp] == p.images[p.task.version])
    && (forall version :: version in p.published <==> version in p.extracted)
    && (forall i, j :: 0 <= i < j < |p.published| ==> p.published[i] != p.published[j])
  }

  ghost predicate Safe(w: World) {
    Published(w) && forall pid :: pid in w.processes ==> TaskOk(w, pid, w.processes[pid])
  }

  /** No process, and a directory that holds at most complete files of known builds */
  ghost predicate Initial(w: World) {
    Published(w) && w.processes == map[]
  }

  lemma StepIsSafe(w: World, step: Step)
    requires Safe(w)
    ensures Safe(Apply(w, step))
  {
    var w' := Apply(w, step);
    if w' != w {
      if step.pid in w.processes {
        assert TaskOk(w, step.pid, w.processes[step.pid]);
      }
      forall pid | pid in w'.processes ensures TaskOk(w', pid, w'.processes[pid]) {
      }
    }
  }

  /** On every run, whatever fails and whoever dies: the file at a shared path is
      absent or complete, and no process publishes a version twice. */
  lemma {:induction false} PublicationIsAtomic(w: World, steps: seq<Step>)
    requires Initial(w)
    ensures Safe(After(w, steps))
  {
    if steps != [] {
      PublicationIsAtomic(w, steps[..|steps| - 1]);
      StepIsSafe(After(w, steps[..|steps| - 1]), steps[|steps| - 1]);
    }
  }

  /** A shared file changes in one step only, a rename, and then to a complete image
      of the process that renamed it. */
  lemma SharedChangesByRename(w: World, step: Step, version: string)
    requires Safe(w)
    ensures var path, w' := Shared(version), Apply(w, step);
            && (path in w.files ==> path in w'.files)
            && (path in w'.files && (path !in w.files || w.files[path] != w'.files[path]) ==>
                  && step.RenameWorks? && step.pid in w.processes
                  && version in w.processes[step.pid].images && w'.files[path] == w.processes[step.pid].images[version]
                  && version in w'.processes[step.pid].extracted)
  {
    if step.pid in w.processes {
      assert TaskOk(w, step.pid, w.processes[step.pid]);
    }
  }

  // ----- whose file it is -----

  /** The step puts a file of this version in place. */
  predicate Publishes(w: World, step: Step, version: string) {
    step.RenameWorks? && step.pid in w.processes && version in w.processes[step.pid].images
    && var task := w.processes[step.pid].task;
    task.Renaming? && task.version == version && task.tmp in w.files
  }

  /** The image that was put in place last */
  function LastPublished(w: World, steps: seq<Step>, version: string): Option<Bytes> {
    if steps == [] then None
    else
      var before, step := After(w, steps[..|steps| - 1]), steps[|steps| - 1];
      if Publishes(before, step, version) then Some(before.processes[step.pid].images[version])
      else LastPublished(w, steps[..|steps| - 1], version)
  }

  function FileAt(w: World, version: string): Option<Bytes> {
    if Shared(version) in w.files then Some(w.files[Shared(version)]) else None
  }

  lemma StepPublishes(w: World, step: Step, version: string)
    requires Safe(w)
    ensures FileAt(Apply(w, step), version) ==
            if Publishes(w, step, version) then Some(w.processes[step.pid].images[version]) else FileAt(w, version)
  {
    if step.pid in w.processes {
      assert TaskOk(w, step.pid, w.processes[step.pid]);
    }
  }

  /** The shared file is always the image that was put in place last, or what was
      there at the start. */
  lemma {:induction false} FileIsLastPublished(w: World, steps: seq<Step>, version: string)
    requires Initial(w)
    ensures FileAt(After(w, steps), version) ==
            if LastPublished(w, steps, version).Some? then LastPublished(w, steps, version) else FileAt(w, version)
  {
    if steps != [] {
      var front := steps[..|steps| - 1];
      FileIsLastPublished(w, front, version);
      PublicationIsAtomic(w, front);
      StepPublishes(After(w, front), steps[|steps| - 1], version);
    }
  }

  /** Every step from `n` on that puts this version in place puts `image` there. */
  ghost predicate OnlyPublishes(w: World, steps: seq<Step>, n: nat, version: string, image: Bytes) {
    forall k :: n <= k < |steps| && Publishes(After(w, steps[..k]), steps[k], version) ==>
      After(w, steps[..k]).processes[steps[k].pid].images[version] == image
  }

  /** What a process opens after it has published: its own build's image exactly
      when the last publication since, its own included, was of that image, and so
      as long as no process of another build publishes. */
  lemma OwnImageIff(w: World, steps: seq<Step>, n: nat, version: string)
    requires Initial(w) && n < |steps| && Publishes(After(w, steps[..n]), steps[n], version)
    ensures var image := After(w, steps[..n]).processes[steps[n].pid].images[version];
            && (FileAt(After(w, steps), version) == Some(image) <==> LastPublished(w, steps, version) == Some(image))
            && (OnlyPublishes(w, steps, n, version, image) ==> FileAt(After(w, steps), version) == Some(image))
  {
    var image := After(w, steps[..n]).processes[steps[n].pid].images[version];
    FileIsLastPublished(w, steps, version);
    PublishedSince(w, steps, n, version, image);
  }

  lemma {:induction false} PublishedSince(w: World, steps: seq<Step>, n: nat, version: string, image: Bytes)
    requires n < |steps| && Publishes(After(w, steps[..n]), steps[n], version)
    ensures LastPublished(w, steps, version).Some?
    ensures OnlyPublishes(w, steps, n, version, image) ==> LastPublished(w, steps, version) == Some(image)
    decreases |steps|
  {
    var m := |steps| - 1;
    var front := steps[..m];
    if n < m && !Publishes(After(w, front), steps[m], version) {
      assert forall k :: 0 <= k <= m ==> front[..k] == steps[..k];
      PublishedSince(w, front, n, version, image);
    }
  }

  /** A process that extracts without being disturbed */
  function Extraction(pid: nat, version: string, image: Bytes): seq<Step> {
    [Spawn(pid, map[version := image]), Begin(pid, version), WritePiece(pid, |image|), WriteEnds(pid), RenameWorks(pid)]
  }

  function Extracted(w: World, pid: nat, version: string, image: Bytes): World {
    var tmp := Temp(version, pid, 0);
    World((w.files[tmp := image] - {tmp})[Shared(version) := image],
          w.processes[pid := Process(map[version := image], {version}, 1, Idle, [version])],
          w.builds + {(version, image)})
  }

  /** On the way: the temporary file holds `written`. */
  function Extracting(w: World, pid: nat, version: string, image: Bytes, written: Bytes, task: Task): World {
    World(w.files[Temp(version, pid, 0) := written],
          w.processes[pid := Process(map[version := image], {}, 1, task, [])],
          w.builds + {(version, image)})
  }

  lemma ExtractionBegins(w: World, pid: nat, version: string, image: Bytes)
    requires pid !in w.processes
    ensures Apply(Apply(w, Spawn(pid, map[version := image])), Begin(pid, version)) ==
            Extracting(w, pid, version, image, [], Writing(version, Temp(version, pid, 0), 0))
  {
    OneBuild(version, image);
  }

  lemma OneBuild(version: string, image: Bytes)
    ensures BuildsOf(map[version := image]) == {(version, image)}
  {
    var images := map[version := image];
    assert images.Keys == {version};
    assert (version, images[version]) in BuildsOf(images);
  }

  lemma ExtractionWrites(w: World, pid: nat, version: string, image: Bytes)
    ensures var tmp := Temp(version, pid, 0);
            && Apply(Extracting(w, pid, version, image, [], Writing(version, tmp, 0)), WritePiece(pid, |image|)) ==
               Extracting(w, pid, version, image, image, Writing(version, tmp, |image|))
            && Apply(Extracting(w, pid, version, image, image, Writing(version, tmp, |image|)), WriteEnds(pid)) ==
               Extracting(w, pid, version, image, image, Renaming(version, tmp, 0))
  {
    assert image[..|image|] == image;
  }

  lemma ExtractionEnds(w: World, pid: nat, version: string, image: Bytes)
    ensures var renaming := Renaming(version, Temp(version, pid, 0), 0);
            Apply(Extracting(w, pid, version, image, image, renaming), RenameWorks(pid)) ==
            Extracted(w, pid, version, image)
  {
    assert {} + {version} == {version} && [] + [version] == [version];
  }

  lemma ExtractionRuns(w: World, steps: seq<Step>, pid: nat, version: string, image: Bytes)
    requires pid !in After(w, steps).processes
    ensures After(w, steps + Extraction(pid, version, image)) == Extracted(After(w, steps), pid, version, image)
  {
    var one := steps + [Spawn(pid, map[version := image])];
    var two := one + [Begin(pid, version)];
    var three := two + [WritePiece(pid, |image|)];
    var four := three + [WriteEnds(pid)];
    assert steps + Extraction(pid, version, image) == four + [RenameWorks(pid)];
    RunAppend(w, steps, Spawn(pid, map[version := image]));
    RunAppend(w, one, Begin(pid, version));
    RunAppend(w, two, WritePiece(pid, |image|));
    RunAppend(w, three, WriteEnds(pid));
    RunAppend(w, four, RenameWorks(pid));
    ExtractionBegins(After(w, steps), pid, version, image);
    ExtractionWrites(After(w, steps), pid, version, image);
    ExtractionEnds(After(w, steps), pid, version, image);
  }

  lemma RunAppend(w: World, steps: seq<Step>, step: Step)
    ensures After(w, steps + [step]) == Apply(After(w, steps), step)
  {
    assert (steps + [step])[..|steps|] == steps;
  }

  function Failures(pid: nat, n: nat): seq<Step> {
    seq(n, _ => RenameFails(pid))
  }

  /** A process whose renames fail tries six times and then gives up. */
  lemma {:induction false} GivesUpAfterSix(w: World, pid: nat, n: nat)
    requires pid in w.processes && w.processes[pid].task.Renaming? && w.processes[pid].task.retries == 0
    ensures var after := After(w, Failures(pid, n));
            && after.files == w.files && pid in after.processes
            && after.processes[pid].task == if n < 6 then w.processes[pid].task.(retries := n) else Idle
  {
    if n > 0 {
      GivesUpAfterSix(w, pid, n - 1);
      assert Failures(pid, n) == Failures(pid, n - 1) + [RenameFails(pid)];
      RunAppend(w, Failures(pid, n - 1), RenameFails(pid));
      FailureCounts(After(w, Failures(pid, n - 1)), pid);
    }
  }

  lemma FailureCounts(w: World, pid: nat)
    requires pid in w.processes
    ensures var after, task := Apply(w, RenameFails(pid)), w.processes[pid].task;
            && after.files == w.files && pid in after.processes
            && after.processes[pid].task ==
               if !task.Renaming? then task
               else if task.retries < 5 then task.(retries := task.retries + 1) else Idle
  {
  }

  /** Two builds that start one after the other: the first has extracted its image
      and from then on uses the path without looking again, but the file there is
      the other build's. */
  lemma OtherBuildShadows()
    ensures var steps := Extraction(1, "v", [1]) + Extraction(2, "v", [2]);
            var w := After(World(map[], map[], {}), steps);
            && 1 in w.processes && "v" in w.processes[1].extracted && w.processes[1].images == map["v" := [1]]
            && FileAt(w, "v") == Some([2])
  {
    var w0 := World(map[], map[], {});
    var first := Extraction(1, "v", [1]);
    assert [] + first == first;
    ExtractionRuns(w0, [], 1, "v", [1]);
    ExtractionRuns(w0, first, 2, "v", [2]);
  }
}
