/** The scoped mount protocol of withAufsMount and withOverlay2Mount: create
    the mount point (an existing one is fine), mount, and once every mount
    command has succeeded run the caller's function on the mount point, then
    unmount and, if that worked, remove the mount point, swallowing any
    failure of that cleanup. A failing mount command ends the run with no
    cleanup. The host is a directory
    set and a log of the commands issued; which commands fail is fixed by
    an oracle. */
module ScopedMount {
  import opened Base
  import opened Paths
  import opened Compose
  import Locator

  /** What the protocol asks of the host. */
  datatype Command = Mkdir(path: string) | Run(command: ShellCommand) | Rmdir(path: string)

  /** The host's answers: which mkdir calls fail for a reason other than
      EEXIST, which commands exit non-zero and which rmdir calls fail. */
  datatype Oracle = Oracle(mkdirFails: set<string>, execFails: set<ShellCommand>, rmdirFails: set<string>)

  /** What a run of the protocol leaves behind: the caller's result, the
      commands issued and the directories that exist. */
  datatype Outcome<T> = Outcome(result: Result<T>, log: seq<Command>, dirs: set<string>)

  /** The log entries of running a list of commands. */
  function Runs(plan: seq<ShellCommand>): (r: seq<Command>)
    ensures |r| == |plan|
  {
    seq(|plan|, i requires 0 <= i < |plan| => Run(plan[i]))
  }

  /** Index of the first command that fails, or the length if none does. */
  function FirstFailure(oracle: Oracle, plan: seq<ShellCommand>): (i: nat)
    ensures i <= |plan|
    ensures forall j :: 0 <= j < i ==> plan[j] !in oracle.execFails
    ensures i < |plan| ==> plan[i] in oracle.execFails
    decreases |plan|
  {
    if |plan| == 0 || plan[0] in oracle.execFails then 0
    else 1 + FirstFailure(oracle, plan[1..])
  }

  /** `umount target`, then `rmdir target` only if the unmount succeeded. */
  function CleanupLog(oracle: Oracle, target: string): seq<Command>
  {
    [Run(Umount(target))] + (if Umount(target) in oracle.execFails then [] else [Rmdir(target)])
  }

  /** The directories after cleanup. */
  function CleanedDirs(oracle: Oracle, dirs: set<string>, target: string): set<string>
  {
    if Umount(target) in oracle.execFails || target !in dirs || target in oracle.rmdirFails then dirs
    else dirs - {target}
  }

  /** The protocol: mkdir (EEXIST tolerated, any other failure ends it),
      then the mount commands (a composition error or the first failing
      command ends it, with the mount point left behind), then `fn`, then
      cleanup; the caller gets `fn`'s own result. */
  function Protocol<T>(oracle: Oracle, dirs: set<string>, target: string,
                       plan: Result<seq<ShellCommand>>, fn: string -> Result<T>): (o: Outcome<T>)
    ensures |o.log| > 0 && o.log[0] == Mkdir(target)
    ensures o.result.Ok? ==> plan.Ok? && o.result == fn(target)
    ensures forall d :: d != target ==> (d in o.dirs <==> d in dirs)
    ensures forall k :: 0 <= k < |o.log| && o.log[k].Rmdir? ==> k == |o.log| - 1 && o.log[k] == Rmdir(target)
  {
    var start := [Mkdir(target)];
    if target !in dirs && target in oracle.mkdirFails then Outcome(Err(MkdirFailure(target)), start, dirs)
    else
      var made := dirs + {target};
      if plan.Err? then Outcome(Err(plan.error), start, made)
      else
        var cmds := plan.value;
        var i := FirstFailure(oracle, cmds);
        if i < |cmds| then Outcome(Err(ExecFailure(cmds[i].Line())), start + Runs(cmds[..i + 1]), made)
        else Outcome(fn(target), start + Runs(cmds) + CleanupLog(oracle, target), CleanedDirs(oracle, made, target))
  }

  /** The mount point is created before anything else. A mkdir failure
      other than EEXIST ends the protocol there; a composition error ends it
      right after, with the mount point left behind and nothing mounted. */
  lemma MkdirComesFirst<T>(oracle: Oracle, dirs: set<string>, target: string,
                           plan: Result<seq<ShellCommand>>, fn: string -> Result<T>)
    ensures
      var o := Protocol(oracle, dirs, target, plan, fn);
      && |o.log| > 0 && o.log[0] == Mkdir(target)
      && (target !in dirs && target in oracle.mkdirFails ==> o == Outcome(Err(MkdirFailure(target)), [Mkdir(target)], dirs))
      && (target in dirs || target !in oracle.mkdirFails ==>
            plan.Err? ==> o == Outcome(Err(plan.error), [Mkdir(target)], dirs + {target}))
  {
  }

  /** A failing mount command ends the protocol with its error: the commands
      up to it have run, no unmount or rmdir is attempted and `fn` is never
      called, so the mount point stays. */
  lemma MountFailureSkipsCleanup<T>(oracle: Oracle, dirs: set<string>, target: string,
                                    plan: seq<ShellCommand>, fn: string -> Result<T>)
    requires target in dirs || target !in oracle.mkdirFails
    requires FirstFailure(oracle, plan) < |plan|
    ensures
      var o := Protocol(oracle, dirs, target, Ok(plan), fn);
      var i := FirstFailure(oracle, plan);
      && o.result == Err(ExecFailure(plan[i].Line()))
      && o.log == [Mkdir(target)] + Runs(plan[..i + 1])
      && target in o.dirs
      && forall c :: c in o.log ==> !c.Rmdir?
  {
  }

  /** Once every mount command has succeeded, the caller gets `fn`'s value or
      error unchanged, and cleanup runs exactly once after the mounts, as the
      last entries of the log:
      `umount` first, `rmdir` only if the unmount worked; the mount point is
      gone afterwards exactly when both worked. */
  lemma CleanupAlwaysFollowsMount<T>(oracle: Oracle, dirs: set<string>, target: string,
                                     plan: seq<ShellCommand>, fn: string -> Result<T>)
    requires target in dirs || target !in oracle.mkdirFails
    requires FirstFailure(oracle, plan) == |plan|
    ensures
      var o := Protocol(oracle, dirs, target, Ok(plan), fn);
      && o.result == fn(target)
      && o.log[..1 + |plan|] == [Mkdir(target)] + Runs(plan)
      && o.log[1 + |plan|] == Run(Umount(target))
      && |o.log| == (if Umount(target) in oracle.execFails then 2 else 3) + |plan|
      && (|o.log| == 3 + |plan| <==> Umount(target) !in oracle.execFails)
      && (|o.log| == 3 + |plan| ==> o.log[2 + |plan|] == Rmdir(target))
      && (target !in o.dirs <==> Umount(target) !in oracle.execFails && target !in oracle.rmdirFails)
      && o.dirs - {target} == dirs - {target}
  {
    var o := Protocol(oracle, dirs, target, Ok(plan), fn);
    assert o.log == [Mkdir(target)] + Runs(plan) + CleanupLog(oracle, target);
    assert o.log[..1 + |plan|] == [Mkdir(target)] + Runs(plan);
  }

  /** The protocol when the mount point could be made and the `m`-th mount
      command is the first to fail. */
  lemma ProtocolStopsAt<T>(oracle: Oracle, dirs: set<string>, target: string,
                           plan: seq<ShellCommand>, fn: string -> Result<T>, m: nat)
    requires target in dirs || target !in oracle.mkdirFails
    requires m < |plan| && plan[m] in oracle.execFails
    requires forall j :: 0 <= j < m ==> plan[j] !in oracle.execFails
    ensures Protocol(oracle, dirs, target, Ok(plan), fn)
         == Outcome(Err(ExecFailure(plan[m].Line())), [Mkdir(target)] + Runs(plan[..m + 1]), dirs + {target})
  {
    assert FirstFailure(oracle, plan) == m;
  }

  /** The protocol when the mount point could be made and every mount
      command succeeded. */
  lemma ProtocolCompletes<T>(oracle: Oracle, dirs: set<string>, target: string,
                             plan: seq<ShellCommand>, fn: string -> Result<T>)
    requires target in dirs || target !in oracle.mkdirFails
    requires forall j :: 0 <= j < |plan| ==> plan[j] !in oracle.execFails
    ensures Protocol(oracle, dirs, target, Ok(plan), fn)
         == Outcome(fn(target), [Mkdir(target)] + Runs(plan) + CleanupLog(oracle, target),
                    CleanedDirs(oracle, dirs + {target}, target))
  {
    assert FirstFailure(oracle, plan) == |plan|;
  }

  /** Running one more command of a plan appends its log entry. */
  lemma RunsSnoc(plan: seq<ShellCommand>, n: nat)
    requires n < |plan|
    ensures Runs(plan[..n + 1]) == Runs(plan[..n]) + [Run(plan[n])]
  {
  }

  /** Running a plan that starts with a given command logs that command,
      then the runs of the rest. */
  lemma RunsCons(first: ShellCommand, rest: seq<ShellCommand>, n: nat)
    requires n <= |rest|
    ensures Runs(([first] + rest)[..n + 1]) == [Run(first)] + Runs(rest[..n])
  {
    assert ([first] + rest)[..n + 1] == [first] + rest[..n];
  }

  /** After a first command that succeeds, the first failure is found in
      the rest. */
  lemma FirstFailureCons(oracle: Oracle, first: ShellCommand, rest: seq<ShellCommand>)
    requires first !in oracle.execFails
    ensures FirstFailure(oracle, [first] + rest) == 1 + FirstFailure(oracle, rest)
  {
    assert ([first] + rest)[1..] == rest;
  }

  /** `log` is `before` followed by the commands of `plan` up to and
      including the first that fails, which is `failed`, or all of them if
      none fails. */
  ghost predicate RanUntilFailure(oracle: Oracle, before: seq<Command>, log: seq<Command>,
                                  plan: seq<ShellCommand>, failed: Option<ShellCommand>)
  {
    var i := FirstFailure(oracle, plan);
    && (failed.Some? <==> i < |plan|)
    && (failed.Some? ==> failed.value == plan[i] && log == before + Runs(plan[..i + 1]))
    && (failed.None? ==> log == before + Runs(plan))
  }

  /** A first command that fails ends the run right after it. */
  lemma RanUntilFirstFails(oracle: Oracle, before: seq<Command>, first: ShellCommand, rest: seq<ShellCommand>)
    requires first in oracle.execFails
    ensures RanUntilFailure(oracle, before, before + [Run(first)], [first] + rest, Some(first))
  {
    RunsCons(first, rest, 0);
    assert FirstFailure(oracle, [first] + rest) == 0;
  }

  /** A first command that succeeds, followed by a run of the rest, is a
      run of the whole plan. */
  lemma RanUntilFailureCons(oracle: Oracle, before: seq<Command>, log: seq<Command>,
                            first: ShellCommand, rest: seq<ShellCommand>, failed: Option<ShellCommand>)
    requires first !in oracle.execFails
    requires RanUntilFailure(oracle, before + [Run(first)], log, rest, failed)
    ensures RanUntilFailure(oracle, before, log, [first] + rest, failed)
  {
    FirstFailureCons(oracle, first, rest);
    var m := FirstFailure(oracle, rest);
    if failed.Some? {
      RunsCons(first, rest, m + 1);
    } else {
      RunsCons(first, rest, |rest|);
      assert rest[..|rest|] == rest && ([first] + rest)[..|rest| + 1] == [first] + rest;
    }
  }

  /** The aufs mount point of an image: `aufs/mnt/tmp-<hash>-<suffix>`. */
  function AufsMountDir(dkroot: string, imageId: string, suffix: string): (r: string)
    ensures dkroot + "/aufs/mnt/tmp-" <= r && EndsWith(r, "-" + suffix)
  {
    Join(Join(dkroot, "aufs/mnt"), Locator.RandomFileName(imageId, suffix))
  }

  /** The overlay2 root directory of the engine; mount points under it are
      named relative to the engine root as `overlay2/...`. */
  function Overlay2Root(dkroot: string): (r: string)
    ensures PathPrefixRemover(RootPrefix(dkroot), r) == "overlay2"
  {
    Join(dkroot, "overlay2")
  }

  /** The host the protocol runs on. */
  class Host {
    var dirs: set<string>
    var log: seq<Command>
    const oracle: Oracle

    constructor (oracle: Oracle, dirs: set<string>)
      ensures this.oracle == oracle && this.dirs == dirs && log == []
    {
      this.oracle := oracle;
      this.dirs := dirs;
      log := [];
    }

    /** `fs.mkdir(path)` with EEXIST caught. */
    method MakeDir(path: string) returns (r: Result<()>)
      modifies this
      ensures log == old(log) + [Mkdir(path)]
      ensures r.Err? <==> path !in old(dirs) && path in oracle.mkdirFails
      ensures r.Err? ==> r.error == MkdirFailure(path) && dirs == old(dirs)
      ensures r.Ok? ==> dirs == old(dirs) + {path}
    {
      log := log + [Mkdir(path)];
      if path !in dirs && path in oracle.mkdirFails {
        return Err(MkdirFailure(path));
      }
      dirs := dirs + {path};
      return Ok(());
    }

    /** `execAsync(command.Line(), {cwd})`: true when the command exits zero. */
    method Exec(command: ShellCommand) returns (ok: bool)
      modifies this
      ensures log == old(log) + [Run(command)] && dirs == old(dirs)
      ensures ok <==> command !in oracle.execFails
    {
      log := log + [Run(command)];
      ok := command !in oracle.execFails;
    }

    /** `fs.rmdir(path)`: fails on a missing directory or by the oracle. */
    method RemoveDir(path: string) returns (ok: bool)
      modifies this
      ensures log == old(log) + [Rmdir(path)]
      ensures ok <==> path in old(dirs) && path !in oracle.rmdirFails
      ensures dirs == if ok then old(dirs) - {path} else old(dirs)
    {
      log := log + [Rmdir(path)];
      ok := path in dirs && path !in oracle.rmdirFails;
      if ok {
        dirs := dirs - {path};
      }
    }

    /** The `finally` block: unmount, then remove the mount point; a failure
        of either is only logged by the source. */
    method Cleanup(target: string)
      modifies this
      ensures log == old(log) + CleanupLog(oracle, target)
      ensures dirs == CleanedDirs(oracle, old(dirs), target)
    {
      var unmounted := Exec(Umount(target));
      if unmounted {
        var removed := RemoveDir(target);
      }
    }

    /** The remount loop of withAufsMount: appends the branches one by one,
        stopping at the first remount that fails, which it returns. */
    method AppendBranches(branches: seq<string>) returns (failed: Option<ShellCommand>)
      modifies this
      ensures dirs == old(dirs)
      ensures RanUntilFailure(oracle, old(log), log, RemountPlan(branches), failed)
    {
      ghost var plan := RemountPlan(branches);
      var i := 0;
      while i < |branches|
        invariant i <= |branches|
        invariant dirs == old(dirs)
        invariant log == old(log) + Runs(plan[..i])
        invariant forall j :: 0 <= j < i ==> plan[j] !in oracle.execFails
      {
        var remount := AufsAppend(branches[i]);
        var ok := Exec(remount);
        RunsSnoc(plan, i);
        if !ok {
          assert FirstFailure(oracle, plan) == i;
          return Some(remount);
        }
        i := i + 1;
      }
      assert plan[..i] == plan;
      return None;
    }

    /** The mount commands of withAufsMount: mount the first `k` branches,
        then append the rest, stopping at the first failure. */
    method MountBranches(target: string, branches: seq<string>, k: nat) returns (failed: Option<ShellCommand>)
      requires k <= |branches|
      modifies this
      ensures dirs == old(dirs)
      ensures RanUntilFailure(oracle, old(log), log, AufsCommands(target, branches, k), failed)
    {
      var mount := AufsMount(branches[..k], target);
      ghost var rest := RemountPlan(branches[k..]);
      assert AufsCommands(target, branches, k) == [mount] + rest;
      ghost var before := log;
      var ok := Exec(mount);
      if !ok {
        RanUntilFirstFails(oracle, before, mount, rest);
        return Some(mount);
      }
      failed := AppendBranches(branches[k..]);
      RanUntilFailureCons(oracle, before, log, mount, rest, failed);
    }

    /** The end of both protocols, once the mount point exists and the mount
        commands have run: report the failed command, or call `fn` and clean
        up. */
    method FinishMounted<T>(target: string, ghost dirs0: set<string>, ghost before: seq<Command>,
                            ghost plan: seq<ShellCommand>, failed: Option<ShellCommand>,
                            fn: string -> Result<T>) returns (r: Result<T>)
      requires target in dirs0 || target !in oracle.mkdirFails
      requires dirs == dirs0 + {target}
      requires RanUntilFailure(oracle, before + [Mkdir(target)], log, plan, failed)
      modifies this
      ensures
        var o := Protocol(oracle, dirs0, target, Ok(plan), fn);
        r == o.result && log == before + o.log && dirs == o.dirs
    {
      if failed.Some? {
        ProtocolStopsAt(oracle, dirs0, target, plan, fn, FirstFailure(oracle, plan));
        return Err(ExecFailure(failed.value.Line()));
      }
      ProtocolCompletes(oracle, dirs0, target, plan, fn);
      r := fn(target);
      Cleanup(target);
    }

    /** withAufsMount: mkdir, mount the branches (as many as fit in a page,
        then one remount per remaining branch), call `fn`, clean up. */
    method WithAufsMount<T>(target: string, layerDiffPaths: seq<string>, fn: string -> Result<T>) returns (r: Result<T>)
      modifies this
      ensures
        var o := Protocol(oracle, old(dirs), target, Ok(AufsPlan(target, layerDiffPaths)), fn);
        r == o.result && log == old(log) + o.log && dirs == o.dirs
    {
      var made := MakeDir(target);
      if made.Err? {
        MkdirComesFirst(oracle, old(dirs), target, Ok(AufsPlan(target, layerDiffPaths)), fn);
        return Err(made.error);
      }
      var branches := Branches(layerDiffPaths);
      var k := AufsSplitIndex(branches);
      var failed := MountBranches(target, branches, k);
      r := FinishMounted(target, old(dirs), old(log), AufsCommands(target, branches, k), failed, fn);
    }

    /** withOverlay2Mount: with no lower dirs, just `fn(diffDir)`; otherwise
        mkdir, compose the options (reading link files for the relative
        form), mount, call `fn`, clean up. */
    method WithOverlay2Mount<T>(links: map<string, string>, fsRoot: string, target: string,
                                lowers: string, diffDir: string, workDir: string,
                                fn: string -> Result<T>) returns (r: Result<T>)
      modifies this
      ensures lowers == "" ==> r == fn(diffDir) && log == old(log) && dirs == old(dirs)
      ensures lowers != "" ==>
        var o := Protocol(oracle, old(dirs), target, Overlay2Plan(links, fsRoot, target, lowers, diffDir, workDir), fn);
        r == o.result && log == old(log) + o.log && dirs == o.dirs
    {
      if lowers == "" {
        return fn(diffDir);
      }
      var made := MakeDir(target);
      if made.Err? {
        return Err(made.error);
      }
      var plan := Overlay2Plan(links, fsRoot, target, lowers, diffDir, workDir);
      if plan.Err? {
        return Err(plan.error);
      }
      var ok := Exec(plan.value[0]);
      if !ok {
        assert plan.value[..1] == plan.value;
        return Err(ExecFailure(plan.value[0].Line()));
      }
      r := fn(target);
      Cleanup(target);
    }

    /** withImageRootDirMounted: the full root filesystem of an image, mounted
        for aufs and overlay2 (under a mount point made unique by `suffix`,
        the random part of the name), the plain root directory otherwise. */
    method WithImageRootDirMounted<T>(libs: Locator.Libs, info: Locator.EngineInfo, image: Locator.ImageInfo,
                                      store: Locator.LayerStore, suffix: string,
                                      fn: string -> Result<T>) returns (r: Result<T>)
      modifies this
      ensures Locator.ParseDriver(info.driver) == Locator.Aufs ==>
        match Locator.DiffPathsOf(libs, info, image, store)
        case Err(e) => r == Err(e) && log == old(log) && dirs == old(dirs)
        case Ok(paths) =>
          var target := AufsMountDir(info.rootDir, image.id, suffix);
          var o := Protocol(oracle, old(dirs), target, Ok(AufsPlan(target, paths)), fn);
          r == o.result && log == old(log) + o.log && dirs == o.dirs
      ensures Locator.ParseDriver(info.driver) == Locator.Overlay2 ==>
        var fsRoot := Overlay2Root(info.rootDir);
        var target := Join(fsRoot, Locator.RandomFileName(image.id, suffix));
        if image.lowerDir == "" then r == fn(image.upperDir) && log == old(log) && dirs == old(dirs)
        else
          var o := Protocol(oracle, old(dirs), target,
                            Overlay2Plan(store.links, fsRoot, target, image.lowerDir, image.upperDir, image.workDir), fn);
          r == o.result && log == old(log) + o.log && dirs == o.dirs
      ensures Locator.ParseDriver(info.driver) != Locator.Aufs && Locator.ParseDriver(info.driver) != Locator.Overlay2 ==>
        log == old(log) && dirs == old(dirs) &&
        match Locator.ImageRootDir(libs, info, image, store)
        case Err(e) => r == Err(e)
        case Ok(rootDir) => r == fn(rootDir)
    {
      var driver := Locator.ParseDriver(info.driver);
      if driver == Locator.Aufs {
        var layerDiffPaths := Locator.DiffPaths(libs, info, image, store);
        if layerDiffPaths.Err? {
          return Err(layerDiffPaths.error);
        }
        var target := AufsMountDir(info.rootDir, image.id, suffix);
        r := WithAufsMount(target, layerDiffPaths.value, fn);
      } else if driver == Locator.Overlay2 {
        var fsRoot := Overlay2Root(info.rootDir);
        var target := Join(fsRoot, Locator.RandomFileName(image.id, suffix));
        r := WithOverlay2Mount(store.links, fsRoot, target, image.lowerDir, image.upperDir, image.workDir, fn);
      } else {
        var rootDir := Locator.ImageRootDir(libs, info, image, store);
        if rootDir.Err? {
          return Err(rootDir.error);
        }
        r := fn(rootDir.value);
      }
    }
  }
}
