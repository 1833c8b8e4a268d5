/** The arguments withAufsMount and withOverlay2Mount hand to `mount`. The
    kernel accepts at most one page of mount data, so the aufs branch list is
    cut after the longest prefix that fits (the rest is appended by remounts)
    and the overlay2 options fall back to short relative layer links when the
    absolute form would not fit. */
module Compose {
  import opened Base
  import opened Paths

  /** The page size mount data has to fit in. */
  const MinPageSize: int := 4096

  /** The fixed head of the aufs mount options. */
  const AufsOptionsHead: string := "noxino,ro,br="

  /** A command the toolbelt runs through the shell. */
  datatype ShellCommand =
    | AufsMount(branches: seq<string>, target: string)     // the initial aufs mount
    | AufsAppend(branch: string)                           // one branch appended by a remount
    | OverlayMount(options: string, target: string, cwd: Option<string>)
    | Umount(target: string)
  {
    /** The command line, as the source writes it: an unmount or a mount,
        naming its mount point last. The remount's mount point is the branch
        string itself, as in the source. */
    function Line(): (r: string)
      ensures Umount? <==> "umount " <= r
      ensures !Umount? ==> "mount -t " <= r
      ensures !AufsAppend? ==> EndsWith(r, " " + target)
      ensures AufsAppend? ==> EndsWith(r, " " + branch)
    {
      match this
      case AufsMount(branches, target) => MountLine("aufs -o '" + BranchOptions(branches) + "' none", target)
      case AufsAppend(branch) => MountLine("aufs -o 'remount,append:" + branch + "' none", branch)
      case OverlayMount(options, target, _) => MountLine("overlay overlay -o '" + options + "'", target)
      case Umount(target) => "umount " + target
    }

    /** The directory the command runs in; `None` is the caller's own. */
    function Cwd(): Option<string>
    {
      if OverlayMount? then cwd else None
    }
  }

  /** `mount -t <args> <mountPoint>`. */
  function MountLine(args: string, mountPoint: string): (r: string)
    ensures "mount -t " <= r && r[0] == 'm'
    ensures EndsWith(r, " " + mountPoint)
  {
    var head := "mount -t " + args;
    assert (head + (" " + mountPoint))[..|head|] == head;
    head + (" " + mountPoint)
  }

  /** A layer directory as a read-only, whiteout-aware aufs branch. */
  function Branch(path: string): string
  {
    path + "=ro+wh"
  }

  /** Every layer directory as a branch, in order. */
  function Branches(paths: seq<string>): (r: seq<string>)
    ensures |r| == |paths|
  {
    seq(|paths|, i requires 0 <= i < |paths| => Branch(paths[i]))
  }

  /** The aufs options for a list of branches: the fixed head, then the
      branches, from which `:`-free branches split back. */
  function BranchOptions(branches: seq<string>): (r: string)
    ensures AufsOptionsHead <= r
    ensures |branches| > 0 && (forall i :: 0 <= i < |branches| ==> ':' !in branches[i])
            ==> Split(r[|AufsOptionsHead|..], ':') == branches
  {
    if |branches| > 0 && (forall i :: 0 <= i < |branches| ==> ':' !in branches[i]) then
      JoinSplit(branches, ':');
      AufsOptionsHead + JoinWith(branches, ':')
    else
      AufsOptionsHead + JoinWith(branches, ':')
  }

  /** Taking one more branch adds its length, plus one for the separator
      unless it is the first. */
  lemma BranchOptionsSnoc(branches: seq<string>, k: nat)
    requires k < |branches|
    ensures |BranchOptions(branches[..k + 1])|
         == |BranchOptions(branches[..k])| + |branches[k]| + (if k == 0 then 0 else 1)
  {
    if k == 0 {
      assert branches[..1] == [branches[0]];
    } else {
      assert branches[..k + 1] == branches[..k] + [branches[k]];
      JoinWithSnoc(branches[..k], branches[k], ':');
    }
  }

  /** The length of the options for the first `n` branches, counted as the
      source counts it: the fixed head, then each branch and, from the second
      on, its separator. */
  function OptionsLength(branches: seq<string>, n: nat): nat
    requires n <= |branches|
    decreases n
  {
    if n == 0 then |AufsOptionsHead|
    else OptionsLength(branches, n - 1) + |branches[n - 1]| + (if n == 1 then 0 else 1)
  }

  /** The count is the length of the options string itself. */
  lemma {:induction false} OptionsLengthIsLength(branches: seq<string>, n: nat)
    requires n <= |branches|
    ensures OptionsLength(branches, n) == |BranchOptions(branches[..n])|
    decreases n
  {
    if n > 0 {
      OptionsLengthIsLength(branches, n - 1);
      BranchOptionsSnoc(branches, n - 1);
    }
  }

  /** Longer prefixes never give shorter counts. */
  lemma {:induction false} OptionsLengthMonotone(branches: seq<string>, i: nat, j: nat)
    requires i <= j <= |branches|
    ensures OptionsLength(branches, i) <= OptionsLength(branches, j)
    decreases j - i
  {
    if i < j {
      OptionsLengthMonotone(branches, i, j - 1);
    }
  }

  /** The longest prefix of at most `n` branches whose options fit in a page,
      found by shortening from `n`. */
  function FitWithin(branches: seq<string>, n: nat): (k: nat)
    requires n <= |branches|
    ensures k <= n
    ensures k < n ==> OptionsLength(branches, n) > MinPageSize
    decreases n
  {
    if n == 0 || OptionsLength(branches, n) <= MinPageSize then n
    else FitWithin(branches, n - 1)
  }

  /** The number of branches mounted at once: the longest prefix that fits;
      all of them when their options fit in a page. */
  function LongestFit(branches: seq<string>): (k: nat)
    ensures k <= |branches|
    ensures |BranchOptions(branches)| <= MinPageSize ==> k == |branches|
  {
    OptionsLengthIsLength(branches, |branches|);
    assert branches[..|branches|] == branches;
    FitWithin(branches, |branches|)
  }

  /** The search result fits, and no longer prefix up to `n` does. */
  lemma {:induction false} FitWithinIsLongest(branches: seq<string>, n: nat)
    requires n <= |branches|
    ensures OptionsLength(branches, FitWithin(branches, n)) <= MinPageSize
    ensures forall j :: FitWithin(branches, n) < j <= n ==> OptionsLength(branches, j) > MinPageSize
    decreases n
  {
    if n > 0 && OptionsLength(branches, n) > MinPageSize {
      FitWithinIsLongest(branches, n - 1);
    }
  }

  /** The mounted prefix fits in a page and is the longest that does. */
  lemma LongestFitIsLongest(branches: seq<string>)
    ensures LongestFit(branches) <= |branches|
    ensures |BranchOptions(branches[..LongestFit(branches)])| <= MinPageSize
    ensures forall j :: LongestFit(branches) < j <= |branches| ==> |BranchOptions(branches[..j])| > MinPageSize
  {
    FitWithinIsLongest(branches, |branches|);
    forall j | 0 <= j <= |branches|
      ensures OptionsLength(branches, j) == |BranchOptions(branches[..j])|
    {
      OptionsLengthIsLength(branches, j);
    }
  }

  /** A prefix that fits, followed by one that does not, is where the search
      from any later length stops. */
  lemma {:induction false} FitWithinStopsAt(branches: seq<string>, n: nat, k: nat)
    requires k < n <= |branches|
    requires OptionsLength(branches, k) <= MinPageSize < OptionsLength(branches, k + 1)
    ensures FitWithin(branches, n) == k
    decreases n
  {
    OptionsLengthMonotone(branches, k + 1, n);
    if n > k + 1 {
      FitWithinStopsAt(branches, n - 1, k);
    }
  }

  /** The findIndex callback of withAufsMount: counts down the bytes left in
      the page as branches and separators are added, and stops at the first
      branch that would overdraw it (the last branch needs no separator,
      hence `< -1`). */
  method AufsSplitIndex(branches: seq<string>) returns (k: nat)
    ensures k == LongestFit(branches)
  {
    var remaining := MinPageSize - |AufsOptionsHead|;
    k := 0;
    while k < |branches|
      invariant k <= |branches|
      invariant OptionsLength(branches, k) <= MinPageSize
      invariant remaining == MinPageSize - OptionsLength(branches, k) - (if k == 0 then 0 else 1)
    {
      remaining := remaining - (|branches[k]| + 1);
      if remaining < -1 {
        FitWithinStopsAt(branches, |branches|, k);
        return;
      }
      k := k + 1;
    }
  }

  /** One remount per branch, in order. */
  function RemountPlan(branches: seq<string>): (plan: seq<ShellCommand>)
    ensures |plan| == |branches|
    ensures forall i :: 0 <= i < |branches| ==> plan[i] == AufsAppend(branches[i])
  {
    seq(|branches|, i requires 0 <= i < |branches| => AufsAppend(branches[i]))
  }

  /** The commands that mount `branches` on `target` when the first `k`
      fit in a page: one mount with those, then the remounts of the rest. */
  function AufsCommands(target: string, branches: seq<string>, k: nat): (plan: seq<ShellCommand>)
    requires k <= |branches|
    ensures |plan| == 1 + |branches| - k
    ensures plan[0] == AufsMount(branches[..k], target)
    ensures plan[1..] == RemountPlan(branches[k..])
  {
    [AufsMount(branches[..k], target)] + RemountPlan(branches[k..])
  }

  /** The commands withAufsMount runs on the directories of an image's
      layers, newest first. */
  function AufsPlan(target: string, layerDiffPaths: seq<string>): (plan: seq<ShellCommand>)
    ensures 1 <= |plan| <= 1 + |layerDiffPaths|
    ensures plan[0].AufsMount? && plan[0].target == target
    ensures forall i :: 1 <= i < |plan| ==> plan[i].AufsAppend?
  {
    var branches := Branches(layerDiffPaths);
    AufsCommands(target, branches, LongestFit(branches))
  }

  /** Branch paths free of `:` survive the round trip through the mount
      options: the listed ones split back out of the option string. */
  lemma {:induction false} MountedBranchesSplitBack(layerDiffPaths: seq<string>, k: nat)
    requires forall i :: 0 <= i < |layerDiffPaths| ==> ':' !in layerDiffPaths[i]
    requires 0 < k <= |layerDiffPaths|
    ensures Split(JoinWith(Branches(layerDiffPaths)[..k], ':'), ':') == Branches(layerDiffPaths)[..k]
  {
    var branches := Branches(layerDiffPaths);
    forall i | 0 <= i < k
      ensures ':' !in branches[..k][i]
    {
      assert branches[..k][i] == layerDiffPaths[i] + "=ro+wh";
    }
    JoinSplit(branches[..k], ':');
  }

  /** Every layer is handed to aufs exactly once and in order: the first
      `LongestFit` branches go into the mount options (from which they split
      back, by MountedBranchesSplitBack), the commands after the mount append
      the remaining branches one each, in order, and each branch is the layer
      directory marked `=ro+wh`. */
  lemma AufsPlanCoversEveryLayer(target: string, layerDiffPaths: seq<string>)
    ensures LongestFit(Branches(layerDiffPaths)) <= |layerDiffPaths|
    ensures AufsPlan(target, layerDiffPaths)[0]
         == AufsMount(Branches(layerDiffPaths)[..LongestFit(Branches(layerDiffPaths))], target)
    ensures AufsPlan(target, layerDiffPaths)[1..]
         == RemountPlan(Branches(layerDiffPaths)[LongestFit(Branches(layerDiffPaths))..])
    ensures forall i :: 0 <= i < |layerDiffPaths| ==> Branches(layerDiffPaths)[i] == layerDiffPaths[i] + "=ro+wh"
  {
    var branches := Branches(layerDiffPaths);
    var k := LongestFit(branches);
    assert AufsPlan(target, layerDiffPaths)[1..] == RemountPlan(branches[k..]);
  }

  /** The overlay mount options: 28 characters of keys and separators
      around the three directory lists. */
  function Overlay2Options(lowers: string, upper: string, work: string): (r: string)
    ensures "lowerdir=" + lowers <= r
    ensures |r| == 28 + |lowers| + |upper| + |work|
  {
    "lowerdir=" + lowers + ",upperdir=" + upper + ",workdir=" + work
  }

  /** The `path.join(fsRoot, path.sep)` prefix the relative form strips. */
  function RootPrefix(fsRoot: string): string
  {
    fsRoot + "/"
  }

  /** The layer directory of a lower dir: relative to the root, without its
      trailing `/diff`. */
  function LayerIdOf(fsRoot: string, lower: string): (r: string)
    ensures RootPrefix(fsRoot) <= lower ==>
              RootPrefix(fsRoot) + r == lower || RootPrefix(fsRoot) + r + "/diff" == lower
  {
    StripDiffSuffix(PathPrefixRemover(RootPrefix(fsRoot), lower))
  }

  /** The file holding a layer's short link name. */
  function LinkPath(fsRoot: string, lower: string): (r: string)
    ensures RootPrefix(fsRoot) <= r && EndsWith(r, "/link")
  {
    Join(Join(fsRoot, LayerIdOf(fsRoot, lower)), "link")
  }

  /** `l/<link>` for every lower dir, in order; the first missing link file
      is the error. */
  function LinkAliases(links: map<string, string>, fsRoot: string, lowers: seq<string>): (r: Result<seq<string>>)
    ensures r.Ok? <==> forall i :: 0 <= i < |lowers| ==> LinkPath(fsRoot, lowers[i]) in links
    ensures r.Ok? ==> |r.value| == |lowers|
    ensures r.Ok? ==> forall i :: 0 <= i < |lowers| ==> r.value[i] == Join("l", links[LinkPath(fsRoot, lowers[i])])
    ensures r.Err? ==> exists i :: 0 <= i < |lowers| && LinkPath(fsRoot, lowers[i]) !in links
                                 && r.error == MetadataReadFailure(LinkPath(fsRoot, lowers[i]))
    decreases |lowers|
  {
    if |lowers| == 0 then Ok([])
    else
      var path := LinkPath(fsRoot, lowers[0]);
      if path !in links then Err(MetadataReadFailure(path))
      else
        var rest :- LinkAliases(links, fsRoot, lowers[1..]);
        assert forall i :: 1 <= i < |lowers| ==> lowers[i] == lowers[1..][i - 1];
        Ok([Join("l", links[path])] + rest)
  }

  /** Resolved against the root, each alias is the root's `l/` directory
      entry named by the link file of the lower's own layer directory. */
  lemma LinkAliasesResolve(links: map<string, string>, fsRoot: string, lowers: seq<string>)
    requires LinkAliases(links, fsRoot, lowers).Ok?
    ensures forall i :: 0 <= i < |lowers| ==>
              Join(fsRoot, LinkAliases(links, fsRoot, lowers).value[i])
                == fsRoot + "/l/" + links[Join(Join(fsRoot, LayerIdOf(fsRoot, lowers[i])), "link")]
  {
  }

  /** The overlay mount withOverlay2Mount runs: the absolute options when
      they fit in a page, otherwise short links relative to the root,
      run from the root. */
  function Overlay2Plan(links: map<string, string>, fsRoot: string, target: string,
                        lowers: string, diffDir: string, workDir: string): (r: Result<seq<ShellCommand>>)
    ensures |Overlay2Options(lowers, diffDir, workDir)| < MinPageSize ==> r.Ok?
    ensures r.Ok? ==> |r.value| == 1 && r.value[0].OverlayMount? && r.value[0].target == target
    ensures r.Ok? ==> (r.value[0].cwd.None? <==> |Overlay2Options(lowers, diffDir, workDir)| < MinPageSize)
    ensures r.Err? ==> LinkAliases(links, fsRoot, Split(lowers, ':')) == Err(r.error)
  {
    var options := Overlay2Options(lowers, diffDir, workDir);
    if |options| < MinPageSize then Ok([OverlayMount(options, target, None)])
    else
      var aliases :- LinkAliases(links, fsRoot, Split(lowers, ':'));
      var relative := Overlay2Options(JoinWith(aliases, ':'),
                                      PathPrefixRemover(RootPrefix(fsRoot), diffDir),
                                      PathPrefixRemover(RootPrefix(fsRoot), workDir));
      Ok([OverlayMount(relative, target, Some(fsRoot))])
  }

  /** Short options are used verbatim, with no working directory. */
  lemma Overlay2ShortOptionsAreAbsolute(links: map<string, string>, fsRoot: string, target: string,
                                        lowers: string, diffDir: string, workDir: string)
    requires |Overlay2Options(lowers, diffDir, workDir)| < MinPageSize
    ensures Overlay2Plan(links, fsRoot, target, lowers, diffDir, workDir)
         == Ok([OverlayMount(Overlay2Options(lowers, diffDir, workDir), target, None)])
  {
  }

  /** Long options switch to the relative form, which names the same
      directories once resolved against the root it runs in: one `l/<link>`
      alias per lower dir, in order (see LinkAliasesResolve), and the upper
      and work dirs relative to the root. */
  lemma Overlay2LongOptionsAreRelative(links: map<string, string>, fsRoot: string, target: string,
                                       lowers: string, diffDir: string, workDir: string)
    requires |Overlay2Options(lowers, diffDir, workDir)| >= MinPageSize
    requires Overlay2Plan(links, fsRoot, target, lowers, diffDir, workDir).Ok?
    requires RootPrefix(fsRoot) <= diffDir && RootPrefix(fsRoot) <= workDir
    ensures
      var plan := Overlay2Plan(links, fsRoot, target, lowers, diffDir, workDir).value;
      var aliases := LinkAliases(links, fsRoot, Split(lowers, ':'));
      && aliases.Ok?
      && |aliases.value| == |Split(lowers, ':')|
      && plan == [OverlayMount(Overlay2Options(JoinWith(aliases.value, ':'),
                                               diffDir[|fsRoot| + 1..], workDir[|fsRoot| + 1..]), target, Some(fsRoot))]
      && Join(fsRoot, diffDir[|fsRoot| + 1..]) == diffDir
      && Join(fsRoot, workDir[|fsRoot| + 1..]) == workDir
  {
    var prefix := RootPrefix(fsRoot);
    assert PathPrefixRemover(prefix, diffDir) == diffDir[|fsRoot| + 1..];
    assert PathPrefixRemover(prefix, workDir) == workDir[|fsRoot| + 1..];
  }
}
