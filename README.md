# docker-toolbelt core, modelled in Dafny

docker-toolbelt extends a Docker engine client with helpers that find an
image's files on the engine host. This project models its core logic:

- **Chain ids.** The content-addressable key of a stack of layers, a left
  fold of `sha256(parent + " " + diffId)`, as in the "Layer ChainID" section
  of the OCI Image Format Specification's image configuration document.
- **Format detection.** Whether the engine version uses the
  content-addressable layout, which appeared in 1.10.0.
- **Layer-store paths.** Where the image config, the cache-id files and the
  layer directories live. This covers `imageRootDir`, `diffPaths` and the
  mount-point naming.
- **Mount options for aufs.** The branch list is cut at the longest prefix
  whose options fit in one 4096-byte page; the remaining branches are
  appended by remounts.
- **Mount options for overlay2.** The absolute options are used when they
  are strictly shorter than 4096 characters. From 4096 on, short
  `l/<link>` aliases relative to the overlay2 root are used.
- **The scoped mount protocol.** mkdir (an existing directory is fine),
  then the mount commands. A failing mount command ends the run with its
  error: nothing is cleaned up and the mount point stays (the aufs
  remounts run outside the cleanup block). Once every mount command has
  succeeded, the caller's function runs, then `umount`, then `rmdir` only
  if the unmount worked. Failures of that cleanup are swallowed.
- **Image names.** Parsing `[registry/]name[:tag][@digest]`, printing the
  parts back, and normalising, which parses and then prints.

Modules, one per file:

- `Base`: Option, Result and the error kinds.
- `Paths`: `path.join`, split/join, the prefix remover.
- `Format`: the format detector.
- `ChainId`: chain ids, including the `getAllChainIds` loop.
- `Locator`: `imageRootDir` and `diffPaths`, the latter including the
  in-place `reverse`.
- `Compose`: the mount commands.
- `ScopedMount`: a `Host` class. It holds the command log and the set of
  existing directories, and an oracle decides which mkdir, exec and rmdir
  calls fail.
- `ImageName`: the image-name parser, printer and normaliser.

SHA-256 and the semver predicates are parameters (`Libs`). Engine queries
are snapshots (`EngineInfo`, `ImageInfo`). The engine's metadata files are
maps from path to content (`LayerStore`). A missing file is a
`MetadataReadFailure`.

## Model

| member | source | states |
|---|---|---|
| ChainId.Digest | lib/index.ts:48 | a digest is `sha256:` followed by the hex hash |
| ChainId.CreateChainIdFromParent | lib/index.ts:69-82 | with nothing to fold the result is the parent; otherwise it is one of the diff ids taken over unhashed, or a `sha256:` digest |
| ChainId.CreateChainId | lib/index.ts:52-53 | the chain id of no layers is empty, and of one layer is that layer's diff id |
| ChainId.ChainIdIsDigest | lib/index.ts:69-82 | two or more layers, the first non-empty, give a `sha256:` digest |
| ChainId.FromParentOfNonEmptyParent | lib/index.ts:69-82 | once the accumulator is a digest, every later step hashes again |
| ChainId.FromParentSnoc | lib/index.ts:69-82 | the recursion is a left fold: one more diff id applies one more step to the result |
| ChainId.ChainIdSnoc | lib/index.ts:52-53 | chain(ds + [d]) is d when chain(ds) is empty, and sha256(chain(ds) + " " + d) otherwise |
| ChainId.ChainIdMatchesSpec | lib/index.ts:52-82 | for non-empty diff ids the source's fold equals the OCI reference definition, and is non-empty |
| ChainId.AllChainIds | lib/index.ts:55-65 | one chain id per diff id; the first is the first diff id and the last is the chain id of all of them |
| ChainId.NextChainId | lib/index.ts:62 | one loop turn extends the chain id of a prefix to the prefix one longer |
| ChainId.GetAllChainIds | lib/index.ts:55-65 | the loop's list is entry i = chain id of the first i+1 diff ids |
| Format.UsesContentAddressableFormat | lib/index.ts:121-122 | false exactly for a valid version below 1.10.0; any unparseable version counts as content-addressable |
| Format.ContentAddressableIsUpwardClosed | lib/index.ts:117-122 | with a strict order, 1.10.0 and every valid version above one that qualifies also qualify |
| Paths.JoinWith | lib/index.ts:252 | `join` of no parts is empty; otherwise the text starts with the first part |
| Paths.JoinSplitsBack | lib/index.ts:91 | `path.join` of two clean components is their join on `/`, and `/`-free components split back out of it |
| Paths.PathPrefixRemover | lib/index.ts:124-134 | strips the prefix when the value starts with it, else returns the value; a changed result r has prefix + r == value |
| Paths.StripDiffSuffix | lib/index.ts:178 | drops exactly one trailing `/diff`, otherwise returns the input |
| Paths.IndexOfFrom | lib/index.ts:89 | the first occurrence of the separator at or after a position, or the end |
| Paths.Split | lib/index.ts:89 | `split` always yields at least one field |
| Paths.SplitFields | lib/index.ts:89 | no field holds the separator; there is one field exactly when the separator is absent |
| Paths.SplitJoin | lib/index.ts:174-186 | joining the fields of a split gives back the text |
| Paths.JoinSplit | lib/index.ts:174-186 | splitting a join of separator-free fields gives back the fields |
| Locator.ParseDriver | lib/index.ts:302-317 | every driver name maps to a driver with that name; unknown exactly for names outside the five known drivers |
| Locator.HashParts | lib/index.ts:89 | an id without `:` is an error; otherwise two `:`-free parts that start the id as `type:hash` |
| Locator.HashPartsOfKey | lib/index.ts:89 | `type:hash` splits into exactly its type and hash |
| Locator.DiffIdsPath | lib/index.ts:84-92 | an id without `:` is a MissingHashPart error; otherwise the path lies under `<root>/image/<driver>/imagedb/content/` |
| Locator.CacheIdPath | lib/index.ts:96-108 | an id without `:` is a MissingHashPart error; otherwise the path lies under `<root>/image/<driver>/layerdb/` and ends in `/cache-id` |
| Locator.ReadDiffIds | lib/index.ts:84-94 | succeeds exactly when the image config's path can be built and the file exists, with its diff ids; a missing hash part is reported as such |
| Locator.ReadCacheId | lib/index.ts:96-112 | succeeds exactly when the cache-id path can be built and the file exists, with its content; a missing hash part is reported as such |
| Locator.DiffIdsPathOfKey | lib/index.ts:84-94 | the image config of `type:hash` is `<root>/image/<driver>/imagedb/content/<type>/<hash>` |
| Locator.CacheIdPathOfKey | lib/index.ts:96-112 | the cache-id file of `type:hash` is `<root>/image/<driver>/layerdb/<type>/<hash>/cache-id` |
| Locator.ReadCacheIds | lib/index.ts:384-388 | on success, entry k is the cache id of layer id k; on failure, some layer's read failed with that error |
| Locator.ReadCacheIdsLast | lib/index.ts:384-388 | the last cache id read is the last layer's |
| Locator.ImageCacheId | lib/index.ts:294-296 | a failed diff-id read is that error; for a single layer the cache id looked up is that layer's own |
| Locator.ImageRootDir | lib/index.ts:282-318 | legacy layout: the image id; otherwise a read error, or the per-driver directory (btrfs/vfs/aufs under the root by cache id, overlay RootDir, overlay2 UpperDir), or an unsupported-driver error |
| Locator.DiffPathsOf | lib/index.ts:364-395 | a driver other than aufs or overlay2 is UnsupportedOperation; for those two a failed diff-id read is that error; a success has one path per diff id |
| Locator.LayerIds | lib/index.ts:378-389 | the legacy layout uses the raw diff ids; the content-addressable layout needs at least one layer; a success has one id per diff id |
| Locator.CollectLayerIds | lib/index.ts:378-389 | the callback's result is LayerIds: the raw diff ids, or the cache ids of the loop's chain ids read in order |
| Locator.LayerDiffPath | lib/index.ts:390-394 | under the engine root: `…/aufs/diff/<id>` for aufs, `…/overlay2/<id>/diff` otherwise |
| Locator.Reverse | lib/index.ts:390 | reverses the array in place |
| Locator.DiffPaths | lib/index.ts:364-395 | computes DiffPathsOf: unsupported driver, read errors, otherwise one path per layer id, newest first |
| Locator.DiffPathsReversesLayerIds | lib/index.ts:372-394 | only aufs and overlay2 succeed; path k is the diff directory of layer id n-1-k |
| Locator.DiffPathsLegacy | lib/index.ts:381-383 | in the legacy layout, path k names raw diff id n-1-k |
| Locator.DiffPathsContentAddressable | lib/index.ts:384-394 | in the content-addressable layout there is at least one layer; path k names the cache id of the chain id of the oldest n-k layers |
| Locator.ImageRootDirOfDiffIds | lib/index.ts:294-314 | in the content-addressable layout, for btrfs, vfs and aufs, imageRootDir is the cache-id read's error, or the driver's directory (`btrfs/subvolumes`, `vfs/dir`, `aufs/diff`) joined with the cache id of the chain id of all diff ids |
| Locator.ImageCacheIdIsNewestLayerId | lib/index.ts:298-300 | that cache id is the newest layer id diffPaths uses |
| Locator.AufsRootIsNewestDiffPath | lib/index.ts:313-314 | for aufs, imageRootDir is the first, newest entry of diffPaths |
| Locator.RandomFileName | lib/index.ts:114-115 | always `tmp-` … `-<suffix>`; an id without `:` gives `tmp-undefined-<suffix>` |
| Locator.RandomFileNameOfKey | lib/index.ts:114-115 | the mount directory of `type:hash` is `tmp-<hash>-<suffix>` |
| Compose.ShellCommand.Line | lib/index.ts:254-257 | mount commands start `mount -t ` and name their mount point last, the unmount starts `umount `; a remount names the branch string, not the target, as its mount point |
| Compose.BranchOptions | lib/index.ts:238-252 | the options start with `noxino,ro,br=`, and `:`-free branches split back out of the rest |
| Compose.Branches | lib/index.ts:240 | one branch per layer path |
| Compose.BranchOptionsSnoc | lib/index.ts:244 | one more branch adds its length plus one separator (none for the first) |
| Compose.OptionsLengthIsLength | lib/index.ts:238-252 | the countdown's byte count is the length of the option string |
| Compose.OptionsLengthMonotone | lib/index.ts:238-252 | longer prefixes never give shorter option strings |
| Compose.FitWithin | lib/index.ts:238-252 | the search never lengthens the prefix, and only shortens it when the options of `n` branches exceed a page |
| Compose.LongestFit | lib/index.ts:238-252 | at most every branch, and every branch when all their options fit in a page |
| Compose.FitWithinIsLongest | lib/index.ts:238-252 | the search result fits in a page and no longer prefix up to the bound does |
| Compose.FitWithinStopsAt | lib/index.ts:241-247 | a fitting prefix followed by one that overflows is where the search stops |
| Compose.LongestFitIsLongest | lib/index.ts:238-252 | the mounted prefix's options are at most 4096 bytes, and every longer prefix's exceed it |
| Compose.AufsSplitIndex | lib/index.ts:238-250 | the findIndex countdown with its `< -1` cutoff yields exactly the longest fitting prefix, or all branches |
| Compose.RemountPlan | lib/index.ts:255-259 | one `remount,append` per remaining branch, in order |
| Compose.AufsCommands | lib/index.ts:251-259 | the mount of the first `k` branches on the target, then exactly the remounts of the other branches, in order |
| Compose.AufsPlan | lib/index.ts:238-259 | one aufs mount on the target first, then at most one remount per layer and nothing else |
| Compose.MountedBranchesSplitBack | lib/index.ts:252 | `:`-free branches split back out of the joined option string |
| Compose.AufsPlanCoversEveryLayer | lib/index.ts:238-259 | every path gets `=ro+wh`; the mount takes the longest fitting prefix, then the rest are appended in order, so each layer is handed over once |
| Compose.Overlay2Options | lib/index.ts:163 | the options start `lowerdir=<lowers>`, and are 28 characters longer than the three directory lists together |
| Compose.LayerIdOf | lib/index.ts:172-178 | for a lower dir under the root, the root prefix followed by the result is the lower dir, with or without a trailing `/diff` |
| Compose.LinkPath | lib/index.ts:179 | the link file lies under the root and is named `link` |
| Compose.LinkAliases | lib/index.ts:173-183 | succeeds exactly when every lower's link file exists; entry i is `l/` + the link of lower i; otherwise the error names a missing link file |
| Compose.LinkAliasesResolve | lib/index.ts:172-181 | resolved against the root, each alias is `<root>/l/<link>` of the lower's layer directory (`/diff` and the root stripped) |
| Compose.Overlay2Plan | lib/index.ts:163-196 | options strictly shorter than 4096 characters always give a plan; a plan is one overlay mount on the target, run in the caller's directory exactly when the options are that short; an error is the link read's error |
| Compose.Overlay2ShortOptionsAreAbsolute | lib/index.ts:163-167 | options under 4096 bytes are used verbatim, with no working directory |
| Compose.Overlay2LongOptionsAreRelative | lib/index.ts:168-193 | longer options use one alias per lower, the upper and work dirs relative to the root, and the root as working directory; those relative dirs join back to the originals |
| ScopedMount.Runs | lib/index.ts:194-196 | one log entry per command run |
| ScopedMount.FirstFailure | lib/index.ts:254-259 | the index of the first failing command: all before it succeed |
| ScopedMount.Protocol | lib/index.ts:155-214 | mkdir is logged first; a success is `fn`'s own result after every mount worked; no directory but the mount point changes; an rmdir is only ever the last entry and names the mount point |
| ScopedMount.MkdirComesFirst | lib/index.ts:155-161 | mkdir is logged first; a non-EEXIST failure ends the run there, and a composition error ends it right after |
| ScopedMount.MountFailureSkipsCleanup | lib/index.ts:194-196 | a failing mount command propagates its error; no umount or rmdir is attempted and the mount point stays |
| ScopedMount.CleanupAlwaysFollowsMount | lib/index.ts:198-214 | after the mounts succeed, the caller gets fn's result unchanged and cleanup runs once: umount, then rmdir only if umount worked; the mount point is gone exactly when both worked, and no other directory changes |
| ScopedMount.ProtocolStopsAt | lib/index.ts:254-259 | the protocol when command m is the first to fail |
| ScopedMount.ProtocolCompletes | lib/index.ts:254-273 | the protocol when every mount command succeeds |
| ScopedMount.RunsSnoc | lib/index.ts:255-259 | running one more command appends its log entry |
| ScopedMount.RanUntilFailureCons | lib/index.ts:254-259 | a successful first command followed by a run of the rest is a run of the whole plan |
| ScopedMount.RanUntilFirstFails | lib/index.ts:254 | a failing first command ends the run |
| ScopedMount.AufsMountDir | lib/index.ts:337-341 | the aufs mount point lies under `<root>/aufs/mnt/tmp-` and ends in `-<suffix>` |
| ScopedMount.Overlay2Root | lib/index.ts:344 | the overlay2 root is `overlay2` relative to the engine root |
| ScopedMount.Host.MakeDir | lib/index.ts:155-161 | mkdir logs itself; fails only for a new directory the oracle rejects, otherwise the directory exists afterwards |
| ScopedMount.Host.Exec | lib/index.ts:194-196 | a command is logged and succeeds exactly when the oracle lets it |
| ScopedMount.Host.RemoveDir | lib/index.ts:205 | rmdir logs itself and removes the directory exactly when it exists and the oracle lets it |
| ScopedMount.Host.Cleanup | lib/index.ts:202-214 | umount, then rmdir only if umount worked; failures are swallowed |
| ScopedMount.Host.AppendBranches | lib/index.ts:255-259 | runs the remounts in order up to and including the first failure, which it returns |
| ScopedMount.Host.MountBranches | lib/index.ts:254-259 | runs the aufs mount and then the remounts, up to the first failure |
| ScopedMount.Host.FinishMounted | lib/index.ts:261-273 | reports the failed mount command, or calls fn and cleans up, as the protocol says |
| ScopedMount.Host.WithAufsMount | lib/index.ts:223-274 | the result, log and directories are those of the protocol on the aufs plan |
| ScopedMount.Host.WithOverlay2Mount | lib/index.ts:142-215 | with no lowers, fn(diffDir) and nothing changes; otherwise the protocol on the overlay2 plan |
| ScopedMount.Host.WithImageRootDirMounted | lib/index.ts:322-360 | aufs: diffPaths' error, or the aufs protocol on `aufs/mnt/tmp-<hash>-<suffix>`; overlay2: the overlay2 protocol on `overlay2/tmp-<hash>-<suffix>`; other drivers: fn(imageRootDir) with nothing mounted |
| ImageName.IndexOfEither | lib/index.ts:536 | the first of two characters at or after a position, or the end |
| ImageName.MatchImage | lib/index.ts:535-537 | no match exactly on the empty text or text with a line terminator; a match has a non-empty name and the registry group of the split |
| ImageName.MatchImageRender | lib/index.ts:535-540 | the pattern fails exactly on the empty text and on text with a line terminator; otherwise its groups lay the text out again |
| ImageName.MatchImageGroups | lib/index.ts:536 | the groups found: a non-empty name with no `:` or `@` after its first character; a tag without `@`; a registry that is `localhost` or has a `.` or `:` with no `/` after it |
| ImageName.SplitRegistry | lib/index.ts:536 | the registry group leaves a non-empty rest of a non-empty text, and registry + `/` + rest is the text (the rest alone without a registry) |
| ImageName.SplitRegistryMinimal | lib/index.ts:536 | a non-localhost registry has its first `.` or `:` before the `/` that ends it |
| ImageName.MatchTailRender | lib/index.ts:536 | the name, tag and digest groups lay the rest out again |
| ImageName.MatchTail | lib/index.ts:536 | the name group is non-empty with no `:` or `@` after its first character, and the tag stops before any `@` |
| ImageName.DigestValid | lib/index.ts:551 | a valid digest holds a `:` and has at least 34 characters |
| ImageName.DigestValidParts | lib/index.ts:548-553 | a digest is valid exactly when it is a valid algorithm, `:`, and at least 32 hex digits or dashes |
| ImageName.GetRegistryAndName | lib/index.ts:530-560 | an error exactly when the pattern fails (CouldNotParse) or a non-empty digest is invalid; otherwise the groups, with tag `latest` when there is neither tag nor digest |
| ImageName.CompileRegistryAndName | lib/index.ts:567-586 | prints `registry/` only for a non-empty registry, then the name, then `@digest`, or `:tag` with `latest` for a missing or empty tag |
| ImageName.NormaliseImageName | lib/index.ts:589-592 | the parse error, or the printed parts |
| ImageName.SplitRegistryOfRegistry | lib/index.ts:536 | a well-formed registry is read back whole |
| ImageName.SplitRegistryOfName | lib/index.ts:536 | with no registry, a well-formed name followed by a tag or digest leaves the registry group out |
| ImageName.MatchTailOfTag | lib/index.ts:536 | `name:tag` reads back as that name and tag |
| ImageName.MatchTailOfDigest | lib/index.ts:536 | `name@digest` reads back as that name and digest |
| ImageName.DigestValidCharacters | lib/index.ts:551 | a valid digest holds no `/`, `@` or line terminator |
| ImageName.SuffixCharacters | lib/index.ts:577-585 | the printed tag or digest starts with `:` or `@` and holds no `/` or line terminator |
| ImageName.SuffixReadsBack | lib/index.ts:577-585 | the name followed by the printed tag or digest reads back as the printed parts |
| ImageName.CompiledHasNoLineTerminator | lib/index.ts:567-586 | the printed text of well-formed parts has no line terminator |
| ImageName.MatchCompiled | lib/index.ts:536 | the pattern reads the printed text back as the parts as printed |
| ImageName.ParseCompile | lib/index.ts:530-586 | parsing the printed text of well-formed parts gives back those parts as printed (empty registry dropped, tag defaulted or dropped) |
| ImageName.NormaliseIdempotent | lib/index.ts:588-592 | normalising a name whose parts are well-formed succeeds, and normalising the result changes nothing |
| ImageName.ParsesDefaultTag | tests/docker-toolbelt.spec.ts:96 | `busybox` parses to name `busybox`, tag `latest` |
| ImageName.ParsesNameWithDotAndTag | tests/docker-toolbelt.spec.ts:106 | `a.b:1` has no registry: name `a.b`, tag `1` |
| ImageName.RejectsShortDigest | lib/index.ts:548-558 | every name whose non-empty digest group has no `:`, or fewer than 32 characters after its first `:`, is an invalid image name |
| ImageName.RejectsShortDigestExample | lib/index.ts:548-558 | `a@b:0` is an invalid image name |

## Left out

- Engine queries are snapshots passed in: `info()`, `version()` and `getImage().inspect()`. The model does not capture concurrent calls or changes between them.
- Filesystem reads are maps from path to content: diff-id lists (the `rootfs.diff_ids` field of the parsed JSON), cache-id files and overlay2 `link` files. Parsing JSON is not modelled.
- mkdir, rmdir and the shell commands go through an oracle. The oracle fixes which calls fail; its answers depend only on the directory or the command. EEXIST is "the directory already exists".
- `Promise.all` runs sequentially: the reads are independent. When several fail, the error reported is the first in list order, not the first to settle.
- `console.error` logging of swallowed cleanup failures is not modelled.
- `path.join` is `a + "/" + b` on clean components. Normalisation of `.`, `..`, doubled or trailing separators is not modelled. `RootPrefix` stands for `path.join(fsRoot, path.sep)`.
- String lengths are counted in characters, not UTF-16 code units or bytes. The 4096-byte budgets therefore assume single-unit characters, as paths normally are.
- SHA-256 hashing and the semver library are function parameters, and their internals are not modelled.
- The random part of mount-point names (`randomstring.generate(8)`) is a parameter (`suffix`).
- `fn` is synchronous and returns a Result. The unawaited `fn(target)` in withAufsMount (cleanup may start before an async `fn` settles) is not modelled.
- Absent GraphDriver fields read as the empty string. An absent LowerDir therefore takes the "no lowers" branch.
- ChainId.GetAllChainIds: requires at least one diff id, because on an empty list the generated loop yields a two-element list of garbage. diffPaths' caller reports that case as EmptyLayerList, which is where the source throws.
- ImageName.GetRegistryAndName: the regular expression engine is replaced by a hand-derived matcher (MatchImage) giving the groups of JavaScript's backtracking search. A `null` tagName in the parts given to compileRegistryAndName is not modelled (an absent tag is `None`).
- ImageName.ParseCompile: the round trip is proved only for well-formed parts (WellFormed). Names that print to something the pattern splits differently are excluded, e.g. a registry-less name beginning `localhost/`, or a name with a `/` after a `.`.
- ImageName.NormaliseIdempotent: proved only when the parsed parts are well-formed. Degenerate inputs are not idempotent: `localhost/` normalises to `localhost/:latest` and then to `localhost/:latest:latest`.
- createEmptyImage, createDelta and isBalenaEngine are not part of this model. They build tar archives, use clocks and randomness, and stream from the engine.
- lib/docker-toolbelt.d.ts holds type declarations only. The test files are used only as sources of example values.
