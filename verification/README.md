# BoringSSL roll script — a Dafny model

`roll_boringssl.go` rolls Fuchsia's vendored copy of BoringSSL to a new
upstream revision. The model covers the three pieces of its logic that are
not subprocess plumbing:

- **The README stamp** (`updateReadMe`). Both copies of BoringSSL carry a
  README whose last line is the URL
  `https://fuchsia.googlesource.com/third_party/boringssl/+/<revision>/`
  followed by one trailing byte. The stamp:
  - computes from the length of the *new* revision where that URL must start;
  - checks that the URL prefix is there;
  - overwrites the revision in place.
- **The Zircon subset reconciliation** (the walker in `updateZircon`). For every
  regular file of Zircon's `uboringssl` subset not on the skip list, the walker:
  - finds the upstream counterpart (at the same stem, else under `/src`);
  - compares the contents;
  - copies the counterpart over the subset file when they differ.

  A counterpart that is missing or unreadable stops the roll.
- **The roll driver** (`main`, `updateBoring`, `updateRust`, `updateZircon`). The driver:
  - refuses to run without a Fuchsia root;
  - runs the BoringSSL, Rust and Zircon stages in that order, each unless its skip flag is set;
  - stops at the first failure.

  The BoringSSL stage replaces the commit value by the trimmed output of
  `git rev-list`, so the Zircon README is stamped with the resolved hash when
  that stage ran, and with the raw `--commit` flag otherwise.

## Data model

- Files are `seq<byte>`, with `byte` a newtype over `0..255`.
- A directory tree is a `map<string, Node>`. It is keyed by the stem: the path
  below the tree's root, starting with `/`. A `Node` is `Dir` or `File(data)`.
- External commands are oracle values in `Roll.Tools`:
  - whether `git fetch` succeeds;
  - the subtree `git checkout` leaves in `src/` (the upstream checkout, at stems under `/src`);
  - the output of `git rev-list`;
  - whether the build-file generator and `bindgen.sh` succeed;
  - the order `filepath.Walk` visits the subset in.
- Fatal errors (`log.Fatal`) are error values:
  - `Readme.StampError`, `Subset.WalkError` and `Roll.Cause`;
  - `Roll.Status.Failed` records the stage that stopped the roll.
- A walk that stops part-way keeps the copies it already made, as the real
  process does when it exits.

## Modules

| file | module | models |
|---|---|---|
| results.dfy | `Results` | `Option`, `Result` |
| bytes.dfy | `Bytes` | bytes, `strings.TrimSpace`, `os.File.WriteAt` |
| readme.dfy | `Readme` | `updateReadMe` on file contents |
| subset.dfy | `Subset` | `skipped_files`, the counterpart lookup, the walker and `filepath.Walk` |
| roll.dfy | `Roll` | `updateBoring`, `updateRust`, `updateZircon`, `main` |

## Model

| member | source | states |
|---|---|---|
| Bytes.TrimSpace | roll_boringssl.go:131-132 | The result has no white space at either end, and it is what remains of the input after some all-space prefix and some all-space suffix are removed. |
| Bytes.TrimSpaceUnique | roll_boringssl.go:132 | Any text padded with white space on both sides trims to exactly that text. This is the inverse direction of `TrimSpace`. |
| Bytes.TrimSpaceIdempotent | roll_boringssl.go:132 | Trimming a trimmed revision again changes nothing. |
| Bytes.WriteAt | roll_boringssl.go:119 | `WriteAt` overwrites the bytes from the offset with the chunk and keeps every other byte. The file grows only when the chunk runs past its end, so the length is the larger of the old length and offset plus chunk length. |
| Readme.StampOffset | roll_boringssl.go:100-109 | When the file is longer than prefix, revision and `/`, the URL is read from the offset at which prefix, revision, `/` and exactly one trailing byte end the file. Otherwise it is read from offset 0. |
| Readme.Stamp | roll_boringssl.go:96-121 | The stamp succeeds exactly when the URL prefix sits at the computed offset. It fails with a short read exactly when fewer than the prefix length of bytes exist there. On success the bytes after the prefix become the revision and `/`, every other byte is kept, and the length is the larger of the old size and the end of the written field. |
| Readme.StampKeepsTail | roll_boringssl.go:106-121 | In the normal case (a file longer than prefix, revision and `/`), the stamped file is the old file with the field just before the last byte replaced by revision and `/`. Length and trailing byte are preserved. |
| Readme.StampShortFile | roll_boringssl.go:106-121 | When the file is no longer than prefix, revision and `/`, the offset falls back to 0, and a successful stamp leaves exactly prefix, revision and `/`. |
| Readme.StampRoundTrip | roll_boringssl.go:106-121 | A README ending in prefix, an old revision of the new one's length, `/` and one byte becomes the same README with the new revision. |
| Readme.StampIdempotent | roll_boringssl.go:106-121 | Stamping the result of a successful stamp with the same revision succeeds and gives the same file. |
| Readme.StampRejectsLengthChange | roll_boringssl.go:106-115 | A README that ends in prefix, old revision, `/` and one byte is rejected when the old revision's length differs from the new one's. This holds when the two lengths differ by less than the prefix length minus one, and the new revision is no longer than the old one plus the bytes before the URL, so the offset does not fall back to 0. The offset computed from the new length then misses the URL. |
| Readme.UrlAtUnique | roll_boringssl.go:97 | The URL prefix cannot start at two offsets closer together than its own length minus one. |
| Readme.UrlBaseNoSelfOverlap | roll_boringssl.go:97 | No shift of the URL prefix by less than its length minus one matches its first two bytes. |
| Subset.FirstExisting | roll_boringssl.go:163-167 | The lookup returns the first candidate path present in the tree, with its node, and none exactly when no candidate is present. |
| Subset.Upstream | roll_boringssl.go:163-167 | The counterpart is the stem itself when it exists, otherwise `/src` + stem, and it is missing exactly when neither exists. |
| Subset.Visit | roll_boringssl.go:152-174 | A visit stops the walk with `Unwalkable` exactly when the stem is not in the subset. It stops with `MissingUpstream` exactly when a compared file has no counterpart, and with `UnreadableUpstream` exactly when the counterpart found is a directory, naming that candidate path. A visit that goes on keeps the subset's shape and writes at most the visited stem. It writes nothing for a directory or a skipped file. |
| Subset.VisitReconciles | roll_boringssl.go:152-174 | One visit succeeds exactly when the stem is walkable and, for a compared file, its counterpart is a readable file. On success it leaves the subset reconciled on that stem alone, and it reports a copy exactly when the contents differed. |
| Subset.WalkStep | roll_boringssl.go:152-177 | A walk whose first stem is resolvable is that stem's reconciliation followed by the walk over the rest. |
| Subset.WalkMatchesReference | roll_boringssl.go:152-179 | The walk agrees with the reference definition: it completes exactly when every visited stem is resolvable, and it leaves the subset reconciled on the stems it got through. It copies exactly the differing files among those stems. |
| Subset.WalkSucceedsIff | roll_boringssl.go:152-179 | The walk completes exactly when every stem on it is resolvable. |
| Subset.WalkFailsOnMissingUpstream | roll_boringssl.go:168-172 | A compared subset file with no counterpart at either location stops the walk. Hashing the missing path is fatal. |
| Subset.Walk | roll_boringssl.go:152-179 | The walk keeps the subset's set of paths. Directories, skipped files and any other path it does not compare keep their nodes, and it copies only compared files that are on the walk. |
| Subset.SkippedFilesKept | roll_boringssl.go:36-41 | The files on the skip list are maintained by hand: whatever the walk order and whether or not the walk completes, each keeps its node. |
| Subset.WalkSynchronises | roll_boringssl.go:171-174 | After a completed walk, every compared file on the walk has a readable counterpart and equals it. |
| Subset.WalkCopiesExactlyChanged | roll_boringssl.go:171-174 | A completed walk copies a stem exactly when the stem is on the walk and its contents differ from its counterpart's. |
| Subset.WalkIdempotent | roll_boringssl.go:171-174 | A second walk over unchanged upstream completes, copies nothing and changes nothing. |
| Subset.WalkOrderIrrelevant | roll_boringssl.go:177-179 | Walking the same stems in another order gives the same verdict and, on success, the same subset. |
| Roll.StampFile | roll_boringssl.go:86-122 | Stamping a README at a path succeeds exactly when the path is a regular file whose contents take the stamp. The stamped file replaces it and every other path is unchanged. |
| Roll.CheckedOut | roll_boringssl.go:126-130 | `git checkout` runs in `src/`: the stems under `/src` become the checkout's, and every other stem of the vendored tree, the README among them, is kept. |
| Roll.UpdateBoring | roll_boringssl.go:125-138 | The stage never touches the subset. A failing fetch or checkout leaves everything unchanged. The stage succeeds exactly when fetch and generator succeed and the README of the checked-out tree takes the stamp with the trimmed `rev-list` output, which becomes the new commit value. On success the `/src` subtree is the checkout's, the README is the pre-roll README stamped, and every other stem is as before the roll. |
| Roll.UpdateBoringIdempotent | roll_boringssl.go:125-138 | Rolling the vendored tree a second time to the same upstream state succeeds and changes neither the tree nor the commit value. |
| Roll.UpdateRust | roll_boringssl.go:141-143 | The stage changes no tree and succeeds exactly when `bindgen.sh` does. |
| Roll.UpdateZircon | roll_boringssl.go:147-179 | The stage never touches the vendored tree or the commit value. A README that cannot be stamped stops it before the walk with nothing changed. On success the subset README carries the stamp, and every compared file on the walk equals its counterpart. |
| Roll.RunStage | roll_boringssl.go:199-228 | Only the BoringSSL stage writes the vendored tree or the commit value. Only the Zircon stage writes the subset. |
| Roll.Next | roll_boringssl.go:199-228 | A block of `main` leaves the subset alone unless it is the Zircon block, and the vendored tree and commit value alone unless it is the BoringSSL block. |
| Roll.Roll | roll_boringssl.go:191-195 | The roll ends with "no Fuchsia root" exactly when the root is empty, and then no stage has started and nothing changed. |
| Roll.Plan | roll_boringssl.go:199-221 | A stage is planned exactly when its skip flag is unset, and planned stages are in the order BoringSSL, Rust, Zircon. |
| Roll.NextFollows | roll_boringssl.go:199-228 | Running one more block keeps the invariant that the started stages are a prefix of the planned ones: all of them on completion, and ending with the failed stage on failure. |
| Roll.RollFollowsPlan | roll_boringssl.go:191-228 | A roll starts a prefix of its plan: all of it when it completes, and up to and including the failing stage when one fails. |
| Roll.RollStagesInOrder | roll_boringssl.go:199-221 | Started stages are in the fixed order with none twice, and a stage is started only when its skip flag is unset. |
| Roll.BeforeZircon | roll_boringssl.go:130-132 | When the BoringSSL and Rust blocks complete, the subset is untouched. The commit value handed on is the trimmed `rev-list` output if the BoringSSL stage ran, and the `--commit` flag otherwise. |
| Roll.ZirconRanLast | roll_boringssl.go:219-222 | A completed roll that ran the Zircon stage completed the earlier blocks, and the Zircon stage made the final trees. |
| Roll.RollStampsZirconReadme | roll_boringssl.go:147-148 | After a completed roll with the Zircon stage, the subset README is the original stamped with the resolved hash if the BoringSSL stage ran, and with the raw flag otherwise. |
| Roll.RollStampsBoringReadme | roll_boringssl.go:126-134 | After a completed roll with the BoringSSL stage, the README existed before the roll and is now that README stamped with the trimmed `rev-list` output. The `/src` subtree is the checkout's and every other stem is as before the roll. |
| Roll.RollSynchronisesSubset | roll_boringssl.go:151-179 | After a completed roll with the Zircon stage, every compared subset file on the walk equals its upstream counterpart. A walk over the whole subset, as `filepath.Walk` makes, therefore leaves every compared file equal to its counterpart. |
| Roll.RollFailureKeepsSubset | roll_boringssl.go:147-148 | A roll that fails before the Zircon stage, or at the Zircon README, leaves the subset as it was. |

## Code and design

The stamp does not tolerate a new revision whose length differs from the one
in the README. The offset is computed from the new revision's length, so the
prefix check fails and the roll stops (`Readme.StampRejectsLengthChange`). The
model follows the code. A successful stamp therefore needs an old revision of
the same length (`Readme.StampRoundTrip`) or a file short enough for the
offset to fall back to 0 (`Readme.StampShortFile`).

## Left out

- Subprocess execution in `run`: `git fetch`, `checkout` and `rev-list`, `generate_build_files.py`, `bindgen.sh` and `cp`. Each is an oracle value in `Roll.Tools`. The build-file generator's and bindgen's outputs are not tracked.
- `cp` is modelled as a copy that always succeeds, because its failure modes are those of the operating system.
- The SHA-256 digest. `sha256sum` is only ever compared for equality, so the model compares contents, and an unreadable path is an error.
- `filepath.Walk`, `filepath.Join`, `os.Stat` and `os.OpenFile` mechanics. The walk order is an input. For walks that complete, the verdict and the resulting subset are proved not to depend on it (`Subset.WalkOrderIrrelevant`). A walk that stops part-way has made the copies for the stems before the failing one, and these do depend on the order. `Unwalkable` is the walk reaching a stem that is not in the subset. Errors of `os.Stat` other than "does not exist" (roll_boringssl.go:165, 168) and read errors on the subset file while hashing it (roll_boringssl.go:71-79 via 172) are not modelled.
- The joining of `--boring` and `--zircon` onto the Fuchsia root (roll_boringssl.go:196-197). Trees are addressed by stem.
- Logging (`infof`, `warnf`), the printed test instructions and flag parsing. `Config` holds the parsed flags.
- The report of `missing_files` (roll_boringssl.go:180-187). It cannot be reached, because the walk has already stopped at the first missing counterpart (`Subset.WalkFailsOnMissingUpstream`).
- Bytes.TrimSpace: removes ASCII white space only. Go's `strings.TrimSpace` also removes Unicode white space such as U+0085 and U+00A0, which `git rev-list` never prints around a hash.
- The README stamp writes in place. A failure between the check and the write (a failing `WriteAt`) is not modelled.
