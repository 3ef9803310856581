/**
 The roll driver (`main`, `updateBoring`, `updateRust`, `updateZircon`).
 After checking that a Fuchsia root is given, it runs up to three stages in
 the fixed order BoringSSL, Rust, Zircon, each unless its skip flag is set,
 and stops at the first failure. External commands (git, the build-file
 generator, bindgen) are oracles: their outcomes are given in `Tools`.
 */
module Roll {
  import opened Bytes
  import opened Results
  import opened Readme
  import opened Subset

  /** The README of the vendored tree and of the Zircon subset, as stems of their trees. */
  const BoringReadme: string := "/README.fuchsia"
  const ZirconReadme: string := "/README.fuchsia.md"

  /** The command-line flags. */
  datatype Config = Config(
    fuchsia: string,     // the Fuchsia root (`--fuchsia`, else `FUCHSIA_DIR`)
    commit: seq<byte>,   // the upstream commit-ish to check out (`--commit`)
    skipBoring: bool,
    skipRust: bool,
    skipZircon: bool)

  /**
   What the external commands do when run: whether `git fetch` succeeds, the
   subtree `git checkout` leaves in `src/` (none if it fails; only its stems
   under `/src` are used), the output of `git rev-list` (none if it fails),
   whether the build-file generator and bindgen succeed, and the order in
   which the subset tree is walked.
   */
  datatype Tools = Tools(
    fetched: bool,
    checkout: Option<Tree>,
    revList: Option<seq<byte>>,
    generated: bool,
    bindgen: bool,
    walkOrder: seq<string>)

  /** The trees the roll writes: the vendored BoringSSL tree and the Zircon subset. */
  datatype World = World(boring: Tree, zircon: Tree)

  datatype Command = GitFetch | GitCheckout | GitRevList | GenerateBuildFiles | Bindgen

  datatype ReadmeError = CannotOpen(path: string) | BadReadme(path: string, error: StampError)

  /** Why a stage stopped the roll. */
  datatype Cause =
    | CommandFailed(command: Command)
    | ReadmeFailed(readme: ReadmeError)
    | WalkFailed(walk: WalkError)

  datatype Stage = BoringStage | RustStage | ZirconStage

  datatype Status = Completed | NoFuchsiaDir | Failed(stage: Stage, cause: Cause)

  /** The end of a roll: the stages started (in order), the trees, the commit value and how it ended. */
  datatype Outcome = Outcome(started: seq<Stage>, world: World, commit: seq<byte>, status: Status)

  /** The end of one stage: the trees, the commit value and the failure that stopped it, if any. */
  datatype Step = Step(world: World, commit: seq<byte>, failure: Option<Cause>)

  /** `updateReadMe` on the file at `path` of `tree`; the file must exist and be a regular file. */
  function StampFile(tree: Tree, path: string, commit: seq<byte>): (r: Result<Tree, ReadmeError>)
    ensures r.Ok? <==> path in tree && tree[path].File? && Stamp(tree[path].data, commit).Ok?
    ensures r.Ok? ==>
              && r.value.Keys == tree.Keys
              && r.value[path] == File(Stamp(tree[path].data, commit).value)
              && forall p | p in tree && p != path :: r.value[p] == tree[p]
  {
    if path !in tree || tree[path].Dir? then Err(CannotOpen(path))
    else match Stamp(tree[path].data, commit)
      case Err(e) => Err(BadReadme(path, e))
      case Ok(data) => Ok(tree[path := File(data)])
  }

  /** A stem of the vendored tree inside `src/`, the upstream checkout. */
  predicate InSrc(stem: string) {
    |stem| >= 4 && stem[..4] == "/src" && (|stem| == 4 || stem[4] == '/')
  }

  /** The vendored tree after `git checkout` in `src/`: stems under `/src` as the checkout left them, all others as they were. */
  function CheckedOut(boring: Tree, src: Tree): (r: Tree)
    ensures forall p :: p in r <==> if InSrc(p) then p in src else p in boring
    ensures forall p | p in r :: r[p] == if InSrc(p) then src[p] else boring[p]
  {
    map p | p in boring.Keys + src.Keys && (if InSrc(p) then p in src else p in boring)
      :: if InSrc(p) then src[p] else boring[p]
  }

  /** The vendored tree after a completed BoringSSL stage: the checkout merged in, then the README stamped with the resolved commit. */
  predicate BoringRolled(before: Tree, after: Tree, commit: seq<byte>, tools: Tools) {
    && tools.checkout.Some?
    && tools.revList.Some?
    && commit == TrimSpace(tools.revList.value)
    && StampFile(CheckedOut(before, tools.checkout.value), BoringReadme, commit) == Ok(after)
  }

  /**
   `after` is `before` with the `/src` subtree replaced by `src` and the
   pre-roll README, which the checkout does not touch, stamped with `commit`.
   */
  ghost predicate VendoredRolled(before: Tree, after: Tree, commit: seq<byte>, src: Tree) {
    && BoringReadme in before && before[BoringReadme].File?
    && Stamp(before[BoringReadme].data, commit).Ok?
    && (forall p :: p in after <==> if InSrc(p) then p in src else p in before)
    && after[BoringReadme] == File(Stamp(before[BoringReadme].data, commit).value)
    && (forall p | p in after && p != BoringReadme :: after[p] == if InSrc(p) then src[p] else before[p])
  }

  /**
   `updateBoring`: fetch, check out the commit in `src/`, resolve it to the
   trimmed output of `git rev-list`, stamp the vendored README with it and
   regenerate the build files.
   */
  function UpdateBoring(w: World, commit: seq<byte>, tools: Tools): (s: Step)
    ensures s.world.zircon == w.zircon
    ensures !tools.fetched || tools.checkout.None? ==> s.failure.Some? && s.world == w && s.commit == commit
    ensures s.failure.None? <==> BoringRolled(w.boring, s.world.boring, s.commit, tools) && tools.fetched && tools.generated
    ensures s.failure.None? ==> VendoredRolled(w.boring, s.world.boring, s.commit, tools.checkout.value)
  {
    if !tools.fetched then Step(w, commit, Some(CommandFailed(GitFetch)))
    else if tools.checkout.None? then Step(w, commit, Some(CommandFailed(GitCheckout)))
    else
      var checkedOut := w.(boring := CheckedOut(w.boring, tools.checkout.value));
      if tools.revList.None? then Step(checkedOut, commit, Some(CommandFailed(GitRevList)))
      else
        var resolved := TrimSpace(tools.revList.value);
        match StampFile(checkedOut.boring, BoringReadme, resolved)
        case Err(e) => Step(checkedOut, resolved, Some(ReadmeFailed(e)))
        case Ok(stamped) =>
          StampedCheckoutRolled(w.boring, tools.checkout.value, resolved);
          var rolled := checkedOut.(boring := stamped);
          if !tools.generated then Step(rolled, resolved, Some(CommandFailed(GenerateBuildFiles)))
          else Step(rolled, resolved, None)
  }

  /** Stamping the README of the merged checkout stamps the pre-roll README, which lies outside `/src`. */
  lemma StampedCheckoutRolled(before: Tree, src: Tree, commit: seq<byte>)
    requires StampFile(CheckedOut(before, src), BoringReadme, commit).Ok?
    ensures VendoredRolled(before, StampFile(CheckedOut(before, src), BoringReadme, commit).value, commit, src)
  {
    var merged := CheckedOut(before, src);
    assert !InSrc(BoringReadme) by {
      assert BoringReadme[..4] == "/REA";
    }
    assert merged[BoringReadme] == before[BoringReadme];
  }

  /** Rolling the vendored tree again to the same upstream state changes nothing: the second roll succeeds with the same tree and commit value. */
  lemma UpdateBoringIdempotent(w: World, commit: seq<byte>, tools: Tools)
    requires UpdateBoring(w, commit, tools).failure.None?
    ensures var once := UpdateBoring(w, commit, tools);
            UpdateBoring(once.world, commit, tools) == once
  {
    var once := UpdateBoring(w, commit, tools);
    var src := tools.checkout.value;
    var resolved := TrimSpace(tools.revList.value);
    assert once.commit == resolved;
    RolledAgain(w.boring, once.world.boring, resolved, src);
    assert StampFile(CheckedOut(once.world.boring, src), BoringReadme, resolved) == Ok(once.world.boring);
  }

  /** A rolled vendored tree is its own checkout, and its README takes the same stamp again without change. */
  lemma RolledAgain(before: Tree, after: Tree, commit: seq<byte>, src: Tree)
    requires VendoredRolled(before, after, commit, src)
    ensures CheckedOut(after, src) == after
    ensures StampFile(after, BoringReadme, commit) == Ok(after)
  {
    var data := before[BoringReadme].data;
    StampIdempotent(data, commit);
    assert after[BoringReadme := File(Stamp(data, commit).value)] == after;
  }

  /** `updateRust`: run bindgen, whose output the model does not track. */
  function UpdateRust(w: World, commit: seq<byte>, tools: Tools): (s: Step)
    ensures s.world == w && s.commit == commit
    ensures s.failure.None? <==> tools.bindgen
  {
    if tools.bindgen then Step(w, commit, None) else Step(w, commit, Some(CommandFailed(Bindgen)))
  }

  /**
   `updateZircon`: stamp the subset README with the current commit value,
   then walk the subset tree. A README that cannot be stamped stops the stage
   before the walk and changes nothing.
   */
  function UpdateZircon(w: World, commit: seq<byte>, tools: Tools): (s: Step)
    ensures s.world.boring == w.boring && s.commit == commit
    ensures s.failure.Some? && s.failure.value.ReadmeFailed? ==> s.world == w
    ensures s.failure.None? ==>
              && StampFile(w.zircon, ZirconReadme, commit).Ok?
              && ZirconReadme in s.world.zircon
              && s.world.zircon[ZirconReadme] == File(Stamp(w.zircon[ZirconReadme].data, commit).value)
    ensures s.failure.None? ==>
              forall p | p in tools.walkOrder && Compared(s.world.zircon, p) ::
                HasUpstreamFile(w.boring, p) && s.world.zircon[p] == Upstream(w.boring, p).node
  {
    match StampFile(w.zircon, ZirconReadme, commit)
    case Err(e) => Step(w, commit, Some(ReadmeFailed(e)))
    case Ok(stamped) =>
      var sync := Walk(stamped, w.boring, tools.walkOrder);
      if sync.failure.Some? then Step(w.(zircon := sync.tree), commit, Some(WalkFailed(sync.failure.value)))
      else
        WalkSynchronises(stamped, w.boring, tools.walkOrder);
        Step(w.(zircon := sync.tree), commit, None)
  }

  /** One stage. Only the BoringSSL stage writes the vendored tree or the commit value, and only the Zircon stage writes the subset. */
  function RunStage(stage: Stage, w: World, commit: seq<byte>, tools: Tools): (s: Step)
    ensures stage != ZirconStage ==> s.world.zircon == w.zircon
    ensures stage != BoringStage ==> s.world.boring == w.boring && s.commit == commit
  {
    match stage
    case BoringStage => UpdateBoring(w, commit, tools)
    case RustStage => UpdateRust(w, commit, tools)
    case ZirconStage => UpdateZircon(w, commit, tools)
  }

  /**
   One `if !skip { update() }` block of `main`: the stage runs only when the
   roll is still going and its skip flag is unset; a failing stage ends the
   roll (`log.Fatal`).
   */
  function Next(o: Outcome, stage: Stage, skip: bool, tools: Tools): (r: Outcome)
    ensures stage != ZirconStage ==> r.world.zircon == o.world.zircon
    ensures stage != BoringStage ==> r.world.boring == o.world.boring && r.commit == o.commit
  {
    if !o.status.Completed? || skip then o
    else
      var s := RunStage(stage, o.world, o.commit, tools);
      Outcome(o.started + [stage], s.world, s.commit,
              if s.failure.Some? then Failed(stage, s.failure.value) else Completed)
  }

  /** The roll after the BoringSSL block of `main`. */
  function AfterBoring(cfg: Config, w: World, tools: Tools): Outcome {
    Next(Outcome([], w, cfg.commit, Completed), BoringStage, cfg.skipBoring, tools)
  }

  /** The roll after the BoringSSL and Rust blocks of `main`. */
  function AfterRust(cfg: Config, w: World, tools: Tools): Outcome {
    Next(AfterBoring(cfg, w, tools), RustStage, cfg.skipRust, tools)
  }

  /**
   `main`: refuse to run without a Fuchsia root, then run the BoringSSL, Rust
   and Zircon blocks in that order.
   */
  function Roll(cfg: Config, w: World, tools: Tools): (o: Outcome)
    ensures o.status == NoFuchsiaDir <==> |cfg.fuchsia| == 0
    ensures |cfg.fuchsia| == 0 ==> o.started == [] && o.world == w
  {
    if |cfg.fuchsia| == 0 then Outcome([], w, cfg.commit, NoFuchsiaDir)
    else Next(AfterRust(cfg, w, tools), ZirconStage, cfg.skipZircon, tools)
  }

  /** The position of a stage in the fixed order. */
  function Rank(stage: Stage): nat {
    match stage
    case BoringStage => 0
    case RustStage => 1
    case ZirconStage => 2
  }

  /** No stage comes before a stage ranked below it. */
  predicate InRankOrder(p: seq<Stage>) {
    forall i, j | 0 <= i < j < |p| :: Rank(p[i]) < Rank(p[j])
  }

  /** The stages a configuration asks for: each one whose skip flag is unset, in the order BoringSSL, Rust, Zircon. */
  function Plan(cfg: Config): (p: seq<Stage>)
    ensures BoringStage in p <==> !cfg.skipBoring
    ensures RustStage in p <==> !cfg.skipRust
    ensures ZirconStage in p <==> !cfg.skipZircon
    ensures InRankOrder(p)
  {
    (if cfg.skipBoring then [] else [BoringStage])
    + (if cfg.skipRust then [] else [RustStage])
    + (if cfg.skipZircon then [] else [ZirconStage])
  }

  /** The commit value the Zircon stage stamps: the resolved hash if the BoringSSL stage ran, else the flag. */
  function ZirconCommit(cfg: Config, tools: Tools): seq<byte> {
    if cfg.skipBoring || tools.revList.None? then cfg.commit else TrimSpace(tools.revList.value)
  }

  /**
   `o` started a prefix of the stages `p`: all of them if it completed, and
   up to the stage that failed if one failed.
   */
  predicate Follows(o: Outcome, p: seq<Stage>) {
    && |o.started| <= |p| && o.started == p[..|o.started|]
    && (o.status.Completed? ==> o.started == p)
    && (o.status.Failed? ==> |o.started| > 0 && o.status.stage == o.started[|o.started| - 1])
  }

  /** One block of `main` extends the stages followed by the stage it asks for. */
  lemma NextFollows(o: Outcome, p: seq<Stage>, stage: Stage, skip: bool, tools: Tools)
    requires Follows(o, p)
    ensures Follows(Next(o, stage, skip, tools), p + (if skip then [] else [stage]))
  {
    var q := p + (if skip then [] else [stage]);
    assert q[..|p|] == p;
    assert o.started == q[..|o.started|];
  }

  /** A roll starts a prefix of its plan: all of it when it completes, and up to the stage that failed when one fails. */
  lemma RollFollowsPlan(cfg: Config, w: World, tools: Tools)
    ensures Follows(Roll(cfg, w, tools), Plan(cfg))
  {
    if |cfg.fuchsia| > 0 {
      var start := Outcome([], w, cfg.commit, Completed);
      var pb := if cfg.skipBoring then [] else [BoringStage];
      var pr := pb + (if cfg.skipRust then [] else [RustStage]);
      assert Follows(start, []);
      NextFollows(start, [], BoringStage, cfg.skipBoring, tools);
      assert [] + pb == pb;
      NextFollows(AfterBoring(cfg, w, tools), pb, RustStage, cfg.skipRust, tools);
      NextFollows(AfterRust(cfg, w, tools), pr, ZirconStage, cfg.skipZircon, tools);
    }
  }

  lemma PrefixInRankOrder(p: seq<Stage>, n: nat)
    requires n <= |p| && InRankOrder(p)
    ensures InRankOrder(p[..n])
  {
    forall i, j | 0 <= i < j < n
      ensures Rank(p[..n][i]) < Rank(p[..n][j])
    {
      assert p[..n][i] == p[i] && p[..n][j] == p[j];
    }
  }

  lemma PrefixMember<T>(p: seq<T>, n: nat, x: T)
    requires n <= |p| && x in p[..n]
    ensures x in p
  {
    var i :| 0 <= i < n && p[..n][i] == x;
    assert p[i] == x;
  }

  /** Started stages follow the fixed order, none twice, and only those whose skip flag is unset. */
  lemma RollStagesInOrder(cfg: Config, w: World, tools: Tools)
    ensures var o := Roll(cfg, w, tools);
            && InRankOrder(o.started)
            && (BoringStage in o.started ==> !cfg.skipBoring)
            && (RustStage in o.started ==> !cfg.skipRust)
            && (ZirconStage in o.started ==> !cfg.skipZircon)
  {
    var o := Roll(cfg, w, tools);
    RollFollowsPlan(cfg, w, tools);
    assert |o.started| <= |Plan(cfg)|;
    PrefixInRankOrder(Plan(cfg), |o.started|);
    forall x | x in o.started
      ensures x in Plan(cfg)
    {
      PrefixMember(Plan(cfg), |o.started|, x);
    }
  }

  /** The BoringSSL and Rust blocks leave the subset as it was and hand on the commit value the Zircon stage stamps. */
  lemma BeforeZircon(cfg: Config, w: World, tools: Tools)
    requires AfterRust(cfg, w, tools).status.Completed?
    ensures AfterRust(cfg, w, tools).world.zircon == w.zircon
    ensures !cfg.skipBoring ==> tools.revList.Some?
    ensures AfterRust(cfg, w, tools).commit == ZirconCommit(cfg, tools)
  {
    var b := AfterBoring(cfg, w, tools);
    assert AfterRust(cfg, w, tools).commit == b.commit;
    assert b.status.Completed?;
    if !cfg.skipBoring {
      var s := UpdateBoring(Outcome([], w, cfg.commit, Completed).world, cfg.commit, tools);
      assert s.failure.None?;
      assert b.commit == s.commit;
    }
  }

  /** A completed roll that ran the Zircon stage ended with a successful Zircon stage after completed earlier blocks. */
  lemma ZirconRanLast(cfg: Config, w: World, tools: Tools)
    requires Roll(cfg, w, tools).status.Completed? && !cfg.skipZircon
    ensures var r := AfterRust(cfg, w, tools);
            && r.status.Completed?
            && UpdateZircon(r.world, r.commit, tools).failure.None?
            && Roll(cfg, w, tools).world == UpdateZircon(r.world, r.commit, tools).world
  {
    var r := AfterRust(cfg, w, tools);
    assert RunStage(ZirconStage, r.world, r.commit, tools) == UpdateZircon(r.world, r.commit, tools);
  }

  /**
   A completed roll that ran the Zircon stage stamped the subset README with
   the resolved hash when the BoringSSL stage ran, and with the raw commit
   flag otherwise.
   */
  lemma RollStampsZirconReadme(cfg: Config, w: World, tools: Tools)
    requires Roll(cfg, w, tools).status.Completed? && !cfg.skipZircon
    ensures !cfg.skipBoring ==> tools.revList.Some?
    ensures StampFile(w.zircon, ZirconReadme, ZirconCommit(cfg, tools)).Ok?
    ensures ZirconReadme in Roll(cfg, w, tools).world.zircon
    ensures Roll(cfg, w, tools).world.zircon[ZirconReadme]
         == File(Stamp(w.zircon[ZirconReadme].data, ZirconCommit(cfg, tools)).value)
  {
    ZirconRanLast(cfg, w, tools);
    BeforeZircon(cfg, w, tools);
  }

  /**
   A completed roll that ran the BoringSSL stage left the vendored tree with
   its `/src` subtree as checked out, its pre-roll README stamped with the
   trimmed `git rev-list` output, and every other file as it was.
   */
  lemma RollStampsBoringReadme(cfg: Config, w: World, tools: Tools)
    requires Roll(cfg, w, tools).status.Completed? && !cfg.skipBoring
    ensures tools.checkout.Some? && tools.revList.Some?
    ensures VendoredRolled(w.boring, Roll(cfg, w, tools).world.boring, TrimSpace(tools.revList.value), tools.checkout.value)
  {
    var b := AfterBoring(cfg, w, tools);
    var s := UpdateBoring(w, cfg.commit, tools);
    assert b.status.Completed? && s.failure.None? && b.world == s.world;
    assert Roll(cfg, w, tools).world.boring == b.world.boring;
  }

  /**
   A completed roll that ran the Zircon stage left every compared subset
   file on the walk equal to its upstream counterpart; a walk that visits
   the whole subset, as `filepath.Walk` does, leaves every compared file so.
   */
  lemma RollSynchronisesSubset(cfg: Config, w: World, tools: Tools)
    requires Roll(cfg, w, tools).status.Completed? && !cfg.skipZircon
    ensures var o := Roll(cfg, w, tools);
            forall p | p in tools.walkOrder && Compared(o.world.zircon, p) ::
              HasUpstreamFile(o.world.boring, p) && o.world.zircon[p] == Upstream(o.world.boring, p).node
  {
    ZirconRanLast(cfg, w, tools);
    BeforeZircon(cfg, w, tools);
  }

  /**
   A failure stops the roll: a stage that fails before the Zircon stage
   leaves the subset as it was, and so does a Zircon README that cannot be
   stamped.
   */
  lemma RollFailureKeepsSubset(cfg: Config, w: World, tools: Tools)
    requires Roll(cfg, w, tools).status.Failed?
    ensures var o := Roll(cfg, w, tools);
            o.status.stage != ZirconStage || o.status.cause.ReadmeFailed? ==> o.world.zircon == w.zircon
  {
    var r := AfterRust(cfg, w, tools);
    if r.status.Completed? {
      BeforeZircon(cfg, w, tools);
      if !cfg.skipZircon {
        assert RunStage(ZirconStage, r.world, r.commit, tools) == UpdateZircon(r.world, r.commit, tools);
      }
    }
  }
}
