/**
 Group publication of a capsule: a directory, an archive and sidecars are staged beside their targets,
 linked and renamed into place without overwriting, and rolled back when any step fails. Any single
 step of the file system may fail, and a failing write may leave anything behind in its stage.
 */
module CapsulePublish {
  import opened Basics

  type Path = seq<Bytes>

  datatype Entry = Dir | File(bytes: Bytes)

  type Tree = map<Path, Entry>

  function Parent(p: Path): Path {
    if p == [] then [] else p[..|p| - 1]
  }

  predicate Under(roots: seq<Path>, p: Path) {
    exists i | 0 <= i < |roots| :: roots[i] <= p
  }

  /** What lies at `root` and below is this tree. */
  ghost predicate Holds(e: Tree, root: Path, tree: Tree) {
    forall p | root <= p :: (p in e <==> p[|root|..] in tree) && (p in e ==> e[p] == tree[p[|root|..]])
  }

  /** Nothing lies at `root` or below. */
  ghost predicate Vacant(e: Tree, root: Path) {
    forall p | p in e :: !(root <= p)
  }

  /** The entries outside the staging roots. */
  function Visible(e: Tree, roots: seq<Path>): Tree {
    map p | p in e && !Under(roots, p) :: e[p]
  }

  /** A file lies where the path needs a directory. */
  ghost predicate Blocked(e: Tree, path: Path) {
    exists q | q in e :: q <= path && e[q].File?
  }

  /** Only directories on the way to `path` were added. */
  ghost predicate DirsAdded(e: Tree, f: Tree, path: Path) {
    && (forall p | p in e :: p in f && f[p] == e[p])
    && forall p | p in f && p !in e :: f[p] == Dir && p <= path
  }

  /** There are directories all the way to `path`. */
  ghost predicate Reached(e: Tree, path: Path) {
    forall n | 0 <= n <= |path| :: path[..n] in e && e[path[..n]].Dir?
  }

  /** The directory of `path` is there; the root needs none. */
  predicate HasParent(e: Tree, path: Path) {
    path == [] || (Parent(path) in e && e[Parent(path)].Dir?)
  }

  /** None of these steps fails. */
  ghost predicate Succeed(fails: nat -> bool, start: nat, count: nat) {
    forall n: nat | start <= n < start + count :: !fails(n)
  }

  lemma SucceedTogether(fails: nat -> bool, start: nat, a: nat, b: nat)
    ensures Succeed(fails, start, a + b) <==> Succeed(fails, start, a) && Succeed(fails, start + a, b)
  {
  }

  lemma OneStep(fails: nat -> bool, start: nat)
    ensures Succeed(fails, start, 1) <==> !fails(start)
  {
    assert Succeed(fails, start, 1) ==> !fails(start);
  }

  // ----- the file system

  class Disk {
    /** Which of its steps fail. */
    const fails: nat -> bool
    var steps: nat
    var entries: Tree

    constructor (fails: nat -> bool, entries: Tree)
      ensures this.fails == fails && this.entries == entries && steps == 0
    {
      this.fails, this.entries, this.steps := fails, entries, 0;
    }

    method MkdirAll(path: Path) returns (ok: bool)
      modifies this
      ensures DirsAdded(old(entries), entries, path)
      ensures steps == old(steps) + 1
      ensures ok <==> !fails(old(steps)) && !Blocked(old(entries), path)
      ensures ok ==> Reached(entries, path)
    {
      var broken := fails(steps);
      steps := steps + 1;
      for n := 0 to |path| + 1
        invariant DirsAdded(old(entries), entries, path) && steps == old(steps) + 1
        invariant forall m | 0 <= m < n :: path[..m] in entries && entries[path[..m]].Dir?
      {
        var stop: bool := *;
        if broken && stop {
          return false;
        }
        var p := path[..n];
        if p in entries {
          if entries[p].File? {
            assert p in old(entries) && p <= path;
            return false;
          }
        } else {
          entries := entries[p := Dir];
        }
      }
      forall q | q in old(entries) && q <= path ensures old(entries)[q].Dir? {
        assert q == path[..|q|];
      }
      ok := !broken;
    }

    method MakeDir(path: Path) returns (ok: bool)
      modifies this
      ensures entries == if ok then old(entries)[path := Dir] else old(entries)
      ensures steps == old(steps) + 1
      ensures ok <==> !fails(old(steps)) && path !in old(entries) && HasParent(old(entries), path)
    {
      ok := !fails(steps) && path !in entries && HasParent(entries, path);
      steps := steps + 1;
      if ok {
        entries := entries[path := Dir];
      }
    }

    /** A step that changes nothing but may fail: changing a mode, syncing, reading back. */
    method Check() returns (ok: bool)
      modifies this
      ensures entries == old(entries) && steps == old(steps) + 1 && (ok <==> !fails(old(steps)))
    {
      ok := !fails(steps);
      steps := steps + 1;
    }

    /** Writes a tree to a vacant place inside `within`; a failure may leave anything there. */
    method WriteTree(root: Path, tree: Tree, ghost within: Path) returns (ok: bool)
      requires within <= root && Vacant(entries, root)
      modifies this
      ensures SameOutside(old(entries), entries, within) && (ok ==> Holds(entries, root, tree))
      ensures steps == old(steps) + 1 && (ok <==> !fails(old(steps)) && HasParent(old(entries), root))
    {
      ok := !fails(steps) && HasParent(entries, root);
      steps := steps + 1;
      var written := tree;
      if !ok {
        written := *;
      }
      entries := entries + Planted(root, written);
      PlantedHolds(root, written);
    }

    method Link(staged: Path, target: Path) returns (ok: bool)
      modifies this
      ensures steps == old(steps) + 1
      ensures ok <==> !fails(old(steps)) && staged in old(entries) && target !in old(entries) && HasParent(old(entries), target)
      ensures entries == if ok then old(entries)[target := old(entries)[staged]] else old(entries)
    {
      ok := !fails(steps) && staged in entries && target !in entries && HasParent(entries, target);
      steps := steps + 1;
      if ok {
        entries := entries[target := entries[staged]];
      }
    }

    /** Moves what lies at `source` to a place not taken. */
    method RenameDirectory(source: Path, target: Path) returns (ok: bool)
      requires Vacant(entries, target) || target in entries
      modifies this
      ensures steps == old(steps) + 1
      ensures ok <==> !fails(old(steps)) && source in old(entries) && target !in old(entries) && HasParent(old(entries), target)
      ensures entries == if ok then Moved(old(entries), source, target) else old(entries)
    {
      ok := !fails(steps) && source in entries && target !in entries && HasParent(entries, target);
      steps := steps + 1;
      if ok {
        entries := Moved(entries, source, target);
      }
    }

    method Remove(path: Path)
      modifies this`entries
      ensures entries == old(entries) - {path}
    {
      entries := entries - {path};
    }

    method RemoveAll(root: Path)
      modifies this`entries
      ensures entries == Without(old(entries), root)
    {
      entries := map p | p in entries && !(root <= p) :: entries[p];
    }
  }

  function Without(e: Tree, root: Path): Tree {
    map p | p in e && !(root <= p) :: e[p]
  }

  /** A tree placed at a path. */
  function Planted(root: Path, tree: Tree): Tree {
    map p | p in (set q | q in tree :: root + q) :: tree[p[|root|..]]
  }

  lemma PlantedHolds(root: Path, tree: Tree)
    ensures Holds(Planted(root, tree), root, tree)
    ensures forall p | p in Planted(root, tree) :: root <= p
  {
    forall p | root <= p
      ensures p in Planted(root, tree) <==> p[|root|..] in tree
      ensures p in Planted(root, tree) ==> Planted(root, tree)[p] == tree[p[|root|..]]
    {
      assert p == root + p[|root|..];
      forall q | q in tree && p == root + q ensures q == p[|root|..] {
      }
    }
  }

  /** What lies at `source` and below. */
  function Subtree(e: Tree, source: Path): Tree {
    assert forall p: Path | source <= p :: source + p[|source|..] == p;
    map q | q in (set p | p in e && source <= p :: p[|source|..]) :: e[source + q]
  }

  function Moved(e: Tree, source: Path, target: Path): Tree {
    Without(e, source) + Planted(target, Subtree(e, source))
  }

  /** Two trees agree outside `within`. */
  ghost predicate SameOutside(e: Tree, f: Tree, within: Path) {
    forall p | !(within <= p) :: (p in e <==> p in f) && (p in e ==> e[p] == f[p])
  }

  // ----- the job

  /**
   A publication: the targets (directory, archive, sidecars) and what is staged for each, at a leaf
   of a staging root beside the target; what verification accepts as a capsule directory, and the digest
   by which an archive is compared.
   */
  datatype Job = Job(
    start: Tree, targets: seq<Path>, stages: seq<Path>, leaves: seq<Bytes>, contents: seq<Tree>,
    directoryOk: Tree -> bool, sha: Bytes -> Bytes)

  function Leaf(job: Job, k: nat): Path
    requires k < |job.stages| == |job.leaves|
  {
    job.stages[k] + [job.leaves[k]]
  }

  /** Each staging root is in the directory of its target. */
  ghost predicate Beside(job: Job)
    requires |job.stages| == |job.targets|
  {
    forall i | 0 <= i < |job.stages| :: job.stages[i] != [] && job.stages[i][..|job.stages[i]| - 1] == Parent(job.targets[i])
  }

  /**
   Staging roots are new names beside the targets, no two names on one path; no target lies inside
   another; whatever is in the file system has its directories.
   */
  ghost predicate Sound(job: Job) {
    && |job.targets| == |job.stages| == |job.leaves| == |job.contents| >= 2
    && (forall i | 0 <= i < |job.targets| :: job.targets[i] != []) && Beside(job)
    && (forall i, j | 0 <= i < |job.targets| && 0 <= j < |job.targets| :: !(job.targets[i] < job.targets[j]))
    && (forall i, j | 0 <= i < |job.stages| && 0 <= j < |job.targets| ::
          !(job.stages[i] <= job.targets[j]) && !(job.targets[j] <= job.stages[i]))
    && (forall i, j | 0 <= i < |job.stages| && 0 <= j < |job.stages| && i != j :: !(job.stages[i] <= job.stages[j]))
    && (forall i | 0 <= i < |job.stages| :: Vacant(job.start, job.stages[i]))
    && (forall p, q: Path | p in job.start && q <= p :: q in job.start)
    && [] in job.contents[0]
    && (forall i | 1 <= i < |job.contents| :: job.contents[i].Keys == {[]} && job.contents[i][[]].File?)
  }

  /** Nothing of what was there changed, and what is new are directories on the way to targets. */
  ghost predicate Grown(job: Job, now: Tree) {
    && (forall p | p in job.start :: p in now && now[p] == job.start[p])
    && forall p | p in now && p !in job.start :: now[p] == Dir && exists i | 0 <= i < |job.targets| :: p < job.targets[i]
  }

  /** `k` staging roots are in use; the others are still free. */
  ghost predicate Staging(job: Job, e: Tree, k: nat)
    requires k <= |job.stages|
  {
    && Grown(job, Visible(e, job.stages[..k]))
    && forall i | k <= i < |job.stages| :: Vacant(e, job.stages[i])
  }

  lemma SizesOf(job: Job)
    requires Sound(job)
    ensures |job.stages| == |job.leaves| == |job.contents| == |job.targets| >= 2
  {
  }

  /** Two paths with a common extension are one above the other. */
  lemma Common(a: Path, b: Path, p: Path)
    requires a <= p && b <= p
    ensures a <= b || b <= a
  {
    assert a == p[..|a|] && b == p[..|b|];
    if |a| <= |b| {
      assert a == b[..|a|];
    } else {
      assert b == a[..|b|];
    }
  }

  /** Making directories on the way to a target is all that shows. */
  lemma DirsGrow(job: Job, e: Tree, f: Tree, k: nat, t: nat)
    requires Sound(job) && k <= |job.stages| && t < |job.targets| && Staging(job, e, k)
    requires DirsAdded(e, f, Parent(job.targets[t]))
    ensures Staging(job, f, k)
  {
    hide Beside;
    var roots := job.stages[..k];
    var v, w := Visible(e, roots), Visible(f, roots);
    forall p | p in w && p !in job.start ensures w[p] == Dir && exists i | 0 <= i < |job.targets| :: p < job.targets[i] {
      if p in e {
        assert p in v;
      } else {
        assert p < job.targets[t];
      }
    }
    forall i | k <= i < |job.stages| ensures Vacant(f, job.stages[i]) {
      forall p | p in f ensures !(job.stages[i] <= p) {
        if p !in e {
          assert p < job.targets[t];
        }
      }
    }
    assert forall p | p in job.start :: p in v;
  }

  lemma NewRoot(job: Job, e: Tree, k: nat)
    requires Sound(job) && k < |job.stages| && Staging(job, e, k)
    ensures Staging(job, e[job.stages[k] := Dir], k + 1)
  {
    hide Beside;
    var f := e[job.stages[k] := Dir];
    var roots, more := job.stages[..k], job.stages[..k + 1];
    assert more == roots + [job.stages[k]];
    forall p ensures p in Visible(f, more) <==> p in Visible(e, roots) {
      if p in Visible(e, roots) {
        assert !(job.stages[k] <= p);
      }
      if p in Visible(f, more) {
        assert more[k] == job.stages[k] && !(job.stages[k] <= p);
        forall i | 0 <= i < k ensures !(roots[i] <= p) {
          assert more[i] == roots[i];
        }
      }
    }
    assert Visible(f, more) == Visible(e, roots);
  }

  /** Work inside a staging root in use does not show. */
  lemma StageHides(job: Job, e: Tree, f: Tree, k: nat, i: nat)
    requires Sound(job) && i < k <= |job.stages| && Staging(job, e, k)
    requires SameOutside(e, f, job.stages[i])
    ensures Staging(job, f, k) && Visible(f, job.stages[..k]) == Visible(e, job.stages[..k])
  {
    hide Beside;
    var roots := job.stages[..k];
    assert roots[i] == job.stages[i];
    forall p ensures p in Visible(f, roots) <==> p in Visible(e, roots) {
      if !(job.stages[i] <= p) {
        assert p in e <==> p in f;
      }
    }
    assert Visible(f, roots) == Visible(e, roots);
    forall j | k <= j < |job.stages| ensures Vacant(f, job.stages[j]) {
      forall p | p in f ensures !(job.stages[j] <= p) {
        if job.stages[i] <= p && job.stages[j] <= p {
          Common(job.stages[i], job.stages[j], p);
        }
      }
    }
  }

  // ----- staging

  /** What has been staged for the first `k` targets lies at its leaf, and the directories of these targets are there. */
  ghost predicate Staged(job: Job, e: Tree, k: nat)
    requires k <= |job.stages| == |job.leaves| == |job.contents| == |job.targets|
  {
    forall i | 0 <= i < k :: Holds(e, Leaf(job, i), job.contents[i]) && HasParent(e, job.targets[i])
  }

  lemma StagesApart(job: Job, i: nat, j: nat, p: Path)
    requires Sound(job) && i < |job.stages| && j < |job.stages| && i != j
    ensures job.stages[j] <= p ==> !(job.stages[i] <= p)
  {
    if job.stages[j] <= p && job.stages[i] <= p {
      Common(job.stages[i], job.stages[j], p);
    }
  }

  lemma StagedStays(job: Job, e: Tree, f: Tree, k: nat, i: nat)
    requires Sound(job) && k <= i < |job.stages| && Staged(job, e, k) && SameOutside(e, f, job.stages[i])
    ensures Staged(job, f, k)
  {
    hide Beside;
    forall j | 0 <= j < k ensures Holds(f, Leaf(job, j), job.contents[j]) && HasParent(f, job.targets[j]) {
      forall p | (p in e || p in f) && Leaf(job, j) <= p ensures !(job.stages[i] <= p) {
        StagesApart(job, i, j, p);
      }
      assert Holds(e, Leaf(job, j), job.contents[j]) && HasParent(e, job.targets[j]);
      WayOutside(job, e, f, i, j);
    }
  }

  /** Nothing staged lies on the way to a target. */
  lemma NotOnTheWay(job: Job, j: nat, t: nat, p: Path)
    requires Sound(job) && j < |job.stages| && t < |job.targets|
    ensures job.stages[j] <= p ==> !(p <= Parent(job.targets[t]))
  {
    Longer(p, Parent(job.targets[t]), job.targets[t]);
    Longer(job.stages[j], p, job.targets[t]);
  }

  lemma Longer(a: Path, b: Path, c: Path)
    ensures a <= b && b <= c ==> a <= c
  {
  }

  lemma WayOutside(job: Job, e: Tree, f: Tree, i: nat, t: nat)
    requires Sound(job) && i < |job.stages| && t < |job.targets| && SameOutside(e, f, job.stages[i])
    ensures HasParent(e, job.targets[t]) ==> HasParent(f, job.targets[t])
  {
    NotOnTheWay(job, i, t, Parent(job.targets[t]));
  }

  lemma DirsKeepStaged(job: Job, e: Tree, f: Tree, k: nat, t: nat)
    requires Sound(job) && k <= |job.stages| && t < |job.targets| && Staged(job, e, k)
    requires DirsAdded(e, f, Parent(job.targets[t]))
    ensures Staged(job, f, k)
  {
    hide Beside;
    forall j | 0 <= j < k ensures Holds(f, Leaf(job, j), job.contents[j]) && HasParent(f, job.targets[j]) {
      forall p | p in f && Leaf(job, j) <= p ensures p in e {
        NotOnTheWay(job, j, t, p);
      }
      assert Holds(e, Leaf(job, j), job.contents[j]) && HasParent(e, job.targets[j]);
    }
  }

  /** A staging root beside the `k`-th target; on failure only directories on the way to it remain. */
  method NewStageRoot(disk: Disk, job: Job, ghost k: nat, target: Path, stage: Path) returns (ok: bool)
    requires Sound(job) && k < |job.stages| && target == job.targets[k] && stage == job.stages[k]
    requires Staging(job, disk.entries, k) && Staged(job, disk.entries, k)
    modifies disk
    ensures Staged(job, disk.entries, k)
    ensures if ok then Staging(job, disk.entries, k + 1) && Vacant(disk.entries, Leaf(job, k)) else Staging(job, disk.entries, k)
    ensures ok ==> HasParent(disk.entries, target) && HasParent(disk.entries, Leaf(job, k))
    ensures ok ==> disk.steps == old(disk.steps) + 3
    ensures ok <==> Succeed(disk.fails, old(disk.steps), 3) && !Blocked(old(disk.entries), Parent(target))
  {
    ghost var before := disk.entries;
    hide *;
    SizesOf(job);
    SucceedTogether(disk.fails, disk.steps, 1, 2);
    OneStep(disk.fails, disk.steps);
    ok := disk.MkdirAll(Parent(target));
    WayIsMade(job, before, disk.entries, k);
    if ok {
      ok := MakeStage(disk, stage);
    }
  }

  /** After the directories on the way are made, the root may be. */
  lemma WayIsMade(job: Job, e: Tree, f: Tree, k: nat)
    requires Sound(job) && k < |job.stages| && Staging(job, e, k) && Staged(job, e, k)
    requires DirsAdded(e, f, Parent(job.targets[k]))
    ensures Staging(job, f, k) && Staged(job, f, k) && Vacant(f, job.stages[k])
    ensures Reached(f, Parent(job.targets[k])) ==> HasParent(f, job.stages[k])
    ensures Reached(f, Parent(job.targets[k])) ==>
              var g := f[job.stages[k] := Dir];
              Staging(job, g, k + 1) && Staged(job, g, k) && Vacant(g, Leaf(job, k)) && HasParent(g, Leaf(job, k)) && HasParent(g, job.targets[k])
  {
    hide *;
    SizesOf(job);
    DirsGrow(job, e, f, k, k);
    DirsKeepStaged(job, e, f, k, k);
    FreeStage(job, f, k);
    if Reached(f, Parent(job.targets[k])) {
      StageHasParent(job, f, k);
      RootIsReady(job, f, k);
    }
  }

  lemma RootIsReady(job: Job, e: Tree, k: nat)
    requires Sound(job) && k < |job.stages| && Staging(job, e, k) && Staged(job, e, k) && HasParent(e, job.targets[k])
    ensures var f := e[job.stages[k] := Dir];
            Staging(job, f, k + 1) && Staged(job, f, k) && Vacant(f, Leaf(job, k)) && HasParent(f, Leaf(job, k)) && HasParent(f, job.targets[k])
  {
    hide *;
    SizesOf(job);
    var f := e[job.stages[k] := Dir];
    FreeStage(job, e, k);
    NewRoot(job, e, k);
    SameBeside(e, job.stages[k]);
    StagedStays(job, e, f, k, k);
    WayOutside(job, e, f, k, k);
    LeafIsInside(job, k);
    VacantLeaf(e, job.stages[k], Leaf(job, k));
  }

  lemma StageHasParent(job: Job, e: Tree, k: nat)
    requires Sound(job) && k < |job.stages| && Reached(e, Parent(job.targets[k]))
    ensures HasParent(e, job.stages[k]) && HasParent(e, job.targets[k])
  {
    var way := Parent(job.targets[k]);
    assert way[..|way|] == way;
  }

  /** The root itself, taken away again when its mode cannot be set. */
  method MakeStage(disk: Disk, stage: Path) returns (ok: bool)
    requires Vacant(disk.entries, stage)
    modifies disk
    ensures disk.entries == if ok then old(disk.entries)[stage := Dir] else old(disk.entries)
    ensures ok ==> disk.steps == old(disk.steps) + 2
    ensures ok <==> Succeed(disk.fails, old(disk.steps), 2) && HasParent(old(disk.entries), stage)
  {
    ghost var before := disk.entries;
    assert stage <= stage;
    ok := disk.MakeDir(stage);
    if !ok {
      return;
    }
    var moded := disk.Check();
    if !moded {
      disk.RemoveAll(stage);
      assert disk.entries == before;
      return false;
    }
  }

  lemma FreeStage(job: Job, e: Tree, k: nat)
    requires k < |job.stages| && Staging(job, e, k)
    ensures Vacant(e, job.stages[k]) && job.stages[k] !in e
  {
    assert job.stages[k] <= job.stages[k];
  }

  lemma SameBeside(e: Tree, p: Path)
    ensures SameOutside(e, e[p := Dir], p)
  {
  }

  lemma VacantLeaf(e: Tree, stage: Path, leaf: Path)
    requires Vacant(e, stage) && stage < leaf && stage == Parent(leaf)
    ensures Vacant(e[stage := Dir], leaf) && HasParent(e[stage := Dir], leaf)
  {
    var f := e[stage := Dir];
    forall p | p in f ensures !(leaf <= p) {
      assert leaf <= p ==> stage < p;
    }
  }

  /** How many steps staging the k-th artifact takes: three for the root, one to write, and for a sidecar one to read back. */
  function StagingSteps(k: nat): nat {
    if k < 2 then 4 else 5
  }

  lemma CountsOf(k: nat)
    ensures StagingSteps(k) == if k < 2 then 4 else 5
  {
  }

  lemma ContentIsFile(job: Job, k: nat)
    requires Sound(job) && 1 <= k < |job.contents|
    ensures [] in job.contents[k]
  {
  }

  lemma LeafIsInside(job: Job, k: nat)
    requires Sound(job) && k < |job.stages|
    ensures job.stages[k] < Leaf(job, k) && job.stages[k] == Parent(Leaf(job, k))
  {
  }

  lemma OneMoreStaged(job: Job, e: Tree, k: nat)
    requires Sound(job) && k < |job.stages| && Staged(job, e, k)
    ensures Holds(e, Leaf(job, k), job.contents[k]) && HasParent(e, job.targets[k]) ==> Staged(job, e, k + 1)
  {
  }

  /** Stages one artifact: root, content, and for a sidecar a look at what was written. */
  method StageArtifact(disk: Disk, job: Job, k: nat) returns (rooted: bool, ok: bool)
    requires Sound(job) && k < |job.stages|
    requires Staging(job, disk.entries, k) && Staged(job, disk.entries, k)
    modifies disk
    ensures Staging(job, disk.entries, if rooted then k + 1 else k) && (ok ==> rooted)
    ensures ok ==> Staged(job, disk.entries, k + 1) && disk.steps == old(disk.steps) + StagingSteps(k)
    ensures ok <==> Succeed(disk.fails, old(disk.steps), StagingSteps(k)) && !Blocked(old(disk.entries), Parent(job.targets[k]))
  {
    hide *;
    SizesOf(job);
    SucceedTogether(disk.fails, disk.steps, 3, 1);
    SucceedTogether(disk.fails, disk.steps, 4, 1);
    OneStep(disk.fails, disk.steps + 3);
    OneStep(disk.fails, disk.steps + 4);
    CountsOf(k);
    LeafIsInside(job, k);
    rooted := NewStageRoot(disk, job, k, job.targets[k], job.stages[k]);
    if !rooted {
      return rooted, false;
    }
    ghost var before := disk.entries;
    ok := disk.WriteTree(Leaf(job, k), job.contents[k], job.stages[k]);
    StageHides(job, before, disk.entries, k + 1, k);
    StagedStays(job, before, disk.entries, k, k);
    WayOutside(job, before, disk.entries, k, k);
    OneMoreStaged(job, disk.entries, k);
    if !ok || k < 2 {
      return;
    }
    WrittenFile(job, disk.entries, k);
    ok := disk.Check();
    ok := ok && disk.entries[Leaf(job, k)] == job.contents[k][[]];
  }

  lemma WrittenFile(job: Job, e: Tree, k: nat)
    requires Sound(job) && 1 <= k < |job.stages| && Holds(e, Leaf(job, k), job.contents[k])
    ensures [] in job.contents[k] && Leaf(job, k) in e && e[Leaf(job, k)] == job.contents[k][[]]
  {
    assert Leaf(job, k)[|Leaf(job, k)|..] == [];
  }

  // ----- publication

  /** The targets are different paths, and none is taken. */
  predicate NewTargets(e: Tree, targets: seq<Path>) {
    Distinct(targets) && forall i | 0 <= i < |targets| :: targets[i] !in e
  }

  method RequireNewTargets(disk: Disk, targets: seq<Path>) returns (ok: bool)
    modifies disk
    ensures disk.entries == old(disk.entries)
    ensures ok ==> disk.steps == old(disk.steps) + |targets|
    ensures ok <==> NewTargets(disk.entries, targets) && Succeed(disk.fails, old(disk.steps), |targets|)
  {
    var seen: set<Path> := {};
    for index := 0 to |targets|
      invariant disk.entries == old(disk.entries)
      invariant forall p :: p in seen <==> p in targets[..index]
      invariant Distinct(targets[..index]) && forall i | 0 <= i < index :: targets[i] !in disk.entries
      invariant disk.steps == old(disk.steps) + index && Succeed(disk.fails, old(disk.steps), index)
    {
      var path := targets[index];
      assert targets[..index + 1] == targets[..index] + [path];
      if path in seen {
        var i :| 0 <= i < index && targets[i] == path;
        return false;
      }
      seen := seen + {path};
      var inspected := disk.Check();
      if !inspected || path in disk.entries {
        return false;
      }
    }
    assert targets[..|targets|] == targets;
    ok := true;
  }

  /** The files of the first targets beside the directory, put in place. */
  function Filled(job: Job, v: Tree, n: nat): Tree
    requires n <= |job.targets| == |job.contents| && forall i | 1 <= i < |job.contents| :: [] in job.contents[i]
  {
    if n <= 1 then v else Filled(job, v, n - 1)[job.targets[n - 1] := job.contents[n - 1][[]]]
  }

  lemma {:induction false} FilledIs(job: Job, v: Tree, n: nat, p: Path)
    requires Sound(job) && n <= |job.targets|
    ensures p in Filled(job, v, n) <==> p in v || exists i | 1 <= i < n :: job.targets[i] == p
    ensures (forall i | 1 <= i < n :: job.targets[i] != p) && p in v ==> Filled(job, v, n)[p] == v[p]
  {
    hide Beside;
    if n > 1 {
      FilledIs(job, v, n - 1, p);
    }
  }

  lemma TargetIsOutside(job: Job, t: nat)
    requires Sound(job) && t < |job.targets|
    ensures !Under(job.stages, job.targets[t])
  {
  }

  /** A change outside every staging root shows as it is. */
  lemma AddedShows(e: Tree, roots: seq<Path>, p: Path, x: Entry)
    requires !Under(roots, p)
    ensures Visible(e[p := x], roots) == Visible(e, roots)[p := x]
    ensures p in e <==> p in Visible(e, roots)
  {
    hide Under;
    assert Visible(e[p := x], roots) == Visible(e, roots)[p := x];
  }

  lemma RemovedShows(e: Tree, roots: seq<Path>, p: Path)
    ensures Visible(e - {p}, roots) == Visible(e, roots) - {p}
  {
    hide Under;
    assert Visible(e - {p}, roots) == Visible(e, roots) - {p};
  }

  lemma TargetsAreNotStaged(job: Job, e: Tree, f: Tree, t: nat)
    requires Sound(job) && t < |job.targets| && Staged(job, e, |job.stages|)
    requires forall p | p != job.targets[t] :: (p in e <==> p in f) && (p in e ==> e[p] == f[p])
    ensures Staged(job, f, |job.stages|)
  {
    forall i | 0 <= i < |job.stages| ensures Holds(f, Leaf(job, i), job.contents[i]) && HasParent(f, job.targets[i]) {
      assert Holds(e, Leaf(job, i), job.contents[i]) && HasParent(e, job.targets[i]);
      assert Parent(job.targets[i]) < job.targets[i];
      Longer(job.stages[i], Leaf(job, i), job.targets[t]);
      assert !(Leaf(job, i) <= job.targets[t]);
    }
  }

  /** Links one file and syncs its directory. */
  method LinkOne(disk: Disk, job: Job, ghost v: Tree, k: nat) returns (linked: bool, synced: bool)
    requires Sound(job) && NewTargets(v, job.targets) && 1 <= k < |job.targets|
    requires Visible(disk.entries, job.stages) == Filled(job, v, k) && Staged(job, disk.entries, |job.stages|)
    modifies disk
    ensures Visible(disk.entries, job.stages) == Filled(job, v, if linked then k + 1 else k)
    ensures Staged(job, disk.entries, |job.stages|) && (synced ==> linked && disk.steps == old(disk.steps) + 2)
    ensures synced <==> Succeed(disk.fails, old(disk.steps), 2)
  {
    hide *;
    ghost var before := disk.entries;
    SizesOf(job);
    ContentIsFile(job, k);
    StagedFile(job, before, k);
    TargetIsOutside(job, k);
    AddedShows(before, job.stages, job.targets[k], job.contents[k][[]]);
    TargetStillNew(job, v, k);
    SucceedTogether(disk.fails, disk.steps, 1, 1);
    OneStep(disk.fails, disk.steps);
    OneStep(disk.fails, disk.steps + 1);
    linked := disk.Link(Leaf(job, k), job.targets[k]);
    if !linked {
      return linked, false;
    }
    TargetsAreNotStaged(job, before, disk.entries, k);
    synced := disk.Check();
  }

  lemma TargetStillNew(job: Job, v: Tree, k: nat)
    requires Sound(job) && NewTargets(v, job.targets) && 1 <= k < |job.targets|
    ensures job.targets[k] !in Filled(job, v, k)
    ensures Filled(job, v, k + 1) == Filled(job, v, k)[job.targets[k] := job.contents[k][[]]]
  {
    FilledIs(job, v, k, job.targets[k]);
  }

  lemma StagedFile(job: Job, e: Tree, k: nat)
    requires Sound(job) && Staged(job, e, |job.stages|) && 1 <= k < |job.stages|
    ensures Leaf(job, k) in e && e[Leaf(job, k)] == job.contents[k][[]] && HasParent(e, job.targets[k])
  {
    assert Holds(e, Leaf(job, k), job.contents[k]) && Leaf(job, k)[|Leaf(job, k)|..] == [];
  }

  /** Links the files one by one without overwriting; the first `published` targets have been dealt with. */
  method LinkFiles(disk: Disk, job: Job, ghost v: Tree) returns (ok: bool, published: nat)
    requires Sound(job) && NewTargets(v, job.targets)
    requires Visible(disk.entries, job.stages) == v && Staged(job, disk.entries, |job.stages|)
    modifies disk
    ensures 1 <= published <= |job.targets| && (ok ==> published == |job.targets|)
    ensures Visible(disk.entries, job.stages) == Filled(job, v, published) && Staged(job, disk.entries, |job.stages|)
    ensures ok ==> disk.steps == old(disk.steps) + 2 * (|job.targets| - 1)
    ensures ok <==> Succeed(disk.fails, old(disk.steps), 2 * (|job.targets| - 1))
  {
    hide Visible, Staged, NewTargets, Beside;
    published := 1;
    while published < |job.targets|
      invariant 1 <= published <= |job.targets|
      invariant Visible(disk.entries, job.stages) == Filled(job, v, published) && Staged(job, disk.entries, |job.stages|)
      invariant disk.steps == old(disk.steps) + 2 * (published - 1) && Succeed(disk.fails, old(disk.steps), 2 * (published - 1))
    {
      SucceedTogether(disk.fails, old(disk.steps), 2 * (published - 1), 2);
      var linked, synced := LinkOne(disk, job, v, published);
      if linked {
        published := published + 1;
      }
      if !synced {
        return false, published;
      }
    }
    ok := true;
  }

  // ----- the directory

  lemma {:induction false} NothingInside(job: Job, v: Tree, p: Path)
    requires Sound(job) && Grown(job, v) && NewTargets(v, job.targets) && p in Filled(job, v, |job.targets|)
    ensures !(job.targets[0] <= p)
  {
    assert forall i | 1 <= i < |job.targets| :: job.targets[0] != job.targets[i];
    FilledIs(job, v, |job.targets|, p);
  }

  /** Before the directory is published nothing lies at its target. */
  lemma {:induction false} DirectoryTargetIsVacant(job: Job, e: Tree, v: Tree)
    requires Sound(job) && Grown(job, v) && NewTargets(v, job.targets)
    requires Visible(e, job.stages) == Filled(job, v, |job.targets|)
    ensures Vacant(e, job.targets[0])
  {
    hide Beside, Filled;
    forall p | p in e ensures !(job.targets[0] <= p) {
      if job.targets[0] <= p {
        OutsideStages(job, 0, p);
        assert p in Visible(e, job.stages);
        NothingInside(job, v, p);
      }
    }
  }

  lemma OutsideStages(job: Job, t: nat, p: Path)
    requires Sound(job) && t < |job.targets| && job.targets[t] <= p
    ensures !Under(job.stages, p)
  {
    forall i | 0 <= i < |job.stages| ensures !(job.stages[i] <= p) {
      Incomparable(job.stages[i], job.targets[t], p);
    }
  }

  lemma Incomparable(a: Path, b: Path, p: Path)
    requires b <= p && !(a <= b) && !(b <= a)
    ensures !(a <= p)
  {
    if a <= p {
      Common(a, b, p);
    }
  }

  /** Renaming the staged directory makes it show at its target, and nothing else changes. */
  lemma {:induction false} RenamedShows(job: Job, e: Tree, v: Tree)
    requires Sound(job) && Staged(job, e, |job.stages|) && Vacant(e, job.targets[0])
    requires Visible(e, job.stages) == v
    ensures Visible(Moved(e, Leaf(job, 0), job.targets[0]), job.stages) == v + Planted(job.targets[0], job.contents[0])
  {
    hide Beside;
    var source, target, tree := Leaf(job, 0), job.targets[0], job.contents[0];
    assert Holds(e, source, tree);
    SubtreeIs(e, source, tree);
    PlantedHolds(target, tree);
    StageContentHides(job, e, source);
    var planted := Planted(target, tree);
    forall p | p in planted ensures !Under(job.stages, p) {
      OutsideStages(job, 0, p);
    }
    AllAddedShows(Without(e, source), job.stages, planted);
  }

  /** Taking away what is inside a stage does not show. */
  lemma StageContentHides(job: Job, e: Tree, source: Path)
    requires |job.stages| > 0 && job.stages[0] <= source
    ensures Visible(Without(e, source), job.stages) == Visible(e, job.stages)
  {
    forall p | p in e && source <= p ensures Under(job.stages, p) {
      Longer(job.stages[0], source, p);
    }
    hide Under;
  }

  lemma AllAddedShows(e: Tree, roots: seq<Path>, more: Tree)
    requires forall p | p in more :: !Under(roots, p)
    ensures Visible(e + more, roots) == Visible(e, roots) + more
  {
    hide Under;
    assert Visible(e + more, roots) == Visible(e, roots) + more;
  }

  lemma SubtreeIs(e: Tree, source: Path, tree: Tree)
    requires Holds(e, source, tree)
    ensures Subtree(e, source) == tree
  {
    forall q ensures q in Subtree(e, source) <==> q in tree {
      assert (source + q)[|source|..] == q;
      if q in Subtree(e, source) {
        var p :| p in e && source <= p && p[|source|..] == q;
      }
    }
    forall q | q in tree ensures Subtree(e, source)[q] == tree[q] {
      assert (source + q)[|source|..] == q;
    }
  }

  // ----- rollback and the whole

  /** Takes the published targets away again, the directory first and the files from the last one on. */
  method Rollback(disk: Disk, job: Job, ghost v: Tree, directoryPublished: bool, published: nat)
    requires Sound(job) && Grown(job, v) && NewTargets(v, job.targets) && 1 <= published <= |job.targets|
    requires Visible(disk.entries, job.stages) ==
             if directoryPublished then Filled(job, v, |job.targets|) + Planted(job.targets[0], job.contents[0]) else Filled(job, v, published)
    requires directoryPublished ==> published == |job.targets|
    modifies disk
    ensures Visible(disk.entries, job.stages) == v
  {
    hide Visible, Grown, NewTargets, Beside;
    if directoryPublished {
      ghost var before := disk.entries;
      DirectoryRemoved(job, before, v);
      disk.RemoveAll(job.targets[0]);
    }
    var left := published;
    while left > 1
      invariant 1 <= left <= published
      invariant Visible(disk.entries, job.stages) == Filled(job, v, left)
    {
      left := left - 1;
      RemovedShows(disk.entries, job.stages, job.targets[left]);
      FileRemoved(job, v, left);
      disk.Remove(job.targets[left]);
    }
  }

  lemma {:induction false} FileRemoved(job: Job, v: Tree, k: nat)
    requires Sound(job) && NewTargets(v, job.targets) && 1 <= k < |job.targets|
    ensures Filled(job, v, k + 1) - {job.targets[k]} == Filled(job, v, k)
  {
    FilledIs(job, v, k, job.targets[k]);
    var before := Filled(job, v, k);
    assert job.targets[k] !in before;
    assert before[job.targets[k] := job.contents[k][[]]] - {job.targets[k]} == before;
  }

  lemma {:induction false} DirectoryRemoved(job: Job, e: Tree, v: Tree)
    requires Sound(job) && Grown(job, v) && NewTargets(v, job.targets)
    requires Visible(e, job.stages) == Filled(job, v, |job.targets|) + Planted(job.targets[0], job.contents[0])
    ensures Visible(Without(e, job.targets[0]), job.stages) == Filled(job, v, |job.targets|)
  {
    hide Beside;
    var target, files := job.targets[0], Filled(job, v, |job.targets|);
    PlantedHolds(target, job.contents[0]);
    hide Grown, NewTargets, Filled, Planted, Under;
    forall p | p in files ensures !(target <= p) {
      NothingInside(job, v, p);
    }
    WithoutShows(e, job.stages, target);
    assert Without(files + Planted(target, job.contents[0]), target) == files;
  }

  lemma WithoutShows(e: Tree, roots: seq<Path>, root: Path)
    ensures Visible(Without(e, root), roots) == Without(Visible(e, roots), root)
  {
    hide Under;
  }

  /** Removes the first `count` staging roots. */
  method RemoveStages(disk: Disk, job: Job, count: nat)
    requires Sound(job) && count <= |job.stages|
    modifies disk`entries
    ensures disk.entries == Visible(old(disk.entries), job.stages[..count])
  {
    ghost var before := disk.entries;
    assert Visible(before, job.stages[..0]) == before;
    for i := 0 to count
      invariant disk.entries == Visible(before, job.stages[..i])
    {
      OneMoreRoot(before, job.stages, i);
      disk.RemoveAll(job.stages[i]);
    }
  }

  lemma OneMoreRoot(e: Tree, roots: seq<Path>, i: nat)
    requires i < |roots|
    ensures Without(Visible(e, roots[..i]), roots[i]) == Visible(e, roots[..i + 1])
  {
    var some, more := roots[..i], roots[..i + 1];
    assert more == some + [roots[i]];
    forall p ensures Under(more, p) <==> Under(some, p) || roots[i] <= p {
      if Under(some, p) {
        var j :| 0 <= j < |some| && some[j] <= p;
        assert more[j] <= p;
      }
      if roots[i] <= p {
        assert more[i] <= p;
      }
    }
    hide Under;
  }

  /** No file stands where a directory on the way to a target must be. */
  ghost predicate WaysFree(job: Job) {
    forall t | 0 <= t < |job.targets| :: !Blocked(job.start, Parent(job.targets[t]))
  }

  /** A way is blocked while staging exactly if it was at the start. */
  lemma StillFree(job: Job, e: Tree, k: nat, t: nat)
    requires Sound(job) && k <= |job.stages| && t < |job.targets| && Staging(job, e, k)
    ensures Blocked(e, Parent(job.targets[t])) <==> Blocked(job.start, Parent(job.targets[t]))
  {
    var v := Visible(e, job.stages[..k]);
    forall q | q in e && q <= Parent(job.targets[t]) ensures q in v && v[q] == e[q] {
      forall i | 0 <= i < k ensures !(job.stages[..k][i] <= q) {
        NotOnTheWay(job, i, t, q);
      }
    }
    if Blocked(job.start, Parent(job.targets[t])) {
      var q :| q in job.start && q <= Parent(job.targets[t]) && job.start[q].File?;
      assert q in v && v[q] == job.start[q];
    }
  }

  /** The steps it takes to stage the first `k` artifacts. */
  function StepsToStage(k: nat): nat {
    if k == 0 then 0 else StepsToStage(k - 1) + StagingSteps(k - 1)
  }

  lemma {:induction false} StepsAdd(j: nat, k: nat)
    requires j <= k
    ensures StepsToStage(j) <= StepsToStage(k)
  {
    if j < k {
      StepsAdd(j, k - 1);
    }
  }

  lemma SucceedSoFar(fails: nat -> bool, start: nat, a: nat, b: nat)
    requires a <= b
    ensures Succeed(fails, start, b) ==> Succeed(fails, start, a)
  {
  }

  lemma {:induction false} StagingIsCounted(k: nat)
    requires k >= 2
    ensures StepsToStage(k) == 5 * k - 2
  {
    if k > 2 {
      StagingIsCounted(k - 1);
    } else {
      assert StepsToStage(2) == StepsToStage(1) + 4 && StepsToStage(1) == StepsToStage(0) + 4;
    }
  }

  /** Every artifact is staged beside its target. */
  method StageAll(disk: Disk, job: Job) returns (ok: bool, rooted: nat)
    requires Sound(job) && disk.entries == job.start
    modifies disk
    ensures rooted <= |job.stages| && Staging(job, disk.entries, rooted)
    ensures ok ==> rooted == |job.stages| && Staged(job, disk.entries, rooted) && disk.steps == old(disk.steps) + StepsToStage(|job.stages|)
    ensures ok <==> Succeed(disk.fails, old(disk.steps), StepsToStage(|job.stages|)) && WaysFree(job)
  {
    hide Staging, Staged, Blocked;
    NothingStaged(job);
    rooted := 0;
    for k := 0 to |job.stages|
      invariant rooted == k && Staging(job, disk.entries, k) && Staged(job, disk.entries, k)
      invariant disk.steps == old(disk.steps) + StepsToStage(k) && Succeed(disk.fails, old(disk.steps), StepsToStage(k))
      invariant forall t | 0 <= t < k :: !Blocked(job.start, Parent(job.targets[t]))
    {
      StillFree(job, disk.entries, k, k);
      SucceedTogether(disk.fails, old(disk.steps), StepsToStage(k), StagingSteps(k));
      StepsAdd(k + 1, |job.stages|);
      SucceedSoFar(disk.fails, old(disk.steps), StepsToStage(k + 1), StepsToStage(|job.stages|));
      var root, staged := StageArtifact(disk, job, k);
      if root {
        rooted := k + 1;
      }
      if !staged {
        return false, rooted;
      }
    }
    ok := true;
  }

  lemma NothingStaged(job: Job)
    requires Sound(job)
    ensures Staging(job, job.start, 0) && Staged(job, job.start, 0)
  {
    assert Visible(job.start, job.stages[..0]) == job.start;
  }

  lemma RenameShows(job: Job, e: Tree, v: Tree)
    requires Sound(job) && Grown(job, v) && NewTargets(v, job.targets) && Staged(job, e, |job.stages|)
    requires Visible(e, job.stages) == Filled(job, v, |job.targets|)
    ensures Vacant(e, job.targets[0]) && job.targets[0] !in e && Leaf(job, 0) in e && HasParent(e, job.targets[0])
    ensures Visible(Moved(e, Leaf(job, 0), job.targets[0]), job.stages) ==
            Filled(job, v, |job.targets|) + Planted(job.targets[0], job.contents[0])
  {
    DirectoryTargetIsVacant(job, e, v);
    RenamedShows(job, e, Filled(job, v, |job.targets|));
    assert job.targets[0] <= job.targets[0];
    assert Holds(e, Leaf(job, 0), job.contents[0]) && Leaf(job, 0)[|Leaf(job, 0)|..] == [];
  }

  /** Looks at the target of the directory and renames the staged one onto it. */
  method PublishDirectory(disk: Disk, job: Job, ghost v: Tree) returns (ok: bool)
    requires Sound(job) && Grown(job, v) && NewTargets(v, job.targets) && Staged(job, disk.entries, |job.stages|)
    requires Visible(disk.entries, job.stages) == Filled(job, v, |job.targets|)
    modifies disk
    ensures Visible(disk.entries, job.stages) ==
            if ok then Filled(job, v, |job.targets|) + Planted(job.targets[0], job.contents[0]) else Filled(job, v, |job.targets|)
    ensures ok ==> disk.steps == old(disk.steps) + 2
    ensures ok <==> Succeed(disk.fails, old(disk.steps), 2)
  {
    hide *;
    SizesOf(job);
    RenameShows(job, disk.entries, v);
    SucceedTogether(disk.fails, disk.steps, 1, 1);
    OneStep(disk.fails, disk.steps);
    OneStep(disk.fails, disk.steps + 1);
    var looked := disk.Check();
    if !looked || job.targets[0] in disk.entries {
      return false;
    }
    ok := disk.RenameDirectory(Leaf(job, 0), job.targets[0]);
  }

  /** Links the files, then renames the directory, then verifies; every failure is rolled back. */
  method PublishGroup(disk: Disk, job: Job) returns (ok: bool)
    requires Sound(job) && Staging(job, disk.entries, |job.stages|) && Staged(job, disk.entries, |job.stages|)
    requires NewTargets(disk.entries, job.targets)
    modifies disk
    ensures var v := old(Visible(disk.entries, job.stages));
            && Grown(job, v) && NewTargets(v, job.targets)
            && Visible(disk.entries, job.stages) ==
               if ok then Filled(job, v, |job.targets|) + Planted(job.targets[0], job.contents[0]) else v
    ensures ok ==> disk.steps == old(disk.steps) + 2 * |job.targets| + 3
    ensures ok <==> Succeed(disk.fails, old(disk.steps), 2 * |job.targets| + 3) && job.directoryOk(job.contents[0])
  {
    ghost var start, links := disk.steps, 2 * (|job.targets| - 1);
    ghost var v := Visible(disk.entries, job.stages);
    SucceedTogether(disk.fails, start, links, 5);
    SucceedTogether(disk.fails, start + links, 2, 3);
    StagedShows(job, disk.entries);
    hide Grown, Staged, Visible, NewTargets, Succeed, Planted, Filled, Staging;
    var linked, published := LinkFiles(disk, job, v);
    ok := linked;
    if ok {
      ok := PublishDirectory(disk, job, v);
    }
    var renamed := ok;
    if renamed {
      PublishedLies(job, disk.entries, v);
      ok := VerifyPublished(disk, job);
    }
    if !ok {
      Rollback(disk, job, v, renamed, published);
    }
  }

  lemma StagedShows(job: Job, e: Tree)
    requires Sound(job) && Staging(job, e, |job.stages|)
    ensures Grown(job, Visible(e, job.stages)) && (NewTargets(e, job.targets) ==> NewTargets(Visible(e, job.stages), job.targets))
  {
    assert job.stages[..|job.stages|] == job.stages;
  }

  /** The archive at its target is a file of the size and digest of the one that was staged. */
  predicate ArchiveAsStaged(job: Job, e: Tree)
    requires Sound(job)
  {
    var staged := job.contents[1][[]].bytes;
    && job.targets[1] in e && e[job.targets[1]].File?
    && |e[job.targets[1]].bytes| == |staged| && job.sha(e[job.targets[1]].bytes) == job.sha(staged)
  }

  /** Syncs the parent of the directory, then reads and verifies the directory and the archive. */
  method VerifyPublished(disk: Disk, job: Job) returns (ok: bool)
    requires Sound(job)
    modifies disk
    ensures disk.entries == old(disk.entries)
    ensures ok ==> disk.steps == old(disk.steps) + 3
    ensures ok <==> Succeed(disk.fails, old(disk.steps), 3)
                    && job.directoryOk(Subtree(disk.entries, job.targets[0])) && ArchiveAsStaged(job, disk.entries)
  {
    hide Beside, Subtree, Succeed;
    SucceedTogether(disk.fails, disk.steps, 1, 2);
    SucceedTogether(disk.fails, disk.steps + 1, 1, 1);
    OneStep(disk.fails, disk.steps);
    OneStep(disk.fails, disk.steps + 1);
    OneStep(disk.fails, disk.steps + 2);
    ok := disk.Check();
    if !ok {
      return;
    }
    var read := disk.Check();
    if !read || !job.directoryOk(Subtree(disk.entries, job.targets[0])) {
      return false;
    }
    read := disk.Check();
    ok := read && ArchiveAsStaged(job, disk.entries);
  }

  /** After the rename the directory and the archive lie at their targets. */
  lemma PublishedLies(job: Job, e: Tree, v: Tree)
    requires Sound(job) && Grown(job, v) && NewTargets(v, job.targets)
    requires Visible(e, job.stages) == Filled(job, v, |job.targets|) + Planted(job.targets[0], job.contents[0])
    ensures Subtree(e, job.targets[0]) == job.contents[0] && ArchiveAsStaged(job, e)
  {
    hide Beside;
    var n, now := |job.targets|, Visible(e, job.stages);
    PlantedHolds(job.targets[0], job.contents[0]);
    forall p | p in Filled(job, v, n) ensures !(job.targets[0] <= p) {
      NothingInside(job, v, p);
    }
    forall p | job.targets[0] <= p ensures !Under(job.stages, p) {
      OutsideStages(job, 0, p);
    }
    assert Holds(e, job.targets[0], job.contents[0]) by {
      hide Filled, Planted, Under, Sound, Grown;
      assert forall p | job.targets[0] <= p :: p in e <==> p in now;
    }
    SubtreeIs(e, job.targets[0], job.contents[0]);
    FilledAt(job, v, n, 1);
    assert job.targets[0] != job.targets[1];
    assert !(job.targets[0] <= job.targets[1]);
    assert now[job.targets[1]] == e[job.targets[1]];
  }

  /** Beside the directory and the archive, no sidecar is empty. */
  predicate SidecarsComplete(job: Job)
    requires Sound(job)
  {
    forall i | 2 <= i < |job.contents| :: job.contents[i][[]].bytes != ""
  }

  /**
   The whole publication. On an error the file system is what it was, but for directories made on the
   way to targets; on success it is that with every target in place. No staging root remains, and
   nothing that was there changes. It succeeds exactly when the targets are new and can be reached, the
   sidecars are complete, the directory verifies, and none of its 9 * n + 1 steps fails.
   */
  method PublishCapsuleArtifacts(disk: Disk, job: Job) returns (ok: bool)
    requires Sound(job) && disk.entries == job.start
    modifies disk
    ensures !ok ==> Grown(job, disk.entries)
    ensures ok ==> Published(job, disk.entries) && NewTargets(job.start, job.targets)
    ensures !SidecarsComplete(job) ==> !ok && disk.entries == job.start
    ensures ok ==> job.directoryOk(Subtree(disk.entries, job.targets[0]))
                   && job.targets[1] in disk.entries && disk.entries[job.targets[1]] == job.contents[1][[]]
    ensures ok <==> SidecarsComplete(job) && NewTargets(job.start, job.targets) && WaysFree(job)
                    && job.directoryOk(job.contents[0]) && Succeed(disk.fails, old(disk.steps), 9 * |job.targets| + 1)
    ensures ok ==> disk.steps == old(disk.steps) + 9 * |job.targets| + 1
  {
    ghost var start, n := disk.steps, |job.targets|;
    SucceedTogether(disk.fails, start, n, 8 * n + 1);
    StartIsGrown(job);
    hide *;
    if !SidecarsComplete(job) {
      return false;
    }
    ok := RequireNewTargets(disk, job.targets);
    if ok {
      ok := StageAndPublish(disk, job);
    }
    if ok {
      IsPublished(job, disk.entries);
    }
  }

  /** Stages everything, looks at the targets again, publishes, and takes the staging roots away. */
  method StageAndPublish(disk: Disk, job: Job) returns (ok: bool)
    requires Sound(job) && disk.entries == job.start && NewTargets(job.start, job.targets)
    modifies disk
    ensures if ok then Published(job, disk.entries) else Grown(job, disk.entries)
    ensures ok ==> disk.steps == old(disk.steps) + 8 * |job.targets| + 1
    ensures ok <==> WaysFree(job) && job.directoryOk(job.contents[0]) && Succeed(disk.fails, old(disk.steps), 8 * |job.targets| + 1)
  {
    ghost var start, n := disk.steps, |job.targets|;
    StagingIsCounted(n);
    SucceedTogether(disk.fails, start, 5 * n - 2, 3 * n + 3);
    assert |job.stages| == n && job.stages[..n] == job.stages;
    hide *;
    var staged, rooted := StageAll(disk, job);
    StagingGrows(job, disk.entries, rooted);
    ok := staged;
    if ok {
      ok := LookAndPublish(disk, job);
    }
    RemoveStages(disk, job, rooted);
  }

  /** Looks at the targets again and publishes what is staged. */
  method LookAndPublish(disk: Disk, job: Job) returns (ok: bool)
    requires Sound(job) && NewTargets(job.start, job.targets)
    requires Staging(job, disk.entries, |job.stages|) && Staged(job, disk.entries, |job.stages|)
    modifies disk
    ensures var shown := Visible(disk.entries, job.stages); if ok then Published(job, shown) else Grown(job, shown)
    ensures ok ==> disk.steps == old(disk.steps) + 3 * |job.targets| + 3
    ensures ok <==> job.directoryOk(job.contents[0]) && Succeed(disk.fails, old(disk.steps), 3 * |job.targets| + 3)
  {
    ghost var start, n, shown := disk.steps, |job.targets|, Visible(disk.entries, job.stages);
    SucceedTogether(disk.fails, start, n, 2 * n + 3);
    StagedTargetsAreNew(job, disk.entries);
    StagedShows(job, disk.entries);
    hide *;
    ok := RequireNewTargets(disk, job.targets);
    if ok {
      ok := PublishGroup(disk, job);
    }
    if ok {
      PublishedFrom(job, Visible(disk.entries, job.stages), shown);
    }
  }

  lemma PublishedFrom(job: Job, now: Tree, v: Tree)
    requires Sound(job) && Grown(job, v) && NewTargets(v, job.targets)
    requires now == Filled(job, v, |job.targets|) + Planted(job.targets[0], job.contents[0])
    ensures Published(job, now)
  {
  }

  lemma StagingGrows(job: Job, e: Tree, k: nat)
    requires k <= |job.stages| && Staging(job, e, k)
    ensures Grown(job, Visible(e, job.stages[..k]))
  {
  }

  /** What lies at the first two targets of a published group. */
  lemma IsPublished(job: Job, now: Tree)
    requires Sound(job) && Published(job, now)
    ensures Subtree(now, job.targets[0]) == job.contents[0]
    ensures job.targets[1] in now && now[job.targets[1]] == job.contents[1][[]]
  {
    SuccessPublishesAll(job, now);
    SubtreeIs(now, job.targets[0], job.contents[0]);
  }

  /** Every target holds what was staged for it, beside a file system that only grew directories. */
  ghost predicate Published(job: Job, now: Tree)
    requires Sound(job)
  {
    exists v :: Grown(job, v) && NewTargets(v, job.targets) && now == Filled(job, v, |job.targets|) + Planted(job.targets[0], job.contents[0])
  }

  lemma StartIsGrown(job: Job)
    ensures Grown(job, job.start)
  {
  }

  /** Staging takes no target: those that were new still are. */
  lemma StagedTargetsAreNew(job: Job, e: Tree)
    requires Sound(job) && Staging(job, e, |job.stages|) && NewTargets(job.start, job.targets)
    ensures NewTargets(e, job.targets)
  {
    assert job.stages[..|job.stages|] == job.stages;
    forall t | 0 <= t < |job.targets| ensures job.targets[t] !in e {
      TargetIsOutside(job, t);
      AddedShows(e, job.stages, job.targets[t], Dir);
    }
  }

  /**
   What an error leaves: everything that was there as it was, each target absent as before, and no
   staging root.
   */
  lemma ErrorLeavesNothing(job: Job, now: Tree)
    requires Sound(job) && Grown(job, now)
    ensures forall p | p in job.start :: p in now && now[p] == job.start[p]
    ensures forall t | 0 <= t < |job.targets| :: job.targets[t] in now <==> job.targets[t] in job.start
    ensures forall i | 0 <= i < |job.stages| :: Vacant(now, job.stages[i])
  {
    hide Beside;
    forall i | 0 <= i < |job.stages| ensures Vacant(now, job.stages[i]) {
      forall p | p in now ensures !(job.stages[i] <= p) {
        if p !in job.start {
          var t :| 0 <= t < |job.targets| && p < job.targets[t];
          Longer(job.stages[i], p, job.targets[t]);
        }
      }
    }
  }

  /** What success leaves: every target holds its staged bytes, nothing that was there changed, no staging root remains. */
  lemma SuccessPublishesAll(job: Job, now: Tree)
    requires Sound(job) && Published(job, now)
    ensures forall t | 1 <= t < |job.targets| :: job.targets[t] in now && now[job.targets[t]] == job.contents[t][[]]
    ensures Holds(now, job.targets[0], job.contents[0])
    ensures forall p | p in job.start :: p in now && now[p] == job.start[p]
    ensures forall i | 0 <= i < |job.stages| :: Vacant(now, job.stages[i])
  {
    hide Beside, Grown, NewTargets, Filled, Planted, Holds, Vacant;
    var v :| Grown(job, v) && NewTargets(v, job.targets) && now == Filled(job, v, |job.targets|) + Planted(job.targets[0], job.contents[0]);
    DirectoryPublished(job, v, now);
    forall t | 1 <= t < |job.targets| ensures job.targets[t] in now && now[job.targets[t]] == job.contents[t][[]] {
      FilledAt(job, v, |job.targets|, t);
    }
    forall p | p in job.start ensures p in now && now[p] == job.start[p] {
      KeptInFilled(job, v, |job.targets|, p);
    }
    forall i | 0 <= i < |job.stages| ensures Vacant(now, job.stages[i]) {
      NoStageLeft(job, v, now, i);
    }
  }

  /** The directory lies at its target, and the files and whatever was there lie beside it. */
  lemma DirectoryPublished(job: Job, v: Tree, now: Tree)
    requires Sound(job) && Grown(job, v) && NewTargets(v, job.targets)
    requires now == Filled(job, v, |job.targets|) + Planted(job.targets[0], job.contents[0])
    ensures Holds(now, job.targets[0], job.contents[0])
    ensures forall p | p in Filled(job, v, |job.targets|) :: p in now && now[p] == Filled(job, v, |job.targets|)[p]
  {
    hide Beside, Grown, NewTargets, Filled, Planted;
    PlantedHolds(job.targets[0], job.contents[0]);
    forall p | p in Filled(job, v, |job.targets|) ensures !(job.targets[0] <= p) {
      NothingInside(job, v, p);
    }
  }

  lemma {:induction false} FilledAt(job: Job, v: Tree, n: nat, t: nat)
    requires Sound(job) && NewTargets(v, job.targets) && 1 <= t < n <= |job.targets|
    ensures job.targets[t] in Filled(job, v, n) && Filled(job, v, n)[job.targets[t]] == job.contents[t][[]]
  {
    hide Beside;
    if t < n - 1 {
      FilledAt(job, v, n - 1, t);
    }
  }

  lemma {:induction false} KeptInFilled(job: Job, v: Tree, n: nat, p: Path)
    requires Sound(job) && Grown(job, v) && NewTargets(v, job.targets) && n <= |job.targets| && p in job.start
    ensures p in Filled(job, v, n) && Filled(job, v, n)[p] == job.start[p]
  {
    FilledIs(job, v, n, p);
  }

  lemma {:induction false} NoStageLeft(job: Job, v: Tree, now: Tree, i: nat)
    requires Sound(job) && Grown(job, v) && i < |job.stages|
    requires now == Filled(job, v, |job.targets|) + Planted(job.targets[0], job.contents[0])
    ensures Vacant(now, job.stages[i])
  {
    PlantedHolds(job.targets[0], job.contents[0]);
    ErrorLeavesNothing(job, v);
    hide Grown, Filled, Planted;
    forall p | p in now ensures !(job.stages[i] <= p) {
      if job.targets[0] <= p {
        Incomparable(job.stages[i], job.targets[0], p);
      } else {
        FilledIs(job, v, |job.targets|, p);
      }
    }
  }

  /** A directory and an archive beside each other, in a root with nothing else. */
  function PlainJob(a: Bytes, b: Bytes, x: Bytes, y: Bytes): Job {
    Job(map[[] := Dir], [[a], [b]], [[x], [y]], ["tree", "tar"], [map[[] := Dir], map[[] := File("bytes")]],
        (_: Tree) => true, (bytes: Bytes) => bytes)
  }

  /** Jobs the assumptions allow exist. */
  lemma SomeJobIsSound(a: Bytes, b: Bytes, x: Bytes, y: Bytes) returns (job: Job)
    requires a != b && a != x && a != y && b != x && b != y && x != y
    ensures Sound(job) && SidecarsComplete(job) && NewTargets(job.start, job.targets) && WaysFree(job) && job.directoryOk(job.contents[0])
  {
    job := PlainJob(a, b, x, y);
    PlainJobIsSound(a, b, x, y);
  }

  lemma PlainJobIsSound(a: Bytes, b: Bytes, x: Bytes, y: Bytes)
    requires a != b && a != x && a != y && b != x && b != y && x != y
    ensures Sound(PlainJob(a, b, x, y))
  {
    hide Beside;
    var job := PlainJob(a, b, x, y);
    forall s, t: Bytes ensures [s] <= [t] <==> s == t {
      assert [s] <= [t] ==> [s][0] == [t][0];
    }
    forall i | 0 <= i < 2 ensures Vacant(job.start, job.stages[i]) {
      assert job.stages[i] == [x] || job.stages[i] == [y];
    }
    PlainJobIsBeside(a, b, x, y);
  }

  lemma PlainJobIsBeside(a: Bytes, b: Bytes, x: Bytes, y: Bytes)
    ensures Beside(PlainJob(a, b, x, y))
  {
    assert [x][..0] == [] && [y][..0] == [] && [a][..0] == [] && [b][..0] == [];
  }
}
