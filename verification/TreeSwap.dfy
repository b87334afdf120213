/**
 `replace_tree` in `portal/storage_backend.py`, for both backends.

 The local backend swaps a directory in with two renames and a rollback; any of its file-system
 operations may be made to fail (`Faults`). The S3 backend uploads the new tree and then
 deletes what the new tree omits; it may fail at any request. Both are held against one map update.
 */
module TreeSwap {
  import opened Basics
  import Paths

  type Blob = seq<bv8>

  /** A file tree: contents by relative path. */
  type Tree = map<string, Blob>

  lemma ConcatSplits(p: string, s: string)
    ensures Paths.StartsWith(p + s, p) && (p + s)[|p|..] == s
  {
  }

  lemma PlacedKeysDiffer(target: string)
    ensures forall a: string, b: string :: target + a == target + b ==> a == b
  {
    forall a: string, b: string | target + a == target + b
      ensures a == b
    {
      ConcatSplits(target, a);
      ConcatSplits(target, b);
    }
  }

  /** `tree` placed under `target`. */
  ghost function Placed(target: string, tree: Tree): (m: map<string, Blob>)
    ensures forall k :: k in m <==> Paths.StartsWith(k, target) && k[|target|..] in tree
    ensures forall k :: k in m ==> Paths.StartsWith(k, target) && m[k] == tree[k[|target|..]]
  {
    PlacedKeysDiffer(target);
    assert forall k :: Paths.StartsWith(k, target) ==> k == target + k[|target|..];
    assert forall rel :: rel in tree ==> Paths.StartsWith(target + rel, target) && (target + rel)[|target|..] == rel;
    map rel | rel in tree :: target + rel := tree[rel]
  }

  ghost function Outside(m: map<string, Blob>, target: string): map<string, Blob> {
    map k | k in m && !Paths.StartsWith(k, target) :: m[k]
  }

  /** The abstract update: everything under `target` becomes `tree`, everything else stays. */
  ghost function ReplaceUnder(m: map<string, Blob>, target: string, tree: Tree): (m': map<string, Blob>)
    ensures forall k :: k in m' <==> if Paths.StartsWith(k, target) then k[|target|..] in tree else k in m
    ensures forall k :: k in m' ==> m'[k] == if Paths.StartsWith(k, target) then tree[k[|target|..]] else m[k]
  {
    Outside(m, target) + Placed(target, tree)
  }

  // ----- local backend -----

  /**
   Which operations fail. A failed copy leaves some partial tree behind; a failed `rmtree`, whose errors
   are ignored, leaves a residue.
   */
  datatype Faults = Faults(
    mkdir: bool, copy: Option<Tree>, aside: bool, swapIn: bool, rollback: bool,
    dropBackup: Option<Tree>, dropStaging: Option<Tree>)

  datatype Operation = MakeDir | Copy | MoveAside | SwapIn | Rollback | DropBackup | DropStaging

  predicate Fails(f: Faults, o: Operation) {
    match o
    case MakeDir => f.mkdir
    case Copy => f.copy.Some?
    case MoveAside => f.aside
    case SwapIn => f.swapIn
    case Rollback => f.rollback
    case DropBackup => f.dropBackup.Some?
    case DropStaging => f.dropStaging.Some?
  }

  ghost predicate AtMostOneFails(f: Faults) {
    forall o, p :: Fails(f, o) && Fails(f, p) ==> o == p
  }

  /** Directories by path. */
  type Dirs = map<string, Tree>

  ghost predicate SameAt(a: Dirs, b: Dirs, d: string) {
    (d in a <==> d in b) && (d in a ==> a[d] == b[d])
  }

  /** The one way to lose the live tree: it was moved aside, the swap-in failed and so did the rollback. */
  ghost predicate LosesTree(before: Dirs, dest: string, f: Faults) {
    dest in before && !f.mkdir && f.copy.None? && !f.aside && f.swapIn && f.rollback
  }

  /** Everything a caller can observe of one call. */
  ghost predicate Swapped(before: Dirs, after: Dirs, dest: string, staging: string, backup: string,
                          src: Tree, f: Faults, raised: bool) {
    && (forall d :: d in before || d in after ==> d != dest && d != staging && d != backup ==> SameAt(before, after, d))
    && (raised <==> f.mkdir || f.copy.Some? || (dest in before && f.aside) || f.swapIn)
    && (!raised ==> dest in after && after[dest] == src)
    && (raised ==> if LosesTree(before, dest, f) then dest !in after else SameAt(before, after, dest))
    && (staging in after ==> f.copy.Some? || f.dropStaging.Some?)
    && (backup in after ==> dest in before && f.dropBackup.Some? && (!raised || LosesTree(before, dest, f))
                            && after[backup] == f.dropBackup.value)
  }

  /** `os.replace` of a directory onto a free name. */
  function Moved(ds: Dirs, from: string, to: string): Dirs
    requires from in ds
  {
    ds[to := ds[from]] - {from}
  }

  /** `shutil.rmtree(d, ignore_errors=True)`. */
  function Removed(ds: Dirs, d: string, residue: Option<Tree>): Dirs {
    if d in ds && residue.Some? then ds[d := residue.value] else ds - {d}
  }

  /** The directories, whether an exception is under way, and the `moved_aside` flag. */
  datatype Progress = Progress(dirs: Dirs, raised: bool, movedAside: bool)

  /** The `try` block: move the live tree aside, swap the staged one in. */
  function TryBlock(ds: Dirs, dest: string, staging: string, backup: string, f: Faults): Progress
    requires staging in ds
  {
    if dest in ds && f.aside then Progress(ds, true, false) else
    var moved := dest in ds;
    var ds1 := if moved then Moved(ds, dest, backup) else ds;
    if f.swapIn || staging !in ds1 then Progress(ds1, true, moved)
    else Progress(Moved(ds1, staging, dest), false, moved)
  }

  /** The `except` block; a rollback that raises too leaves `moved_aside` set. */
  function ExceptBlock(p: Progress, dest: string, backup: string, f: Faults): Progress {
    if p.raised && p.movedAside && dest !in p.dirs && !f.rollback && backup in p.dirs then
      Progress(Moved(p.dirs, backup, dest), true, false)
    else p
  }

  /** The `finally` block. */
  function FinallyBlock(p: Progress, staging: string, backup: string, f: Faults): Dirs {
    Removed(if p.movedAside then Removed(p.dirs, backup, f.dropBackup) else p.dirs, staging, f.dropStaging)
  }

  function SwapSteps(ds: Dirs, dest: string, staging: string, backup: string, src: Tree, f: Faults): (Dirs, bool) {
    if f.mkdir then (ds, true)
    else if f.copy.Some? then (ds[staging := f.copy.value], true)  // not yet inside the try: the partial copy stays
    else
      var p := ExceptBlock(TryBlock(ds[staging := src], dest, staging, backup, f), dest, backup, f);
      (FinallyBlock(p, staging, backup, f), p.raised)
  }

  ghost predicate FreeNames(ds: Dirs, dest: string, staging: string, backup: string) {
    staging !in ds && backup !in ds && staging != backup && dest != staging && dest != backup
  }

  lemma TryOutcome(ds: Dirs, dest: string, staging: string, backup: string, src: Tree, f: Faults)
    requires FreeNames(ds, dest, staging, backup)
    ensures var p := TryBlock(ds[staging := src], dest, staging, backup, f);
            && (forall d :: d != dest && d != staging && d != backup ==> SameAt(ds, p.dirs, d))
            && (p.raised <==> (dest in ds && f.aside) || f.swapIn)
            && (p.movedAside <==> dest in ds && !f.aside)
            && (p.movedAside ==> backup in p.dirs && p.dirs[backup] == ds[dest])
            && (!p.movedAside ==> backup !in p.dirs)
            && (if !p.raised then dest in p.dirs && p.dirs[dest] == src
                else if p.movedAside then dest !in p.dirs else SameAt(ds, p.dirs, dest))
  {
  }

  lemma ExceptOutcome(ds: Dirs, p: Progress, dest: string, staging: string, backup: string, f: Faults)
    requires FreeNames(ds, dest, staging, backup)
    requires p.movedAside ==> backup in p.dirs && dest in ds && p.dirs[backup] == ds[dest]
    requires p.raised && p.movedAside ==> dest !in p.dirs
    ensures var q := ExceptBlock(p, dest, backup, f);
            && q.raised == p.raised
            && (forall d :: d != dest && d != backup ==> SameAt(p.dirs, q.dirs, d))
            && (if p.raised && p.movedAside && !f.rollback
                then SameAt(ds, q.dirs, dest) && !q.movedAside && backup !in q.dirs
                else q == p)
  {
  }

  lemma FinallyOutcome(q: Progress, staging: string, backup: string, f: Faults)
    requires staging != backup
    ensures var after := FinallyBlock(q, staging, backup, f);
            && (forall d :: d != staging && d != backup ==> SameAt(q.dirs, after, d))
            && (staging in after ==> f.dropStaging.Some?)
            && (if q.movedAside then backup in after ==> f.dropBackup.Some? && after[backup] == f.dropBackup.value
                else SameAt(q.dirs, after, backup))
  {
  }

  /** The steps of the call have the outcome described. */
  lemma StepsSwap(ds: Dirs, dest: string, staging: string, backup: string, src: Tree, f: Faults)
    requires FreeNames(ds, dest, staging, backup)
    ensures var (after, raised) := SwapSteps(ds, dest, staging, backup, src, f);
            Swapped(ds, after, dest, staging, backup, src, f, raised)
  {
    if !f.mkdir && f.copy.None? {
      var p := TryBlock(ds[staging := src], dest, staging, backup, f);
      TryOutcome(ds, dest, staging, backup, src, f);
      var q := ExceptBlock(p, dest, backup, f);
      ExceptOutcome(ds, p, dest, staging, backup, f);
      FinallyOutcome(q, staging, backup, f);
      var after := FinallyBlock(q, staging, backup, f);
      forall d | d in ds || d in after
        ensures d != dest && d != staging && d != backup ==> SameAt(ds, after, d)
      {
        assert d != dest && d != staging && d != backup ==> SameAt(ds, q.dirs, d) && SameAt(q.dirs, after, d);
      }
      assert SameAt(q.dirs, after, dest);
    }
  }

  class DataDir {
    var dirs: Dirs

    constructor ()
      ensures dirs == map[]
    {
      dirs := map[];
    }

    method Rename(from: string, to: string)
      requires from in dirs
      modifies this
      ensures dirs == Moved(old(dirs), from, to)
    {
      dirs := dirs[to := dirs[from]] - {from};
    }

    method RemoveTree(d: string, residue: Option<Tree>)
      modifies this
      ensures dirs == Removed(old(dirs), d, residue)
    {
      if d in dirs && residue.Some? {
        dirs := dirs[d := residue.value];
      } else {
        dirs := dirs - {d};
      }
    }

    /** `LocalStorageBackend.replace_tree`; `staging` and `backup` carry a random token, so they are free names. */
    method ReplaceTree(dest: string, staging: string, backup: string, src: Tree, f: Faults) returns (raised: bool)
      requires staging !in dirs && backup !in dirs && staging != backup && dest != staging && dest != backup
      modifies this
      ensures (dirs, raised) == SwapSteps(old(dirs), dest, staging, backup, src, f)
      ensures Swapped(old(dirs), dirs, dest, staging, backup, src, f, raised)
    {
      StepsSwap(dirs, dest, staging, backup, src, f);
      if f.mkdir {
        return true;
      }
      if f.copy.Some? {
        dirs := dirs[staging := f.copy.value];
        return true;
      }
      dirs := dirs[staging := src];
      var movedAside := false;
      raised := false;
      if dest in dirs {
        if f.aside {
          raised := true;
        } else {
          Rename(dest, backup);
          movedAside := true;
        }
      }
      if !raised {
        if f.swapIn {
          raised := true;
        } else {
          Rename(staging, dest);
        }
      }
      if raised && movedAside && dest !in dirs && !f.rollback {
        Rename(backup, dest);
        movedAside := false;
      }
      if movedAside {
        RemoveTree(backup, f.dropBackup);
      }
      RemoveTree(staging, f.dropStaging);
    }
  }

  /**
   With at most one failing operation the live directory is, after the call, the complete new tree if it
   returned and exactly what it was if it raised, and no other directory has changed.
   */
  lemma OneFaultKeepsAWholeTree(before: Dirs, dest: string, staging: string, backup: string, src: Tree, f: Faults)
    requires FreeNames(before, dest, staging, backup) && AtMostOneFails(f)
    ensures var (after, raised) := SwapSteps(before, dest, staging, backup, src, f);
            && (if raised then SameAt(before, after, dest) else dest in after && after[dest] == src)
            && (forall d :: d in before && d != dest ==> d in after && after[d] == before[d])
            && (backup in after ==> !raised)
  {
    StepsSwap(before, dest, staging, backup, src, f);
    assert !(Fails(f, SwapIn) && Fails(f, Rollback)) && !(Fails(f, SwapIn) && Fails(f, DropBackup));
    var (after, raised) := SwapSteps(before, dest, staging, backup, src, f);
    forall d | d in before && d != dest
      ensures d in after && after[d] == before[d]
    {
      assert SameAt(before, after, d);
    }
  }

  /**
   For any number of faults: a call that raises leaves the live directory as it was exactly unless the
   swap-in and the rollback both failed. Then the directory is gone, and unless removing it fails as
   well, so is the copy moved aside.
   */
  lemma RaisedKeepsOldTreeIff(before: Dirs, dest: string, staging: string, backup: string, src: Tree, f: Faults)
    requires FreeNames(before, dest, staging, backup) && dest in before
    requires SwapSteps(before, dest, staging, backup, src, f).1
    ensures var after := SwapSteps(before, dest, staging, backup, src, f).0;
            && (SameAt(before, after, dest) <==> !(f.swapIn && f.rollback && !f.mkdir && f.copy.None? && !f.aside))
            && (!SameAt(before, after, dest) && f.dropBackup.None? ==> dest !in after && backup !in after)
  {
    StepsSwap(before, dest, staging, backup, src, f);
  }

  /** Swap-in and rollback fail, nothing else: the live tree is gone, and its copy too. */
  lemma FailedRollbackLosesTheTree(dest: string, staging: string, backup: string, live: Tree, src: Tree)
    requires FreeNames(map[dest := live], dest, staging, backup)
    ensures SwapSteps(map[dest := live], dest, staging, backup, src,
                      Faults(false, None, false, true, true, None, None)) == (map[], true)
  {
    var before, f := map[dest := live], Faults(false, None, false, true, true, None, None);
    RaisedKeepsOldTreeIff(before, dest, staging, backup, src, f);
    var after := SwapSteps(before, dest, staging, backup, src, f).0;
    StepsSwap(before, dest, staging, backup, src, f);
    assert forall d :: d in after ==> d in before || d in after;
    assert after.Keys == {};
  }

  // ----- the local tree as a map of blobs -----

  /** No directory lies inside another: `apps/<slug>` and its temporary siblings. */
  ghost predicate FlatLayout(dirs: Dirs) {
    forall c, d :: c in dirs && d in dirs && c != d ==> !Paths.StartsWith(c + "/", d + "/")
  }

  /** The layout is flat whenever the directories are clean paths of one depth, as `apps/<slug>` are. */
  lemma SameDepthIsFlat(dirs: Dirs, depth: nat, paths: map<string, seq<string>>)
    requires depth > 0
    requires forall d :: d in dirs ==>
                           d in paths && |paths[d]| == depth && Paths.Clean(paths[d]) && d == Paths.Join(paths[d])
    ensures FlatLayout(dirs)
  {
    forall c, d | c in dirs && d in dirs && c != d
      ensures !Paths.StartsWith(c + "/", d + "/")
    {
      Paths.SiblingsAreDisjoint(paths[c], paths[d]);
    }
  }

  /** Directory `d` holds the file that logical key `k` names. */
  ghost predicate FileAt(dirs: Dirs, d: string, k: string) {
    d in dirs && Paths.StartsWith(k, d + "/") && k[|d| + 1..] in dirs[d]
  }

  /** The directories are the blob map `m`. */
  ghost predicate Represents(dirs: Dirs, m: map<string, Blob>) {
    && (forall d, k :: FileAt(dirs, d, k) ==> k in m && m[k] == dirs[d][k[|d| + 1..]])
    && (forall k :: k in m ==> exists d :: FileAt(dirs, d, k))
  }

  lemma ShorterIsPrefix(c: string, d: string, k: string)
    requires Paths.StartsWith(k, c + "/") && Paths.StartsWith(k, d + "/") && |c| <= |d|
    ensures Paths.StartsWith(d + "/", c + "/")
  {
    assert (d + "/")[..|c| + 1] == k[..|d| + 1][..|c| + 1] == k[..|c| + 1];
  }

  /** In a flat layout no key lies under two directories. */
  lemma OneDirectory(dirs: Dirs, c: string, d: string, k: string)
    requires FlatLayout(dirs) && c in dirs && d in dirs && Paths.StartsWith(k, c + "/") && Paths.StartsWith(k, d + "/")
    ensures c == d
  {
    if |c| <= |d| {
      ShorterIsPrefix(c, d, k);
    } else {
      ShorterIsPrefix(d, c, k);
    }
  }

  lemma FileSurvives(before: Dirs, m: map<string, Blob>, dest: string, src: Tree, d: string, k: string)
    requires Represents(before, m) && FlatLayout(before[dest := src]) && FileAt(before[dest := src], d, k)
    ensures var m' := ReplaceUnder(m, dest + "/", src);
            k in m' && m'[k] == before[dest := src][d][k[|d| + 1..]]
  {
    if Paths.StartsWith(k, dest + "/") {
      OneDirectory(before[dest := src], d, dest, k);
    } else {
      assert FileAt(before, d, k);
    }
  }

  lemma KeyHasFile(before: Dirs, after: Dirs, m: map<string, Blob>, dest: string, src: Tree, k: string)
    requires Represents(before, m) && after == before[dest := src] && k in ReplaceUnder(m, dest + "/", src)
    ensures exists d :: FileAt(after, d, k)
  {
    if Paths.StartsWith(k, dest + "/") {
      assert FileAt(after, dest, k);
    } else {
      var d :| FileAt(before, d, k);
      assert FileAt(after, d, k);
    }
  }

  lemma UpdateRefines(before: Dirs, m: map<string, Blob>, dest: string, src: Tree)
    requires Represents(before, m) && FlatLayout(before[dest := src])
    ensures Represents(before[dest := src], ReplaceUnder(m, dest + "/", src))
  {
    var after := before[dest := src];
    var m' := ReplaceUnder(m, dest + "/", src);
    forall d, k | FileAt(after, d, k)
      ensures k in m' && m'[k] == after[d][k[|d| + 1..]]
    {
      FileSurvives(before, m, dest, src, d, k);
    }
    forall k | k in m'
      ensures exists d :: FileAt(after, d, k)
    {
      KeyHasFile(before, after, m, dest, src, k);
    }
  }

  lemma SwapIsUpdate(before: Dirs, after: Dirs, dest: string, staging: string, backup: string, src: Tree, f: Faults)
    requires Swapped(before, after, dest, staging, backup, src, f, false)
    requires staging !in before && backup !in before
    requires f.dropBackup.None? && f.dropStaging.None?
    ensures after == before[dest := src]
  {
    forall d | d in before[dest := src] || d in after
      ensures SameAt(before[dest := src], after, d)
    {
      assert d in before || d in after;
    }
  }

  /** A call that returns, with its clean-up done, is the abstract update of the blob map. */
  lemma LocalRefines(before: Dirs, m: map<string, Blob>, dest: string, staging: string, backup: string,
                     src: Tree, f: Faults)
    requires FreeNames(before, dest, staging, backup) && !SwapSteps(before, dest, staging, backup, src, f).1
    requires f.dropBackup.None? && f.dropStaging.None?
    requires Represents(before, m) && FlatLayout(before[dest := src])
    ensures Represents(SwapSteps(before, dest, staging, backup, src, f).0, ReplaceUnder(m, dest + "/", src))
  {
    StepsSwap(before, dest, staging, backup, src, f);
    SwapIsUpdate(before, SwapSteps(before, dest, staging, backup, src, f).0, dest, staging, backup, src, f);
    UpdateRefines(before, m, dest, src);
  }

  // ----- S3 backend -----

  /** One file of the new tree, in upload order. */
  datatype File = File(rel: string, body: Blob)

  function TreeOf(files: seq<File>): Tree {
    if files == [] then map[] else TreeOf(files[..|files| - 1])[files[|files| - 1].rel := files[|files| - 1].body]
  }

  ghost predicate DistinctFiles(files: seq<File>) {
    forall i, j :: 0 <= i < j < |files| ==> files[i].rel != files[j].rel
  }

  const DELETE_BATCH := 1000

  /** Nothing outside the target has changed, and a key common to both trees has its old or its new content. */
  ghost predicate KeepsServing(before: map<string, Blob>, now: map<string, Blob>, target: string, tree: Tree) {
    forall k :: k in before ==>
                  if !Paths.StartsWith(k, target) then k in now && now[k] == before[k]
                  else k[|target|..] in tree ==> k in now && (now[k] == before[k] || now[k] == tree[k[|target|..]])
  }

  ghost predicate Uploaded(before: map<string, Blob>, now: map<string, Blob>, target: string, tree: Tree) {
    && (forall k :: k in now <==> k in before || (Paths.StartsWith(k, target) && k[|target|..] in tree))
    && (forall k :: k in now ==>
                      now[k] ==
                      if Paths.StartsWith(k, target) && k[|target|..] in tree then tree[k[|target|..]] else before[k])
  }

  /** Keys of the old tree that the new one omits and the store refuses to delete. */
  function Residue(m: map<string, Blob>, target: string, tree: Tree, refused: set<string>): map<string, Blob> {
    map k | k in m && k in refused && Paths.StartsWith(k, target) && k[|target|..] !in tree :: m[k]
  }

  predicate Placeable(k: string, target: string, tree: Tree) {
    Paths.StartsWith(k, target) && k[|target|..] in tree
  }

  predicate Dropped(k: string, target: string, refused: set<string>) {
    Paths.StartsWith(k, target) && k !in refused
  }

  /** What a replacement that returns leaves in the bucket. */
  ghost function Reconciled(m: map<string, Blob>, target: string, tree: Tree, refused: set<string>)
    : (m': map<string, Blob>)
    ensures forall k :: k in m' <==> if Placeable(k, target, tree) then true else k in m && !Dropped(k, target, refused)
    ensures forall k :: k in m' ==> m'[k] == if Placeable(k, target, tree) then tree[k[|target|..]] else m[k]
  {
    ReplaceUnder(m, target, tree) + Residue(m, target, tree, refused)
  }

  lemma UploadOne(before: map<string, Blob>, now: map<string, Blob>, target: string, tree: Tree, f: File)
    requires Uploaded(before, now, target, tree)
    ensures Uploaded(before, now[target + f.rel := f.body], target, tree[f.rel := f.body])
  {
    ConcatSplits(target, f.rel);
    forall k | Paths.StartsWith(k, target) && k[|target|..] == f.rel ensures k == target + f.rel {}
  }

  lemma {:induction false} RelOf(files: seq<File>, rel: string)
    requires rel in TreeOf(files)
    ensures exists i :: 0 <= i < |files| && files[i].rel == rel
  {
    if files[|files| - 1].rel != rel {
      RelOf(files[..|files| - 1], rel);
    }
  }

  lemma {:induction false} TreeOfPrefix(files: seq<File>, n: nat, rel: string)
    requires DistinctFiles(files) && n <= |files| && rel in TreeOf(files[..n])
    ensures rel in TreeOf(files) && TreeOf(files)[rel] == TreeOf(files[..n])[rel]
    decreases |files|
  {
    if n < |files| {
      var shorter := files[..|files| - 1];
      assert shorter[..n] == files[..n];
      TreeOfPrefix(shorter, n, rel);
      RelOf(shorter, rel);
    } else {
      assert files[..n] == files;
    }
  }

  lemma UploadKeepsServing(before: map<string, Blob>, now: map<string, Blob>, target: string, files: seq<File>, n: nat)
    requires DistinctFiles(files) && n <= |files| && Uploaded(before, now, target, TreeOf(files[..n]))
    ensures KeepsServing(before, now, target, TreeOf(files))
  {
    forall k | k in before && Paths.StartsWith(k, target) && k[|target|..] in TreeOf(files)
      ensures k in now && (now[k] == before[k] || now[k] == TreeOf(files)[k[|target|..]])
    {
      if k[|target|..] in TreeOf(files[..n]) {
        TreeOfPrefix(files, n, k[|target|..]);
      }
    }
  }

  lemma AllDeleted(before: map<string, Blob>, uploaded: map<string, Blob>, now: map<string, Blob>,
                   target: string, tree: Tree, stale: seq<string>, refused: set<string>)
    requires Uploaded(before, uploaded, target, tree)
    requires forall k :: k in stale <==> k in uploaded && Paths.StartsWith(k, target) && k[|target|..] !in tree
    requires now == uploaded - ((set k | k in stale) - refused)
    ensures now == Reconciled(before, target, tree, refused)
  {
    var all := Reconciled(before, target, tree, refused);
    forall k ensures k in now <==> k in all {
      assert k in now <==> k in uploaded && !(k in stale && k !in refused);
    }
    forall k | k in now ensures now[k] == all[k] {
      assert k in all && now[k] == uploaded[k];
    }
  }

  lemma DeleteKeepsServing(before: map<string, Blob>, uploaded: map<string, Blob>, now: map<string, Blob>,
                           target: string, tree: Tree, stale: seq<string>, n: nat, refused: set<string>)
    requires Uploaded(before, uploaded, target, tree) && n <= |stale|
    requires forall k :: k in stale <==> k in uploaded && Paths.StartsWith(k, target) && k[|target|..] !in tree
    requires now == uploaded - ((set k | k in stale[..n]) - refused)
    ensures KeepsServing(before, now, target, tree)
    ensures n == |stale| ==> now == Reconciled(before, target, tree, refused)
  {
    forall k | k in before
      ensures !Paths.StartsWith(k, target) || k[|target|..] in tree ==> k in now && now[k] == uploaded[k]
    {
      assert k in uploaded;
    }
    if n == |stale| {
      assert stale[..n] == stale;
      AllDeleted(before, uploaded, now, target, tree, stale, refused);
    }
  }

  /** The keys under the target that the new tree omits. */
  function StaleKeys(m: map<string, Blob>, target: string, tree: Tree): set<string> {
    set k | k in m && Paths.StartsWith(k, target) && k[|target|..] !in tree
  }

  lemma OneLeft(m: map<string, Blob>, left: set<string>, k: string, target: string, tree: Tree)
    requires k in left && left <= m.Keys
    ensures StaleKeys(m - (left - {k}), target, tree) ==
            StaleKeys(m - left, target, tree) +
            if Paths.StartsWith(k, target) && k[|target|..] !in tree then {k} else {}
  {
  }

  /** Uploading neither adds stale keys nor removes any. */
  lemma SameStale(before: map<string, Blob>, uploaded: map<string, Blob>, target: string, tree: Tree)
    requires Uploaded(before, uploaded, target, tree)
    ensures StaleKeys(uploaded, target, tree) == StaleKeys(before, target, tree)
  {
  }

  class Bucket {
    var objects: map<string, Blob>

    constructor ()
      ensures objects == map[]
    {
      objects := map[];
    }

    /** The upload loop; it raises at request `failAt`, if it gets there. */
    method Upload(target: string, files: seq<File>, failAt: nat) returns (done: nat)
      modifies this
      ensures done <= |files| && (done < |files| <==> failAt < |files|)
      ensures Uploaded(old(objects), objects, target, TreeOf(files[..done]))
    {
      done := 0;
      while done < |files|
        invariant 0 <= done <= |files| && done <= failAt
        invariant Uploaded(old(objects), objects, target, TreeOf(files[..done]))
      {
        if done == failAt {
          return;
        }
        UploadOne(old(objects), objects, target, TreeOf(files[..done]), files[done]);
        assert files[..done + 1][..done] == files[..done];
        objects := objects[target + files[done].rel := files[done].body];
        done := done + 1;
      }
    }

    /**
     The delete loop over `stale`, in batches; it raises at batch `failAt`, if it gets there. Keys the store refuses
     to delete are named in its answer, which nobody reads.
     */
    method DeleteBatches(stale: seq<string>, failAt: nat, refused: set<string>) returns (done: nat)
      modifies this
      ensures done <= |stale| && objects == old(objects) - ((set k | k in stale[..done]) - refused)
      ensures done < |stale| <==> failAt * DELETE_BATCH < |stale|
      ensures done < |stale| ==> done == failAt * DELETE_BATCH
    {
      done := 0;
      var batch := 0;
      while done < |stale|
        invariant 0 <= done <= |stale| && objects == old(objects) - ((set k | k in stale[..done]) - refused)
        invariant done < |stale| ==> done == batch * DELETE_BATCH
        invariant done == |stale| ==> batch * DELETE_BATCH >= |stale|
        invariant batch <= failAt
      {
        if batch == failAt {
          return;
        }
        var end := if done + DELETE_BATCH <= |stale| then done + DELETE_BATCH else |stale|;
        assert stale[..end] == stale[..done] + stale[done..end];
        objects := objects - ((set k | k in stale[done..end]) - refused);
        done, batch := end, batch + 1;
      }
    }

    /** The keys under the target that the new tree omits, in some listing order. */
    method Stale(target: string, tree: Tree) returns (stale: seq<string>)
      ensures forall k :: k in stale <==> k in objects && Paths.StartsWith(k, target) && k[|target|..] !in tree
      ensures |stale| == |StaleKeys(objects, target, tree)|
    {
      stale := [];
      var left := objects.Keys;
      while left != {}
        invariant left <= objects.Keys
        invariant forall k :: k in stale <==>
                                k in objects - left && Paths.StartsWith(k, target) && k[|target|..] !in tree
        invariant |stale| == |StaleKeys(objects - left, target, tree)|
        decreases left
      {
        var k :| k in left;
        OneLeft(objects, left, k, target, tree);
        if Paths.StartsWith(k, target) && k[|target|..] !in tree {
          stale := stale + [k];
        }
        left := left - {k};
      }
      assert objects - {} == objects;
    }

    /**
     `S3StorageBackend.replace_tree`; `failUpload` and `failDelete` say at which request it raises, if it gets
     there. If it returns, the bucket is the abstract update but for stale keys the store refused to delete;
     wherever it stops, it keeps serving.
     */
    method ReplaceTree(target: string, files: seq<File>, failUpload: nat, failDelete: nat, refused: set<string>)
      returns (raised: bool)
      requires DistinctFiles(files)
      modifies this
      ensures raised <==>
              || failUpload < |files|
              || failDelete * DELETE_BATCH < |StaleKeys(old(objects), target, TreeOf(files))|
      ensures !raised ==> objects == Reconciled(old(objects), target, TreeOf(files), refused)
      ensures var before, tree := old(objects), TreeOf(files);
              forall k :: k in before ==>
                            if !Paths.StartsWith(k, target) then k in objects && objects[k] == before[k]
                            else k[|target|..] in tree ==>
                              k in objects && (objects[k] == before[k] || objects[k] == tree[k[|target|..]])
    {
      var done := Upload(target, files, failUpload);
      if done < |files| {
        UploadKeepsServing(old(objects), objects, target, files, done);
        return true;
      }
      assert files[..done] == files;
      ghost var uploaded := objects;
      var stale := Stale(target, TreeOf(files));
      SameStale(old(objects), uploaded, target, TreeOf(files));
      var deleted := DeleteBatches(stale, failDelete, refused);
      DeleteKeepsServing(old(objects), uploaded, objects, target, TreeOf(files), stale, deleted, refused);
      raised := deleted < |stale|;
    }
  }

  // ----- S3 proofs -----

  lemma ReconciledIff(m: map<string, Blob>, target: string, tree: Tree, refused: set<string>)
    ensures Reconciled(m, target, tree, refused) == ReplaceUnder(m, target, tree) <==>
            Residue(m, target, tree, refused) == map[]
  {
    if Residue(m, target, tree, refused) != map[] {
      var k :| k in Residue(m, target, tree, refused);
      assert k in Reconciled(m, target, tree, refused) && k !in ReplaceUnder(m, target, tree);
    }
  }

  lemma OneMap(dirs: Dirs, m: map<string, Blob>, n: map<string, Blob>)
    requires Represents(dirs, m) && Represents(dirs, n)
    ensures m == n
  {
    forall k | k in m || k in n
      ensures k in m && k in n && m[k] == n[k]
    {
      var d :| FileAt(dirs, d, k);
    }
  }

  /**
   Both backends are one map update: a swap of the local directories that returns, and an S3 replacement that
   returns, started from the same blobs, end with the same blobs if and only if the store refused to delete no
   stale key.
   */
  lemma BackendsAgree(before: Dirs, bucket: map<string, Blob>, dest: string, staging: string, backup: string,
                      src: Tree, f: Faults, refused: set<string>)
    requires FreeNames(before, dest, staging, backup) && !SwapSteps(before, dest, staging, backup, src, f).1
    requires f.dropBackup.None? && f.dropStaging.None?
    requires Represents(before, bucket) && FlatLayout(before[dest := src])
    ensures Represents(SwapSteps(before, dest, staging, backup, src, f).0, Reconciled(bucket, dest + "/", src, refused))
            <==> Residue(bucket, dest + "/", src, refused) == map[]
  {
    LocalRefines(before, bucket, dest, staging, backup, src, f);
    ReconciledIff(bucket, dest + "/", src, refused);
    var after := SwapSteps(before, dest, staging, backup, src, f).0;
    if Represents(after, Reconciled(bucket, dest + "/", src, refused)) {
      OneMap(after, Reconciled(bucket, dest + "/", src, refused), ReplaceUnder(bucket, dest + "/", src));
    }
  }
}
