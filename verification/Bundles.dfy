/**
 `portal/apps.py`: validating an uploaded zip, extracting it, and zipping an installed bundle again.

 Two names are the same file to the validator when they agree segment by segment under `fold` (NFC and
 lower case in the program; any function here). The disk the bundle lands on has an idea of its own (`sees`), at
 most as coarse: the identity on a case-sensitive disk, `fold` itself on one that ignores case and
 composition. It may also refuse a path altogether (`takes`), one with too long a segment say.
 */
module Bundles {
  import opened Paths

  type Blob = seq<bv8>
  type Folding = string -> string

  datatype Disk = Disk(sees: Folding, takes: seq<string> -> bool)

  const MAX_UNCOMPRESSED_BYTES := 100 * 1024 * 1024
  const MAX_FILES := 1000
  const MAX_COMPRESS_RATIO := 50

  datatype Entry = Entry(name: string, body: Blob, size: nat, compressed: nat, symlink: bool)

  predicate IsDir(e: Entry) {
    e.name != "" && e.name[|e.name| - 1] == '/'
  }

  function FoldPath(fold: Folding, path: seq<string>): (r: seq<string>)
    ensures |r| == |path| && forall i :: 0 <= i < |path| ==> r[i] == fold(path[i])
  {
    seq(|path|, i requires 0 <= i < |path| => fold(path[i]))
  }

  function FoldedParts(fold: Folding, e: Entry): seq<string> {
    FoldPath(fold, Parts(e.name))
  }

  predicate UnsafeName(e: Entry) {
    '\\' in e.name || (e.name != "" && e.name[0] == '/') || ".." in Parts(e.name)
  }

  /** The per-entry ratio test; true division, so the comparison is exact. */
  predicate SuspiciousRatio(e: Entry) {
    e.compressed > 0 && e.size > 100 * 1024 && e.size > MAX_COMPRESS_RATIO * e.compressed
  }

  predicate Below(folder: seq<string>, path: seq<string>) {
    |folder| < |path| && path[..|folder|] == folder
  }

  function Files(es: seq<Entry>): seq<Entry> {
    if es == [] then [] else Files(es[..|es| - 1]) + if IsDir(es[|es| - 1]) then [] else [es[|es| - 1]]
  }

  function TotalSize(es: seq<Entry>): nat {
    if es == [] then 0 else TotalSize(es[..|es| - 1]) + es[|es| - 1].size
  }

  // ----- validation -----

  datatype Verdict = Accepted | TooManyFiles | UnsafePath(at: nat) | Symlink(at: nat) | Duplicate(at: nat)
                   | TooLarge(at: nat) | BadRatio(at: nat) | FileAndFolder

  ghost predicate EachSound(fs: seq<Entry>) {
    forall i :: 0 <= i < |fs| ==> !UnsafeName(fs[i]) && !fs[i].symlink && !SuspiciousRatio(fs[i])
  }

  ghost predicate AllDistinct(fold: Folding, fs: seq<Entry>) {
    forall i, j :: 0 <= i < j < |fs| ==> FoldedParts(fold, fs[i]) != FoldedParts(fold, fs[j])
  }

  /** No entry's path is a folder of another's; the archive root is not counted as a folder. */
  ghost predicate NoClash(fold: Folding, fs: seq<Entry>) {
    forall i, j :: 0 <= i < |fs| && 0 <= j < |fs| && FoldedParts(fold, fs[i]) != [] ==>
                     !Below(FoldedParts(fold, fs[i]), FoldedParts(fold, fs[j]))
  }

  /** What the validator is meant to let through. */
  ghost predicate Acceptable(fold: Folding, es: seq<Entry>) {
    var fs := Files(es);
    |es| <= MAX_FILES && EachSound(fs) && AllDistinct(fold, fs) && NoClash(fold, fs)
    && TotalSize(fs) <= MAX_UNCOMPRESSED_BYTES
  }

  ghost predicate SeenIs(fold: Folding, fs: seq<Entry>, seen: set<seq<string>>) {
    forall p :: p in seen <==> exists i :: 0 <= i < |fs| && FoldedParts(fold, fs[i]) == p
  }

  /** Some path in `seen` is a proper folder of another. */
  predicate HasClash(seen: set<seq<string>>) {
    exists p :: p in seen && p != [] && exists q :: q in seen && Below(p, q)
  }

  /** What the pass knows after the files `fs`. */
  ghost predicate SoFar(fold: Folding, fs: seq<Entry>, seen: set<seq<string>>, total: nat) {
    && EachSound(fs) && AllDistinct(fold, fs) && SeenIs(fold, fs, seen)
    && total == TotalSize(fs) <= MAX_UNCOMPRESSED_BYTES
  }

  /** The entry fails one of the per-entry tests. */
  predicate Rejected(fold: Folding, e: Entry, seen: set<seq<string>>, total: nat) {
    || UnsafeName(e) || e.symlink || FoldedParts(fold, e) in seen
    || total + e.size > MAX_UNCOMPRESSED_BYTES || SuspiciousRatio(e)
  }

  /** The first failing test, in the order they are made. */
  function Reason(fold: Folding, e: Entry, at: nat, seen: set<seq<string>>, total: nat): (v: Verdict)
    ensures !v.Accepted?
  {
    if UnsafeName(e) then UnsafePath(at)
    else if e.symlink then Symlink(at)
    else if FoldedParts(fold, e) in seen then Duplicate(at)
    else if total + e.size > MAX_UNCOMPRESSED_BYTES then TooLarge(at)
    else BadRatio(at)
  }

  lemma SoundOneMore(fs: seq<Entry>, e: Entry)
    requires EachSound(fs) && !UnsafeName(e) && !e.symlink && !SuspiciousRatio(e)
    ensures EachSound(fs + [e]) && TotalSize(fs + [e]) == TotalSize(fs) + e.size
  {
    assert (fs + [e])[..|fs|] == fs;
  }

  lemma SeenOneMore(fold: Folding, fs: seq<Entry>, e: Entry, seen: set<seq<string>>)
    requires SeenIs(fold, fs, seen) && AllDistinct(fold, fs) && FoldedParts(fold, e) !in seen
    ensures SeenIs(fold, fs + [e], seen + {FoldedParts(fold, e)}) && AllDistinct(fold, fs + [e])
  {
    var all := fs + [e];
    assert all[|fs|] == e && forall i :: 0 <= i < |fs| ==> all[i] == fs[i];
    forall p | p in seen + {FoldedParts(fold, e)}
      ensures exists i :: 0 <= i < |all| && FoldedParts(fold, all[i]) == p
    {
      if p in seen {
        var i :| 0 <= i < |fs| && FoldedParts(fold, fs[i]) == p;
        assert FoldedParts(fold, all[i]) == p;
      } else {
        assert FoldedParts(fold, all[|fs|]) == p;
      }
    }
  }

  lemma SoFarOneMore(fold: Folding, fs: seq<Entry>, e: Entry, seen: set<seq<string>>, total: nat)
    requires SoFar(fold, fs, seen, total) && !Rejected(fold, e, seen, total)
    ensures SoFar(fold, fs + [e], seen + {FoldedParts(fold, e)}, total + e.size)
  {
    SeenOneMore(fold, fs, e, seen);
    SoundOneMore(fs, e);
  }

  lemma FilesOfMore(es: seq<Entry>, i: nat)
    requires i < |es|
    ensures Files(es[..i + 1]) == if IsDir(es[i]) then Files(es[..i]) else Files(es[..i]) + [es[i]]
  {
    assert es[..i + 1][..i] == es[..i];
    assert Files(es[..i]) + [] == Files(es[..i]);
  }

  lemma {:induction false} FilesPrefix(es: seq<Entry>, i: nat)
    requires i <= |es|
    ensures |Files(es[..i])| <= |Files(es)| && Files(es)[..|Files(es[..i])|] == Files(es[..i])
    decreases |es|
  {
    if i == |es| {
      assert es[..i] == es;
    } else {
      var before := es[..|es| - 1];
      FilesPrefix(before, i);
      assert before[..i] == es[..i];
      assert Files(es)[..|Files(before)|] == Files(before);
    }
  }

  lemma {:induction false} TotalOfPrefix(fs: seq<Entry>, n: nat)
    requires n <= |fs|
    ensures TotalSize(fs[..n]) <= TotalSize(fs)
    decreases |fs|
  {
    if n < |fs| {
      assert fs[..|fs| - 1][..n] == fs[..n];
      TotalOfPrefix(fs[..|fs| - 1], n);
    } else {
      assert fs[..n] == fs;
    }
  }

  /** Entry `i`, if it is a file, is the next of all the files. */
  lemma NextEntry(es: seq<Entry>, i: nat)
    requires i < |es|
    ensures var fs := Files(es[..i]);
            !IsDir(es[i]) ==>
              && |fs| < |Files(es)| && Files(es)[|fs|] == es[i] && Files(es)[..|fs|] == fs
              && TotalSize(fs + [es[i]]) == TotalSize(fs) + es[i].size <= TotalSize(Files(es))
  {
    FilesOfMore(es, i);
    FilesPrefix(es, i + 1);
    if !IsDir(es[i]) {
      var fs := Files(es[..i]);
      var more := fs + [es[i]];
      assert Files(es)[..|more|] == more;
      assert Files(es)[|fs|] == more[|fs|];
      assert Files(es)[..|fs|] == more[..|fs|] == fs;
      TotalOfPrefix(Files(es), |more|);
    }
  }

  lemma RejectionIsFinal(fold: Folding, es: seq<Entry>, i: nat, seen: set<seq<string>>, total: nat)
    requires i < |es| && !IsDir(es[i]) && Rejected(fold, es[i], seen, total)
    requires SeenIs(fold, Files(es[..i]), seen) && total == TotalSize(Files(es[..i]))
    ensures !Acceptable(fold, es)
  {
    NextEntry(es, i);
    var fs, all := Files(es[..i]), Files(es);
    if FoldedParts(fold, es[i]) in seen {
      var j :| 0 <= j < |fs| && FoldedParts(fold, fs[j]) == FoldedParts(fold, es[i]);
      assert all[j] == all[..|fs|][j] == fs[j];
      assert !AllDistinct(fold, all);
    } else if total + es[i].size <= MAX_UNCOMPRESSED_BYTES {
      assert !EachSound(all);
    }
  }

  /** All tests but the last are passed. */
  ghost predicate PassesEach(fold: Folding, es: seq<Entry>) {
    EachSound(Files(es)) && AllDistinct(fold, Files(es)) && TotalSize(Files(es)) <= MAX_UNCOMPRESSED_BYTES
  }

  ghost predicate SeenBefore(fold: Folding, fs: seq<Entry>, e: Entry) {
    exists j :: 0 <= j < |fs| && FoldedParts(fold, fs[j]) == FoldedParts(fold, e)
  }

  /** The verdict names the first entry that fails, and the first test it fails. */
  ghost predicate FirstFault(fold: Folding, es: seq<Entry>, v: Verdict) {
    match v
    case Accepted => true
    case TooManyFiles => |es| > MAX_FILES
    case FileAndFolder => PassesEach(fold, es) && !NoClash(fold, Files(es))
    case _ =>
      && v.at < |es| && !IsDir(es[v.at]) && PassesEach(fold, es[..v.at])
      && var e, fs := es[v.at], Files(es[..v.at]);
         var safe, seen := !UnsafeName(e), SeenBefore(fold, fs, e);
         var room := TotalSize(fs) + e.size <= MAX_UNCOMPRESSED_BYTES;
         match v
         case UnsafePath(_) => !safe
         case Symlink(_) => safe && e.symlink
         case Duplicate(_) => safe && !e.symlink && seen
         case TooLarge(_) => safe && !e.symlink && !seen && !room
         case _ => safe && !e.symlink && !seen && room && SuspiciousRatio(e)
  }

  lemma ReasonIsFirst(fold: Folding, es: seq<Entry>, i: nat, seen: set<seq<string>>, total: nat)
    requires i < |es| && !IsDir(es[i]) && SoFar(fold, Files(es[..i]), seen, total) && Rejected(fold, es[i], seen, total)
    ensures FirstFault(fold, es, Reason(fold, es[i], i, seen, total))
  {
    assert FoldedParts(fold, es[i]) in seen <==> SeenBefore(fold, Files(es[..i]), es[i]);
  }

  /** The loop of `_validate_zip` over the entries, with `seen` and `total`. */
  method ScanEntries(fold: Folding, es: seq<Entry>) returns (v: Verdict, seen: set<seq<string>>)
    ensures v.Accepted? ==> SoFar(fold, Files(es), seen, TotalSize(Files(es)))
    ensures !v.Accepted? ==> !Acceptable(fold, es) && v != TooManyFiles && FirstFault(fold, es, v)
  {
    seen := {};
    var total: nat := 0;
    for i := 0 to |es|
      invariant SoFar(fold, Files(es[..i]), seen, total)
    {
      FilesOfMore(es, i);
      if !IsDir(es[i]) {
        if Rejected(fold, es[i], seen, total) {
          RejectionIsFinal(fold, es, i, seen, total);
          ReasonIsFirst(fold, es, i, seen, total);
          return Reason(fold, es[i], i, seen, total), seen;
        }
        SoFarOneMore(fold, Files(es[..i]), es[i], seen, total);
        seen := seen + {FoldedParts(fold, es[i])};
        total := total + es[i].size;
      }
    }
    assert es[..|es|] == es;
    v := Accepted;
  }

  lemma ClashIsClash(fold: Folding, fs: seq<Entry>, seen: set<seq<string>>)
    requires SeenIs(fold, fs, seen)
    ensures HasClash(seen) <==> !NoClash(fold, fs)
  {
    if HasClash(seen) {
      var p, q :| p in seen && p != [] && q in seen && Below(p, q);
      var i :| 0 <= i < |fs| && FoldedParts(fold, fs[i]) == p;
      var j :| 0 <= j < |fs| && FoldedParts(fold, fs[j]) == q;
    }
    if !NoClash(fold, fs) {
      var i, j :| 0 <= i < |fs| && 0 <= j < |fs| && FoldedParts(fold, fs[i]) != []
                  && Below(FoldedParts(fold, fs[i]), FoldedParts(fold, fs[j]));
      assert FoldedParts(fold, fs[i]) in seen && FoldedParts(fold, fs[j]) in seen;
    }
  }

  /** `_validate_zip`. */
  method ValidateZip(fold: Folding, es: seq<Entry>) returns (v: Verdict)
    ensures v.Accepted? <==> Acceptable(fold, es)
    ensures v.TooManyFiles? <==> |es| > MAX_FILES
    ensures FirstFault(fold, es, v)
  {
    if |es| > MAX_FILES {
      return TooManyFiles;
    }
    var seen;
    v, seen := ScanEntries(fold, es);
    if v.Accepted? {
      ClashIsClash(fold, Files(es), seen);
      if HasClash(seen) {
        v := FileAndFolder;
      }
    }
  }

  // ----- extraction -----

  /** The files below the destination, by the path the file system knows them under. */
  type Tree = map<seq<string>, Blob>

  datatype Extraction = Extracted(tree: Tree) | Failed

  /**
   A file can be opened for writing: it is not the destination itself, no folder on its way is a file, and it is
   no folder.
   */
  predicate CanWrite(t: Tree, key: seq<string>) {
    key != [] && forall k :: k in t ==> !Below(k, key) && !Below(key, k)
  }

  /** The path stays below the destination it is joined to, as far as its first character goes. */
  predicate Relative(name: string) {
    name == "" || name[0] != '/'
  }

  /** `_safe_extract`: every file entry in archive order; a second one under the same path overwrites the first. */
  function Extract(disk: Disk, es: seq<Entry>): Extraction {
    if es == [] then Extracted(map[]) else
    match Extract(disk, es[..|es| - 1])
    case Failed => Failed
    case Extracted(t) =>
      var e := es[|es| - 1];
      if IsDir(e) then Extracted(t)
      else if Relative(e.name) && disk.takes(Parts(e.name)) && CanWrite(t, FoldedParts(disk.sees, e)) then
        Extracted(t[FoldedParts(disk.sees, e) := e.body])
      else Failed
  }

  /** Names the file system takes for one are one to the validator too. */
  ghost predicate AtMostAsCoarse(fsys: Folding, fold: Folding) {
    forall a, b :: fsys(a) == fsys(b) ==> fold(a) == fold(b)
  }

  /** Every file entry has a real path segment, and the disk takes its path. */
  ghost predicate Writable(disk: Disk, fs: seq<Entry>) {
    forall i :: 0 <= i < |fs| ==> Parts(fs[i].name) != [] && disk.takes(Parts(fs[i].name))
  }

  /** The paths the file system knows the entries under. */
  function PathsOf(fsys: Folding, fs: seq<Entry>): set<seq<string>> {
    if fs == [] then {} else PathsOf(fsys, fs[..|fs| - 1]) + {FoldedParts(fsys, fs[|fs| - 1])}
  }

  /** The tree holds exactly the files of `fs`, one each, with their bytes. */
  ghost predicate Holds(fsys: Folding, fs: seq<Entry>, t: Tree) {
    && t.Keys == PathsOf(fsys, fs) && |t| == |fs|
    && forall i :: 0 <= i < |fs| ==> FoldedParts(fsys, fs[i]) in t && t[FoldedParts(fsys, fs[i])] == fs[i].body
  }

  /** An entry under one of the paths. */
  lemma {:induction false} EntryAt(fsys: Folding, fs: seq<Entry>, k: seq<string>) returns (i: nat)
    requires k in PathsOf(fsys, fs)
    ensures i < |fs| && FoldedParts(fsys, fs[i]) == k
  {
    if FoldedParts(fsys, fs[|fs| - 1]) == k {
      i := |fs| - 1;
    } else {
      i := EntryAt(fsys, fs[..|fs| - 1], k);
    }
  }

  lemma CoarserPaths(fsys: Folding, fold: Folding, p: seq<string>, q: seq<string>)
    requires AtMostAsCoarse(fsys, fold)
    ensures FoldPath(fsys, p) == FoldPath(fsys, q) ==> FoldPath(fold, p) == FoldPath(fold, q)
    ensures Below(FoldPath(fsys, p), FoldPath(fsys, q)) ==> Below(FoldPath(fold, p), FoldPath(fold, q))
  {
    var a, b := FoldPath(fsys, p), FoldPath(fsys, q);
    if a == b {
      assert forall i :: 0 <= i < |p| ==> a[i] == b[i];
    }
    if Below(a, b) {
      assert forall i :: 0 <= i < |p| ==> a[i] == b[..|p|][i] == b[i];
      assert FoldPath(fold, q)[..|p|] == FoldPath(fold, p);
    }
  }

  ghost predicate Extractable(fold: Folding, fs: seq<Entry>) {
    && AllDistinct(fold, fs) && NoClash(fold, fs)
    && forall i :: 0 <= i < |fs| ==> Parts(fs[i].name) != [] && Relative(fs[i].name)
  }

  /** The entry after accepted ones can be written, and under a path of its own. */
  lemma NextCanBeWritten(fold: Folding, fsys: Folding, fs: seq<Entry>, t: Tree, e: Entry)
    requires AtMostAsCoarse(fsys, fold)
    requires Extractable(fold, fs + [e]) && Holds(fsys, fs, t)
    ensures CanWrite(t, FoldedParts(fsys, e)) && FoldedParts(fsys, e) !in t
  {
    var all := fs + [e];
    assert all[|fs|] == e;
    forall k | k in t
      ensures !Below(k, FoldedParts(fsys, e)) && !Below(FoldedParts(fsys, e), k) && k != FoldedParts(fsys, e)
    {
      var i := EntryAt(fsys, fs, k);
      assert all[i] == fs[i];
      CoarserPaths(fsys, fold, Parts(fs[i].name), Parts(e.name));
      CoarserPaths(fsys, fold, Parts(e.name), Parts(fs[i].name));
      assert FoldedParts(fold, all[i]) != FoldedParts(fold, all[|fs|]);
      assert !Below(FoldedParts(fold, all[i]), FoldedParts(fold, all[|fs|]));
      assert !Below(FoldedParts(fold, all[|fs|]), FoldedParts(fold, all[i]));
    }
  }

  lemma ExtractableBefore(fold: Folding, fs: seq<Entry>, e: Entry)
    requires Extractable(fold, fs + [e])
    ensures Extractable(fold, fs) && Parts(e.name) != [] && Relative(e.name)
  {
    var all := fs + [e];
    assert all[|fs|] == e && forall i :: 0 <= i < |fs| ==> all[i] == fs[i];
  }

  lemma WritableBefore(disk: Disk, fs: seq<Entry>, e: Entry)
    requires Writable(disk, fs + [e])
    ensures Writable(disk, fs) && disk.takes(Parts(e.name))
  {
    var all := fs + [e];
    assert all[|fs|] == e && forall i :: 0 <= i < |fs| ==> all[i] == fs[i];
  }

  lemma HoldsOneMore(fsys: Folding, fs: seq<Entry>, t: Tree, e: Entry)
    requires Holds(fsys, fs, t) && FoldedParts(fsys, e) !in t
    ensures Holds(fsys, fs + [e], t[FoldedParts(fsys, e) := e.body])
  {
    var all, key := fs + [e], FoldedParts(fsys, e);
    assert all[..|fs|] == fs;
    forall i | 0 <= i < |all|
      ensures FoldedParts(fsys, all[i]) in t[key := e.body]
              && t[key := e.body][FoldedParts(fsys, all[i])] == all[i].body
    {
      if i < |fs| {
        assert FoldedParts(fsys, fs[i]) in t;
      }
    }
  }

  lemma {:induction false} ExtractionHolds(fold: Folding, disk: Disk, es: seq<Entry>)
    requires AtMostAsCoarse(disk.sees, fold) && Extractable(fold, Files(es)) && Writable(disk, Files(es))
    ensures Extract(disk, es).Extracted? && Holds(disk.sees, Files(es), Extract(disk, es).tree)
  {
    if es != [] {
      var before, e := es[..|es| - 1], es[|es| - 1];
      if IsDir(e) {
        assert Files(es) == Files(before);
        ExtractionHolds(fold, disk, before);
      } else {
        ExtractableBefore(fold, Files(before), e);
        WritableBefore(disk, Files(before), e);
        ExtractionHolds(fold, disk, before);
        NextCanBeWritten(fold, disk.sees, Files(before), Extract(disk, before).tree, e);
        HoldsOneMore(disk.sees, Files(before), Extract(disk, before).tree, e);
      }
    }
  }

  lemma {:induction false} UnwritableFails(disk: Disk, es: seq<Entry>)
    requires !Writable(disk, Files(es))
    ensures Extract(disk, es).Failed?
  {
    var i :| 0 <= i < |Files(es)| && !(Parts(Files(es)[i].name) != [] && disk.takes(Parts(Files(es)[i].name)));
    var before, e := es[..|es| - 1], es[|es| - 1];
    if i < |Files(before)| {
      assert Files(es)[i] == Files(before)[i];
      UnwritableFails(disk, before);
    } else {
      assert Files(es)[i] == e && !IsDir(e);
    }
  }

  /**
   An accepted archive extracts without loss, on any disk no coarser than the validator, exactly when every
   file entry has a real path segment and the disk takes its path: the tree holds one file per
   entry, with its bytes, at the entry's own path, and nothing else.
   */
  lemma AcceptedExtractsLosslesslyIff(fold: Folding, disk: Disk, es: seq<Entry>)
    requires AtMostAsCoarse(disk.sees, fold) && Acceptable(fold, es)
    ensures Extract(disk, es).Extracted? <==> Writable(disk, Files(es))
    ensures Extract(disk, es).Extracted? ==> Holds(disk.sees, Files(es), Extract(disk, es).tree)
  {
    if Writable(disk, Files(es)) {
      ExtractionHolds(fold, disk, es);
    } else {
      UnwritableFails(disk, es);
    }
  }

  lemma DotHasNoParts()
    ensures Parts(".") == []
  {
    SplitPlain(".");
    assert ["."][1..] == [];
  }

  lemma OneFile(e: Entry)
    requires !IsDir(e)
    ensures Files([e]) == [e] && TotalSize([e]) == e.size
  {
    assert [e][..0] == [];
  }

  /** No file's path is a folder of another's, as the disk sees them. */
  ghost predicate NoneInside(fsys: Folding, fs: seq<Entry>) {
    forall i, j :: 0 <= i < |fs| && 0 <= j < |fs| ==> !Below(FoldedParts(fsys, fs[i]), FoldedParts(fsys, fs[j]))
  }

  ghost predicate CanAllBeWritten(disk: Disk, fs: seq<Entry>) {
    && Writable(disk, fs) && NoneInside(disk.sees, fs) && forall i :: 0 <= i < |fs| ==> Relative(fs[i].name)
  }

  lemma {:induction false} PathsAre(fsys: Folding, fs: seq<Entry>)
    ensures forall k :: k in PathsOf(fsys, fs) <==> exists i :: 0 <= i < |fs| && FoldedParts(fsys, fs[i]) == k
  {
    if fs != [] {
      var before := fs[..|fs| - 1];
      PathsAre(fsys, before);
      forall i | 0 <= i < |fs| ensures FoldedParts(fsys, fs[i]) in PathsOf(fsys, fs) {
        assert i < |before| ==> before[i] == fs[i];
      }
      forall k | k in PathsOf(fsys, fs) ensures exists i :: 0 <= i < |fs| && FoldedParts(fsys, fs[i]) == k {
        var i := EntryAt(fsys, fs, k);
      }
    }
  }

  lemma OneMoreCanBeWritten(disk: Disk, fs: seq<Entry>, e: Entry, t: Tree)
    requires t.Keys == PathsOf(disk.sees, fs) && CanAllBeWritten(disk, fs)
    ensures CanAllBeWritten(disk, fs + [e]) <==>
            Relative(e.name) && disk.takes(Parts(e.name)) && CanWrite(t, FoldedParts(disk.sees, e))
  {
    var all, key := fs + [e], FoldedParts(disk.sees, e);
    PathsAre(disk.sees, fs);
    assert all[|fs|] == e && forall i :: 0 <= i < |fs| ==> all[i] == fs[i];
    if CanAllBeWritten(disk, all) {
      forall k | k in t ensures !Below(k, key) && !Below(key, k) {
        var i :| 0 <= i < |fs| && FoldedParts(disk.sees, fs[i]) == k;
        assert !Below(FoldedParts(disk.sees, all[i]), FoldedParts(disk.sees, all[|fs|]));
        assert !Below(FoldedParts(disk.sees, all[|fs|]), FoldedParts(disk.sees, all[i]));
      }
      assert Parts(all[|fs|].name) != [] && disk.takes(Parts(all[|fs|].name)) && Relative(all[|fs|].name);
    } else if Relative(e.name) && disk.takes(Parts(e.name)) && CanWrite(t, key) {
      forall i, j | 0 <= i < |all| && 0 <= j < |all|
        ensures !Below(FoldedParts(disk.sees, all[i]), FoldedParts(disk.sees, all[j]))
      {
        assert i < |fs| ==> FoldedParts(disk.sees, fs[i]) in t;
        assert j < |fs| ==> FoldedParts(disk.sees, fs[j]) in t;
      }
      assert NoneInside(disk.sees, all) && Writable(disk, all);
    }
  }

  lemma WrittenBefore(disk: Disk, fs: seq<Entry>, e: Entry)
    requires CanAllBeWritten(disk, fs + [e])
    ensures CanAllBeWritten(disk, fs)
  {
    var all := fs + [e];
    assert forall i :: 0 <= i < |fs| ==> all[i] == fs[i];
    forall i, j | 0 <= i < |fs| && 0 <= j < |fs|
      ensures !Below(FoldedParts(disk.sees, fs[i]), FoldedParts(disk.sees, fs[j]))
    {
      assert !Below(FoldedParts(disk.sees, all[i]), FoldedParts(disk.sees, all[j]));
    }
  }

  lemma {:induction false} ExtractionRun(disk: Disk, es: seq<Entry>)
    ensures Extract(disk, es).Extracted? <==> CanAllBeWritten(disk, Files(es))
    ensures Extract(disk, es).Extracted? ==> Extract(disk, es).tree.Keys == PathsOf(disk.sees, Files(es))
  {
    if es != [] {
      var before, e := es[..|es| - 1], es[|es| - 1];
      ExtractionRun(disk, before);
      if IsDir(e) {
        assert Files(es) == Files(before);
      } else {
        var fs := Files(before);
        assert Files(es) == fs + [e] && (fs + [e])[..|fs|] == fs;
        if CanAllBeWritten(disk, fs + [e]) {
          WrittenBefore(disk, fs, e);
        }
        if Extract(disk, before).Extracted? {
          OneMoreCanBeWritten(disk, fs, e, Extract(disk, before).tree);
        }
      }
    }
  }

  /**
   Any archive, accepted or not, extracts exactly when each of its files has a relative path of real segments that the
   disk takes, and none lies inside another as the disk sees them.
   */
  lemma ExtractsIff(disk: Disk, es: seq<Entry>)
    ensures var fs := Files(es);
            Extract(disk, es).Extracted? <==>
            && (forall i :: 0 <= i < |fs| ==>
                              Parts(fs[i].name) != [] && disk.takes(Parts(fs[i].name)) && !(['/'] <= fs[i].name))
            && (forall i, j :: 0 <= i < |fs| && 0 <= j < |fs| ==>
                                 !Below(FoldedParts(disk.sees, fs[i]), FoldedParts(disk.sees, fs[j])))
    ensures Extract(disk, es).Extracted? ==> Extract(disk, es).tree.Keys == PathsOf(disk.sees, Files(es))
  {
    ExtractionRun(disk, es);
    var fs := Files(es);
    assert forall i :: 0 <= i < |fs| ==> (Relative(fs[i].name) <==> !(['/'] <= fs[i].name));
  }

  /** An archive whose one entry is called "." passes validation and extracts nowhere. */
  lemma DotIsAcceptedAndFails(fold: Folding, disk: Disk, body: Blob) returns (es: seq<Entry>)
    requires |body| <= MAX_UNCOMPRESSED_BYTES
    ensures |es| == 1 && es[0].name == "." && Acceptable(fold, es) && Extract(disk, es).Failed?
  {
    var e := Entry(".", body, |body|, |body|, false);
    es := [e];
    DotHasNoParts();
    OneFile(e);
    assert es[0] == e && FoldedParts(fold, e) == [];
    assert EachSound(es) && AllDistinct(fold, es) && NoClash(fold, es);
    assert !Writable(disk, Files(es));
    UnwritableFails(disk, es);
  }

  // ----- zipping it again -----

  function Same(): Folding {
    (s: string) => s
  }

  function CaseSensitive(takes: seq<string> -> bool): Disk {
    Disk(Same(), takes)
  }

  lemma SamePath(path: seq<string>)
    ensures FoldPath(Same(), path) == path
  {
  }

  lemma SameName(e: Entry)
    ensures FoldedParts(Same(), e) == Parts(e.name)
  {
    SamePath(Parts(e.name));
  }

  /** A path that can be written into an archive and read back. */
  ghost predicate Portable(path: seq<string>) {
    path != [] && Clean(path) && ".." !in path && forall i :: 0 <= i < |path| ==> '\\' !in path[i]
  }

  /** An installed tree: portable paths that neither coincide nor nest under the validator's folding. */
  ghost predicate Installed(fold: Folding, t: Tree) {
    && (forall k :: k in t ==> Portable(k))
    && (forall j, k :: j in t && k in t && j != k ==>
                         FoldPath(fold, j) != FoldPath(fold, k) && !Below(FoldPath(fold, j), FoldPath(fold, k)))
  }

  function Packed(k: seq<string>, body: Blob, deflate: Blob -> nat): Entry {
    Entry(Join(k), body, |body|, deflate(body), false)
  }

  /** The archive with exactly the files of the tree, in the order `ks`. */
  function Pack(t: Tree, ks: seq<seq<string>>, deflate: Blob -> nat): (z: seq<Entry>)
    requires forall k :: k in ks ==> k in t
    ensures |z| == |ks| && forall i :: 0 <= i < |ks| ==> z[i] == Packed(ks[i], t[ks[i]], deflate)
  {
    if ks == [] then [] else Pack(t, ks[..|ks| - 1], deflate) + [Packed(ks[|ks| - 1], t[ks[|ks| - 1]], deflate)]
  }

  ghost predicate Distinct(ks: seq<seq<string>>) {
    forall i, j :: 0 <= i < j < |ks| ==> ks[i] != ks[j]
  }

  ghost predicate Lists(t: Tree, ks: seq<seq<string>>) {
    (forall k :: k in ks <==> k in t) && Distinct(ks)
  }

  lemma {:induction false} BackslashStays(parts: seq<string>)
    ensures '\\' in Join(parts) <==> exists i :: 0 <= i < |parts| && '\\' in parts[i]
  {
    if |parts| > 1 {
      BackslashStays(parts[1..]);
      assert forall i :: 1 <= i < |parts| ==> parts[i] == parts[1..][i - 1];
    }
  }

  lemma PortableParts(e: Entry)
    requires !UnsafeName(e) && Parts(e.name) != []
    ensures Portable(Parts(e.name))
  {
    PartsAreClean(e.name);
    JoinOfSplit(e.name);
    BackslashStays(Split(e.name));
    RealOnlyFacts(Split(e.name));
    forall i | 0 <= i < |Parts(e.name)|
      ensures '\\' !in Parts(e.name)[i]
    {
      assert Parts(e.name)[i] in Split(e.name);
    }
  }

  lemma EntriesApart(fold: Folding, fs: seq<Entry>, x: nat, y: nat)
    requires AllDistinct(fold, fs) && NoClash(fold, fs) && x < |fs| && y < |fs|
    ensures x != y ==> FoldedParts(fold, fs[x]) != FoldedParts(fold, fs[y])
    ensures Parts(fs[x].name) != [] ==> !Below(FoldedParts(fold, fs[x]), FoldedParts(fold, fs[y]))
  {
    if x < y {
      assert FoldedParts(fold, fs[x]) != FoldedParts(fold, fs[y]);
    } else if y < x {
      assert FoldedParts(fold, fs[y]) != FoldedParts(fold, fs[x]);
    }
  }

  lemma FileOf(fs: seq<Entry>, t: Tree, k: seq<string>) returns (i: nat)
    requires Holds(Same(), fs, t) && k in t
    ensures i < |fs| && Parts(fs[i].name) == k
  {
    i := EntryAt(Same(), fs, k);
    SameName(fs[i]);
  }

  lemma FilesKeepApart(fold: Folding, fs: seq<Entry>, t: Tree, j: seq<string>, k: seq<string>)
    requires AllDistinct(fold, fs) && NoClash(fold, fs) && Holds(Same(), fs, t) && j in t && k in t && j != k
    requires forall i :: 0 <= i < |fs| ==> Parts(fs[i].name) != []
    ensures FoldPath(fold, j) != FoldPath(fold, k) && !Below(FoldPath(fold, j), FoldPath(fold, k))
  {
    var x := FileOf(fs, t, j);
    var y := FileOf(fs, t, k);
    EntriesApart(fold, fs, x, y);
  }

  /** What extraction leaves on a case-sensitive disk is an installed tree. */
  lemma ExtractedIsInstalled(fold: Folding, takes: seq<string> -> bool, es: seq<Entry>)
    requires Acceptable(fold, es) && Extract(CaseSensitive(takes), es).Extracted?
    ensures Installed(fold, Extract(CaseSensitive(takes), es).tree)
  {
    AcceptedExtractsLosslesslyIff(fold, CaseSensitive(takes), es);
    var t, fs := Extract(CaseSensitive(takes), es).tree, Files(es);
    forall k | k in t ensures Portable(k) {
      var i := FileOf(fs, t, k);
      PortableParts(fs[i]);
    }
    forall j, k | j in t && k in t && j != k
      ensures FoldPath(fold, j) != FoldPath(fold, k) && !Below(FoldPath(fold, j), FoldPath(fold, k))
    {
      FilesKeepApart(fold, fs, t, j, k);
    }
  }

  lemma {:induction false} JoinEndsWithLast(path: seq<string>)
    requires path != [] && Clean(path)
    ensures Join(path) != "" && Join(path)[|Join(path)| - 1] != '/'
  {
    if |path| == 1 {
      assert path[0][|path[0]| - 1] in path[0];
    } else {
      JoinEndsWithLast(path[1..]);
    }
  }

  /** A portable path makes an archive name that passes the validator and parses back to the path. */
  lemma PortableName(k: seq<string>, e: Entry)
    requires Portable(k) && e.name == Join(k)
    ensures Parts(e.name) == k && !UnsafeName(e) && !IsDir(e)
  {
    PartsOfJoin(k);
    BackslashStays(k);
    JoinStartsWithFirst(k);
    JoinEndsWithLast(k);
  }

  lemma {:induction false} AllAreFiles(es: seq<Entry>)
    requires forall i :: 0 <= i < |es| ==> !IsDir(es[i])
    ensures Files(es) == es
  {
    if es != [] {
      AllAreFiles(es[..|es| - 1]);
    }
  }

  ghost predicate Names(z: seq<Entry>, t: Tree, ks: seq<seq<string>>) {
    |z| == |ks|
    && forall i :: 0 <= i < |ks| ==> Parts(z[i].name) == ks[i] && ks[i] in t && z[i].body == t[ks[i]]
  }

  lemma PackFiles(t: Tree, ks: seq<seq<string>>, deflate: Blob -> nat)
    requires (forall k :: k in t ==> Portable(k)) && forall k :: k in ks ==> k in t
    ensures var z := Pack(t, ks, deflate);
            && Files(z) == z && Names(z, t, ks)
            && forall i :: 0 <= i < |z| ==> !UnsafeName(z[i]) && !z[i].symlink
  {
    var z := Pack(t, ks, deflate);
    forall i | 0 <= i < |ks|
      ensures Parts(z[i].name) == ks[i] && !UnsafeName(z[i]) && !IsDir(z[i])
    {
      PortableName(ks[i], z[i]);
    }
    AllAreFiles(z);
  }

  /** The archive passes all tests but those of size. */
  ghost predicate FitsLimits(z: seq<Entry>) {
    |z| <= MAX_FILES && TotalSize(z) <= MAX_UNCOMPRESSED_BYTES && forall i :: 0 <= i < |z| ==> !SuspiciousRatio(z[i])
  }

  lemma OnlyLimitsDecide(fold: Folding, z: seq<Entry>)
    requires Files(z) == z && AllDistinct(fold, z) && NoClash(fold, z)
    requires forall i :: 0 <= i < |z| ==> !UnsafeName(z[i]) && !z[i].symlink
    ensures Acceptable(fold, z) <==> FitsLimits(z)
  {
  }

  lemma KeysApart(fold: Folding, t: Tree, ks: seq<seq<string>>, i: nat, j: nat)
    requires Installed(fold, t) && Lists(t, ks) && i < |ks| && j < |ks| && i != j
    ensures FoldPath(fold, ks[i]) != FoldPath(fold, ks[j]) && !Below(FoldPath(fold, ks[i]), FoldPath(fold, ks[j]))
  {
    assert ks[i] in ks && ks[j] in ks;
    if i < j {
      assert ks[i] != ks[j];
    } else {
      assert ks[j] != ks[i];
    }
  }

  lemma PackKeepsApart(fold: Folding, t: Tree, ks: seq<seq<string>>, z: seq<Entry>)
    requires Installed(fold, t) && Lists(t, ks) && Names(z, t, ks)
    ensures AllDistinct(fold, z) && NoClash(fold, z) && forall i :: 0 <= i < |z| ==> Parts(z[i].name) != []
  {
    forall i | 0 <= i < |z| ensures Parts(z[i].name) != [] { assert ks[i] in t; }
    forall i, j | 0 <= i < |z| && 0 <= j < |z| && i != j
      ensures FoldedParts(fold, z[i]) != FoldedParts(fold, z[j])
      ensures !Below(FoldedParts(fold, z[i]), FoldedParts(fold, z[j]))
    {
      KeysApart(fold, t, ks, i, j);
    }
  }

  /** A tree packed file by file, in any order, passes the validator, limits aside. */
  lemma PackIsAcceptable(fold: Folding, t: Tree, ks: seq<seq<string>>, deflate: Blob -> nat)
    requires Installed(fold, t) && Lists(t, ks)
    ensures var z := Pack(t, ks, deflate); Acceptable(fold, z) <==> FitsLimits(z)
  {
    PackFiles(t, ks, deflate);
    PackKeepsApart(fold, t, ks, Pack(t, ks, deflate));
    OnlyLimitsDecide(fold, Pack(t, ks, deflate));
  }

  lemma PackIsWritable(disk: Disk, t: Tree, ks: seq<seq<string>>, z: seq<Entry>)
    requires Names(z, t, ks) && forall k :: k in t ==> k != [] && disk.takes(k)
    ensures Writable(disk, z)
  {
    forall i | 0 <= i < |z| ensures Parts(z[i].name) != [] && disk.takes(Parts(z[i].name)) { assert ks[i] in t; }
  }

  /** What an archive of listed names extracts to: the listed paths with their bytes. */
  ghost predicate HoldsListed(t: Tree, ks: seq<seq<string>>, t': Tree) {
    && (forall i :: 0 <= i < |ks| ==> ks[i] in t && ks[i] in t' && t'[ks[i]] == t[ks[i]])
    && (forall k :: k in t' ==> k in ks)
  }

  lemma EntryInTree(fs: seq<Entry>, t: Tree, i: nat)
    requires Holds(Same(), fs, t) && i < |fs|
    ensures Parts(fs[i].name) in t && t[Parts(fs[i].name)] == fs[i].body
  {
    SameName(fs[i]);
  }

  lemma HoldsAsListed(z: seq<Entry>, t: Tree, ks: seq<seq<string>>, t': Tree)
    requires Names(z, t, ks) && Holds(Same(), z, t')
    ensures HoldsListed(t, ks, t')
  {
    forall i | 0 <= i < |ks| ensures ks[i] in t && ks[i] in t' && t'[ks[i]] == t[ks[i]] {
      EntryInTree(z, t', i);
    }
    forall k | k in t' ensures k in ks {
      var i := FileOf(z, t', k);
      assert ks[i] == k;
    }
  }

  lemma SameTree(t: Tree, ks: seq<seq<string>>, t': Tree)
    requires HoldsListed(t, ks, t') && forall k :: k in t ==> k in ks
    ensures t' == t
  {
    forall k | k in t ensures k in t' && t'[k] == t[k] {
      var i :| 0 <= i < |ks| && ks[i] == k;
    }
    forall k | k in t' ensures k in t {
      var i :| 0 <= i < |ks| && ks[i] == k;
    }
  }

  /** A tree packed file by file extracts to itself. */
  lemma PackExtracts(fold: Folding, takes: seq<string> -> bool, t: Tree, ks: seq<seq<string>>, deflate: Blob -> nat)
    requires Installed(fold, t) && Lists(t, ks) && forall k :: k in t ==> takes(k)
    ensures Extract(CaseSensitive(takes), Pack(t, ks, deflate)) == Extracted(t)
  {
    var z, disk := Pack(t, ks, deflate), CaseSensitive(takes);
    PackFiles(t, ks, deflate);
    PackKeepsApart(fold, t, ks, z);
    PackIsWritable(disk, t, ks, z);
    ExtractionHolds(fold, disk, z);
    HoldsAsListed(z, t, ks, Extract(disk, z).tree);
    SameTree(t, ks, Extract(disk, z).tree);
  }

  // ----- through the storage keys -----

  datatype Found = Bytes(body: Blob) | Gone | Unsafe

  /** `read_or_none` of a listed key: the storage looks it up by its normalized form. */
  function Lookup(prefix: seq<string>, t: Tree, k: seq<string>): Found {
    match NormalizeKey(Join(prefix + k))
    case Key(path) =>
      if |prefix| <= |path| && path[..|prefix|] == prefix && path[|prefix|..] in t then Bytes(t[path[|prefix|..]])
      else Gone
    case _ => Unsafe
  }

  datatype Rezipped = Zip(entries: seq<Entry>) | Raised

  /** `_build_bundle_zip` for a listing `ks` of the tree under `prefix`: a key that is not found is skipped. */
  function Rezip(prefix: seq<string>, t: Tree, ks: seq<seq<string>>, deflate: Blob -> nat): Rezipped {
    if ks == [] then Zip([]) else
    var k := ks[|ks| - 1];
    match Rezip(prefix, t, ks[..|ks| - 1], deflate)
    case Raised => Raised
    case Zip(z) =>
      match Lookup(prefix, t, k)
      case Unsafe => Raised
      case Gone => Zip(z)
      case Bytes(body) => Zip(z + [Packed(k, body, deflate)])
  }

  /** The directory the bundle lies in: `apps/<slug>`. */
  ghost predicate BundleDir(prefix: seq<string>) {
    prefix != [] && Clean(prefix) && ".." !in prefix && !IsSpace(prefix[0][0])
  }

  function LastSegment(k: seq<string>): string
    requires k != []
  {
    StripRight(k[|k| - 1])
  }

  /** Where the storage looks for path `k`: without the white space its last segment ends in. */
  function Stripped(k: seq<string>): seq<string>
    requires k != []
  {
    k[..|k| - 1] + if Real(LastSegment(k)) then [LastSegment(k)] else []
  }

  lemma {:induction false} StripRightOfConcat(s: string, t: string)
    requires s != "" && !IsSpace(s[|s| - 1])
    ensures StripRight(s + t) == s + StripRight(t)
  {
    if t == "" {
      assert s + t == s;
    } else if IsSpace(t[|t| - 1]) {
      assert (s + t)[..|s + t| - 1] == s + t[..|t| - 1];
      StripRightOfConcat(s, t[..|t| - 1]);
    }
  }

  lemma {:induction false} StripRightNoSlash(s: string)
    requires NoSlash(s)
    ensures NoSlash(StripRight(s))
  {
    if s != "" && IsSpace(s[|s| - 1]) {
      StripRightNoSlash(s[..|s| - 1]);
    }
  }

  lemma {:induction false} RealOnlyOfConcat(p: seq<string>, q: seq<string>)
    ensures RealOnly(p + q) == RealOnly(p) + RealOnly(q)
  {
    if p == [] {
      assert p + q == q;
    } else {
      assert (p + q)[1..] == p[1..] + q;
      RealOnlyOfConcat(p[1..], q);
    }
  }

  lemma CleanConcat(p: seq<string>, q: seq<string>)
    requires Clean(p) && Clean(q)
    ensures Clean(p + q)
  {
    assert forall i :: 0 <= i < |p + q| ==> (p + q)[i] == if i < |p| then p[i] else q[i - |p|];
  }

  /** A folder's key with something after it, normalized. */
  lemma KeyUnderFolder(folder: seq<string>, last: string)
    requires BundleDir(folder) && NoSlash(last)
    ensures NormalizeKey(Join(folder) + "/" + last) ==
            if StripRight(last) == ".." then UnsafeKey else Key(folder + RealOnly([StripRight(last)]))
  {
    var name, rest := Join(folder) + "/" + last, StripRight(last);
    JoinStartsWithFirst(folder);
    assert StripLeft(name) == name;
    StripRightOfConcat(Join(folder) + "/", last);
    var stripped := Join(folder) + "/" + rest;
    assert StripRight(name) == stripped && StripSlashes(stripped) == stripped;
    StripRightNoSlash(last);
    SplitAfterJoin(folder, rest);
    SplitPlain(rest);
    RealOnlyOfConcat(folder, [rest]);
    RealOnlyFacts(folder);
    assert Parts(stripped) == folder + RealOnly([rest]);
  }

  lemma FolderOf(prefix: seq<string>, front: seq<string>)
    requires BundleDir(prefix) && Clean(front) && ".." !in front
    ensures BundleDir(prefix + front)
  {
    CleanConcat(prefix, front);
    assert (prefix + front)[0] == prefix[0];
  }

  lemma StrippedIs(prefix: seq<string>, front: seq<string>, last: string)
    ensures prefix + front + RealOnly([StripRight(last)]) == prefix + Stripped(front + [last])
  {
    var r := StripRight(last);
    assert (front + [last])[..|front|] == front && [r][1..] == [];
    assert RealOnly([r]) == if Real(r) then [r] else [];
  }

  lemma KeyStrips(prefix: seq<string>, k: seq<string>)
    requires BundleDir(prefix) && Portable(k)
    ensures NormalizeKey(Join(prefix + k)) == if LastSegment(k) == ".." then UnsafeKey else Key(prefix + Stripped(k))
  {
    var front, last := k[..|k| - 1], k[|k| - 1];
    FolderOf(prefix, front);
    assert prefix + k == (prefix + front) + [last];
    JoinConcat(prefix + front, [last]);
    KeyUnderFolder(prefix + front, last);
    StrippedIs(prefix, front, last);
    assert k == front + [last];
  }

  /** The storage strips the last segment of a listed key and looks for what is left. */
  lemma LookupStrips(prefix: seq<string>, t: Tree, k: seq<string>)
    requires BundleDir(prefix) && Portable(k)
    ensures Lookup(prefix, t, k) ==
            if LastSegment(k) == ".." then Unsafe else if Stripped(k) in t then Bytes(t[Stripped(k)]) else Gone
  {
    KeyStrips(prefix, k);
    var path := prefix + Stripped(k);
    assert path[..|prefix|] == prefix && path[|prefix|..] == Stripped(k);
  }

  /** The part of the tree that the storage finds again, with what it finds. */
  function FoundTree(prefix: seq<string>, t: Tree): Tree {
    map k | k in t && Lookup(prefix, t, k).Bytes? :: Lookup(prefix, t, k).body
  }

  function FoundKeys(prefix: seq<string>, t: Tree, ks: seq<seq<string>>): seq<seq<string>> {
    if ks == [] then [] else
    FoundKeys(prefix, t, ks[..|ks| - 1]) + if Lookup(prefix, t, ks[|ks| - 1]).Bytes? then [ks[|ks| - 1]] else []
  }

  lemma {:induction false} FoundKeysAre(prefix: seq<string>, t: Tree, ks: seq<seq<string>>)
    ensures forall k :: k in FoundKeys(prefix, t, ks) <==> k in ks && Lookup(prefix, t, k).Bytes?
  {
    if ks != [] {
      FoundKeysAre(prefix, t, ks[..|ks| - 1]);
      assert ks == ks[..|ks| - 1] + [ks[|ks| - 1]];
    }
  }

  lemma DistinctMore(ks: seq<seq<string>>, k: seq<string>)
    requires Distinct(ks) && k !in ks
    ensures Distinct(ks + [k])
  {
  }

  lemma DistinctBefore(ks: seq<seq<string>>)
    requires Distinct(ks) && ks != []
    ensures Distinct(ks[..|ks| - 1]) && ks[|ks| - 1] !in ks[..|ks| - 1]
  {
  }

  lemma {:induction false} FoundKeysDiffer(prefix: seq<string>, t: Tree, ks: seq<seq<string>>)
    requires Distinct(ks)
    ensures Distinct(FoundKeys(prefix, t, ks))
  {
    if ks != [] {
      var before, k := ks[..|ks| - 1], ks[|ks| - 1];
      DistinctBefore(ks);
      FoundKeysDiffer(prefix, t, before);
      FoundKeysAre(prefix, t, before);
      if Lookup(prefix, t, k).Bytes? {
        DistinctMore(FoundKeys(prefix, t, before), k);
      } else {
        assert FoundKeys(prefix, t, before) + [] == FoundKeys(prefix, t, before);
      }
    }
  }

  lemma PackMore(t: Tree, ks: seq<seq<string>>, k: seq<string>, deflate: Blob -> nat)
    requires k in t && forall j :: j in ks ==> j in t
    ensures Pack(t, ks + [k], deflate) == Pack(t, ks, deflate) + [Packed(k, t[k], deflate)]
  {
    assert (ks + [k])[..|ks|] == ks;
  }

  predicate SomeUnsafe(prefix: seq<string>, t: Tree, ks: seq<seq<string>>) {
    exists k :: k in ks && Lookup(prefix, t, k).Unsafe?
  }

  lemma SomeUnsafeMore(prefix: seq<string>, t: Tree, ks: seq<seq<string>>)
    requires ks != []
    ensures SomeUnsafe(prefix, t, ks) <==>
            SomeUnsafe(prefix, t, ks[..|ks| - 1]) || Lookup(prefix, t, ks[|ks| - 1]).Unsafe?
  {
    assert ks == ks[..|ks| - 1] + [ks[|ks| - 1]];
  }

  /** What the rebuilt archive is, and when building it raises. */
  lemma {:induction false} RezipPacks(prefix: seq<string>, t: Tree, ks: seq<seq<string>>, deflate: Blob -> nat)
    requires forall k :: k in ks ==> k in t
    ensures forall k :: k in FoundKeys(prefix, t, ks) ==> k in FoundTree(prefix, t)
    ensures Rezip(prefix, t, ks, deflate) ==
            if SomeUnsafe(prefix, t, ks) then Raised
            else Zip(Pack(FoundTree(prefix, t), FoundKeys(prefix, t, ks), deflate))
  {
    FoundKeysAre(prefix, t, ks);
    if ks != [] {
      var before, k := ks[..|ks| - 1], ks[|ks| - 1];
      RezipPacks(prefix, t, before, deflate);
      SomeUnsafeMore(prefix, t, ks);
      if Lookup(prefix, t, k).Bytes? {
        assert k in FoundTree(prefix, t);
        PackMore(FoundTree(prefix, t), FoundKeys(prefix, t, before), k, deflate);
      } else {
        assert FoundKeys(prefix, t, before) + [] == FoundKeys(prefix, t, before);
      }
    }
  }

  predicate EndsInSpace(k: seq<string>) {
    k != [] && var last := k[|k| - 1]; last != "" && IsSpace(last[|last| - 1])
  }

  /** If the file's name ends in white space, a file of the same bytes has the name without. */
  predicate ReadsBack(t: Tree, k: seq<string>)
    requires k in t
  {
    EndsInSpace(k) ==> Stripped(k) in t && t[Stripped(k)] == t[k]
  }

  lemma ReadsBackIff(prefix: seq<string>, t: Tree, k: seq<string>)
    requires BundleDir(prefix) && Portable(k) && k in t && forall j :: j in t ==> Portable(j)
    ensures Lookup(prefix, t, k) == Bytes(t[k]) <==> ReadsBack(t, k)
  {
    LookupStrips(prefix, t, k);
    if !EndsInSpace(k) {
      assert StripRight(k[|k| - 1]) == k[|k| - 1] && Stripped(k) == k;
      assert k[|k| - 1] in k;
    } else if LastSegment(k) == ".." {
      assert ".." in Stripped(k);
    }
  }

  lemma FoundIsAllIff(prefix: seq<string>, t: Tree)
    ensures FoundTree(prefix, t) == t <==> forall k :: k in t ==> Lookup(prefix, t, k) == Bytes(t[k])
  {
    if FoundTree(prefix, t) == t {
      forall k | k in t ensures Lookup(prefix, t, k) == Bytes(t[k]) {
        assert k in FoundTree(prefix, t);
      }
    }
  }

  /**
   An installed tree, zipped again in whatever order the storage lists it. Building the archive raises exactly if a
   file name is ".." but for trailing white space. Otherwise the archive passes the validator, limits aside, and
   extracts to what the storage found; and that is the same tree if and only if every file whose name ends in
   white space has beside it, under the name without, a file of the same bytes.
   */
  lemma RezipRoundTripIff(fold: Folding, takes: seq<string> -> bool, prefix: seq<string>, t: Tree, ks: seq<seq<string>>,
                          deflate: Blob -> nat)
    requires Installed(fold, t) && Lists(t, ks) && BundleDir(prefix) && forall k :: k in t ==> takes(k)
    ensures var r := Rezip(prefix, t, ks, deflate);
            && (r.Raised? <==> exists k :: k in t && LastSegment(k) == "..")
            && (r.Zip? ==> (Acceptable(fold, r.entries) <==> FitsLimits(r.entries)))
            && (r.Zip? ==> Extract(CaseSensitive(takes), r.entries) == Extracted(FoundTree(prefix, t)))
            && ((r.Zip? && Extract(CaseSensitive(takes), r.entries) == Extracted(t)) <==>
                forall k :: k in t ==> ReadsBack(t, k))
  {
    RezipPacks(prefix, t, ks, deflate);
    var u, fs := FoundTree(prefix, t), FoundKeys(prefix, t, ks);
    FoundKeysAre(prefix, t, ks);
    FoundKeysDiffer(prefix, t, ks);
    PackIsAcceptable(fold, u, fs, deflate);
    PackExtracts(fold, takes, u, fs, deflate);
    forall k | k in t
      ensures Lookup(prefix, t, k) == Bytes(t[k]) <==> ReadsBack(t, k)
      ensures Lookup(prefix, t, k).Unsafe? <==> LastSegment(k) == ".."
    {
      ReadsBackIff(prefix, t, k);
      LookupStrips(prefix, t, k);
    }
    FoundIsAllIff(prefix, t);
  }

  /** A name without white space at its end is looked up as it is. */
  lemma PlainNameIsFound(prefix: seq<string>, t: Tree, name: string)
    requires BundleDir(prefix) && Portable([name]) && [name] in t && name != "" && !IsSpace(name[|name| - 1])
    ensures Lookup(prefix, t, [name]) == Bytes(t[[name]])
  {
    LookupStrips(prefix, t, [name]);
    assert name in [name];
    assert [name][..0] == [] && LastSegment([name]) == name && Stripped([name]) == [name];
  }

  lemma SpacedNameIsGone(prefix: seq<string>, t: Tree)
    requires BundleDir(prefix) && ["a"] !in t
    ensures Lookup(prefix, t, ["a "]) == Gone
  {
    assert StripRight("a ") == "a" by {
      assert "a "[..1] == "a";
    }
    LookupStrips(prefix, t, ["a "]);
    assert Stripped(["a "]) == ["a"] && "a" != "..";
  }

  lemma BundleNames()
    ensures Portable(["portal.json"]) && Portable(["index.html"]) && Portable(["a "])
    ensures ["a"] !in {["portal.json"], ["index.html"], ["a "]}
  {
    assert ["a"][0] != ["portal.json"][0] && ["a"][0] != ["index.html"][0] && ["a"][0] != ["a "][0];
  }

  lemma RezipMore(prefix: seq<string>, t: Tree, ks: seq<seq<string>>, k: seq<string>, deflate: Blob -> nat)
    ensures Rezip(prefix, t, ks + [k], deflate) ==
            match Rezip(prefix, t, ks, deflate)
            case Raised => Raised
            case Zip(z) =>
              match Lookup(prefix, t, k)
              case Unsafe => Raised
              case Gone => Zip(z)
              case Bytes(body) => Zip(z + [Packed(k, body, deflate)])
  {
    assert (ks + [k])[..|ks|] == ks;
  }

  lemma TwoOfThree(prefix: seq<string>, t: Tree, ks: seq<seq<string>>, deflate: Blob -> nat)
    requires |ks| == 3 && ks[0] in t && ks[1] in t && Lookup(prefix, t, ks[2]) == Gone
    requires Lookup(prefix, t, ks[0]) == Bytes(t[ks[0]]) && Lookup(prefix, t, ks[1]) == Bytes(t[ks[1]])
    ensures Rezip(prefix, t, ks, deflate) == Zip([Packed(ks[0], t[ks[0]], deflate), Packed(ks[1], t[ks[1]], deflate)])
  {
    RezipMore(prefix, t, [], ks[0], deflate);
    RezipMore(prefix, t, [ks[0]], ks[1], deflate);
    RezipMore(prefix, t, [ks[0], ks[1]], ks[2], deflate);
    assert [] + [ks[0]] == [ks[0]] && [ks[0]] + [ks[1]] == [ks[0], ks[1]] && [ks[0], ks[1]] + [ks[2]] == ks;
  }

  /** A bundle of a manifest, an entry page and a file "a ": the archive built from it has only the first two. */
  lemma TrailingSpaceIsLost(prefix: seq<string>, t: Tree, ks: seq<seq<string>>, deflate: Blob -> nat)
    requires BundleDir(prefix) && t.Keys == {["portal.json"], ["index.html"], ["a "]}
    requires |ks| == 3 && ks[0] == ["portal.json"] && ks[1] == ["index.html"] && ks[2] == ["a "]
    ensures Rezip(prefix, t, ks, deflate)
         == Zip([Packed(["portal.json"], t[["portal.json"]], deflate),
                 Packed(["index.html"], t[["index.html"]], deflate)])
  {
    BundleNames();
    PlainNameIsFound(prefix, t, "portal.json");
    PlainNameIsFound(prefix, t, "index.html");
    SpacedNameIsGone(prefix, t);
    TwoOfThree(prefix, t, ks, deflate);
  }

  /** A folding that keeps the three names apart, as the program's does, has such a tree. */
  lemma SpacedTreeIsInstalled(fold: Folding, t: Tree)
    requires t.Keys == {["portal.json"], ["index.html"], ["a "]}
    requires fold("portal.json") != fold("index.html") && fold("a ") !in {fold("portal.json"), fold("index.html")}
    ensures Installed(fold, t)
  {
    BundleNames();
    assert forall k :: k in t ==> k in {["portal.json"], ["index.html"], ["a "]};
    forall j, k | j in t && k in t && j != k
      ensures FoldPath(fold, j) != FoldPath(fold, k) && !Below(FoldPath(fold, j), FoldPath(fold, k))
    {
      assert FoldPath(fold, j)[0] == fold(j[0]) && FoldPath(fold, k)[0] == fold(k[0]);
    }
  }

  // ----- what acceptance means in numbers and letters -----

  function Sum(fs: seq<Entry>, of: Entry -> nat): nat {
    if fs == [] then 0 else of(fs[0]) + Sum(fs[1..], of)
  }

  function SizeOf(e: Entry): nat {
    e.size
  }

  function CompressedSizeOf(e: Entry): nat {
    e.compressed
  }

  lemma {:induction false} SumOfMore(fs: seq<Entry>, e: Entry, of: Entry -> nat)
    ensures Sum(fs + [e], of) == Sum(fs, of) + of(e)
  {
    if fs == [] {
      assert fs + [e] == [e] && [e][1..] == [];
    } else {
      assert (fs + [e])[1..] == fs[1..] + [e];
      SumOfMore(fs[1..], e, of);
    }
  }

  lemma {:induction false} TotalIsSum(fs: seq<Entry>)
    ensures TotalSize(fs) == Sum(fs, SizeOf)
  {
    if fs != [] {
      TotalIsSum(fs[..|fs| - 1]);
      SumOfMore(fs[..|fs| - 1], fs[|fs| - 1], SizeOf);
      assert fs == fs[..|fs| - 1] + [fs[|fs| - 1]];
    }
  }

  /** The files are the entries whose names do not end in a slash, in archive order. */
  lemma {:induction false} FilesAre(es: seq<Entry>)
    ensures forall e :: e in Files(es) <==> e in es && (e.name == "" || e.name[|e.name| - 1] != '/')
  {
    if es != [] {
      FilesAre(es[..|es| - 1]);
      assert es == es[..|es| - 1] + [es[|es| - 1]];
    }
  }

  /** No segment of the name steps up, it is not absolute, and it has no backslash. */
  predicate StaysBelow(name: string) {
    ".." !in Split(name) && '\\' !in name && !(name != "" && name[0] == '/')
  }

  /** An ordinary file: small, or at most fifty times its compressed size, or of unknown compressed size. */
  predicate Ordinary(e: Entry) {
    e.size <= 102_400 || e.size <= 50 * e.compressed || e.compressed == 0
  }

  lemma EntryIsSoundIff(e: Entry)
    ensures !UnsafeName(e) && !e.symlink && !SuspiciousRatio(e) <==> StaysBelow(e.name) && !e.symlink && Ordinary(e)
  {
    RealOnlyFacts(Split(e.name));
  }

  /**
   In plain numbers: an archive is accepted if and only if it has at most a thousand entries, its files weigh at most
   100 MB in all, each stays below the destination, is no symlink and is ordinary, and no two of them are one path
   or one inside the other.
   */
  lemma AcceptedIff(fold: Folding, es: seq<Entry>)
    ensures Acceptable(fold, es) <==>
            && |es| <= 1000 && Sum(Files(es), SizeOf) <= 104_857_600
            && (forall e :: e in Files(es) ==> StaysBelow(e.name) && !e.symlink && Ordinary(e))
            && AllDistinct(fold, Files(es)) && NoClash(fold, Files(es))
  {
    var fs := Files(es);
    TotalIsSum(fs);
    if EachSound(fs) {
      forall e | e in fs ensures StaysBelow(e.name) && !e.symlink && Ordinary(e) {
        var i :| 0 <= i < |fs| && fs[i] == e;
        EntryIsSoundIff(fs[i]);
      }
    }
    if forall e :: e in fs ==> StaysBelow(e.name) && !e.symlink && Ordinary(e) {
      forall i | 0 <= i < |fs| ensures !UnsafeName(fs[i]) && !fs[i].symlink && !SuspiciousRatio(fs[i]) {
        EntryIsSoundIff(fs[i]);
      }
    }
  }

  lemma {:induction false} OrdinarySum(fs: seq<Entry>)
    requires forall e :: e in fs ==> Ordinary(e) && e.compressed > 0
    ensures Sum(fs, SizeOf) <= 50 * Sum(fs, CompressedSizeOf) + 102_400 * |fs|
  {
    if fs != [] {
      assert fs[0] in fs;
      OrdinarySum(fs[1..]);
    }
  }

  /**
   What the ratio test is for: an accepted archive that tells its compressed sizes unpacks to at most fifty times
   their sum and 100 KB a file.
   */
  lemma AcceptedUnpacksToLittle(fold: Folding, es: seq<Entry>)
    requires Acceptable(fold, es) && forall e :: e in Files(es) ==> e.compressed > 0
    ensures Sum(Files(es), SizeOf) <= 50 * Sum(Files(es), CompressedSizeOf) + 102_400 * |Files(es)|
  {
    AcceptedIff(fold, es);
    OrdinarySum(Files(es));
  }
}
