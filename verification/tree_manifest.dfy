/** The tree manifest: file ranges laid out by a loop, and the O(1) index-to-path function. */
module TreeManifests {
  import opened Text
  import opened Arithmetic
  import opened DirectoryTrees

  type Range = (nat, nat)

  // === File names ===

  /** `file_{:08}.dat` */
  function FileName(idx: nat): string {
    "file_" + Padded(idx, 8) + ".dat"
  }

  /** The tree-mode parser of distributed cleanup. */
  function TreeFileIndex(path: string): Option<usize> {
    match StripPrefix(BaseName(path), "file_")
    case None => None
    case Some(rest) =>
      match StripSuffix(rest, ".dat")
      case None => None
      case Some(digits) => ParseUsize(digits)
  }

  /** `extract_file_index_from_path`: the number after the last '_', or failing that the last '-'. */
  function ExtractFileIndex(path: string): Option<usize> {
    var name := BaseName(path);
    var stem := match StripSuffix(name, ".dat") case Some(s) => s case None => name;
    match LastIndex(stem, '_')
    case Some(i) => ParseUsize(stem[i + 1..])
    case None =>
      match LastIndex(stem, '-')
      case Some(i) => ParseUsize(stem[i + 1..])
      case None => None
  }

  lemma PaddedIsPlain(idx: nat, width: nat)
    ensures '/' !in Padded(idx, width) && '_' !in Padded(idx, width) && '-' !in Padded(idx, width) && '.' !in Padded(idx, width)
  {
    assert forall c :: c in Padded(idx, width) ==> IsDigit(c);
  }

  lemma TreeParse(path: string, digits: string)
    requires BaseName(path) == "file_" + digits + ".dat"
    ensures TreeFileIndex(path) == ParseUsize(digits)
  {
    hide BaseName, ParseUsize;
    var name, rest := BaseName(path), digits + ".dat";
    assert name == "file_" + rest && name[5..] == rest;
    assert rest[..|rest| - 4] == digits && rest[|rest| - 4..] == ".dat";
  }

  lemma ExtractParse(path: string, head: string, sep: char, digits: string)
    requires BaseName(path) == head + [sep] + digits + ".dat" && sep !in digits
    requires sep == '_' || (sep == '-' && '_' !in head && '_' !in digits)
    ensures ExtractFileIndex(path) == ParseUsize(digits)
  {
    hide BaseName, ParseUsize, LastIndex;
    var name, stem := BaseName(path), head + [sep] + digits;
    assert name == stem + ".dat" && name[..|name| - 4] == stem && name[|name| - 4..] == ".dat";
    assert stem[|head| + 1..] == digits;
    LastIndexAt(stem, sep, |head|);
    if sep == '-' {
      LastIndexNone(stem, '_');
    }
  }

  lemma BaseNameIs(dir: string, name: string)
    requires '/' !in name
    ensures BaseName(dir + "/" + name) == name && BaseName(name) == name
  {
    BaseNameOfJoin(dir, name);
    LastIndexNone(name, '/');
  }

  /** The number in a generated file name is recovered by both parsers, whatever its length. */
  lemma FileNameRoundTrip(dir: string, idx: usize)
    ensures TreeFileIndex(dir + "/" + FileName(idx)) == Some(idx)
    ensures ExtractFileIndex(dir + "/" + FileName(idx)) == Some(idx)
    ensures TreeFileIndex(FileName(idx)) == Some(idx) && ExtractFileIndex(FileName(idx)) == Some(idx)
  {
    hide Padded, ParseUsize, LastIndex, BaseName, TreeFileIndex, ExtractFileIndex;
    var name, digits := FileName(idx), Padded(idx, 8);
    PaddedIsPlain(idx, 8);
    PaddedParse(idx, 8);
    BaseNameIs(dir, name);
    assert name == "file" + ['_'] + digits + ".dat";
    TreeParse(dir + "/" + name, digits);
    TreeParse(name, digits);
    ExtractParse(dir + "/" + name, "file", '_', digits);
    ExtractParse(name, "file", '_', digits);
  }

  lemma FlatNameParse(dir: string, kind: string, digits: string)
    requires '/' !in kind && '_' !in kind && '/' !in digits && '_' !in digits && '-' !in digits
    ensures ExtractFileIndex(dir + "/" + (kind + "-" + digits + ".dat")) == ParseUsize(digits)
    ensures ExtractFileIndex(kind + "-" + digits + ".dat") == ParseUsize(digits)
  {
    hide ParseUsize, LastIndex, BaseName, ExtractFileIndex;
    var name := kind + "-" + digits + ".dat";
    BaseNameIs(dir, name);
    ExtractParse(dir + "/" + name, kind, '-', digits);
    ExtractParse(name, kind, '-', digits);
  }

  /** The same for the names of flat mode. */
  lemma FlatNameRoundTrip(dir: string, kind: string, idx: usize)
    requires kind == "prepared" || kind == "deletable"
    ensures ExtractFileIndex(dir + "/" + (kind + "-" + Padded(idx, 8) + ".dat")) == Some(idx)
    ensures ExtractFileIndex(kind + "-" + Padded(idx, 8) + ".dat") == Some(idx)
  {
    hide Padded, ParseUsize, LastIndex, BaseName, ExtractFileIndex;
    var digits := Padded(idx, 8);
    PaddedIsPlain(idx, 8);
    PaddedParse(idx, 8);
    FlatNameParse(dir, kind, digits);
  }

  // === Ranges ===

  predicate HasFiles(dir: string, distribution: string, maxDepth: nat) {
    if distribution == "bottom" then Slashes(dir) + 1 == maxDepth else distribution == "all"
  }

  function WithFiles(dirs: seq<string>, distribution: string, maxDepth: nat): seq<string> {
    if dirs == [] then []
    else
      var last := dirs[|dirs| - 1];
      WithFiles(dirs[..|dirs| - 1], distribution, maxDepth) + if HasFiles(last, distribution, maxDepth) then [last] else []
  }

  /** Directory i holds the files [i * per, (i + 1) * per). */
  function Ranges(dirs: seq<string>, per: nat): (r: seq<(string, Range)>)
    ensures |r| == if per == 0 then 0 else |dirs|
  {
    if per == 0 then [] else seq(|dirs|, i requires 0 <= i < |dirs| => (dirs[i], (i * per, (i + 1) * per)))
  }

  function FindRange(ranges: seq<(string, Range)>, dir: string): Option<Range> {
    if ranges == [] then None
    else if ranges[0].0 == dir then Some(ranges[0].1)
    else FindRange(ranges[1..], dir)
  }

  /** `get_file_path`: one division and one lookup. */
  function FilePath(dirs: seq<string>, leafStart: nat, per: nat, distribution: string, total: nat, idx: nat): Option<string> {
    if per == 0 || idx >= total then None
    else if distribution == "bottom" || distribution == "all" then
      var at := idx / per + if distribution == "bottom" then leafStart else 0;
      if at < |dirs| then Some(dirs[at] + "/" + FileName(idx)) else None
    else None
  }

  lemma {:induction false} WithFilesConcat(a: seq<string>, b: seq<string>, distribution: string, maxDepth: nat)
    ensures WithFiles(a + b, distribution, maxDepth) == WithFiles(a, distribution, maxDepth) + WithFiles(b, distribution, maxDepth)
    decreases |b|
  {
    if b == [] {
      assert a + b == a;
    } else {
      assert (a + b)[..|a + b| - 1] == a + b[..|b| - 1];
      WithFilesConcat(a, b[..|b| - 1], distribution, maxDepth);
    }
  }

  lemma {:induction false} WithFilesUniform(dirs: seq<string>, distribution: string, maxDepth: nat, keep: bool)
    requires forall i :: 0 <= i < |dirs| ==> HasFiles(dirs[i], distribution, maxDepth) == keep
    ensures WithFiles(dirs, distribution, maxDepth) == if keep then dirs else []
  {
    hide HasFiles;
    if dirs != [] {
      WithFilesUniform(dirs[..|dirs| - 1], distribution, maxDepth, keep);
      assert dirs == dirs[..|dirs| - 1] + [dirs[|dirs| - 1]];
    }
  }

  lemma {:induction false} WithFilesMember(dirs: seq<string>, distribution: string, maxDepth: nat)
    ensures forall d :: d in WithFiles(dirs, distribution, maxDepth) ==> HasFiles(d, distribution, maxDepth)
  {
    if dirs != [] {
      WithFilesMember(dirs[..|dirs| - 1], distribution, maxDepth);
    }
  }

  lemma LevelSlashes(c: Config, level: nat, i: nat)
    requires c.Valid() && level >= 1 && i < Pow(c.width, level)
    ensures Slashes(LevelPaths(c, level)[i]) + 1 == level * (Slashes(c.mask) + 1)
    ensures SlashFree(c.mask) ==> Slashes(LevelPaths(c, level)[i]) + 1 == level
  {
    hide Path;
    PathSlashes(c, level, i + 1);
    assert LevelPaths(c, level)[i] == Path(c, level, i + 1);
    assert SlashFree(c.mask) ==> Slashes(c.mask) == 0;
  }

  lemma {:induction false} NoFilesAbove(c: Config, upto: nat)
    requires c.Valid() && SlashFree(c.mask) && upto < c.depth
    ensures WithFiles(AllPaths(c, upto), "bottom", c.depth) == []
  {
    hide LevelPaths, SlashFree, Slashes;
    if upto > 0 {
      NoFilesAbove(c, upto - 1);
      var level := LevelPaths(c, upto);
      forall i | 0 <= i < |level|
        ensures !HasFiles(level[i], "bottom", c.depth)
      {
        LevelSlashes(c, upto, i);
      }
      WithFilesUniform(level, "bottom", c.depth, false);
      WithFilesConcat(AllPaths(c, upto - 1), level, "bottom", c.depth);
    }
  }

  lemma BottomIsLastLevel(c: Config)
    requires c.Valid() && SlashFree(c.mask)
    ensures WithFiles(AllPaths(c, c.depth), "bottom", c.depth) == LevelPaths(c, c.depth)
  {
    hide AllPaths, LevelPaths, Slashes, SlashFree;
    var last := LevelPaths(c, c.depth);
    forall i | 0 <= i < |last|
      ensures HasFiles(last[i], "bottom", c.depth)
    {
      LevelSlashes(c, c.depth, i);
    }
    WithFilesUniform(last, "bottom", c.depth, true);
    NoFilesAbove(c, c.depth - 1);
    WithFilesConcat(AllPaths(c, c.depth - 1), last, "bottom", c.depth);
    AllPathsUnfold(c);
  }

  lemma BottomMissesLastLevel(c: Config)
    requires c.Valid() && !SlashFree(c.mask)
    ensures WithFiles(AllPaths(c, c.depth), "bottom", c.depth) != LevelPaths(c, c.depth)
  {
    hide AllPaths, LevelPaths, Slashes, SlashFree, WithFiles;
    var last := LevelPaths(c, c.depth);
    PowPositive(c.width, c.depth);
    LevelSlashes(c, c.depth, 0);
    HasSlash(c.mask);
    WithFilesMember(AllPaths(c, c.depth), "bottom", c.depth);
    MulGrows(c.depth, Slashes(c.mask) + 1);
    assert last[0] in last && !HasFiles(last[0], "bottom", c.depth);
  }

  /** Counting slashes finds the bottom level exactly when the mask itself has no slash. */
  lemma BottomIsLastLevelIff(c: Config)
    requires c.Valid()
    ensures WithFiles(AllPaths(c, c.depth), "bottom", c.depth) == LevelPaths(c, c.depth) <==> SlashFree(c.mask)
  {
    if SlashFree(c.mask) {
      BottomIsLastLevel(c);
    } else {
      BottomMissesLastLevel(c);
    }
  }

  lemma AllPathsUnfold(c: Config)
    requires c.Valid()
    ensures AllPaths(c, c.depth) == AllPaths(c, c.depth - 1) + LevelPaths(c, c.depth)
  {}

  lemma HasSlash(mask: string)
    ensures SlashFree(mask) <==> Slashes(mask) == 0
  {}

  lemma MulGrows(d: nat, m: nat)
    requires d >= 1 && m >= 2
    ensures d * m != d
  {
    Distribute(m, 1, d);
    MulAtLeast(m - 1, d);
  }

  /** The directories that hold files, by the manifest's own loop. */
  function FileDirs(c: Config): seq<string>
    requires c.width >= 1
  {
    WithFiles(AllPaths(c, c.depth), c.distribution, c.depth)
  }

  /** The loop gives files to the directories the distribution names: slashes in the mask do not
      disturb the depth count, or are not counted. */
  predicate Laid(c: Config) {
    (c.distribution == "bottom" && SlashFree(c.mask)) || c.distribution == "all"
  }

  lemma FileDirsAre(c: Config)
    requires c.Valid() && Laid(c)
    ensures FileDirs(c) == if c.distribution == "bottom" then LevelPaths(c, c.depth) else AllPaths(c, c.depth)
    ensures |FileDirs(c)| * c.filesPerDir == ClosedFormFiles(c)
    ensures c.distribution == "bottom" || c.distribution == "all"
  {
    AllPathsLength(c, c.depth);
    if c.distribution == "bottom" {
      BottomIsLastLevelIff(c);
    } else {
      WithFilesUniform(AllPaths(c, c.depth), "all", c.depth, true);
    }
  }

  /** A name without an underscore and a dash has no index; ".dat" may be missing. */
  lemma ExtractWithoutIndex(path: string)
    requires '_' !in BaseName(path) && '-' !in BaseName(path)
    ensures ExtractFileIndex(path) == None
  {
    hide BaseName, LastIndex;
    var name := BaseName(path);
    var stem := match StripSuffix(name, ".dat") case Some(s) => s case None => name;
    assert forall c :: c in stem ==> c in name;
    LastIndexNone(stem, '_');
    LastIndexNone(stem, '-');
  }

  lemma {:induction false} FindRangeAt(ranges: seq<(string, Range)>, k: nat)
    requires k < |ranges| && forall i, j :: 0 <= i < j < |ranges| ==> ranges[i].0 != ranges[j].0
    ensures FindRange(ranges, ranges[k].0) == Some(ranges[k].1)
    decreases |ranges|
  {
    if k > 0 {
      FindRangeAt(ranges[1..], k - 1);
    }
  }

  lemma {:induction false} FindRangeSource(ranges: seq<(string, Range)>, dir: string) returns (k: nat)
    requires FindRange(ranges, dir).Some?
    ensures k < |ranges| && ranges[k] == (dir, FindRange(ranges, dir).value)
    decreases |ranges|
  {
    if ranges[0].0 == dir {
      k := 0;
    } else {
      k := FindRangeSource(ranges[1..], dir);
      k := k + 1;
    }
  }

  lemma InRange(idx: nat, per: nat, k: nat)
    requires per >= 1
    ensures k * per <= idx < (k + 1) * per <==> k == idx / per
  {
    var q := idx / per;
    assert idx == q * per + idx % per;
    Distribute(k + 1, k, per);
    if k * per <= idx < (k + 1) * per {
      DivUnique(idx, per, k, idx - k * per);
    }
    if k == q {
      assert (k + 1) * per == k * per + per;
    }
  }

  /** The ranges start at 0, follow each other without gap or overlap, and end at the closed-form
      total that generation computed. */
  lemma RangesTile(c: Config)
    requires c.Valid() && Laid(c) && c.filesPerDir > 0
    ensures var r := Ranges(FileDirs(c), c.filesPerDir);
            && |r| > 0 && r[0].1.0 == 0 && r[|r| - 1].1.1 == ClosedFormFiles(c)
            && (forall i :: 0 <= i < |r| - 1 ==> r[i].1.1 == r[i + 1].1.0)
            && (forall i :: 0 <= i < |r| ==> r[i].1.1 == r[i].1.0 + c.filesPerDir)
  {
    hide Laid, FileDirs, ClosedFormFiles, Ranges;
    FileDirsAre(c);
    SomeFileDir(c);
    RangesFollow(FileDirs(c), c.filesPerDir);
  }

  lemma RangesFollow(dirs: seq<string>, per: nat)
    requires dirs != [] && per > 0
    ensures var r := Ranges(dirs, per);
            && |r| > 0 && r[0].1.0 == 0 && r[|r| - 1].1.1 == |dirs| * per
            && (forall i :: 0 <= i < |r| - 1 ==> r[i].1.1 == r[i + 1].1.0)
            && (forall i :: 0 <= i < |r| ==> r[i].1.1 == r[i].1.0 + per)
  {
    var r := Ranges(dirs, per);
    forall i | 0 <= i < |r|
      ensures r[i].1 == (i * per, (i + 1) * per) && (i + 1) * per == i * per + per
    {
      Distribute(i + 1, i, per);
    }
  }

  lemma SomeFileDir(c: Config)
    requires c.Valid() && Laid(c)
    ensures |FileDirs(c)| > 0
  {
    FileDirsAre(c);
    PowPositive(c.width, c.depth);
    hide Laid, FileDirs;
  }

  function FilePathOf(c: Config, idx: nat): Option<string>
    requires c.width >= 1 && c.depth >= 1
  {
    FilePath(AllPaths(c, c.depth), Offset(c.width, c.depth), c.filesPerDir, c.distribution, ClosedFormFiles(c), idx)
  }

  /** The range of directory `d` contains file `idx`. */
  predicate HoldsFile(c: Config, d: string, idx: nat)
    requires c.width >= 1
  {
    var r := FindRange(Ranges(FileDirs(c), c.filesPerDir), d);
    r.Some? && r.value.0 <= idx < r.value.1
  }

  /** The directory an index is divided into. */
  function DirOf(c: Config, idx: nat): string
    requires c.width >= 1 && c.filesPerDir > 0 && idx / c.filesPerDir < |FileDirs(c)|
  {
    FileDirs(c)[idx / c.filesPerDir]
  }

  lemma IndexInRange(c: Config, idx: nat)
    requires c.Valid() && Laid(c) && c.filesPerDir > 0 && idx < ClosedFormFiles(c)
    ensures idx / c.filesPerDir < |FileDirs(c)|
  {
    FileDirsAre(c);
    hide FileDirs;
    QuotientBelow(idx, c.filesPerDir, |FileDirs(c)|);
  }

  /** The O(1) lookup yields the file in the directory the loop's ranges divide the index into. */
  lemma FilePathAt(c: Config, idx: nat)
    requires c.Valid() && Laid(c) && c.filesPerDir > 0 && idx < ClosedFormFiles(c)
    ensures idx / c.filesPerDir < |FileDirs(c)| && FilePathOf(c, idx) == Some(DirOf(c, idx) + "/" + FileName(idx))
  {
    hide Laid, FileDirs, AllPaths, FileName, ClosedFormFiles, Offset;
    IndexInRange(c, idx);
    FileDirsAre(c);
    FileDirAt(c, idx / c.filesPerDir);
  }

  /** The O(1) lookup agrees with the loop: index `idx` lies in the directory whose range contains
      it, and in no other. */
  lemma FilePathAgrees(c: Config, idx: nat) returns (dir: string)
    requires c.Valid() && Laid(c) && Distinguishes(c) && c.filesPerDir > 0 && idx < ClosedFormFiles(c)
    ensures dir in FileDirs(c) && FilePathOf(c, idx) == Some(dir + "/" + FileName(idx))
    ensures forall d :: HoldsFile(c, d, idx) <==> d == dir
  {
    hide Laid, Distinguishes, FileDirs, AllPaths, FileName, FilePathOf;
    FilePathAt(c, idx);
    FileDirsDistinct(c);
    dir := DirOf(c, idx);
    RangeOfDir(c, idx);
  }

  lemma RangeOfDir(c: Config, idx: nat)
    requires c.Valid() && c.filesPerDir > 0 && idx / c.filesPerDir < |FileDirs(c)| && Distinct(FileDirs(c))
    ensures forall d :: HoldsFile(c, d, idx) <==> d == DirOf(c, idx)
  {
    hide FileDirs;
    var dirs, per, k := FileDirs(c), c.filesPerDir, idx / c.filesPerDir;
    var ranges := Ranges(dirs, per);
    InRange(idx, per, k);
    FindRangeAt(ranges, k);
    assert ranges[k] == (dirs[k], (k * per, (k + 1) * per));
    forall d | HoldsFile(c, d, idx)
      ensures d == dirs[k]
    {
      var j := FindRangeSource(ranges, d);
      InRange(idx, per, j);
    }
  }

  lemma {:induction false} WithFilesSource(dirs: seq<string>, distribution: string, maxDepth: nat, k: nat) returns (i: nat)
    requires k < |WithFiles(dirs, distribution, maxDepth)|
    ensures i < |dirs| && WithFiles(dirs, distribution, maxDepth)[k] == dirs[i]
    decreases |dirs|
  {
    hide HasFiles;
    var n := |dirs| - 1;
    if k < |WithFiles(dirs[..n], distribution, maxDepth)| {
      i := WithFilesSource(dirs[..n], distribution, maxDepth, k);
    } else {
      i := n;
    }
  }

  lemma {:induction false} WithFilesDistinct(dirs: seq<string>, distribution: string, maxDepth: nat)
    requires Distinct(dirs)
    ensures Distinct(WithFiles(dirs, distribution, maxDepth))
    decreases |dirs|
  {
    hide HasFiles;
    if dirs != [] {
      var n := |dirs| - 1;
      var front := WithFiles(dirs[..n], distribution, maxDepth);
      WithFilesDistinct(dirs[..n], distribution, maxDepth);
      forall k | 0 <= k < |front|
        ensures front[k] != dirs[n]
      {
        var i := WithFilesSource(dirs[..n], distribution, maxDepth, k);
        assert dirs[..n][i] == dirs[i];
      }
    }
  }

  /** No directory gets two ranges, whatever the distribution and the slashes of the mask. */
  lemma FileDirsDistinct(c: Config)
    requires c.Valid() && Distinguishes(c)
    ensures Distinct(FileDirs(c))
  {
    hide Distinguishes, AllPaths, WithFiles, Distinct;
    PathsDistinctIff(c);
    WithFilesDistinct(AllPaths(c, c.depth), c.distribution, c.depth);
  }

  /** The tree marks as holding files exactly the directories the manifest gives files to. */
  lemma MarkedHoldFiles(c: Config, level: nat, g: nat)
    requires c.Valid() && Laid(c) && 1 <= level <= c.depth && 1 <= g <= Pow(c.width, level)
    ensures NodeOf(c, level, g).hasFiles <==> Path(c, level, g) in FileDirs(c)
  {
    hide Path, Pow, AllPaths, FileDirs, Laid;
    FileDirsAre(c);
    AllPathsAt(c, c.depth, level, g);
    if c.distribution == "bottom" {
      BottomPaths(c, level, g);
    }
  }

  lemma BottomPaths(c: Config, level: nat, g: nat)
    requires c.Valid() && 1 <= level <= c.depth && 1 <= g <= Pow(c.width, level)
    ensures Path(c, level, g) in LevelPaths(c, c.depth) <==> level == c.depth
  {
    hide Path, Pow;
    var last := LevelPaths(c, c.depth);
    if level == c.depth {
      assert last[g - 1] == Path(c, level, g);
    } else if Path(c, level, g) in last {
      var i :| 0 <= i < |last| && last[i] == Path(c, level, g);
      PathSlashes(c, level, g);
      PathSlashes(c, c.depth, i + 1);
      MulCancel(Slashes(c.mask) + 1, level, c.depth);
    }
  }

  /** A path comes back exactly for the indices of the tree's files. */
  lemma FilePathIff(c: Config, idx: nat)
    requires c.Valid() && Laid(c)
    ensures FilePathOf(c, idx).Some? <==> c.filesPerDir > 0 && idx < ClosedFormFiles(c)
  {
    if c.filesPerDir > 0 && idx < ClosedFormFiles(c) {
      FilePathAt(c, idx);
    }
    hide AllPaths, Offset, Laid, ClosedFormFiles;
  }

  /** Every index is found in the range of its own directory exactly when the mask keeps siblings
      apart: otherwise the second directory with files is taken for the first. */
  lemma RangesFoundIff(c: Config)
    requires c.Valid() && Laid(c) && c.filesPerDir > 0
    ensures (forall idx: nat :: idx < ClosedFormFiles(c) ==> idx / c.filesPerDir < |FileDirs(c)| && HoldsFile(c, DirOf(c, idx), idx))
            <==> Distinguishes(c)
  {
    hide Laid, FileDirs, HoldsFile, Distinguishes, DirOf, ClosedFormFiles;
    if Distinguishes(c) {
      FileDirsDistinct(c);
      forall idx: nat | idx < ClosedFormFiles(c)
        ensures idx / c.filesPerDir < |FileDirs(c)| && HoldsFile(c, DirOf(c, idx), idx)
      {
        IndexInRange(c, idx);
        RangeOfDir(c, idx);
      }
    } else {
      var second: nat := c.filesPerDir;
      SecondIsTakenForFirst(c);
      assert second < ClosedFormFiles(c) && !HoldsFile(c, DirOf(c, second), second);
    }
  }

  lemma SecondIsTakenForFirst(c: Config)
    requires c.Valid() && Laid(c) && c.filesPerDir > 0 && !Distinguishes(c)
    ensures c.filesPerDir < ClosedFormFiles(c) && c.filesPerDir / c.filesPerDir == 1 < |FileDirs(c)|
    ensures !HoldsFile(c, DirOf(c, c.filesPerDir), c.filesPerDir)
  {
    FirstTwoDirs(c);
    FileDirsAre(c);
    hide Laid, FileDirs, Distinguishes;
    var dirs, per := FileDirs(c), c.filesPerDir;
    DivUnique(per, per, 1, 0);
    Distribute(|dirs|, 1, per);
    MulAtLeast(|dirs| - 1, per);
    var ranges := Ranges(dirs, per);
    assert ranges[0] == (dirs[0], (0 * per, (0 + 1) * per));
  }

  lemma FirstTwoDirs(c: Config)
    requires c.Valid() && Laid(c) && !Distinguishes(c)
    ensures |FileDirs(c)| >= 2 && FileDirs(c)[0] == FileDirs(c)[1]
  {
    FileDirsAre(c);
    hide Laid, Distinguishes, FileDirs, Pow, Path;
    if c.distribution == "bottom" {
      FirstTwoCollide(c, c.depth);
    } else {
      hide AllPaths;
      FirstTwoCollide(c, 1);
      AllPathsAt(c, c.depth, 1, 1);
      AllPathsAt(c, c.depth, 1, 2);
    }
  }

  /** Where the k-th directory with files stands in the list of all directories. */
  lemma FileDirAt(c: Config, k: nat)
    requires c.Valid() && Laid(c) && k < |FileDirs(c)|
    ensures var at := k + if c.distribution == "bottom" then Offset(c.width, c.depth) else 0;
            at < |AllPaths(c, c.depth)| && AllPaths(c, c.depth)[at] == FileDirs(c)[k]
  {
    hide Laid, FileDirs, AllPaths, Path;
    FileDirsAre(c);
    if c.distribution == "bottom" {
      AllPathsAt(c, c.depth, c.depth, k + 1);
    }
  }

  // === Shares of the agents ===

  /** A single agent owns every index. */
  predicate IsMine(idx: nat, agent: nat, agents: nat) {
    agents <= 1 || idx % agents == agent
  }

  /** `get_agent_file_paths`: the paths of the indices an agent owns, in order. */
  function AgentPaths(c: Config, total: nat, agent: nat, agents: nat): seq<string>
    requires c.width >= 1 && c.depth >= 1
  {
    if total == 0 then []
    else
      AgentPaths(c, total - 1, agent, agents) +
      if IsMine(total - 1, agent, agents) && FilePathOf(c, total - 1).Some? then [FilePathOf(c, total - 1).value] else []
  }

  // === The manifest object ===

  ghost predicate IsMax(byLevel: map<nat, seq<string>>, m: nat) {
    m in byLevel && forall l :: l in byLevel ==> l <= m
  }

  method MaxLevel(byLevel: map<nat, seq<string>>) returns (r: Option<nat>)
    ensures r.None? <==> byLevel == map[]
    ensures r.Some? ==> IsMax(byLevel, r.value)
  {
    r := None;
    var rest := byLevel.Keys;
    while rest != {}
      invariant rest <= byLevel.Keys
      invariant r.None? ==> rest == byLevel.Keys
      invariant r.Some? ==> r.value in byLevel && forall l :: l in byLevel && l !in rest ==> l <= r.value
      decreases rest
    {
      var l :| l in rest;
      rest := rest - {l};
      if r.None? || r.value < l {
        r := Some(l);
      }
    }
    assert byLevel.Keys == {} ==> byLevel == map[];
  }

  class TreeManifest {
    var allDirectories: seq<string>
    var byLevel: map<nat, seq<string>>
    var totalDirs: nat
    var totalFiles: nat
    var filesPerDir: nat
    var distribution: string
    var fileRanges: seq<(string, Range)>
    var maxDepth: nat
    var leafStartIndex: nat

    /** The manifest of a generated tree. */
    ghost predicate Describes(c: Config)
      requires c.Valid()
      reads this
    {
      && allDirectories == AllPaths(c, c.depth) && LevelsUpTo(c, byLevel, c.depth)
      && totalDirs == |allDirectories| && filesPerDir == c.filesPerDir && distribution == c.distribution
      && fileRanges == Ranges(FileDirs(c), filesPerDir) && totalFiles == |FileDirs(c)| * filesPerDir
      && maxDepth == c.depth && leafStartIndex == Offset(c.width, c.depth)
    }

    constructor FromTree(tree: DirectoryTree)
      requires tree.config.Valid() && tree.allPaths == AllPaths(tree.config, tree.config.depth)
      requires LevelsUpTo(tree.config, tree.byLevel, tree.config.depth)
      requires tree.totalDirectories == |tree.allPaths|
      ensures Describes(tree.config)
    {
      allDirectories, byLevel, totalDirs, totalFiles := tree.allPaths, tree.byLevel, tree.totalDirectories, tree.totalFiles;
      filesPerDir, distribution := tree.config.filesPerDir, tree.config.distribution;
      fileRanges, maxDepth, leafStartIndex := [], 0, 0;
      new;
      hide AllPaths, LevelPaths;
      ghost var c := tree.config;
      assert IsMax(byLevel, c.depth) by {
        assert c.depth in byLevel;
      }
      ComputeFileRanges();
      var top := MaxLevel(byLevel);
      maxDepth := if top.Some? then top.value else 0;
      var leafStart := 0;
      for level := 1 to maxDepth
        invariant leafStart == Offset(c.width, level)
      {
        assert level in byLevel;
        if level in byLevel {
          leafStart := leafStart + |byLevel[level]|;
        }
      }
      leafStartIndex := leafStart;
    }

    method ComputeFileRanges()
      modifies this`fileRanges, this`totalFiles
      ensures byLevel == map[] ==> fileRanges == [] && totalFiles == old(totalFiles)
      ensures forall m :: IsMax(byLevel, m) ==>
                && fileRanges == Ranges(WithFiles(allDirectories, distribution, m), filesPerDir)
                && totalFiles == |WithFiles(allDirectories, distribution, m)| * filesPerDir
    {
      hide WithFiles, Ranges, Slashes;
      RangesOfNone(distribution, filesPerDir);
      fileRanges := [];
      var globalIdx := 0;
      var top := MaxLevel(byLevel);
      if top.None? {
        return;
      }
      for i := 0 to |allDirectories|
        invariant fileRanges == Ranges(WithFiles(allDirectories[..i], distribution, top.value), filesPerDir)
        invariant globalIdx == |WithFiles(allDirectories[..i], distribution, top.value)| * filesPerDir
      {
        var dir := allDirectories[i];
        WithFilesSnoc(allDirectories, i, distribution, top.value);
        RangesSnoc(WithFiles(allDirectories[..i], distribution, top.value), dir, filesPerDir);
        var shouldHaveFiles := match distribution
          case "bottom" => Slashes(dir) + 1 == top.value
          case "all" => true
          case _ => false;
        assert shouldHaveFiles == HasFiles(dir, distribution, top.value);
        if shouldHaveFiles && filesPerDir > 0 {
          var start, end := globalIdx, globalIdx + filesPerDir;
          fileRanges := fileRanges + [(dir, (start, end))];
          globalIdx := end;
        }
      }
      assert allDirectories[..|allDirectories|] == allDirectories;
      totalFiles := globalIdx;
    }

    function GetFilePath(idx: nat): Option<string>
      reads this
    {
      FilePath(allDirectories, leafStartIndex, filesPerDir, distribution, totalFiles, idx)
    }

    function GetFileRange(dir: string): Option<Range>
      reads this
    {
      FindRange(fileRanges, dir)
    }
  }

  /** On the object: the lookups of a manifest are the ones proved to agree. */
  lemma ManifestLookups(m: TreeManifest, c: Config, idx: nat, dir: string)
    requires c.Valid() && m.Describes(c) && Laid(c)
    ensures m.GetFilePath(idx) == FilePathOf(c, idx)
    ensures (m.GetFileRange(dir).Some? && m.GetFileRange(dir).value.0 <= idx < m.GetFileRange(dir).value.1) <==> HoldsFile(c, dir, idx)
  {
    hide AllPaths, Laid, FileDirs;
    FileDirsAre(c);
  }

  lemma RangesOfNone(distribution: string, per: nat)
    ensures forall m :: WithFiles([], distribution, m) == []
    ensures Ranges([], per) == []
  {}

  lemma WithFilesSnoc(dirs: seq<string>, i: nat, distribution: string, maxDepth: nat)
    requires i < |dirs|
    ensures WithFiles(dirs[..i + 1], distribution, maxDepth)
              == if HasFiles(dirs[i], distribution, maxDepth) then WithFiles(dirs[..i], distribution, maxDepth) + [dirs[i]] else WithFiles(dirs[..i], distribution, maxDepth)
  {
    hide HasFiles;
    assert dirs[..i + 1][..i] == dirs[..i];
  }

  lemma RangesSnoc(dirs: seq<string>, dir: string, per: nat)
    ensures per > 0 ==> Ranges(dirs + [dir], per) == Ranges(dirs, per) + [(dir, (|dirs| * per, |dirs| * per + per))]
    ensures per == 0 ==> Ranges(dirs + [dir], per) == Ranges(dirs, per)
    ensures |dirs + [dir]| * per == |dirs| * per + per
  {
    Distribute(|dirs| + 1, |dirs|, per);
  }
}
