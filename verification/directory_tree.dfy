/** The width^depth directory tree: node paths, their generation and their structure. */
module DirectoryTrees {
  import opened Text
  import opened Arithmetic

  datatype Config = Config(width: nat, depth: nat, filesPerDir: nat, distribution: string, mask: string) {
    predicate Valid() {
      width >= 1 && depth >= 1
    }
  }

  datatype Node = Node(depth: nat, width: nat, fullPath: string, dirName: string, hasFiles: bool)

  function Pow(b: nat, e: nat): nat {
    if e == 0 then 1 else b * Pow(b, e - 1)
  }

  /** Directories on all levels above `level`: the position of the first path of that level. */
  function Offset(width: nat, level: nat): nat
    requires level >= 1
  {
    if level == 1 then 0 else Offset(width, level - 1) + Pow(width, level - 1)
  }

  // === Paths ===

  /** The mask with its first two `%d` replaced in turn. */
  function DirName(mask: string, level: nat, local: nat): string {
    ReplaceFirst(ReplaceFirst(mask, "%d", Decimal(level)), "%d", Decimal(local))
  }

  function Local(c: Config, g: nat): nat
    requires c.width >= 1 && g >= 1
  {
    (g - 1) % c.width + 1
  }

  function Parent(c: Config, g: nat): nat
    requires c.width >= 1 && g >= 1
  {
    (g - 1) / c.width + 1
  }

  /** The path of the `g`-th directory of a level, through its parents. */
  function Path(c: Config, level: nat, g: nat): string
    requires c.width >= 1 && level >= 1 && g >= 1
    decreases level
  {
    var name := DirName(c.mask, level, Local(c, g));
    if level == 1 then name else Path(c, level - 1, Parent(c, g)) + "/" + name
  }

  function LevelPaths(c: Config, level: nat): (r: seq<string>)
    requires c.width >= 1 && level >= 1
    ensures |r| == Pow(c.width, level)
  {
    seq(Pow(c.width, level), i requires 0 <= i => Path(c, level, i + 1))
  }

  function AllPaths(c: Config, depth: nat): seq<string>
    requires c.width >= 1
  {
    if depth == 0 then [] else AllPaths(c, depth - 1) + LevelPaths(c, depth)
  }

  function NodeOf(c: Config, level: nat, g: nat): Node
    requires c.width >= 1 && level >= 1 && g >= 1
  {
    var hasFiles := if c.distribution == "bottom" then level == c.depth else c.distribution == "all";
    Node(level, Local(c, g), Path(c, level, g), DirName(c.mask, level, Local(c, g)), hasFiles)
  }

  // === The path is the digit string of the index ===

  lemma PowPositive(b: nat, e: nat)
    requires b >= 1
    ensures Pow(b, e) >= 1
  {
    if e > 0 {
      PowPositive(b, e - 1);
      assert b * Pow(b, e - 1) >= 1;
    }
  }

  /** Name of the ancestor on level `j` (or of the node itself): one base-`width` digit of `g-1`. */
  function DigitName(c: Config, level: nat, g: nat, j: nat): string
    requires c.width >= 1 && 1 <= j <= level && g >= 1
  {
    PowPositive(c.width, level - j);
    DirName(c.mask, j, (g - 1) / Pow(c.width, level - j) % c.width + 1)
  }

  function Join(names: seq<string>): string {
    if names == [] then "" else if |names| == 1 then names[0] else Join(names[..|names| - 1]) + "/" + names[|names| - 1]
  }

  function DigitNames(c: Config, level: nat, g: nat, upto: nat): (r: seq<string>)
    requires c.width >= 1 && upto <= level && g >= 1
    ensures |r| == upto
  {
    seq(upto, j requires 0 <= j < upto => DigitName(c, level, g, j + 1))
  }

  lemma DigitOfParent(c: Config, level: nat, g: nat, j: nat)
    requires c.width >= 1 && 1 <= j < level && g >= 1
    ensures DigitName(c, level, g, j) == DigitName(c, level - 1, Parent(c, g), j)
  {
    hide DirName;
    PowPositive(c.width, level - 1 - j);
    DivDiv(g - 1, c.width, Pow(c.width, level - 1 - j));
    assert Pow(c.width, level - j) == c.width * Pow(c.width, level - 1 - j);
  }

  lemma OwnDigit(c: Config, level: nat, g: nat)
    requires c.width >= 1 && level >= 1 && g >= 1
    ensures DigitName(c, level, g, level) == DirName(c.mask, level, Local(c, g))
  {
    hide DirName;
    assert Pow(c.width, 0) == 1;
  }

  /** The path on (level, g) is the sequence of base-`width` digits of g-1, each plus one, through the mask. */
  lemma {:induction false} PathIsDigits(c: Config, level: nat, g: nat)
    requires c.width >= 1 && level >= 1 && g >= 1
    ensures Path(c, level, g) == Join(DigitNames(c, level, g, level))
    decreases level
  {
    hide DirName, Local, DigitName;
    var names := DigitNames(c, level, g, level);
    OwnDigit(c, level, g);
    if level > 1 {
      var p := Parent(c, g);
      PathIsDigits(c, level - 1, p);
      forall j | 0 <= j < level - 1
        ensures names[j] == DigitNames(c, level - 1, p, level - 1)[j]
      {
        DigitOfParent(c, level, g, j + 1);
      }
      assert names[..level - 1] == DigitNames(c, level - 1, p, level - 1);
    }
  }

  // === When paths are distinct ===

  predicate SlashFree(mask: string) {
    '/' !in mask
  }

  predicate TwoPlaceholders(mask: string) {
    match FindFrom(mask, "%d", 0)
    case None => false
    case Some(i) => FindFrom(mask, "%d", i + 2).Some?
  }

  lemma DecimalHas(n: nat)
    ensures '/' !in Decimal(n) && '%' !in Decimal(n) && 'd' !in Decimal(n)
  {
    assert forall c :: c in Decimal(n) ==> IsDigit(c);
  }

  lemma PlaceholderAt(s: string, k: nat)
    ensures OccursAt(s, "%d", k) <==> k + 2 <= |s| && s[k] == '%' && s[k + 1] == 'd'
  {
    if k + 2 <= |s| {
      assert s[k..k + 2] == [s[k], s[k + 1]];
    }
  }

  /** Before the end of the inserted number the new string has no placeholder. */
  lemma NoneBefore(mask: string, i: nat, d: string, k: nat)
    requires FindFrom(mask, "%d", 0) == Some(i) && d != "" && '%' !in d && 'd' !in d && k < i + |d|
    ensures !OccursAt(mask[..i] + d + mask[i + 2..], "%d", k)
  {
    hide OccursAt;
    PlaceholderAt(mask, i);
    var s := mask[..i] + d + mask[i + 2..];
    PlaceholderAt(s, k);
    PlaceholderAt(mask, k);
    assert d[0] in d;
    if k >= i {
      assert s[k] == d[k - i] && d[k - i] in d;
    }
  }

  /** The first replacement makes no new placeholder: what was second is now first, shifted. */
  lemma AfterFirst(mask: string, i: nat, level: nat)
    requires FindFrom(mask, "%d", 0) == Some(i)
    ensures var s := ReplaceFirst(mask, "%d", Decimal(level));
            match FindFrom(mask, "%d", i + 2)
            case None => FindFrom(s, "%d", 0) == None
            case Some(j) => FindFrom(s, "%d", 0) == Some(j - 2 + |Decimal(level)|)
  {
    var d := Decimal(level);
    DecimalHas(level);
    PlaceholderAt(mask, i);
    Shifted(mask, i, d);
  }

  lemma Shifted(mask: string, i: nat, d: string)
    requires FindFrom(mask, "%d", 0) == Some(i) && i + 2 <= |mask| && d != "" && '%' !in d && 'd' !in d
    ensures var s := mask[..i] + d + mask[i + 2..];
            match FindFrom(mask, "%d", i + 2)
            case None => FindFrom(s, "%d", 0) == None
            case Some(j) => FindFrom(s, "%d", 0) == Some(j - 2 + |d|)
  {
    hide OccursAt, FindFrom;
    var s := mask[..i] + d + mask[i + 2..];
    var j, t := FindFrom(mask, "%d", i + 2), FindFrom(s, "%d", 0);
    if j.Some? {
      SamePlaceholder(mask, i, d, j.value);
    }
    if t.Some? {
      if t.value < i + |d| {
        NoneBefore(mask, i, d, t.value);
      } else {
        SamePlaceholder(mask, i, d, t.value - |d| + 2);
      }
    }
  }

  lemma SamePlaceholder(mask: string, i: nat, d: string, k: nat)
    requires i + 2 <= |mask| && k >= i + 2
    ensures OccursAt(mask[..i] + d + mask[i + 2..], "%d", k - 2 + |d|) <==> OccursAt(mask, "%d", k)
  {
    PlaceholderAt(mask[..i] + d + mask[i + 2..], k - 2 + |d|);
    PlaceholderAt(mask, k);
    hide OccursAt;
  }

  /** What stands around the second number. */
  function Around(mask: string, level: nat): (string, string) {
    var s := ReplaceFirst(mask, "%d", Decimal(level));
    match FindFrom(s, "%d", 0)
    case None => (s, "")
    case Some(i) => (s[..i], s[i + 2..])
  }

  lemma DirNameAround(mask: string, level: nat, local: nat)
    requires TwoPlaceholders(mask)
    ensures DirName(mask, level, local) == Around(mask, level).0 + Decimal(local) + Around(mask, level).1
  {
    AfterFirst(mask, FindFrom(mask, "%d", 0).value, level);
    hide Decimal, OccursAt;
  }

  lemma DirNameInjective(mask: string, level: nat, a: nat, b: nat)
    requires TwoPlaceholders(mask) && DirName(mask, level, a) == DirName(mask, level, b)
    ensures a == b
  {
    hide TwoPlaceholders, DirName, Around, Decimal;
    DirNameAround(mask, level, a);
    DirNameAround(mask, level, b);
    MiddleUnique(Around(mask, level).0, Decimal(a), Decimal(b), Around(mask, level).1);
    DecimalInjective(a, b);
  }

  lemma MiddleUnique(before: string, x: string, y: string, after: string)
    requires before + x + after == before + y + after
    ensures x == y
  {
    var s := before + x + after;
    assert |x| == |y|;
    assert s[|before|..|before| + |x|] == x && s[|before|..|before| + |y|] == y;
  }

  lemma DirNameConstant(mask: string, level: nat, a: nat, b: nat)
    requires !TwoPlaceholders(mask)
    ensures DirName(mask, level, a) == DirName(mask, level, b)
  {
    match FindFrom(mask, "%d", 0)
    case None =>
    case Some(i) => AfterFirst(mask, i, level);
  }

  function Slashes(s: string): nat {
    multiset(s)['/']
  }

  lemma SlashesConcat(a: string, b: string)
    ensures Slashes(a + b) == Slashes(a) + Slashes(b)
  {}

  lemma ReplaceKeepsSlashes(s: string, n: nat)
    ensures Slashes(ReplaceFirst(s, "%d", Decimal(n))) == Slashes(s)
  {
    DecimalHas(n);
    match FindFrom(s, "%d", 0)
    case None =>
    case Some(i) =>
      assert s == s[..i] + "%d" + s[i + 2..];
      SlashesConcat(s[..i] + "%d", s[i + 2..]);
      SlashesConcat(s[..i], "%d");
      SlashesConcat(s[..i] + Decimal(n), s[i + 2..]);
      SlashesConcat(s[..i], Decimal(n));
  }

  lemma DirNameSlashes(mask: string, level: nat, local: nat)
    ensures Slashes(DirName(mask, level, local)) == Slashes(mask)
  {
    ReplaceKeepsSlashes(mask, level);
    ReplaceKeepsSlashes(ReplaceFirst(mask, "%d", Decimal(level)), local);
  }

  /** A path on level l has l-1 separators, plus l times the slashes of the mask. */
  lemma {:induction false} PathSlashes(c: Config, level: nat, g: nat)
    requires c.width >= 1 && level >= 1 && g >= 1
    ensures Slashes(Path(c, level, g)) + 1 == level * (Slashes(c.mask) + 1)
    decreases level
  {
    hide DirName, Slashes, Local;
    var name, m := DirName(c.mask, level, Local(c, g)), Slashes(c.mask) + 1;
    DirNameSlashes(c.mask, level, Local(c, g));
    if level > 1 {
      PathSlashes(c, level - 1, Parent(c, g));
      JoinSlashes(Path(c, level - 1, Parent(c, g)), name);
      Distribute(level, 1, m);
    } else {
      assert Path(c, level, g) == name;
    }
  }

  lemma JoinSlashes(above: string, name: string)
    ensures Slashes(above + "/" + name) == Slashes(above) + 1 + Slashes(name)
  {
    SlashesConcat(above + "/", name);
    SlashesConcat(above, "/");
  }

  lemma LocalAndParent(c: Config, g: nat, h: nat)
    requires c.width >= 1 && g >= 1 && h >= 1
    requires Local(c, g) == Local(c, h) && Parent(c, g) == Parent(c, h)
    ensures g == h
  {
    assert g - 1 == c.width * ((g - 1) / c.width) + (g - 1) % c.width;
    assert h - 1 == c.width * ((h - 1) / c.width) + (h - 1) % c.width;
  }

  lemma ParentInRange(c: Config, level: nat, g: nat)
    requires c.width >= 1 && level >= 1 && 1 <= g <= Pow(c.width, level)
    ensures 1 <= Parent(c, g) <= Pow(c.width, level - 1)
  {
    QuotientBelow(g - 1, c.width, Pow(c.width, level - 1));
  }

  lemma LongerHasMoreSlashes(s: string, x: string, y: string)
    requires |x| < |y| <= |s| && s[|s| - |y|..] == y && s[|s| - |x| - 1..] == "/" + x
    ensures Slashes(x) < Slashes(y)
  {
    var head := y[..|y| - |x| - 1];
    assert y == head + ("/" + x) by {
      assert y[|y| - |x| - 1..] == s[|s| - |x| - 1..];
    }
    SlashesConcat(head, "/" + x);
    SlashesConcat("/", x);
  }

  /** Two joins whose last parts have equally many slashes agree only part by part. */
  lemma SuffixSameSlashes(u: string, x: string, v: string, y: string)
    requires Slashes(x) == Slashes(y) && u + "/" + x == v + "/" + y
    ensures u == v && x == y
  {
    hide Slashes;
    var s := u + "/" + x;
    assert s[|s| - |x|..] == x && s[|s| - |x| - 1..] == "/" + x;
    assert s[|s| - |y|..] == y && s[|s| - |y| - 1..] == "/" + y;
    if |x| < |y| {
      LongerHasMoreSlashes(s, x, y);
    } else if |y| < |x| {
      LongerHasMoreSlashes(s, y, x);
    } else {
      assert s[..|u|] == u && s[..|v|] == v;
    }
  }

  /** Siblings have different names: the mask keeps their numbers apart, or there is only one. */
  predicate Distinguishes(c: Config) {
    c.width == 1 || TwoPlaceholders(c.mask)
  }

  /** On one level such a mask names every directory differently. */
  lemma {:induction false} PathInjective(c: Config, level: nat, g: nat, h: nat)
    requires c.width >= 1 && level >= 1 && Distinguishes(c)
    requires 1 <= g <= Pow(c.width, level) && 1 <= h <= Pow(c.width, level)
    requires Path(c, level, g) == Path(c, level, h)
    ensures g == h
    decreases level
  {
    hide DirName, Local, Parent, TwoPlaceholders, Slashes;
    var x, y := DirName(c.mask, level, Local(c, g)), DirName(c.mask, level, Local(c, h));
    DirNameSlashes(c.mask, level, Local(c, g));
    DirNameSlashes(c.mask, level, Local(c, h));
    ParentInRange(c, level, g);
    ParentInRange(c, level, h);
    if level > 1 {
      SuffixSameSlashes(Path(c, level - 1, Parent(c, g)), x, Path(c, level - 1, Parent(c, h)), y);
      PathInjective(c, level - 1, Parent(c, g), Parent(c, h));
    }
    if c.width > 1 {
      DirNameInjective(c.mask, level, Local(c, g), Local(c, h));
    } else {
      OnlyChild(c, g);
      OnlyChild(c, h);
    }
    LocalAndParent(c, g, h);
  }

  lemma OnlyChild(c: Config, g: nat)
    requires c.width == 1 && g >= 1
    ensures Local(c, g) == 1
  {}

  // === The list of all paths ===

  lemma {:induction false} AllPathsLength(c: Config, depth: nat)
    requires c.width >= 1
    ensures |AllPaths(c, depth)| == Offset(c.width, depth + 1)
  {
    if depth > 0 {
      AllPathsLength(c, depth - 1);
    }
  }

  /** Directory g of a level stands at position Offset + g - 1. */
  lemma {:induction false} AllPathsAt(c: Config, depth: nat, level: nat, g: nat)
    requires c.width >= 1 && 1 <= level <= depth && 1 <= g <= Pow(c.width, level)
    ensures Offset(c.width, level) + g - 1 < |AllPaths(c, depth)|
    ensures AllPaths(c, depth)[Offset(c.width, level) + g - 1] == Path(c, level, g)
    decreases depth
  {
    hide Path;
    AllPathsLength(c, depth - 1);
    var above := AllPaths(c, depth - 1);
    assert AllPaths(c, depth) == above + LevelPaths(c, depth);
    if level < depth {
      AllPathsAt(c, depth - 1, level, g);
    } else {
      assert (above + LevelPaths(c, depth))[|above| + (g - 1)] == LevelPaths(c, depth)[g - 1];
    }
  }

  lemma {:induction false} Locate(c: Config, depth: nat, i: nat) returns (level: nat, g: nat)
    requires c.width >= 1 && i < |AllPaths(c, depth)|
    ensures 1 <= level <= depth && 1 <= g <= Pow(c.width, level) && i == Offset(c.width, level) + g - 1
    ensures AllPaths(c, depth)[i] == Path(c, level, g)
    decreases depth
  {
    hide Offset, Pow, Path;
    AllPathsLength(c, depth - 1);
    assert AllPaths(c, depth) == AllPaths(c, depth - 1) + LevelPaths(c, depth);
    hide AllPaths;
    if i < |AllPaths(c, depth - 1)| {
      level, g := Locate(c, depth - 1, i);
    } else {
      level, g := depth, i - |AllPaths(c, depth - 1)| + 1;
    }
  }

  predicate Distinct(s: seq<string>) {
    forall i, j :: 0 <= i < j < |s| ==> s[i] != s[j]
  }

  lemma PathsDiffer(c: Config, i: nat, j: nat)
    requires c.Valid() && Distinguishes(c) && i < j < |AllPaths(c, c.depth)|
    ensures AllPaths(c, c.depth)[i] != AllPaths(c, c.depth)[j]
  {
    hide Distinguishes, AllPaths, Path, Slashes;
    var k, g := Locate(c, c.depth, i);
    var l, h := Locate(c, c.depth, j);
    PathSlashes(c, k, g);
    PathSlashes(c, l, h);
    if Path(c, k, g) == Path(c, l, h) {
      MulCancel(Slashes(c.mask) + 1, k, l);
      PathInjective(c, k, g, h);
    }
  }

  lemma FirstTwoCollide(c: Config, level: nat)
    requires c.Valid() && !Distinguishes(c) && level >= 1
    ensures Path(c, level, 1) == Path(c, level, 2) && Pow(c.width, level) >= 2
  {
    assert Local(c, 1) == 1 && Local(c, 2) == 2 && Parent(c, 1) == Parent(c, 2) == 1;
    DirNameConstant(c.mask, level, 1, 2);
    hide TwoPlaceholders, DirName, Local, Parent;
    PowPositive(c.width, level - 1);
    MulAtLeast(Pow(c.width, level - 1), c.width);
  }

  /** All paths differ exactly when the mask has two placeholders (or every directory has one child
      only), whatever slashes it has. */
  lemma PathsDistinctIff(c: Config)
    requires c.Valid()
    ensures Distinct(AllPaths(c, c.depth)) <==> Distinguishes(c)
  {
    hide Distinguishes, AllPaths, Path, Pow;
    if Distinguishes(c) {
      forall i, j | 0 <= i < j < |AllPaths(c, c.depth)|
        ensures AllPaths(c, c.depth)[i] != AllPaths(c, c.depth)[j]
      {
        PathsDiffer(c, i, j);
      }
    } else {
      FirstTwoCollide(c, 1);
      AllPathsAt(c, c.depth, 1, 1);
      AllPathsAt(c, c.depth, 1, 2);
    }
  }

  lemma {:induction false} OffsetMonotone(width: nat, k: nat, level: nat)
    requires 1 <= k < level
    ensures Offset(width, k) + Pow(width, k) <= Offset(width, level)
  {
    if k < level - 1 {
      OffsetMonotone(width, k, level - 1);
    }
  }

  /** Every directory below the top level is listed after its parent, and extends the parent's path. */
  lemma ParentListedFirst(c: Config, level: nat, g: nat)
    requires c.Valid() && 2 <= level <= c.depth && 1 <= g <= Pow(c.width, level)
    ensures var at, parentAt := Offset(c.width, level) + g - 1, Offset(c.width, level - 1) + Parent(c, g) - 1;
            && parentAt < at < |AllPaths(c, c.depth)|
            && AllPaths(c, c.depth)[parentAt] + "/" + DirName(c.mask, level, Local(c, g)) == AllPaths(c, c.depth)[at]
  {
    hide AllPaths, Parent, DirName, Local, Path, Pow;
    PathStep(c, level, g);
    ParentInRange(c, level, g);
    assert Offset(c.width, level) == Offset(c.width, level - 1) + Pow(c.width, level - 1);
    hide Offset;
    AllPathsAt(c, c.depth, level, g);
    AllPathsAt(c, c.depth, level - 1, Parent(c, g));
  }

  lemma PathStep(c: Config, level: nat, g: nat)
    requires c.width >= 1 && level >= 2 && g >= 1
    ensures Path(c, level, g) == Path(c, level - 1, Parent(c, g)) + "/" + DirName(c.mask, level, Local(c, g))
  {
    hide DirName, Local, Parent;
  }

  /** A directory has exactly `width` children: the indices (g-1)*width+1 .. g*width of the next level. */
  lemma ChildrenAreABlock(c: Config, level: nat, g: nat, child: nat)
    requires c.Valid() && level >= 1 && 1 <= g <= Pow(c.width, level) && child >= 1
    ensures Parent(c, child) == g <==> (g - 1) * c.width + 1 <= child <= g * c.width
    ensures Parent(c, child) == g ==> child <= Pow(c.width, level + 1) && Path(c, level + 1, child) == Path(c, level, g) + "/" + DirName(c.mask, level + 1, Local(c, child))
  {
    var q, r := (child - 1) / c.width, (child - 1) % c.width;
    assert child - 1 == q * c.width + r;
    if q == g - 1 {
      assert g * c.width == (g - 1) * c.width + c.width;
      assert g * c.width <= Pow(c.width, level) * c.width;
    }
    if (g - 1) * c.width + 1 <= child <= g * c.width {
      assert g * c.width == (g - 1) * c.width + c.width;
      DivUnique(child - 1, c.width, g - 1, child - 1 - (g - 1) * c.width);
    }
  }

  lemma {:induction false} ReplaceFirstOnly(before: string, after: string, to: string)
    requires '%' !in before
    ensures ReplaceFirst(before + "%d" + after, "%d", to) == before + to + after
  {
    var s := before + "%d" + after;
    hide FindFrom;
    forall k: nat | k < |before|
      ensures !OccursAt(s, "%d", k)
    {
      PlaceholderAt(s, k);
      assert s[k] == before[k] && before[k] in before;
    }
    PlaceholderAt(s, |before|);
    hide OccursAt;
    assert FindFrom(s, "%d", 0) == Some(|before|);
    assert s[|before| + 2..] == after && s[..|before|] == before;
  }

  /** The rendered name: the level stands for the first placeholder, the number among the siblings for
      the second. */
  lemma DirNameRenders(a: string, b: string, rest: string, level: nat, local: nat)
    requires '%' !in a && '%' !in b
    ensures DirName(a + "%d" + b + "%d" + rest, level, local) == a + Decimal(level) + b + Decimal(local) + rest
  {
    DecimalHas(level);
    hide ReplaceFirst, Decimal;
    var d := Decimal(level);
    assert a + "%d" + b + "%d" + rest == a + "%d" + (b + "%d" + rest);
    ReplaceFirstOnly(a, b + "%d" + rest, d);
    assert a + d + (b + "%d" + rest) == a + d + b + "%d" + rest;
    ReplaceFirstOnly(a + d + b, rest, Decimal(local));
  }

  /** The number of a node among its siblings, from 1 to the width, gives back its index together with
      the parent's. */
  lemma NodeNumber(c: Config, level: nat, g: nat)
    requires c.Valid() && level >= 1 && g >= 1
    ensures var n := NodeOf(c, level, g);
            1 <= n.width <= c.width && (Parent(c, g) - 1) * c.width + n.width == g && n.depth == level
  {
    hide Path, DirName;
    DivMod(g - 1, c.width);
  }

  /** Its name ends its path. */
  lemma NodeName(c: Config, level: nat, g: nat)
    requires c.Valid() && level >= 1 && g >= 1
    ensures EndsWith(NodeOf(c, level, g).fullPath, NodeOf(c, level, g).dirName)
  {
    hide DirName;
    var name := DirName(c.mask, level, Local(c, g));
    if level > 1 {
      PathStep(c, level, g);
      var above := Path(c, level - 1, Parent(c, g));
      assert (above + "/" + name)[|above| + 1..] == name;
    } else {
      assert name[|name| - |name|..] == name;
    }
  }

  // === Generation ===

  /** The memo key of a node. */
  function NodeKey(level: nat, g: nat): string {
    Decimal(level) + "_" + Decimal(g)
  }

  lemma NodeKeyInjective(k: nat, g: nat, l: nat, h: nat)
    requires NodeKey(k, g) == NodeKey(l, h)
    ensures k == l && g == h
  {
    assert forall c :: c in Decimal(k) || c in Decimal(l) ==> IsDigit(c);
    JoinInjective(Decimal(k), Decimal(g), Decimal(l), Decimal(h), '_');
    DecimalInjective(k, l);
    DecimalInjective(g, h);
  }

  /** Everything memoised so far is the node its key stands for. */
  ghost predicate Memo(c: Config, directories: map<string, Node>)
    requires c.width >= 1
  {
    forall l, g :: l >= 1 && g >= 1 && NodeKey(l, g) in directories ==> directories[NodeKey(l, g)] == NodeOf(c, l, g)
  }

  /** `by_level` holds exactly the levels 1..n. */
  ghost predicate LevelsUpTo(c: Config, byLevel: map<nat, seq<string>>, n: nat)
    requires c.width >= 1
  {
    forall l: nat :: (l in byLevel <==> 1 <= l <= n) && (l in byLevel && l >= 1 ==> byLevel[l] == LevelPaths(c, l))
  }

  lemma LevelPathsSnoc(c: Config, level: nat, g: nat)
    requires c.width >= 1 && level >= 1 && 1 <= g <= Pow(c.width, level)
    ensures LevelPaths(c, level)[..g] == LevelPaths(c, level)[..g - 1] + [Path(c, level, g)]
  {
    hide Path, Pow;
    assert LevelPaths(c, level)[g - 1] == Path(c, level, g);
  }

  datatype Outcome = Built | WidthIsZero | DepthIsZero | BadDistribution

  class DirectoryTree {
    const config: Config
    var directories: map<string, Node>
    var allPaths: seq<string>
    var byLevel: map<nat, seq<string>>
    var totalDirectories: nat
    var totalFiles: nat

    constructor (c: Config)
      ensures config == c && directories == map[] && allPaths == [] && byLevel == map[]
    {
      config, directories, allPaths, byLevel := c, map[], [], map[];
      totalDirectories, totalFiles := 0, 0;
    }

    /** Whether the parent is memoised or rebuilt by recursion, the node is the same. */
    method CreateNode(depth: nat, g: nat) returns (node: Node)
      requires config.width >= 1 && depth >= 1 && g >= 1 && Memo(config, directories)
      ensures node == NodeOf(config, depth, g) && node.fullPath == Path(config, depth, g)
      decreases depth
    {
      hide ReplaceFirst, Decimal, FindFrom, NodeKey;
      var local := (g - 1) % config.width + 1;
      var temp := ReplaceFirst(config.mask, "%d", Decimal(depth));
      var dirName := ReplaceFirst(temp, "%d", Decimal(local));
      var fullPath := dirName;
      if depth > 1 {
        var parent := (g - 1) / config.width + 1;
        var key := NodeKey(depth - 1, parent);
        if key in directories {
          fullPath := directories[key].fullPath + "/" + dirName;
        } else {
          var parentNode := CreateNode(depth - 1, parent);
          fullPath := parentNode.fullPath + "/" + dirName;
        }
      }
      var hasFiles := if config.distribution == "bottom" then depth == config.depth else config.distribution == "all";
      node := Node(depth, local, fullPath, dirName, hasFiles);
    }

    /** One pass of the generating loop: all directories of one level. */
    method AddLevel(level: nat)
      requires config.width >= 1 && level >= 1 && Memo(config, directories)
      modifies this`directories, this`allPaths, this`byLevel
      ensures Memo(config, directories)
      ensures allPaths == old(allPaths) + LevelPaths(config, level)
      ensures byLevel == old(byLevel)[level := LevelPaths(config, level)]
    {
      hide Memo, Path, NodeKey, NodeOf, LevelPaths;
      var levelPaths := [];
      var count := Pow(config.width, level);
      for g := 1 to count + 1
        invariant Memo(config, directories)
        invariant levelPaths == LevelPaths(config, level)[..g - 1]
        invariant allPaths == old(allPaths) + levelPaths
        invariant byLevel == old(byLevel)
      {
        var node := CreateNode(level, g);
        levelPaths := levelPaths + [node.fullPath];
        allPaths := allPaths + [node.fullPath];
        MemoInsert(config, directories, level, g);
        LevelPathsSnoc(config, level, g);
        directories := directories[NodeKey(level, g) := node];
      }
      assert LevelPaths(config, level)[..count] == LevelPaths(config, level);
      byLevel := byLevel[level := levelPaths];
    }

    method Generate() returns (outcome: Outcome)
      requires config.Valid() && directories == map[] && allPaths == [] && byLevel == map[]
      modifies this
      ensures outcome == if config.distribution == "bottom" || config.distribution == "all" then Built else BadDistribution
      ensures allPaths == AllPaths(config, config.depth)
      ensures LevelsUpTo(config, byLevel, config.depth)
      ensures totalDirectories == |allPaths|
      ensures outcome == Built ==> totalFiles == ClosedFormFiles(config)
    {
      hide Memo, LevelPaths;
      MemoEmpty(config);
      totalDirectories := 0;
      for level := 1 to config.depth + 1
        invariant totalDirectories == Offset(config.width, level)
        invariant directories == map[] && allPaths == [] && byLevel == map[]
      {
        totalDirectories := totalDirectories + Pow(config.width, level);
      }
      for level := 1 to config.depth + 1
        invariant Memo(config, directories)
        invariant allPaths == AllPaths(config, level - 1)
        invariant LevelsUpTo(config, byLevel, level - 1)
        invariant totalDirectories == Offset(config.width, config.depth + 1)
      {
        AddLevel(level);
      }
      AllPathsLength(config, config.depth);
      match config.distribution {
        case "bottom" =>
          totalFiles := Pow(config.width, config.depth) * config.filesPerDir;
          outcome := Built;
        case "all" =>
          totalFiles := totalDirectories * config.filesPerDir;
          outcome := Built;
        case _ => outcome := BadDistribution;
      }
    }
  }

  /** Number of files by the distribution strategy. */
  function ClosedFormFiles(c: Config): nat {
    (if c.distribution == "bottom" then Pow(c.width, c.depth) else Offset(c.width, c.depth + 1)) * c.filesPerDir
  }

  lemma MemoEmpty(c: Config)
    requires c.width >= 1
    ensures Memo(c, map[])
  {}

  lemma MemoInsert(c: Config, directories: map<string, Node>, level: nat, g: nat)
    requires c.width >= 1 && level >= 1 && g >= 1 && Memo(c, directories)
    ensures Memo(c, directories[NodeKey(level, g) := NodeOf(c, level, g)])
  {
    forall l, h | l >= 1 && h >= 1 && NodeKey(l, h) == NodeKey(level, g)
      ensures l == level && h == g
    {
      NodeKeyInjective(l, h, level, g);
    }
  }

  /** `new_with_progress`: the two refusals, then generation. */
  method NewTree(c: Config) returns (outcome: Outcome, tree: DirectoryTree?)
    ensures tree == null <==> outcome != Built
    ensures outcome == if c.width == 0 then WidthIsZero else if c.depth == 0 then DepthIsZero
                       else if c.distribution == "bottom" || c.distribution == "all" then Built else BadDistribution
    ensures tree != null ==> fresh(tree) && tree.config == c && tree.allPaths == AllPaths(c, c.depth)
    ensures tree != null ==> LevelsUpTo(c, tree.byLevel, c.depth) && tree.totalFiles == ClosedFormFiles(c)
  {
    if c.width == 0 {
      return WidthIsZero, null;
    }
    if c.depth == 0 {
      return DepthIsZero, null;
    }
    var t := new DirectoryTree(c);
    outcome := t.Generate();
    tree := if outcome == Built then t else null;
  }
}
