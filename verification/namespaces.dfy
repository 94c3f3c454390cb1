/** Per-agent URI namespaces: the prefix an agent gets, and what it means for the URIs it uses. */
module Namespaces {
  import opened Text
  import opened Arithmetic

  // === Joining ===

  function TrimSlashes(s: string): (r: string)
    ensures r != "" ==> r[0] != '/'
  {
    if s != "" && s[0] == '/' then TrimSlashes(s[1..]) else s
  }

  /** Only leading slashes go, and all of them. */
  lemma {:induction false} TrimsLeadingSlashes(slashes: string, rest: string)
    requires (forall i :: 0 <= i < |slashes| ==> slashes[i] == '/') && (rest == "" || rest[0] != '/')
    ensures TrimSlashes(slashes + rest) == rest
  {
    if slashes == "" {
      assert slashes + rest == rest;
    } else {
      assert (slashes + rest)[1..] == slashes[1..] + rest;
      TrimsLeadingSlashes(slashes[1..], rest);
    }
  }

  predicate EndsInSlash(s: string) {
    s != "" && s[|s| - 1] == '/'
  }

  /** `join_uri_path` */
  function JoinUriPath(base: string, suffix: string): string {
    if suffix == "" then base
    else
      match FindFrom(base, "://", 0)
      case Some(i) =>
        var scheme, path := base[..i + 3], base[i + 3..];
        scheme + (if path == "" || EndsInSlash(path) then path else path + "/") + TrimSlashes(suffix)
      case None =>
        (if base == "" || EndsInSlash(base) then base else base + "/") + TrimSlashes(suffix)
  }

  /** A base with a slash at its end; the empty base stays empty. */
  function Slashed(base: string): string {
    if base == "" || EndsInSlash(base) then base else base + "/"
  }

  /** With or without a scheme, joining puts exactly one slash between base and suffix. */
  lemma JoinIsSlashed(base: string, suffix: string)
    ensures suffix != "" ==> JoinUriPath(base, suffix) == Slashed(base) + TrimSlashes(suffix)
    ensures suffix == "" ==> JoinUriPath(base, suffix) == base
  {
    var at := FindFrom(base, "://", 0);
    if at.Some? {
      var i := at.value;
      var scheme, path := base[..i + 3], base[i + 3..];
      assert base == scheme + path;
      assert base[i + 2] == base[i..i + 3][2] == '/';
      assert scheme + (path + "/") == base + "/";
    }
  }

  // === Resolving ===

  predicate Relative(path: string) {
    !Contains(path, "://")
  }

  /** `resolve_uri` */
  function ResolveUri(target: Option<string>, path: string): string {
    match target
    case None => path
    case Some(base) =>
      if Contains(path, "://") then path
      else if EndsInSlash(base) then base + path
      else base + "/" + path
  }

  /** An absolute URI, and any path when there is no target, stands for itself; a relative one stands
      below the target, with one slash in between. */
  lemma ResolveCases(target: string, path: string)
    ensures ResolveUri(None, path) == path
    ensures !Relative(path) ==> ResolveUri(Some(target), path) == path
    ensures Relative(path) ==> ResolveUri(Some(target + "/"), path) == target + "/" + path
    ensures Relative(path) && (target == "" || target[|target| - 1] != '/') ==> ResolveUri(Some(target), path) == target + "/" + path
  {
    hide Contains;
  }

  function PrefixedTarget(target: string, prefix: string): string {
    JoinUriPath(target, prefix)
  }

  /** What an agent with this prefix has in common in all its URIs. */
  function Space(target: string, prefix: string): string {
    Slashed(target) + Slashed(TrimSlashes(prefix))
  }

  lemma ResolveInSpace(target: string, prefix: string, path: string)
    requires TrimSlashes(prefix) != "" && Relative(path)
    ensures ResolveUri(Some(PrefixedTarget(target, prefix)), path) == Space(target, prefix) + path
  {
    hide TrimSlashes, Contains;
    assert prefix != "" by {
      TrimEmpty();
    }
    JoinIsSlashed(target, prefix);
    var p := TrimSlashes(prefix);
    var t := Slashed(target) + p;
    assert t[|t| - 1] == p[|p| - 1];
    if EndsInSlash(p) {
      assert Slashed(p) == p;
    } else {
      assert t + "/" == Slashed(target) + (p + "/");
    }
  }

  lemma TrimEmpty()
    ensures TrimSlashes("") == ""
  {}

  /** One namespace can be reached from inside the other by a relative path. */
  predicate Reaches(outer: string, inner: string) {
    outer <= inner && Relative(inner[|outer|..])
  }

  lemma {:induction false} ContainsMore(s: string, t: string, p: string)
    requires Contains(s, p)
    ensures Contains(s + t, p)
  {
    var i := FindFrom(s, p, 0).value;
    assert OccursAt(s + t, p, i) by {
      assert (s + t)[i..i + |p|] == s[i..i + |p|];
    }
  }

  lemma SamePathReaches(a: string, b: string, x: string, y: string)
    requires a + x == b + y && Relative(x) && Relative(y)
    ensures Reaches(a, b) || Reaches(b, a)
  {
    hide Contains;
    var whole := a + x;
    assert whole[..|a|] == a && whole[..|b|] == b && whole[|a|..] == x && whole[|b|..] == y;
    if |a| <= |b| {
      assert a == b[..|a|];
      assert x == b[|a|..] + y;
      if Contains(b[|a|..], "://") {
        ContainsMore(b[|a|..], y, "://");
      }
    } else {
      assert b == a[..|b|];
      assert y == a[|b|..] + x;
      if Contains(a[|b|..], "://") {
        ContainsMore(a[|b|..], x, "://");
      }
    }
  }

  lemma EmptyIsRelative()
    ensures Relative("")
  {}

  /** Two agents never resolve relative paths to the same URI, whatever the target, exactly when
      neither namespace reaches into the other. */
  lemma NamespacesDisjointIff(target: string, p: string, q: string)
    requires TrimSlashes(p) != "" && TrimSlashes(q) != ""
    ensures (forall x, y | Relative(x) && Relative(y) ::
               ResolveUri(Some(PrefixedTarget(target, p)), x) != ResolveUri(Some(PrefixedTarget(target, q)), y))
            <==> !Reaches(Space(target, p), Space(target, q)) && !Reaches(Space(target, q), Space(target, p))
  {
    hide TrimSlashes, Contains, Relative, ResolveUri, PrefixedTarget, Space;
    var a, b := Space(target, p), Space(target, q);
    EmptyIsRelative();
    if Reaches(a, b) {
      ResolveInSpace(target, p, b[|a|..]);
      ResolveInSpace(target, q, "");
      assert a + b[|a|..] == b + "";
    } else if Reaches(b, a) {
      ResolveInSpace(target, p, "");
      ResolveInSpace(target, q, a[|b|..]);
      assert b + a[|b|..] == a + "";
    } else {
      forall x, y | Relative(x) && Relative(y)
        ensures ResolveUri(Some(PrefixedTarget(target, p)), x) != ResolveUri(Some(PrefixedTarget(target, q)), y)
      {
        ResolveInSpace(target, p, x);
        ResolveInSpace(target, q, y);
        if a + x == b + y {
          SamePathReaches(a, b, x, y);
        }
      }
    }
  }

  lemma PrefixCancel(base: string, a: string, b: string)
    ensures base + a <= base + b <==> a <= b
    ensures base + a == base + b <==> a == b
  {
    assert (base + a)[|base|..] == a && (base + b)[|base|..] == b;
    if base + a <= base + b {
      assert (base + b)[..|base + a|][|base|..] == b[..|a|];
    }
    if a <= b {
      assert base + b == base + a + b[|a|..];
    }
  }

  // === Templates ===

  /** `path_template.replace("{id}", ...)` */
  function FillIn(template: string, d: string): string {
    if template == "" then ""
    else if "{id}" <= template then d + FillIn(template[4..], d)
    else [template[0]] + FillIn(template[1..], d)
  }

  /** How often a template names the agent. */
  function Ids(template: string): nat {
    if template == "" then 0 else if "{id}" <= template then 1 + Ids(template[4..]) else Ids(template[1..])
  }

  lemma {:induction false} FillInLength(template: string, d: string)
    ensures |FillIn(template, d)| + 4 * Ids(template) == |template| + Ids(template) * |d|
  {
    if template != "" {
      if "{id}" <= template {
        FillInLength(template[4..], d);
        Distribute(Ids(template), 1, |d|);
      } else {
        FillInLength(template[1..], d);
      }
    }
  }

  lemma {:induction false} NothingToFill(template: string, d: string)
    requires Ids(template) == 0
    ensures FillIn(template, d) == template
  {
    if template != "" {
      NothingToFill(template[1..], d);
    }
  }

  lemma PlaceholderBeforeSlash(a: string, b: string)
    ensures "{id}" <= a + "/" + b <==> "{id}" <= a
  {
    var whole := a + "/" + b;
    if |a| < 4 {
      assert whole[|a|] == '/';
      assert '/' !in "{id}";
    } else {
      assert whole[..4] == a[..4];
    }
  }

  /** The placeholder has no slash, so a template is filled in segment by segment. */
  lemma {:induction false} FillInSegments(a: string, b: string, d: string)
    ensures FillIn(a + "/" + b, d) == FillIn(a, d) + "/" + FillIn(b, d)
    ensures Ids(a + "/" + b) == Ids(a) + Ids(b)
  {
    hide FillIn, Ids;
    var whole := a + "/" + b;
    PlaceholderBeforeSlash(a, b);
    FillInUnfold(whole, d);
    FillInUnfold(a, d);
    if a == "" {
      assert whole[1..] == b && whole[..1] == "/";
    } else if "{id}" <= a {
      assert whole[4..] == a[4..] + "/" + b;
      FillInSegments(a[4..], b, d);
    } else {
      assert whole[1..] == a[1..] + "/" + b && whole[..1] == a[..1];
      FillInSegments(a[1..], b, d);
    }
  }

  lemma FillInUnfold(template: string, d: string)
    ensures template == "" ==> FillIn(template, d) == "" && Ids(template) == 0
    ensures "{id}" <= template ==> FillIn(template, d) == d + FillIn(template[4..], d) && Ids(template) == 1 + Ids(template[4..])
    ensures template != "" && !("{id}" <= template) ==>
              FillIn(template, d) == template[..1] + FillIn(template[1..], d) && Ids(template) == Ids(template[1..])
  {}

  lemma {:induction false} FillInNoSlash(a: string, d: string)
    requires '/' !in a && '/' !in d
    ensures '/' !in FillIn(a, d)
  {
    if a != "" {
      FillInNoSlash(if "{id}" <= a then a[4..] else a[1..], d);
    }
  }

  lemma SameLength(template: string, x: string, y: string)
    requires Ids(template) > 0 && |FillIn(template, x)| == |FillIn(template, y)|
    ensures |x| == |y|
  {
    FillInLength(template, x);
    FillInLength(template, y);
    MulCancel(Ids(template), |x|, |y|);
  }

  lemma {:induction false} FillInInjective(template: string, x: string, y: string)
    requires Ids(template) > 0 && |x| == |y| && FillIn(template, x) == FillIn(template, y)
    ensures x == y
  {
    if "{id}" <= template {
      assert FillIn(template, x)[..|x|] == x && FillIn(template, y)[..|y|] == y;
    } else {
      assert FillIn(template, x)[1..] == FillIn(template[1..], x) && FillIn(template, y)[1..] == FillIn(template[1..], y);
      FillInInjective(template[1..], x, y);
    }
  }

  lemma DecimalHasNoSlash(i: nat)
    ensures Decimal(i) != "" && '/' !in Decimal(i)
  {
    assert AllDigits(Decimal(i));
  }

  /** Filled in with different numbers, a template that ends in a slash never begins the other. */
  lemma {:induction false} NumbersDoNotReach(template: string, i: nat, j: nat)
    requires EndsInSlash(template) && Ids(template) > 0 && i != j
    ensures !(FillIn(template, Decimal(i)) <= FillIn(template, Decimal(j)))
    decreases |template|
  {
    hide Decimal, FillIn, Ids;
    var x, y := Decimal(i), Decimal(j);
    DecimalHasNoSlash(i);
    DecimalHasNoSlash(j);
    assert template[|template| - 1] in template;
    var cut := FirstIndex(template, '/').value;
    var seg, rest := template[..cut], template[cut + 1..];
    assert template == seg + "/" + rest;
    FillInSegments(seg, rest, x);
    FillInSegments(seg, rest, y);
    FillInNoSlash(seg, x);
    FillInNoSlash(seg, y);
    if FillIn(template, x) <= FillIn(template, y) {
      SegmentsAgree(FillIn(seg, x), FillIn(rest, x), FillIn(seg, y), FillIn(rest, y));
      if Ids(seg) > 0 {
        SameLength(seg, x, y);
        FillInInjective(seg, x, y);
        DecimalInjective(i, j);
      } else {
        NonEmptyIds(rest);
        assert rest[|rest| - 1] == template[|template| - 1];
        NumbersDoNotReach(rest, i, j);
      }
    }
  }

  lemma NonEmptyIds(template: string)
    requires Ids(template) > 0
    ensures template != ""
  {}

  lemma SegmentsAgree(a: string, x: string, b: string, y: string)
    requires '/' !in a && '/' !in b && a + "/" + x <= b + "/" + y
    ensures a == b && x <= y
  {
    var more := (b + "/" + y)[|a + "/" + x|..];
    assert b + ['/'] + y == a + ['/'] + (x + more);
    JoinInjective(b, y, a, x + more, '/');
  }

  lemma {:induction false} TrimFilled(template: string, d: string)
    requires d != "" && d[0] != '/' && Ids(template) > 0
    ensures TrimSlashes(FillIn(template, d)) == FillIn(TrimSlashes(template), d) != ""
    ensures Ids(TrimSlashes(template)) == Ids(template)
  {
    if template[0] == '/' {
      assert !("{id}" <= template);
      TrimFilled(template[1..], d);
      assert FillIn(template, d)[1..] == FillIn(template[1..], d);
    } else {
      assert FillIn(template, d)[0] != '/';
    }
  }

  lemma SlashedFilled(template: string, d: string)
    requires template != "" && d != "" && '/' !in d && FillIn(template, d) != ""
    ensures Slashed(FillIn(template, d)) == FillIn(Slashed(template), d) && Ids(Slashed(template)) == Ids(template)
  {
    var body := if EndsInSlash(template) then template[..|template| - 1] else template;
    assert Slashed(template) == body + "/" + "";
    FillInSegments(body, "", d);
    assert FillIn("", d) == "" && Ids("") == 0;
    if EndsInSlash(template) {
      assert template == body + "/" + "";
    } else {
      LastFilled(template, d);
    }
  }

  /** A filled-in template ends in a slash only when the template does. */
  lemma {:induction false} LastFilled(template: string, d: string)
    requires !EndsInSlash(template) && d != "" && '/' !in d
    ensures !EndsInSlash(FillIn(template, d))
  {
    if template != "" {
      var rest := if "{id}" <= template then template[4..] else template[1..];
      var head := if "{id}" <= template then d else [template[0]];
      LastFilled(rest, d);
      assert FillIn(template, d) == head + FillIn(rest, d);
      if FillIn(rest, d) == "" {
        FilledEmpty(rest, d);
        assert head[|head| - 1] in head;
      } else {
        assert (head + FillIn(rest, d))[|head| + |FillIn(rest, d)| - 1] == FillIn(rest, d)[|FillIn(rest, d)| - 1];
      }
    }
  }

  lemma FilledEmpty(template: string, d: string)
    requires d != "" && FillIn(template, d) == ""
    ensures template == ""
  {}

  lemma NumberedSpace(target: string, template: string, i: nat)
    requires Ids(template) > 0
    ensures TrimSlashes(FillIn(template, Decimal(i))) != ""
    ensures Space(target, FillIn(template, Decimal(i))) == Slashed(target) + FillIn(Slashed(TrimSlashes(template)), Decimal(i))
    ensures EndsInSlash(Slashed(TrimSlashes(template))) && Ids(Slashed(TrimSlashes(template))) > 0
  {
    hide FillIn, Ids, Decimal;
    var d := Decimal(i);
    DecimalHasNoSlash(i);
    assert d[0] in d;
    TrimFilled(template, d);
    NonEmptyIds(TrimSlashes(template));
    SlashedFilled(TrimSlashes(template), d);
  }

  /** What agent `i` makes of a relative path under this template. */
  function AgentUri(target: string, template: string, i: nat, path: string): string {
    ResolveUri(Some(PrefixedTarget(target, FillIn(template, Decimal(i)))), path)
  }

  /** Agents with different numbers never resolve relative paths to the same URI exactly when the
      template names the agent: "agent-1/" does not reach into "agent-10/". */
  lemma NumberedAgentsDisjointIff(target: string, template: string)
    ensures (forall i, j, x, y | i != j && Relative(x) && Relative(y) :: AgentUri(target, template, i, x) != AgentUri(target, template, j, y))
            <==> Ids(template) > 0
  {
    hide FillIn, Ids, Decimal, Relative, AgentUri;
    EmptyIsRelative();
    if Ids(template) > 0 {
      forall i, j, x, y | i != j && Relative(x) && Relative(y)
        ensures AgentUri(target, template, i, x) != AgentUri(target, template, j, y)
      {
        TwoAgentsApart(target, template, i, j, x, y);
      }
    } else {
      SameForAll(target, template, 0, 1, "");
      assert AgentUri(target, template, 0, "") == AgentUri(target, template, 1, "");
    }
  }

  lemma SameForAll(target: string, template: string, i: nat, j: nat, path: string)
    requires Ids(template) == 0
    ensures AgentUri(target, template, i, path) == AgentUri(target, template, j, path)
  {
    NothingToFill(template, Decimal(i));
    NothingToFill(template, Decimal(j));
  }

  lemma TwoAgentsApart(target: string, template: string, i: nat, j: nat, x: string, y: string)
    requires Ids(template) > 0 && i != j && Relative(x) && Relative(y)
    ensures AgentUri(target, template, i, x) != AgentUri(target, template, j, y)
  {
    hide FillIn, Ids, Decimal, Relative, ResolveUri, PrefixedTarget, Space, TrimSlashes, EndsInSlash, Slashed;
    NumberedSpace(target, template, i);
    NumberedSpace(target, template, j);
    var p, q := FillIn(template, Decimal(i)), FillIn(template, Decimal(j));
    var t := Slashed(TrimSlashes(template));
    NumbersDoNotReach(t, i, j);
    NumbersDoNotReach(t, j, i);
    PrefixCancel(Slashed(target), FillIn(t, Decimal(i)), FillIn(t, Decimal(j)));
    PrefixCancel(Slashed(target), FillIn(t, Decimal(j)), FillIn(t, Decimal(i)));
    NamespacesDisjointIff(target, p, q);
  }

  // === Rewriting a configuration ===

  /** The base URI of a prepare entry on per-agent storage. */
  function RewriteBase(target: string, prefix: string, base: string): string {
    if StartsWith(base, target) then PrefixedTarget(target, prefix) + base[|target|..] else JoinUriPath(base, prefix)
  }

  function RewriteAll(bases: seq<Option<string>>, target: string, prefix: string): (r: seq<Option<string>>)
    ensures |r| == |bases|
  {
    seq(|bases|, i requires 0 <= i < |bases| =>
      match bases[i] case None => None case Some(base) => Some(RewriteBase(target, prefix, base)))
  }

  class Config {
    var target: Option<string>
    var hasPrepare: bool
    var baseUris: seq<Option<string>>

    constructor (target: Option<string>, hasPrepare: bool, baseUris: seq<Option<string>>)
      ensures this.target == target && this.hasPrepare == hasPrepare && this.baseUris == baseUris
    {
      this.target, this.hasPrepare, this.baseUris := target, hasPrepare, baseUris;
    }

    method ApplyAgentPrefix(prefix: string, sharedStorage: bool)
      modifies this`target, this`baseUris
      ensures target == match old(target) case None => None case Some(t) => Some(PrefixedTarget(t, prefix))
      ensures baseUris == if sharedStorage || !hasPrepare || old(target).None? then old(baseUris) else RewriteAll(old(baseUris), old(target).value, prefix)
      ensures !sharedStorage && hasPrepare && old(target).Some? ==>
                && |baseUris| == |old(baseUris)|
                && forall i :: 0 <= i < |baseUris| ==>
                     && (old(baseUris)[i].None? ==> baseUris[i].None?)
                     && (old(baseUris)[i].Some? ==> baseUris[i] == Some(RewriteBase(old(target).value, prefix, old(baseUris)[i].value)))
    {
      hide JoinUriPath;
      var original := target;
      if target.Some? {
        target := Some(JoinUriPath(target.value, prefix));
      }
      if !sharedStorage {
        if hasPrepare {
          if target.Some? && original.Some? {
            ghost var was := baseUris;
            for i := 0 to |baseUris|
              invariant |baseUris| == |was| && target == Some(PrefixedTarget(original.value, prefix))
              invariant forall k :: 0 <= k < |was| ==> baseUris[k] == if k < i then RewriteAll(was, original.value, prefix)[k] else was[k]
            {
              if baseUris[i].Some? {
                var base := baseUris[i].value;
                if StartsWith(base, original.value) {
                  baseUris := baseUris[i := Some(target.value + base[|original.value|..])];
                } else {
                  baseUris := baseUris[i := Some(JoinUriPath(base, prefix))];
                }
              }
            }
          }
        }
      }
    }
  }

  /** Per-agent storage: what was under the target stays under the agent's target, at the same place. */
  lemma RewriteStaysUnder(target: string, prefix: string, base: string)
    requires StartsWith(base, target)
    ensures StartsWith(RewriteBase(target, prefix, base), PrefixedTarget(target, prefix))
    ensures RewriteBase(target, prefix, base)[|PrefixedTarget(target, prefix)|..] == base[|target|..]
  {}

  /** A base outside the target gets the prefix at its own end; an empty prefix changes nothing anywhere. */
  lemma RewriteOutside(target: string, prefix: string, base: string)
    ensures !(target <= base) && prefix != "" && base != "" ==>
              RewriteBase(target, prefix, base) == (if base[|base| - 1] == '/' then base else base + "/") + TrimSlashes(prefix)
    ensures RewriteBase(target, "", base) == base
  {
    JoinIsSlashed(base, prefix);
    JoinIsSlashed(base, "");
    JoinIsSlashed(target, "");
    hide JoinUriPath, TrimSlashes;
  }

  lemma RewriteIs(target: string, prefix: string, rest: string)
    requires prefix != ""
    ensures RewriteBase(target, prefix, target + rest) == Slashed(target) + (TrimSlashes(prefix) + rest)
  {
    hide JoinUriPath, TrimSlashes, Slashed;
    JoinIsSlashed(target, prefix);
    var base := target + rest;
    assert base[|target|..] == rest && StartsWith(base, target);
    Associate(Slashed(target), TrimSlashes(prefix), rest);
  }

  /** Prepared sets of different agents are apart, for all base URIs under the target, exactly when
      neither prefix (without leading slashes) begins the other. */
  lemma PreparedDisjointIff(target: string, p: string, q: string)
    requires p != "" && q != ""
    ensures (forall r, s :: RewriteBase(target, p, target + r) != RewriteBase(target, q, target + s))
            <==> !(TrimSlashes(p) <= TrimSlashes(q)) && !(TrimSlashes(q) <= TrimSlashes(p))
  {
    hide TrimSlashes, RewriteBase, Slashed;
    var root, x, y := Slashed(target), TrimSlashes(p), TrimSlashes(q);
    if x <= y {
      RewriteIs(target, p, y[|x|..]);
      RewriteIs(target, q, "");
      assert x + y[|x|..] == y + "";
    } else if y <= x {
      RewriteIs(target, p, "");
      RewriteIs(target, q, x[|y|..]);
      assert y + x[|y|..] == x + "";
    } else {
      forall r, s
        ensures RewriteBase(target, p, target + r) != RewriteBase(target, q, target + s)
      {
        RewriteIs(target, p, r);
        RewriteIs(target, q, s);
        PrefixCancel(root, x + r, y + s);
        if x + r == y + s {
          PrefixesOfOne(x, r, y, s);
        }
      }
    }
  }

  lemma PrefixesOfOne(x: string, r: string, y: string, s: string)
    requires x + r == y + s
    ensures x <= y || y <= x
  {
    assert (x + r)[..|x|] == x && (x + r)[..|y|] == y;
  }

  /** The prepared data of an agent is where its workload looks for it exactly when the target and the
      prefix agree on ending in a slash. */
  lemma PreparedWhereReadIff(target: string, prefix: string, path: string)
    requires TrimSlashes(prefix) != "" && Relative(path)
    ensures RewriteBase(target, prefix, ResolveUri(Some(target), path)) == ResolveUri(Some(PrefixedTarget(target, prefix)), path)
            <==> (EndsInSlash(target) <==> EndsInSlash(TrimSlashes(prefix)))
  {
    hide TrimSlashes, Contains, JoinUriPath, RewriteBase, ResolveUri, PrefixedTarget, Slashed, EndsInSlash;
    TrimEmpty();
    ResolveInSpace(target, prefix, path);
    var middle, p, root := if EndsInSlash(target) then "" else "/", TrimSlashes(prefix), Slashed(target);
    ResolveIs(target, middle, path);
    RewriteIs(target, prefix, middle + path);
    Associate(root, Slashed(p), path);
    PrefixCancel(root, p + (middle + path), Slashed(p) + path);
    SlashedIs(p, middle, path);
  }

  lemma ResolveIs(target: string, middle: string, path: string)
    requires Relative(path) && middle == if EndsInSlash(target) then "" else "/"
    ensures ResolveUri(Some(target), path) == target + (middle + path)
  {
    assert target + ("" + path) == target + path && target + ("/" + path) == target + "/" + path;
  }

  lemma SlashedIs(p: string, middle: string, path: string)
    requires p != "" && (middle == "" || middle == "/")
    ensures p + (middle + path) == Slashed(p) + path <==> (middle == "" <==> EndsInSlash(p))
  {
    assert |p + (middle + path)| == |p| + |middle| + |path|;
    assert p + ("" + path) == p + path && p + ("/" + path) == p + "/" + path;
  }
}
