/** Autotune sweeps: trial numbers, and the objects each trial writes. */
module Autotune {
  import opened Text
  import opened Arithmetic

  // === Object names ===

  /** `s.replace('*', d)` */
  function ReplaceStars(s: string, d: string): string {
    if s == "" then "" else (if s[0] == '*' then d else [s[0]]) + ReplaceStars(s[1..], d)
  }

  function Stars(s: string): nat {
    multiset(s)['*']
  }

  /** The URIs `put_cmd` writes. */
  function ObjectUris(uri: string, objects: nat): seq<string> {
    if '*' in uri then seq(objects, i requires 0 <= i => ReplaceStars(uri, Padded(i, 6)))
    else if EndsWith(uri, "/") then seq(objects, i requires 0 <= i => uri + "obj_" + Padded(i, 6) + ".dat")
    else if objects > 1 then seq(objects, i requires 0 <= i => if i == 0 then uri else uri + "." + Decimal(i))
    else [uri]
  }

  lemma {:induction false} ReplaceConcat(a: string, b: string, d: string)
    ensures ReplaceStars(a + b, d) == ReplaceStars(a, d) + ReplaceStars(b, d)
  {
    if a == "" {
      assert a + b == b;
    } else {
      assert (a + b)[1..] == a[1..] + b;
      ReplaceConcat(a[1..], b, d);
    }
  }

  lemma {:induction false} ReplaceNothing(s: string, d: string)
    requires '*' !in s
    ensures ReplaceStars(s, d) == s
  {
    if s != "" {
      ReplaceNothing(s[1..], d);
    }
  }

  lemma {:induction false} ReplaceLength(s: string, d: string)
    ensures |ReplaceStars(s, d)| == |s| + Stars(s) * (|d| - 1)
  {
    if s != "" {
      ReplaceLength(s[1..], d);
      assert s == [s[0]] + s[1..];
      if s[0] == '*' {
        assert Stars(s) == Stars(s[1..]) + 1;
        Distribute(Stars(s), 1, |d| - 1);
      } else {
        assert Stars(s) == Stars(s[1..]);
      }
    }
  }

  /** The part of a URI before its first star. */
  function Fixed(uri: string): string
    requires '*' in uri
  {
    uri[..FirstIndex(uri, '*').value]
  }

  lemma ReplaceUnfold(uri: string, d: string)
    requires '*' in uri
    ensures ReplaceStars(uri, d) == Fixed(uri) + (d + ReplaceStars(uri[|Fixed(uri)| + 1..], d))
  {
    var k := FirstIndex(uri, '*').value;
    var head, tail := uri[..k], uri[k + 1..];
    hide FirstIndex;
    assert uri == head + (['*'] + tail);
    ReplaceConcat(head, ['*'] + tail, d);
    ReplaceNothing(head, d);
    assert (['*'] + tail)[1..] == tail;
    hide ReplaceStars;
  }

  lemma SameStarsSameNumber(uri: string, i: nat, j: nat)
    requires '*' in uri && ReplaceStars(uri, Padded(i, 6)) == ReplaceStars(uri, Padded(j, 6))
    ensures i == j
  {
    var x, y := Padded(i, 6), Padded(j, 6);
    hide ReplaceStars, Padded, Fixed;
    ReplaceLength(uri, x);
    ReplaceLength(uri, y);
    MulCancel(Stars(uri), |x| - 1, |y| - 1);
    ReplaceUnfold(uri, x);
    ReplaceUnfold(uri, y);
    HeadsEqual(Fixed(uri), x, ReplaceStars(uri[|Fixed(uri)| + 1..], x), y, ReplaceStars(uri[|Fixed(uri)| + 1..], y));
    PaddedInjective(i, j, 6);
  }

  lemma HeadsEqual(base: string, x: string, r: string, y: string, s: string)
    requires base + (x + r) == base + (y + s) && |x| == |y|
    ensures x == y
  {
    var whole := base + (x + r);
    assert whole[|base|..] == x + r && whole[|base|..] == y + s;
    assert (x + r)[..|x|] == x && (y + s)[..|y|] == y;
  }

  lemma NumberedAfter(head: string, i: nat, j: nat)
    ensures head + Decimal(i) == head + Decimal(j) ==> i == j
  {
    assert (head + Decimal(i))[|head|..] == Decimal(i) && (head + Decimal(j))[|head|..] == Decimal(j);
    if head + Decimal(i) == head + Decimal(j) {
      DecimalInjective(i, j);
    }
  }

  lemma NumberedBefore(head: string, i: nat, j: nat)
    ensures head + Padded(i, 6) + ".dat" == head + Padded(j, 6) + ".dat" ==> i == j
  {
    var x, y := head + Padded(i, 6) + ".dat", head + Padded(j, 6) + ".dat";
    assert x[|head|..|x| - 4] == Padded(i, 6) && y[|head|..|y| - 4] == Padded(j, 6);
    if x == y {
      PaddedInjective(i, j, 6);
    }
  }

  /** One upload never writes the same object twice, whatever shape the URI has and however many
      digits the numbers need. */
  lemma ObjectUrisDistinct(uri: string, objects: nat)
    ensures forall i, j :: 0 <= i < j < |ObjectUris(uri, objects)| ==> ObjectUris(uri, objects)[i] != ObjectUris(uri, objects)[j]
  {
    hide Padded, Decimal, ReplaceStars, EndsWith;
    var names := ObjectUris(uri, objects);
    forall i, j | 0 <= i < j < |names|
      ensures names[i] != names[j]
    {
      if '*' in uri {
        if names[i] == names[j] {
          SameStarsSameNumber(uri, i, j);
        }
      } else if EndsWith(uri, "/") {
        NumberedBefore(uri + "obj_", i, j);
      } else if i > 0 {
        NumberedAfter(uri + ".", i, j);
      } else {
        assert |names[j]| > |names[i]|;
      }
    }
  }

  /** How many objects an upload writes, and where: a pattern or a directory gets as many as asked for;
      a single URI is always written, with numbered ones beside it. */
  lemma ObjectUrisCount(uri: string, objects: nat)
    ensures var names := ObjectUris(uri, objects);
            && ('*' in uri || EndsWith(uri, "/") ==> |names| == objects)
            && ('*' !in uri && !EndsWith(uri, "/") ==> |names| == (if objects == 0 then 1 else objects) && names[0] == uri)
            && ('*' !in uri ==> forall i :: 0 <= i < |names| ==> uri <= names[i])
  {
    hide ReplaceStars, Padded, Decimal;
    var names := ObjectUris(uri, objects);
    if '*' !in uri {
      forall i | 0 <= i < |names|
        ensures uri <= names[i]
      {}
    }
  }

  // === Trials ===

  /** `build_trial_uri` */
  function TrialUri(base: string, trial: nat): string {
    match FirstIndex(base, '*')
    case Some(k) => base[..k] + "trial" + Padded(trial, 3) + "_*" + base[k + 1..]
    case None =>
      if EndsWith(base, "/") then base + "autotune/trial" + Padded(trial, 3) + "/obj*.dat"
      else base + ".trial" + Padded(trial, 3) + ".*"
  }

  /** The three shapes: a star gets the trial's name in front and stays, with all that follows it; a
      directory gets a sub-directory; any other base gets a suffix. */
  lemma TrialUriCases(a: string, b: string, trial: nat)
    requires '*' !in a
    ensures TrialUri(a + "*" + b, trial) == a + "trial" + Padded(trial, 3) + "_*" + b
    ensures TrialUri(a + "/", trial) == a + "/autotune/trial" + Padded(trial, 3) + "/obj*.dat"
    ensures a != "" && a[|a| - 1] != '/' ==> TrialUri(a, trial) == a + ".trial" + Padded(trial, 3) + ".*"
  {
    hide FirstIndex, Padded;
    var s := a + "*" + b;
    FirstIndexAt(s, '*', |a|);
    assert s[..|a|] == a && s[|a| + 1..] == b;
    assert EndsWith(a + "/", "/") && '*' !in a + "/";
    assert a + "/" + "autotune/trial" == a + "/autotune/trial";
  }

  /** What precedes and follows the trial number, and the rest after the star, in each shape. */
  function Shape(base: string): (r: (string, char, string, string))
    ensures '*' !in r.0 && !IsDigit(r.1) && r.1 != '*' && '*' !in r.2
  {
    match FirstIndex(base, '*')
    case Some(k) => (base[..k] + "trial", '_', "", base[k + 1..])
    case None => if EndsWith(base, "/") then (base + "autotune/trial", '/', "obj", ".dat") else (base + ".trial", '.', "", "")
  }

  lemma TrialUriShape(base: string, trial: nat)
    ensures var (head, sep, tail, rest) := Shape(base);
            var number := Padded(trial, 3);
            && TrialUri(base, trial) == head + (number + [sep] + tail) + "*" + rest
            && '*' in TrialUri(base, trial)
            && Fixed(TrialUri(base, trial)) == head + (number + [sep] + tail)
  {
    hide Padded, EndsWith;
    var (head, sep, tail, rest) := Shape(base);
    var number := Padded(trial, 3);
    var uri, fixed := TrialUri(base, trial), head + (number + [sep] + tail);
    match FirstIndex(base, '*') {
      case Some(k) => assert uri == fixed + "*" + rest;
      case None => assert uri == fixed + "*" + rest;
    }
    assert '*' !in number by {
      assert AllDigits(number);
    }
    assert uri[|fixed|] == '*' && uri[..|fixed|] == fixed;
    FirstIndexAt(uri, '*', |fixed|);
  }

  lemma ObjectsStartFixed(uri: string, objects: nat, i: nat)
    requires '*' in uri && i < objects
    ensures |ObjectUris(uri, objects)| == objects && StartsWith(ObjectUris(uri, objects)[i], Fixed(uri))
  {
    hide Padded, Fixed, ReplaceStars;
    ReplaceUnfold(uri, Padded(i, 6));
  }

  /** An object of trial `t` begins like the pattern of trial `s` only when s and t are the same: the
      pattern a trial reads back with matches no other trial's objects. */
  lemma PatternIsOwn(base: string, s: nat, t: nat, objects: nat, i: nat)
    requires i < objects
    ensures '*' in TrialUri(base, s) && |ObjectUris(TrialUri(base, t), objects)| == objects
    ensures StartsWith(ObjectUris(TrialUri(base, t), objects)[i], Fixed(TrialUri(base, s))) <==> s == t
  {
    hide ObjectUris, TrialUri, Fixed, Padded, Shape;
    TrialUriShape(base, s);
    TrialUriShape(base, t);
    ObjectsStartFixed(TrialUri(base, t), objects, i);
    var (head, sep, tail, _) := Shape(base);
    var name := ObjectUris(TrialUri(base, t), objects)[i];
    if StartsWith(name, Fixed(TrialUri(base, s))) {
      var x, y := Padded(s, 3), Padded(t, 3);
      BothStart(name, head, x + [sep] + tail, y + [sep] + tail);
      SplitsAlike(name[|head|..], x, tail, y, tail, sep);
      PaddedInjective(s, t, 3);
    }
  }

  lemma BothStart(name: string, head: string, a: string, b: string)
    requires head + a <= name && head + b <= name
    ensures a <= name[|head|..] && b <= name[|head|..]
  {
    assert name[..|head + a|][|head|..] == a && name[..|head + b|][|head|..] == b;
  }

  lemma SplitsAlike(s: string, x: string, u: string, y: string, v: string, sep: char)
    requires x + [sep] + u <= s && y + [sep] + v <= s && AllDigits(x) && AllDigits(y) && !IsDigit(sep)
    ensures x == y
  {
    var p, q := s[|x + [sep] + u|..], s[|y + [sep] + v|..];
    assert s == x + [sep] + (u + p) && s == y + [sep] + (v + q);
    JoinInjective(x, u + p, y, v + q, sep);
  }

  /** Different trials write disjoint sets of objects, for every shape of base URI. */
  lemma TrialsAreDisjoint(base: string, s: nat, t: nat, m: nat, n: nat)
    requires s != t
    ensures forall i, j :: 0 <= i < |ObjectUris(TrialUri(base, s), m)| && 0 <= j < |ObjectUris(TrialUri(base, t), n)|
              ==> ObjectUris(TrialUri(base, s), m)[i] != ObjectUris(TrialUri(base, t), n)[j]
  {
    hide TrialUri;
    TrialUriShape(base, s);
    TrialUriShape(base, t);
    var us, vs := ObjectUris(TrialUri(base, s), m), ObjectUris(TrialUri(base, t), n);
    assert |us| == m && |vs| == n;
    hide ObjectUris, Fixed;
    forall i, j | 0 <= i < |us| && 0 <= j < |vs|
      ensures us[i] != vs[j]
    {
      PatternIsOwn(base, s, s, m, i);
      PatternIsOwn(base, s, t, n, j);
    }
  }

  /** The sweep numbers its runs idx * trials + rep: each number below cases * trials once, in order. */
  method Sweep(base: string, cases: nat, trials: nat) returns (uris: seq<string>)
    ensures |uris| == cases * trials && forall k :: 0 <= k < |uris| ==> uris[k] == TrialUri(base, k)
  {
    hide TrialUri;
    uris := [];
    for idx := 0 to cases
      invariant |uris| == idx * trials && forall k :: 0 <= k < |uris| ==> uris[k] == TrialUri(base, k)
    {
      Distribute(idx + 1, idx, trials);
      var first := idx * trials;
      for rep := 0 to trials
        invariant |uris| == first + rep && forall k :: 0 <= k < |uris| ==> uris[k] == TrialUri(base, k)
      {
        uris := uris + [TrialUri(base, first + rep)];
      }
    }
  }

  /** The trial number determines the case and the repetition. */
  lemma TrialNumberUnique(idx: nat, rep: nat, trials: nat, idx': nat, rep': nat)
    requires rep < trials && rep' < trials && idx * trials + rep == idx' * trials + rep'
    ensures idx == idx' && rep == rep'
  {
    DivUnique(idx * trials + rep, trials, idx, rep);
    DivUnique(idx' * trials + rep', trials, idx', rep');
  }

  /** Every number below cases * trials is the number of some case and repetition. */
  lemma TrialNumberReached(n: nat, cases: nat, trials: nat)
    requires n < cases * trials
    ensures trials >= 1 && n / trials < cases && n % trials < trials && (n / trials) * trials + n % trials == n
  {
    assert trials == 0 ==> cases * trials == 0;
    QuotientBelow(n, trials, cases);
    DivMod(n, trials);
  }
}
