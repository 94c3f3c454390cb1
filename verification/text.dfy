/** Option values, decimal text and the string searches the Rust code relies on.
    Strings are sequences of characters; `usize` is the 64-bit machine word. */
module Text {

  datatype Option<+T> = None | Some(value: T)

  const USIZE_MAX: nat := 0xFFFF_FFFF_FFFF_FFFF

  type usize = n: int | 0 <= n <= USIZE_MAX

  // === Decimal text ===

  predicate IsDigit(c: char) {
    '0' <= c <= '9'
  }

  predicate AllDigits(s: string) {
    forall i :: 0 <= i < |s| ==> IsDigit(s[i])
  }

  function DigitChar(d: nat): (c: char)
    requires d < 10
    ensures IsDigit(c)
  {
    '0' + d as char
  }

  /** `format!("{}", n)` */
  function Decimal(n: nat): (s: string)
    ensures |s| > 0 && AllDigits(s)
  {
    if n < 10 then [DigitChar(n)] else Decimal(n / 10) + [DigitChar(n % 10)]
  }

  /** The number a digit string denotes. */
  function Value(s: string): nat
    requires AllDigits(s)
  {
    if s == "" then 0 else 10 * Value(s[..|s| - 1]) + (s[|s| - 1] as int - '0' as int)
  }

  function Zeros(k: nat): (s: string)
    ensures |s| == k && AllDigits(s)
  {
    seq(k, i => '0')
  }

  /** `format!("{:0width$}", n)`: at least `width` characters, more when the number needs them. */
  function Padded(n: nat, width: nat): (s: string)
    ensures |s| >= width && |s| > 0 && AllDigits(s)
  {
    var d := Decimal(n);
    if |d| < width then Zeros(width - |d|) + d else d
  }

  /** `str::parse::<usize>()`: an optional '+', at least one digit, no overflow. */
  function ParseUsize(s: string): Option<usize> {
    var digits := if |s| > 1 && s[0] == '+' then s[1..] else s;
    if digits == "" || !AllDigits(digits) || Value(digits) > USIZE_MAX then None
    else Some(Value(digits))
  }

  lemma {:induction false} DecimalValue(n: nat)
    ensures Value(Decimal(n)) == n
  {
    if n >= 10 {
      DecimalValue(n / 10);
      var d := Decimal(n);
      assert d[..|d| - 1] == Decimal(n / 10);
    }
  }

  lemma {:induction false} LeadingZeros(k: nat, s: string)
    requires AllDigits(s)
    ensures Value(Zeros(k) + s) == Value(s)
  {
    var t := Zeros(k) + s;
    if s == "" {
      if k > 0 {
        assert t[..k - 1] == Zeros(k - 1) + "";
        LeadingZeros(k - 1, s);
      }
    } else {
      assert t[..|t| - 1] == Zeros(k) + s[..|s| - 1];
      LeadingZeros(k, s[..|s| - 1]);
    }
  }

  /** A padded number denotes the number, however many digits it needs. */
  lemma PaddedValue(n: nat, width: nat)
    ensures Value(Padded(n, width)) == n
  {
    hide Decimal, Value;
    DecimalValue(n);
    var d := Decimal(n);
    if |d| < width {
      LeadingZeros(width - |d|, d);
    }
  }

  /** Printing then parsing is the identity on every machine word, at every padding width. */
  lemma PaddedParse(n: usize, width: nat)
    ensures ParseUsize(Padded(n, width)) == Some(n)
  {
    PaddedValue(n, width);
    var s := Padded(n, width);
    assert IsDigit(s[0]);
  }

  lemma {:induction false} NoLeadingZero(n: nat)
    ensures n > 0 ==> Decimal(n)[0] != '0'
    ensures Decimal(n) == "0" <==> n == 0
  {
    if n >= 10 {
      NoLeadingZero(n / 10);
      assert Decimal(n)[0] == Decimal(n / 10)[0];
      assert |Decimal(n)| == |Decimal(n / 10)| + 1;
    }
  }

  /** The shortest digit string that denotes the number, with zeros in front up to the width and no
      further. */
  lemma PaddedIsShortest(n: nat, width: nat)
    ensures var s := Padded(n, width);
            && |s| == (if |Decimal(n)| < width then width else |Decimal(n)|)
            && s[|s| - |Decimal(n)|..] == Decimal(n)
            && (forall i :: 0 <= i < |s| - |Decimal(n)| ==> s[i] == '0')
            && (n > 0 ==> Decimal(n)[0] != '0') && |Decimal(0)| == 1
  {
    NoLeadingZero(n);
  }

  /** What the parser accepts: digits that denote a machine word, with or without one plus sign. */
  lemma ParseUsizeIff(s: string, n: usize)
    ensures ParseUsize(s) == Some(n) <==>
            exists digits: string :: digits != "" && AllDigits(digits) && Value(digits) == n && (s == digits || s == "+" + digits)
  {
    if ParseUsize(s) == Some(n) {
      var digits := if |s| > 1 && s[0] == '+' then s[1..] else s;
      assert s == digits || s == "+" + digits;
    }
    if digits: string :| digits != "" && AllDigits(digits) && Value(digits) == n && (s == digits || s == "+" + digits) {
      assert IsDigit(digits[0]);
      assert s == "+" + digits ==> s[1..] == digits;
    }
  }

  lemma PaddedInjective(m: nat, n: nat, width: nat)
    requires Padded(m, width) == Padded(n, width)
    ensures m == n
  {
    PaddedValue(m, width);
    PaddedValue(n, width);
  }

  lemma DecimalInjective(m: nat, n: nat)
    requires Decimal(m) == Decimal(n)
    ensures m == n
  {
    DecimalValue(m);
    DecimalValue(n);
  }

  lemma Associate(a: string, b: string, c: string)
    ensures a + b + c == a + (b + c)
  {}

  // === Searches ===

  /** `s.find(c)` */
  function FirstIndex(s: string, c: char): (r: Option<nat>)
    ensures r.Some? ==> r.value < |s| && s[r.value] == c && c !in s[..r.value]
    ensures r.None? ==> c !in s
  {
    if s == "" then None
    else if s[0] == c then Some(0)
    else
      match FirstIndex(s[1..], c)
      case None => None
      case Some(i) => assert s[..i + 1] == [s[0]] + s[1..][..i]; Some(i + 1)
  }

  /** `s.rfind(c)` */
  function LastIndex(s: string, c: char): (r: Option<nat>)
    ensures r.Some? ==> r.value < |s| && s[r.value] == c && c !in s[r.value + 1..]
    ensures r.None? ==> c !in s
  {
    if s == "" then None
    else
      var last := |s| - 1;
      if s[last] == c then Some(last)
      else
        match LastIndex(s[..last], c)
        case None => None
        case Some(i) => assert s[i + 1..] == s[..last][i + 1..] + [s[last]]; Some(i)
  }

  lemma {:induction false} FirstIndexAt(s: string, c: char, i: nat)
    requires i < |s| && s[i] == c && c !in s[..i]
    ensures FirstIndex(s, c) == Some(i)
  {
    if i > 0 {
      assert s[0] == s[..i][0];
      assert s[1..][..i - 1] == s[..i][1..];
      FirstIndexAt(s[1..], c, i - 1);
    }
  }

  lemma {:induction false} LastIndexAt(s: string, c: char, i: nat)
    requires i < |s| && s[i] == c && c !in s[i + 1..]
    ensures LastIndex(s, c) == Some(i)
  {
    var last := |s| - 1;
    if i < last {
      assert s[last] == s[i + 1..][last - i - 1];
      assert s[..last][i + 1..] == s[i + 1..][..last - i - 1];
      LastIndexAt(s[..last], c, i);
    }
  }

  lemma {:induction false} LastIndexNone(s: string, c: char)
    requires c !in s
    ensures LastIndex(s, c) == None
  {
    if s != "" {
      LastIndexNone(s[..|s| - 1], c);
    }
  }

  /** Two joins at a separator that neither head contains agree only part by part. */
  lemma JoinInjective(a: string, x: string, b: string, y: string, sep: char)
    requires sep !in a && sep !in b && a + [sep] + x == b + [sep] + y
    ensures a == b && x == y
  {
    var s := a + [sep] + x;
    assert s[..|a|] == a && s[..|b|] == b;
    FirstIndexAt(s, sep, |a|);
    FirstIndexAt(s, sep, |b|);
    assert s[|a| + 1..] == x && s[|b| + 1..] == y;
  }

  /** `s.rsplit('/').next()`: everything after the last slash. */
  function BaseName(s: string): (r: string)
    ensures '/' !in r
    ensures exists k :: 0 <= k <= |s| && s[k..] == r
  {
    match LastIndex(s, '/')
    case None => assert s[0..] == s; s
    case Some(i) => s[i + 1..]
  }

  lemma BaseNameOfJoin(dir: string, name: string)
    requires '/' !in name
    ensures BaseName(dir + "/" + name) == name
  {
    var s := dir + "/" + name;
    assert s[|dir|] == '/';
    assert LastIndex(s, '/') == Some(|dir|);
    assert s[|dir| + 1..] == name;
  }

  /** Two joins whose last parts have no slash agree only part by part. */
  lemma SuffixAfterSlash(u: string, x: string, v: string, y: string)
    requires '/' !in x && '/' !in y
    requires u + "/" + x == v + "/" + y
    ensures u == v && x == y
  {
    BaseNameOfJoin(u, x);
    BaseNameOfJoin(v, y);
    assert (u + "/" + x)[..|u|] == u && (v + "/" + y)[..|v|] == v;
  }

  predicate StartsWith(s: string, p: string) {
    p <= s
  }

  predicate EndsWith(s: string, p: string) {
    |p| <= |s| && s[|s| - |p|..] == p
  }

  function StripPrefix(s: string, p: string): Option<string> {
    if p <= s then Some(s[|p|..]) else None
  }

  function StripSuffix(s: string, p: string): Option<string> {
    if EndsWith(s, p) then Some(s[..|s| - |p|]) else None
  }

  predicate OccursAt(s: string, p: string, i: nat) {
    i + |p| <= |s| && s[i..i + |p|] == p
  }

  /** `s.find(p)` for a string pattern, from position `i` on. */
  function FindFrom(s: string, p: string, i: nat): (r: Option<nat>)
    requires i <= |s|
    ensures r.Some? ==> i <= r.value && OccursAt(s, p, r.value) && forall j :: i <= j < r.value ==> !OccursAt(s, p, j)
    ensures r.None? ==> forall j :: i <= j ==> !OccursAt(s, p, j)
    decreases |s| - i
  {
    if OccursAt(s, p, i) then Some(i)
    else if i == |s| then None
    else FindFrom(s, p, i + 1)
  }

  predicate Contains(s: string, p: string) {
    FindFrom(s, p, 0).Some?
  }

  /** `s.replacen(p, to, 1)` */
  function ReplaceFirst(s: string, p: string, to: string): string {
    match FindFrom(s, p, 0)
    case None => s
    case Some(i) => s[..i] + to + s[i + |p|..]
  }
}
