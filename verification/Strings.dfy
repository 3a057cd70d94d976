/** The Python string operations the migration relies on, over `string`.
    Case folding covers ASCII letters only; white space is Python's `str.isspace` set. */
module Strings {

  predicate IsSpace(c: char) {
    var n := c as int;
    || 0x09 <= n <= 0x0D || 0x1C <= n <= 0x20 || n == 0x85 || n == 0xA0 || n == 0x1680
    || 0x2000 <= n <= 0x200A || n == 0x2028 || n == 0x2029 || n == 0x202F || n == 0x205F || n == 0x3000
  }

  function LowerChar(c: char): char {
    if 'A' <= c <= 'Z' then (c as int + 32) as char else c
  }

  function Lower(s: string): (r: string)
    ensures |r| == |s|
    ensures forall i :: 0 <= i < |s| ==> r[i] == LowerChar(s[i])
  {
    seq(|s|, i requires 0 <= i < |s| => LowerChar(s[i]))
  }

  /** `str.rstrip("/")` */
  function StripSlashes(s: string): string {
    if s != "" && s[|s| - 1] == '/' then StripSlashes(s[..|s| - 1]) else s
  }

  function StripLeft(s: string): string {
    if s != "" && IsSpace(s[0]) then StripLeft(s[1..]) else s
  }

  function StripRight(s: string): string {
    if s != "" && IsSpace(s[|s| - 1]) then StripRight(s[..|s| - 1]) else s
  }

  /** `str.strip()` */
  function Strip(s: string): string {
    StripRight(StripLeft(s))
  }

  predicate StartsWith(s: string, prefix: string) {
    prefix <= s
  }

  predicate EndsWith(s: string, suffix: string) {
    |suffix| <= |s| && s[|s| - |suffix|..] == suffix
  }

  function Digit(n: nat): char
    requires n < 10
  {
    (n + 48) as char
  }

  /** The decimal text an f-string prints for an id. */
  function Decimal(n: nat): (s: string)
    ensures s != ""
  {
    if n < 10 then [Digit(n)] else Decimal(n / 10) + [Digit(n % 10)]
  }

  lemma {:induction false} DecimalInjective(m: nat, n: nat)
    requires Decimal(m) == Decimal(n)
    ensures m == n
    decreases m
  {
    var s, t := Decimal(m), Decimal(n);
    assert s[|s| - 1] == Digit(m % 10) && t[|t| - 1] == Digit(n % 10);
    if 10 <= m && 10 <= n {
      assert s[..|s| - 1] == Decimal(m / 10) && t[..|t| - 1] == Decimal(n / 10);
      DecimalInjective(m / 10, n / 10);
    }
  }

  lemma {:induction false} StripSlashesSpec(s: string)
    ensures StripSlashes(s) <= s
    ensures StripSlashes(s) == "" || StripSlashes(s)[|StripSlashes(s)| - 1] != '/'
    ensures forall i :: |StripSlashes(s)| <= i < |s| ==> s[i] == '/'
  {
    if s != "" && s[|s| - 1] == '/' {
      StripSlashesSpec(s[..|s| - 1]);
    }
  }

  /** `StripSlashes` returns the only prefix with its three properties. */
  lemma {:induction false} StripSlashesUnique(s: string, r: string)
    requires r <= s
    requires r == "" || r[|r| - 1] != '/'
    requires forall i :: |r| <= i < |s| ==> s[i] == '/'
    ensures StripSlashes(s) == r
  {
    StripSlashesSpec(s);
    assert |StripSlashes(s)| == |r|;
  }

  lemma {:induction false} StripSpec(s: string)
    ensures |Strip(s)| <= |s|
    ensures |Strip(s)| == |s| ==> Strip(s) == s
    ensures Strip(s) == s <==> s == "" || (!IsSpace(s[0]) && !IsSpace(s[|s| - 1]))
  {
    StripLeftSpec(s);
    StripRightSpec(StripLeft(s));
  }

  lemma {:induction false} StripStart(s: string)
    ensures Strip(s) == "" || !IsSpace(Strip(s)[0])
  {
    StripLeftStart(s);
    StripRightPrefix(StripLeft(s));
  }

  lemma {:induction false} StripLeftStart(s: string)
    ensures StripLeft(s) == "" || !IsSpace(StripLeft(s)[0])
  {
    if s != "" && IsSpace(s[0]) {
      StripLeftStart(s[1..]);
    }
  }

  lemma {:induction false} StripRightPrefix(s: string)
    ensures StripRight(s) <= s
  {
    if s != "" && IsSpace(s[|s| - 1]) {
      StripRightPrefix(s[..|s| - 1]);
    }
  }

  lemma {:induction false} StripLeftSpec(s: string)
    ensures |StripLeft(s)| <= |s|
    ensures |StripLeft(s)| == |s| <==> s == "" || !IsSpace(s[0])
    ensures |StripLeft(s)| == |s| ==> StripLeft(s) == s
  {
    if s != "" && IsSpace(s[0]) {
      StripLeftSpec(s[1..]);
    }
  }

  lemma {:induction false} StripRightSpec(s: string)
    ensures |StripRight(s)| <= |s|
    ensures |StripRight(s)| == |s| <==> s == "" || !IsSpace(s[|s| - 1])
    ensures |StripRight(s)| == |s| ==> StripRight(s) == s
  {
    if s != "" && IsSpace(s[|s| - 1]) {
      StripRightSpec(s[..|s| - 1]);
    }
  }

  ghost predicate AllSlashes(s: string) {
    forall i :: 0 <= i < |s| ==> s[i] == '/'
  }

  ghost predicate NoSpace(s: string) {
    forall i :: 0 <= i < |s| ==> !IsSpace(s[i])
  }

  lemma {:induction false} StripSlashesTail(a: string, b: string, tail: string)
    requires AllSlashes(tail)
    requires a == "" || StripSlashes(b) != ""
    ensures StripSlashes(a + b + tail) == a + StripSlashes(b)
  {
    StripSlashesSpec(b);
    var r := a + StripSlashes(b);
    var whole := a + b + tail;
    assert r == whole[..|r|];
    assert forall i :: |r| <= i < |whole| ==> whole[i] == if i < |a| + |b| then b[i - |a|] else tail[i - |a| - |b|];
    StripSlashesUnique(whole, r);
  }

  lemma LowerConcat(a: string, b: string)
    ensures Lower(a + b) == Lower(a) + Lower(b)
  {
  }

  lemma LowerKeeps(s: string)
    ensures NoSpace(Lower(s)) <==> NoSpace(s)
    ensures AllSlashes(Lower(s)) <==> AllSlashes(s)
  {
  }

  lemma ConcatAssociative(a: string, b: string, c: string)
    ensures a + b + c == a + (b + c)
  {
  }

  lemma CancelLeft(p: string, a: string, b: string)
    requires p + a == p + b
    ensures a == b
  {
    assert a == (p + a)[|p|..] && b == (p + b)[|p|..];
  }
}
