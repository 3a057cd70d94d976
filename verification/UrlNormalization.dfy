/** `_norm_url` and `_norm_helm_url`: the fuzzy key by which free-text registry and
    repository addresses are matched to legacy rows. */
module UrlNormalization {
  import opened Wrappers
  import opened Strings

  const HTTPS := "https://"
  const HTTP := "http://"
  const INDEX := "/index.yaml"

  function DropPrefix(value: string, prefix: string): string {
    if StartsWith(value, prefix) then value[|prefix|..] else value
  }

  function DropPrefixes(value: string, prefixes: seq<string>): string {
    if prefixes == [] then value
    else DropPrefix(DropPrefixes(value, prefixes[..|prefixes| - 1]), prefixes[|prefixes| - 1])
  }

  function NormUrl(url: Option<string>): string {
    Unscheme(Core(url.GetOr("")))
  }

  /** What the loop over scheme prefixes and the last `rstrip` leave of a core. */
  function Unscheme(core: string): string {
    StripSlashes(DropPrefix(DropPrefix(core, HTTPS), HTTP))
  }

  /** The text before scheme removal: stripped, lower-cased, without trailing slashes. */
  function Core(text: string): string {
    StripSlashes(Lower(Strip(text)))
  }

  function NormHelmUrl(url: Option<string>): string {
    var value := NormUrl(url);
    if EndsWith(value, INDEX) then value[..|value| - |INDEX|] else value
  }

  method NormalizeUrl(url: Option<string>) returns (value: string)
    ensures value == NormUrl(url)
  {
    value := StripSlashes(Lower(Strip(url.GetOr(""))));
    ghost var core := value;
    var prefixes := [HTTPS, HTTP];
    for k := 0 to |prefixes|
      invariant value == DropPrefixes(core, prefixes[..k])
    {
      assert prefixes[..k + 1][..k] == prefixes[..k];
      if StartsWith(value, prefixes[k]) {
        value := value[|prefixes[k]|..];
      }
    }
    assert prefixes[..2] == [HTTPS, HTTP] && [HTTPS, HTTP][..1] == [HTTPS] && [HTTPS][..0] == [];
    assert DropPrefixes(core, [HTTPS]) == DropPrefix(core, HTTPS);
    value := StripSlashes(value);
  }

  method NormalizeHelmUrl(url: Option<string>) returns (value: string)
    ensures value == NormHelmUrl(url)
  {
    value := NormalizeUrl(url);
    if EndsWith(value, INDEX) {
      value := value[..|value| - |INDEX|];
    }
  }

  // ----- Properties

  ghost predicate HasScheme(v: string) {
    StartsWith(v, HTTPS) || StartsWith(v, HTTP)
  }

  /** The texts normalisation leaves alone. */
  ghost predicate IsNormal(v: string) {
    && IsLower(v)
    && !HasScheme(v)
    && (v == "" || (!IsSpace(v[0]) && !IsSpace(v[|v| - 1]) && v[|v| - 1] != '/'))
  }

  lemma LowerTwice(s: string)
    ensures Lower(Lower(s)) == Lower(s)
  {
  }

  /** Two scheme prefixes exclude one another. */
  lemma SchemesDiffer(v: string)
    ensures !(StartsWith(v, HTTPS) && StartsWith(v, HTTP))
  {
    assert HTTPS[4] == 's' && HTTP[4] == ':';
  }

  ghost predicate IsLower(s: string) {
    forall i :: 0 <= i < |s| ==> LowerChar(s[i]) == s[i]
  }

  lemma IsLowerFixed(s: string)
    ensures IsLower(s) <==> Lower(s) == s
  {
  }

  lemma {:induction false} DropsKeepLower(core: string)
    requires IsLower(core)
    ensures IsLower(StripSlashes(DropPrefix(DropPrefix(core, HTTPS), HTTP)))
  {
    var a := DropPrefix(core, HTTPS);
    assert IsLower(a);
    var b := DropPrefix(a, HTTP);
    assert IsLower(b);
    StripSlashesSpec(b);
  }

  lemma {:induction false} NormIsLower(url: Option<string>)
    ensures IsLower(NormUrl(url))
  {
    assert IsLower(Lower(Strip(url.GetOr(""))));
    StripSlashesSpec(Lower(Strip(url.GetOr(""))));
    assert IsLower(Core(url.GetOr("")));
    DropsKeepLower(Core(url.GetOr("")));
  }

  lemma {:induction false} NormNoLonger(v: string)
    ensures |NormUrl(Some(v))| <= |Core(v)| <= |v|
    ensures |NormUrl(Some(v))| == |Core(v)| ==> NormUrl(Some(v)) == Core(v) && !HasScheme(Core(v))
    ensures |Core(v)| == |v| ==> Strip(v) == v
    ensures Core(v) == "" || Core(v)[|Core(v)| - 1] != '/'
    ensures !HasScheme(Core(v)) ==> NormUrl(Some(v)) == Core(v)
  {
    var a := DropPrefix(Core(v), HTTPS);
    StripSpec(v);
    StripSlashesSpec(Lower(Strip(v)));
    StripSlashesSpec(DropPrefix(a, HTTP));
    assert |DropPrefix(a, HTTP)| <= |a| <= |Core(v)|;
    if !HasScheme(Core(v)) {
      StripSlashesUnique(Core(v), Core(v));
    }
  }

  /** A text is a fixed point of `_norm_url` exactly when it is in normal form. */
  lemma {:induction false} FixedPoints(v: string)
    ensures NormUrl(Some(v)) == v <==> IsNormal(v)
  {
    StripSpec(v);
    NormNoLonger(v);
    IsLowerFixed(v);
    if NormUrl(Some(v)) == v {
      NormIsLower(Some(v));
    } else if IsNormal(v) {
      StripSlashesUnique(v, v);
    }
  }

  // ----- What the key identifies

  lemma NoSpaceCore(x: string)
    requires NoSpace(x)
    ensures Core(x) == StripSlashes(Lower(x))
  {
  }

  lemma {:induction false} LowerStrip(s: string)
    ensures Lower(Strip(s)) == Strip(Lower(s))
  {
    LowerStripLeft(s);
    LowerStripRight(StripLeft(s));
  }

  lemma {:induction false} LowerStripLeft(s: string)
    ensures Lower(StripLeft(s)) == StripLeft(Lower(s))
  {
    if s != "" {
      assert IsSpace(s[0]) == IsSpace(Lower(s)[0]);
      assert Lower(s)[1..] == Lower(s[1..]);
      if IsSpace(s[0]) { LowerStripLeft(s[1..]); }
    }
  }

  lemma {:induction false} LowerStripRight(s: string)
    ensures Lower(StripRight(s)) == StripRight(Lower(s))
  {
    if s != "" {
      assert IsSpace(s[|s| - 1]) == IsSpace(Lower(s)[|s| - 1]);
      assert Lower(s)[..|s| - 1] == Lower(s[..|s| - 1]);
      if IsSpace(s[|s| - 1]) { LowerStripRight(s[..|s| - 1]); }
    }
  }

  /** Letter case never matters. */
  lemma {:induction false} CaseIgnored(x: string, y: string)
    requires Lower(x) == Lower(y)
    ensures NormUrl(Some(x)) == NormUrl(Some(y))
    ensures NormHelmUrl(Some(x)) == NormHelmUrl(Some(y))
  {
    LowerStrip(x);
    LowerStrip(y);
  }

  /** The core of `p + x + slashes`, for a lower-cased `p`, keeps `p` in front. */
  lemma {:induction false} CoreOfPrefixed(p: string, x: string, slashes: string)
    requires NoSpace(p) && NoSpace(x) && AllSlashes(slashes)
    requires p == "" || Core(x) != ""
    ensures Core(p + x + slashes) == Lower(p) + Core(x)
  {
    assert NoSpace(p + x + slashes);
    NoSpaceCore(x);
    NoSpaceCore(p + x + slashes);
    LowerConcat(p + x, slashes);
    LowerConcat(p, x);
    LowerKeeps(slashes);
    StripSlashesTail(Lower(p), Lower(x), Lower(slashes));
  }

  /** Trailing slashes never matter. */
  lemma {:induction false} SlashesIgnored(x: string, slashes: string)
    requires NoSpace(x) && AllSlashes(slashes)
    ensures NormUrl(Some(x + slashes)) == NormUrl(Some(x))
  {
    assert "" + x + slashes == x + slashes;
    assert Lower("") + Core(x) == Core(x);
    CoreOfPrefixed("", x, slashes);
  }

  lemma {:induction false} SchemeStep(p: string, c: string)
    requires p == HTTP || p == HTTPS
    requires c == "" || c[|c| - 1] != '/'
    ensures p == HTTP ==> Unscheme(p + c) == c
    ensures p == HTTPS ==> Unscheme(p + c) == StripSlashes(DropPrefix(c, HTTP))
  {
    StripSlashesUnique(c, c);
    SchemesDiffer(p + c);
    assert (p + c)[|p|..] == c;
  }

  lemma {:induction false} UnschemeIdentity(c: string)
    requires c == "" || c[|c| - 1] != '/'
    ensures Unscheme(c) == c <==> !HasScheme(c)
    ensures Unscheme(c) == StripSlashes(DropPrefix(c, HTTP)) <==> !StartsWith(c, HTTPS)
  {
  }

  /** `http://` written in front of an address, in any case and with any number of trailing
      slashes, is invisible exactly when the address does not start with a scheme itself. */
  lemma {:induction false} HttpIgnored(p: string, x: string, slashes: string)
    requires Lower(p) == HTTP
    requires NoSpace(x) && Core(x) != "" && AllSlashes(slashes)
    ensures NormUrl(Some(p + x + slashes)) == NormUrl(Some(x)) <==> !HasScheme(Core(x))
  {
    LowerKeeps(p);
    CoreOfPrefixed(p, x, slashes);
    SameKey(p + x + slashes, x, HTTP);
  }

  lemma {:induction false} SameKey(y: string, x: string, p: string)
    requires p == HTTP || p == HTTPS
    requires Core(y) == p + Core(x)
    ensures p == HTTP ==> (NormUrl(Some(y)) == NormUrl(Some(x)) <==> !HasScheme(Core(x)))
    ensures p == HTTPS ==> (NormUrl(Some(y)) == NormUrl(Some(x)) <==> !StartsWith(Core(x), HTTPS))
  {
    NormNoLonger(x);
    SchemeStep(p, Core(x));
    UnschemeIdentity(Core(x));
  }

  /** `https://` is tried first, so it also hides in front of an address that starts with
      `http://`. */
  lemma {:induction false} HttpsIgnored(p: string, x: string, slashes: string)
    requires Lower(p) == HTTPS
    requires NoSpace(x) && Core(x) != "" && AllSlashes(slashes)
    ensures NormUrl(Some(p + x + slashes)) == NormUrl(Some(x)) <==> !StartsWith(Core(x), HTTPS)
  {
    LowerKeeps(p);
    CoreOfPrefixed(p, x, slashes);
    SameKey(p + x + slashes, x, HTTPS);
  }

  /** Cores from which one pass over the two prefixes uncovers another scheme. */
  ghost predicate NestedScheme(core: string) {
    || StartsWith(core, HTTPS + HTTPS) || StartsWith(core, HTTP + HTTP) || StartsWith(core, HTTP + HTTPS)
    || StartsWith(core, HTTPS + (HTTP + HTTP)) || StartsWith(core, HTTPS + (HTTP + HTTPS))
  }

  lemma {:induction false} StartsWithConcat(v: string, p: string, q: string)
    ensures StartsWith(v, p + q) <==> StartsWith(v, p) && StartsWith(v[|p|..], q)
  {
  }

  lemma {:induction false} NestedExactly(core: string)
    requires core == "" || core[|core| - 1] != '/'
    ensures HasScheme(Unscheme(core)) <==> NestedScheme(core)
  {
    StartsWithConcat(core, HTTPS, HTTPS);
    StartsWithConcat(core, HTTP, HTTP);
    StartsWithConcat(core, HTTP, HTTPS);
    StartsWithConcat(core, HTTPS, HTTP + HTTP);
    StartsWithConcat(core, HTTPS, HTTP + HTTPS);
    SchemesDiffer(core);
    var a := DropPrefix(core, HTTPS);
    SchemesDiffer(a);
    StartsWithConcat(a, HTTP, HTTP);
    StartsWithConcat(a, HTTP, HTTPS);
    var b := DropPrefix(a, HTTP);
    StripSlashesUnique(b, b);
  }

  ghost predicate SpaceAfter(core: string, prefix: string) {
    StartsWith(core, prefix) && |prefix| < |core| && IsSpace(core[|prefix|])
  }

  /** Cores of which one pass leaves white space at an end: it stands last, where it was in front
      of slashes, or directly behind the schemes that one pass drops. */
  ghost predicate SpaceExposed(core: string) {
    && core != ""
    && (IsSpace(core[|core| - 1]) || SpaceAfter(core, HTTPS) || SpaceAfter(core, HTTP)
        || SpaceAfter(core, HTTPS + HTTP))
  }

  lemma {:induction false} SpaceExposedExactly(core: string)
    requires core == "" || (!IsSpace(core[0]) && core[|core| - 1] != '/')
    ensures SpaceExposed(core) <==>
      Unscheme(core) != "" && (IsSpace(Unscheme(core)[0]) || IsSpace(Unscheme(core)[|Unscheme(core)| - 1]))
  {
    var a := DropPrefix(core, HTTPS);
    var b := DropPrefix(a, HTTP);
    StripSlashesUnique(b, b);
    SchemesDiffer(core);
    StartsWithConcat(core, HTTPS, HTTP);
    if StartsWith(core, HTTPS) && StartsWith(a, HTTP) {
      assert b == core[|HTTPS + HTTP|..];
    }
  }

  lemma {:induction false} CoreStart(x: string)
    ensures Core(x) == "" || !IsSpace(Core(x)[0])
  {
    StripStart(x);
    StripSlashesSpec(Lower(Strip(x)));
  }

  /** A second pass changes nothing exactly when the text does not nest schemes in one of five
      ways and exposes no white space; text without white space exposes none. */
  lemma {:induction false} IdempotentExactly(x: string)
    ensures NormUrl(Some(NormUrl(Some(x)))) == NormUrl(Some(x)) <==> !NestedScheme(Core(x)) && !SpaceExposed(Core(x))
    ensures NoSpace(x) ==> !SpaceExposed(Core(x))
  {
    hide Unscheme, NestedScheme, Core, HasScheme, IsLower, SpaceExposed;
    NormNoLonger(x);
    CoreStart(x);
    NestedExactly(Core(x));
    SpaceExposedExactly(Core(x));
    NormIsLower(Some(x));
    UnschemeEnd(Core(x));
    FixedPoints(NormUrl(Some(x)));
    if NoSpace(x) {
      CoreKeeps(x);
      UnschemeKeeps(Core(x));
    }
  }

  lemma {:induction false} UnschemeEnd(core: string)
    ensures Unscheme(core) == "" || Unscheme(core)[|Unscheme(core)| - 1] != '/'
  {
    StripSlashesSpec(DropPrefix(DropPrefix(core, HTTPS), HTTP));
  }

  lemma {:induction false} CoreKeeps(x: string)
    requires NoSpace(x)
    ensures NoSpace(Core(x))
  {
    LowerKeeps(x);
    NoSpaceCore(x);
    StripSlashesSpec(Lower(x));
  }

  lemma {:induction false} UnschemeKeeps(core: string)
    requires NoSpace(core)
    ensures NoSpace(Unscheme(core))
  {
    var b := DropPrefix(DropPrefix(core, HTTPS), HTTP);
    assert NoSpace(DropPrefix(core, HTTPS));
    StripSlashesSpec(b);
  }

  /** Nested schemes: one pass uncovers a second address. */
  lemma {:induction false} NotIdempotent()
    ensures NormUrl(Some(HTTP + (HTTPS + "x"))) == HTTPS + "x"
    ensures NormUrl(Some(HTTPS + "x")) == "x"
  {
    PlainCore("x");
    PlainCore(HTTPS + "x");
    PlainCore(HTTP + (HTTPS + "x"));
    SchemeStep(HTTP, HTTPS + "x");
    SchemeStep(HTTPS, "x");
    StripSlashesUnique("x", "x");
    assert DropPrefix("x", HTTP) == "x";
  }

  lemma {:induction false} PlainCore(c: string)
    requires NoSpace(c) && IsLower(c) && (c == "" || c[|c| - 1] != '/')
    ensures Core(c) == c
  {
  }

  lemma {:induction false} DropBeforeIndex(v: string, prefix: string)
    requires prefix == HTTPS || prefix == HTTP
    requires v == "" || v[|v| - 1] != '/'
    ensures DropPrefix(v + INDEX, prefix) == DropPrefix(v, prefix) + INDEX
    ensures var r := DropPrefix(v, prefix); r == "" || r[|r| - 1] != '/'
  {
    var w := v + INDEX;
    if |v| < |prefix| {
      var k := if |v| == |prefix| - 1 then |v| - 1 else if |v| == |prefix| - 2 then |v| + 1 else |v|;
      assert w[k] != prefix[k];
    }
  }

  /** Naming the index file of a repository does not change its key, exactly when the
      repository's own key does not already end in that file name. */
  lemma {:induction false} IndexFileIgnored(b: string)
    requires NoSpace(b) && (b == "" || b[|b| - 1] != '/')
    ensures NormHelmUrl(Some(b + INDEX)) == NormHelmUrl(Some(b)) <==> !EndsWith(NormUrl(Some(b)), INDEX)
  {
    var v := Lower(b);
    LowerKeeps(b);
    IsLowerFixed(v);
    LowerTwice(b);
    CaseIgnored(b, v);
    LowerConcat(b, INDEX);
    LowerConcat(v, INDEX);
    CaseIgnored(b + INDEX, v + INDEX);
    IndexOnLower(v);
    HelmKey(NormUrl(Some(v)));
  }

  lemma HelmKey(n: string)
    ensures EndsWith(n + INDEX, INDEX) && (n + INDEX)[..|n|] == n
  {
  }

  lemma {:induction false} IndexOnLower(v: string)
    requires NoSpace(v) && IsLower(v) && (v == "" || v[|v| - 1] != '/')
    ensures NormUrl(Some(v + INDEX)) == NormUrl(Some(v)) + INDEX
  {
    PlainCore(v);
    PlainCore(v + INDEX);
    IndexStep(v);
  }

  lemma {:induction false} IndexStep(v: string)
    requires v == "" || v[|v| - 1] != '/'
    ensures Unscheme(v + INDEX) == Unscheme(v) + INDEX
  {
    DropBeforeIndex(v, HTTPS);
    var a := DropPrefix(v, HTTPS);
    DropBeforeIndex(a, HTTP);
    var r := DropPrefix(a, HTTP);
    StripSlashesUnique(r, r);
    StripSlashesUnique(r + INDEX, r + INDEX);
  }
}
