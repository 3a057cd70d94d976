/** The registry key of a text, read off its pieces: white space, schemes, body and slashes. The
    relation below is written on its own, from what the key is meant to ignore. */
module UrlKeys {
  import opened Wrappers
  import opened Strings
  import opened UrlNormalization

  const CAPITALS := "ABCDEFGHIJKLMNOPQRSTUVWXYZ"
  const SMALL := "abcdefghijklmnopqrstuvwxyz"
  const WHITE := "\t\n\U{0B}\U{0C}\r\U{1C}\U{1D}\U{1E}\U{1F} \U{85}\U{A0}\U{1680}\U{2000}\U{2001}\U{2002}\U{2003}"
                 + "\U{2004}\U{2005}\U{2006}\U{2007}\U{2008}\U{2009}\U{200A}\U{2028}\U{2029}\U{202F}\U{205F}\U{3000}"

  predicate SmallOf(c: char, d: char) {
    (c !in CAPITALS && d == c) || exists j :: 0 <= j < 26 && c == CAPITALS[j] && d == SMALL[j]
  }

  /** The text spells the small-letter text in some letter case. */
  ghost predicate Spells(text: string, small: string) {
    |text| == |small| && forall i :: 0 <= i < |text| ==> SmallOf(text[i], small[i])
  }

  ghost predicate Blank(s: string) {
    forall i :: 0 <= i < |s| ==> s[i] in WHITE
  }

  datatype Pieces = Pieces(left: string, https: string, http: string, body: string, slashes: string, right: string) {
    function Address(): string {
      https + http + body + slashes
    }

    function Text(): string {
      left + Address() + right
    }
  }

  /** The pieces are cut as the key sees them: outer white space, at most one `https://` and then at
      most one `http://` in any letter case, a body that starts with no scheme the loop would still
      drop and ends in no slash, and trailing slashes. */
  ghost predicate WellCut(p: Pieces) {
    && Blank(p.left) && Blank(p.right) && AllSlashes(p.slashes)
    && (p.https == "" || Spells(p.https, "https://")) && (p.http == "" || Spells(p.http, "http://"))
    && (p.https == "" ==> !exists k :: 0 <= k <= |p.http + p.body| && Spells((p.http + p.body)[..k], "https://"))
    && (p.http == "" ==> !exists k :: 0 <= k <= |p.body| && Spells(p.body[..k], "http://"))
    && (p.body == "" ==> p.https == "" && p.http == "")
    && (p.body != "" ==> p.body[|p.body| - 1] != '/')
    && (p.Address() != "" ==> p.Address()[0] !in WHITE && p.Address()[|p.Address()| - 1] !in WHITE)
  }

  // ----- Letters and white space

  lemma WhiteIsSpace(c: char)
    ensures IsSpace(c) <==> c in WHITE
  {
  }

  lemma AlphabetAt(j: nat)
    requires j < 26
    ensures CAPITALS[j] as int == 65 + j && SMALL[j] as int == 97 + j
  {
  }

  lemma SmallIsLower(c: char, d: char)
    ensures SmallOf(c, d) <==> d == LowerChar(c)
  {
    assert |CAPITALS| == 26;
    hide CAPITALS, SMALL;
    forall j | 0 <= j < 26 ensures CAPITALS[j] as int == 65 + j && SMALL[j] as int == 97 + j {
      AlphabetAt(j);
    }
    if 'A' <= c <= 'Z' {
      assert c == CAPITALS[c as int - 65];
    }
  }

  lemma SpellsLower(text: string, small: string)
    ensures Spells(text, small) <==> small == Lower(text)
  {
    hide SmallOf, LowerChar;
    forall i | 0 <= i < |text| && |text| == |small|
      ensures SmallOf(text[i], small[i]) <==> small[i] == LowerChar(text[i]) {
      SmallIsLower(text[i], small[i]);
    }
  }

  lemma BlankIsSpace(s: string)
    ensures Blank(s) <==> forall i :: 0 <= i < |s| ==> IsSpace(s[i])
  {
    hide IsSpace;
    forall i | 0 <= i < |s| ensures IsSpace(s[i]) <==> s[i] in WHITE {
      WhiteIsSpace(s[i]);
    }
  }

  // ----- Stripping

  lemma {:induction false} StripLeftBlank(left: string, s: string)
    requires forall i :: 0 <= i < |left| ==> IsSpace(left[i])
    ensures StripLeft(left + s) == StripLeft(s)
  {
    hide IsSpace;
    if left == "" {
      assert left + s == s;
    } else {
      assert (left + s)[1..] == left[1..] + s;
      StripLeftBlank(left[1..], s);
    }
  }

  lemma {:induction false} StripRightBlank(s: string, right: string)
    requires forall i :: 0 <= i < |right| ==> IsSpace(right[i])
    ensures StripRight(s + right) == StripRight(s)
  {
    hide IsSpace;
    if right == "" {
      assert s + right == s;
    } else {
      var n := |right| - 1;
      assert (s + right)[..|s + right| - 1] == s + right[..n] && (s + right)[|s + right| - 1] == right[n];
      StripRightBlank(s, right[..n]);
    }
  }

  lemma {:induction false} StripOuter(left: string, s: string, right: string)
    requires forall i :: 0 <= i < |left| ==> IsSpace(left[i])
    requires forall i :: 0 <= i < |right| ==> IsSpace(right[i])
    requires s != "" ==> !IsSpace(s[0]) && !IsSpace(s[|s| - 1])
    ensures Strip(left + s + right) == s
  {
    hide IsSpace;
    assert left + s + right == left + (s + right);
    StripLeftBlank(left, s + right);
    if s == "" {
      assert s + right == right && right + "" == right;
      StripLeftBlank(right, "");
    } else {
      StripRightBlank(s, right);
    }
  }

  /** What `strip` takes away. */
  lemma {:induction false} StripCut(s: string) returns (left: string, right: string)
    ensures s == left + Strip(s) + right
    ensures forall i :: 0 <= i < |left| ==> IsSpace(left[i])
    ensures forall i :: 0 <= i < |right| ==> IsSpace(right[i])
    ensures Strip(s) != "" ==> !IsSpace(Strip(s)[0]) && !IsSpace(Strip(s)[|Strip(s)| - 1])
  {
    hide IsSpace;
    left := StripLeftCut(s);
    right := StripRightCut(StripLeft(s));
    StripStart(s);
    assert left + (Strip(s) + right) == left + Strip(s) + right;
  }

  lemma {:induction false} StripLeftCut(s: string) returns (left: string)
    ensures s == left + StripLeft(s)
    ensures forall i :: 0 <= i < |left| ==> IsSpace(left[i])
  {
    hide IsSpace;
    left := "";
    if s != "" && IsSpace(s[0]) {
      var rest := StripLeftCut(s[1..]);
      left := [s[0]] + rest;
      assert s == [s[0]] + s[1..];
    }
  }

  lemma {:induction false} StripRightCut(s: string) returns (right: string)
    ensures s == StripRight(s) + right
    ensures forall i :: 0 <= i < |right| ==> IsSpace(right[i])
    ensures StripRight(s) != "" ==> !IsSpace(StripRight(s)[|StripRight(s)| - 1])
  {
    hide IsSpace;
    right := "";
    if s != "" && IsSpace(s[|s| - 1]) {
      var rest := StripRightCut(s[..|s| - 1]);
      right := rest + [s[|s| - 1]];
      assert s == s[..|s| - 1] + [s[|s| - 1]];
    }
  }

  // ----- The key of a cut

  lemma LowerFront(s: string, k: nat)
    requires k <= |s|
    ensures Lower(s[..k]) == Lower(s)[..k] && Lower(s[k..]) == Lower(s)[k..]
  {
  }

  /** A text starts with a scheme in some letter case when its lower-cased form does. */
  lemma {:induction false} StartsSpelled(s: string, scheme: string)
    ensures StartsWith(Lower(s), scheme) <==> exists k :: 0 <= k <= |s| && Spells(s[..k], scheme)
  {
    hide Spells;
    forall k | 0 <= k <= |s| ensures Spells(s[..k], scheme) <==> scheme == Lower(s)[..k] {
      SpellsLower(s[..k], scheme);
      LowerFront(s, k);
    }
    if StartsWith(Lower(s), scheme) {
      assert Spells(s[..|scheme|], scheme);
    }
  }

  lemma {:induction false} CoreOfCut(p: Pieces)
    requires WellCut(p)
    ensures Core(p.Text()) == Lower(p.https) + Lower(p.http) + Lower(p.body)
  {
    hide Spells, IsSpace, Lower, Strip, StripSlashes;
    StripOfCut(p);
    var front := p.https + p.http;
    LowerConcat(front + p.body, p.slashes);
    LowerConcat(front, p.body);
    LowerConcat(p.https, p.http);
    SlashesOfCut(Lower(front), p.body, p.slashes);
  }

  lemma {:induction false} StripOfCut(p: Pieces)
    requires WellCut(p)
    ensures Strip(p.Text()) == p.Address()
  {
    hide Spells, IsSpace, Strip;
    BlankIsSpace(p.left);
    BlankIsSpace(p.right);
    var m := p.Address();
    if m != "" {
      WhiteIsSpace(m[0]);
      WhiteIsSpace(m[|m| - 1]);
    }
    StripOuter(p.left, m, p.right);
  }

  lemma {:induction false} SlashesOfCut(front: string, body: string, slashes: string)
    requires AllSlashes(slashes) && (body == "" ==> front == "") && (body != "" ==> body[|body| - 1] != '/')
    ensures StripSlashes(front + Lower(body) + Lower(slashes)) == front + Lower(body)
  {
    LowerKeeps(slashes);
    EndOfBody(body);
    var core := front + Lower(body);
    assert (core + Lower(slashes))[..|core|] == core;
    StripSlashesUnique(core + Lower(slashes), core);
  }

  lemma LowerSlash(c: char)
    ensures LowerChar(c) == '/' <==> c == '/'
  {
  }

  /** The key of a cut text is its body in small letters. */
  lemma {:induction false} KeyOfCut(p: Pieces)
    requires WellCut(p)
    ensures NormUrl(Some(p.Text())) == Lower(p.body)
  {
    hide Spells, Core, Lower;
    CoreOfCut(p);
    SpellsLower(p.https, "https://");
    SpellsLower(p.http, "http://");
    LowerConcat(p.http, p.body);
    StartsSpelled(p.http + p.body, "https://");
    StartsSpelled(p.body, "http://");
    EndOfBody(p.body);
    UnschemeCut(Lower(p.https), Lower(p.http), Lower(p.body));
  }

  lemma EndOfBody(body: string)
    ensures Lower("") == ""
    ensures body != "" ==> |Lower(body)| == |body| && (Lower(body)[|body| - 1] == '/' <==> body[|body| - 1] == '/')
  {
    if body != "" {
      LowerSlash(body[|body| - 1]);
    }
  }

  lemma {:induction false} UnschemeCut(https: string, http: string, body: string)
    requires https == "" || https == HTTPS
    requires http == "" || http == HTTP
    requires https == "" ==> !StartsWith(http + body, HTTPS)
    requires http == "" ==> !StartsWith(body, HTTP)
    requires body == "" || body[|body| - 1] != '/'
    ensures Unscheme(https + http + body) == body
  {
    assert https + http + body == https + (http + body);
    assert (https + (http + body))[|https|..] == http + body;
    assert (http + body)[|http|..] == body;
    StripSlashesUnique(body, body);
  }

  // ----- Every text can be cut

  /** The stripped text, cut into core and slashes. */
  lemma {:induction false} CoreCut(x: string) returns (core: string, slashes: string)
    ensures Strip(x) == core + slashes && AllSlashes(slashes) && Lower(core) == Core(x)
    ensures core == "" || core[|core| - 1] != '/'
  {
    hide Lower;
    var m := Strip(x);
    StripSlashesSpec(Lower(m));
    assert |Lower(m)| == |m|;
    LowerFront(m, |Core(x)|);
    core, slashes := m[..|Core(x)|], m[|Core(x)|..];
    LowerKeeps(slashes);
    EndOfBody(core);
  }

  lemma {:induction false} CutExists(x: string) returns (p: Pieces)
    ensures WellCut(p) && p.Text() == x
  {
    hide Spells, IsSpace, Lower, Strip, Core, WHITE, Blank, AllSlashes;
    var left, right := StripCut(x);
    var core, slashes := CoreCut(x);
    var https, rest := CutScheme(core, "https://");
    var http, body := CutScheme(rest, "http://");
    p := Pieces(left, https, http, body, slashes, right);
    var m := p.Address();
    assert http + body == rest && m == Strip(x) by {
      assert https + http + body == https + (http + body);
    }
    assert https == "" ==> core == rest by {
      assert "" + rest == rest;
    }
    assert http == "" ==> rest == body by {
      assert "" + body == body;
    }
    assert p.Text() == x;
    BlankIsSpace(left);
    BlankIsSpace(right);
    if m != "" {
      WhiteIsSpace(m[0]);
      WhiteIsSpace(m[|m| - 1]);
    }
  }

  /** The scheme in front of a text that ends in no slash, if there is one. */
  lemma {:induction false} CutScheme(s: string, scheme: string) returns (front: string, rest: string)
    requires scheme != "" && scheme[|scheme| - 1] == '/'
    requires s == "" || s[|s| - 1] != '/'
    ensures s == front + rest && (front == "" || Spells(front, scheme))
    ensures front == "" ==> !exists k :: 0 <= k <= |s| && Spells(s[..k], scheme)
    ensures (rest == "" ==> s == "") && (rest != "" ==> rest[|rest| - 1] != '/')
  {
    StartsSpelled(s, scheme);
    front, rest := "", s;
    if StartsWith(Lower(s), scheme) {
      var k :| 0 <= k <= |s| && Spells(s[..k], scheme);
      front, rest := s[..k], s[k..];
      LowerSlash(s[k - 1]);
      SmallIsLower(s[k - 1], '/');
    }
  }

  /** The key of every text: cut it in any way that leaves no scheme, white space or slash to drop,
      and the key is the body in small letters; and every text can be cut so. */
  lemma {:induction false} KeyExactly(x: string, key: string)
    ensures NormUrl(Some(x)) == key <==> exists p: Pieces :: p.Text() == x && WellCut(p) && Spells(p.body, key)
  {
    hide WellCut, Spells, NormUrl;
    var q := CutExists(x);
    KeyOfCut(q);
    SpellsLower(q.body, key);
    forall p: Pieces | p.Text() == x && WellCut(p) && Spells(p.body, key) ensures NormUrl(Some(x)) == key {
      KeyOfCut(p);
      SpellsLower(p.body, key);
    }
  }

  /** The repository key: one final `/index.yaml` less. */
  lemma {:induction false} HelmKeyExactly(x: string, key: string)
    ensures NormHelmUrl(Some(x)) == key <==>
      || NormUrl(Some(x)) == key + "/index.yaml"
      || (NormUrl(Some(x)) == key && !exists base :: key == base + "/index.yaml")
    ensures NormHelmUrl(None) == "" && NormUrl(None) == ""
  {
    hide Core;
    var value := NormUrl(Some(x));
    if EndsWith(value, INDEX) {
      var base := value[..|value| - |INDEX|];
      assert value == base + INDEX;
      if value == key + INDEX {
        assert (key + INDEX)[..|key|] == key;
      }
    } else {
      forall base: string ensures EndsWith(base + INDEX, INDEX) {
      }
    }
    EmptyKey();
  }

  lemma EmptyKey()
    ensures NormUrl(None) == "" && NormUrl(Some("")) == ""
  {
  }
}
