/** `compare_docker_sources`: a merge of two tag tables by name, with four counters. */
module TagComparison {
  import opened Ordering
  import opened Wrappers

  datatype Tag = Tag(sourceId: nat, name: string, digest: Option<string>, architectures: Option<string>,
                     sizeBytes: Option<int>)

  /** One line of the answer; `matches` is null for a tag on one side only. */
  datatype Item = Item(
    name: string, digestA: Option<string>, digestB: Option<string>, matches: Option<bool>,
    architecturesA: Option<string>, architecturesB: Option<string>, sizeA: Option<int>, sizeB: Option<int>)

  datatype Summary = Summary(total: nat, matching: nat, differing: nat, onlyInA: nat, onlyInB: nat)

  datatype CompareError = SourceANotFound | SourceBNotFound

  // ----- Specification

  /** `{t.tag: t for t in rows}` */
  function ByName(rows: seq<Tag>): map<string, Tag> {
    if rows == [] then map[] else ByName(rows[..|rows| - 1])[rows[|rows| - 1].name := rows[|rows| - 1]]
  }

  function OfSource(rows: seq<Tag>, source: nat): seq<Tag> {
    if rows == [] then []
    else OfSource(rows[..|rows| - 1], source)
         + (if rows[|rows| - 1].sourceId == source then [rows[|rows| - 1]] else [])
  }

  datatype Verdict = Matching | Differing | OnlyA | OnlyB

  function VerdictOf(a: map<string, Tag>, b: map<string, Tag>, name: string): Verdict {
    if name in a && name in b then (if a[name].digest == b[name].digest then Matching else Differing)
    else if name in a then OnlyA
    else OnlyB
  }

  function ItemOf(a: map<string, Tag>, b: map<string, Tag>, name: string): Item {
    Item(name,
         if name in a then a[name].digest else None, if name in b then b[name].digest else None,
         match VerdictOf(a, b, name)
         case Matching => Some(true)
         case Differing => Some(false)
         case _ => None,
         if name in a then a[name].architectures else None, if name in b then b[name].architectures else None,
         if name in a then a[name].sizeBytes else None, if name in b then b[name].sizeBytes else None)
  }

  function Count(a: map<string, Tag>, b: map<string, Tag>, names: seq<string>, v: Verdict): nat {
    if names == [] then 0
    else Count(a, b, names[..|names| - 1], v) + if VerdictOf(a, b, names[|names| - 1]) == v then 1 else 0
  }

  function SummaryOf(a: map<string, Tag>, b: map<string, Tag>, names: seq<string>): Summary {
    Summary(|names|, Count(a, b, names, Matching), Count(a, b, names, Differing),
            Count(a, b, names, OnlyA), Count(a, b, names, OnlyB))
  }

  function NamesOf(a: map<string, Tag>, b: map<string, Tag>): seq<string> {
    Sorted(a.Keys + b.Keys)
  }

  // ----- The endpoint

  /** The item of one name, and which counter it belongs to. */
  method CompareTag(mapA: map<string, Tag>, mapB: map<string, Tag>, name: string) returns (item: Item, verdict: Verdict)
    ensures item == ItemOf(mapA, mapB, name) && verdict == VerdictOf(mapA, mapB, name)
  {
    var digestA, digestB: Option<string> := None, None;
    var architecturesA, architecturesB: Option<string> := None, None;
    var sizeA, sizeB: Option<int> := None, None;
    var matches: Option<bool> := None;
    if name in mapA {
      digestA, architecturesA, sizeA := mapA[name].digest, mapA[name].architectures, mapA[name].sizeBytes;
    }
    if name in mapB {
      digestB, architecturesB, sizeB := mapB[name].digest, mapB[name].architectures, mapB[name].sizeBytes;
    }
    if name in mapA && name in mapB {
      matches := Some(digestA == digestB);
      verdict := if digestA == digestB then Matching else Differing;
    } else if name in mapA {
      verdict := OnlyA;
    } else {
      verdict := OnlyB;
    }
    item := Item(name, digestA, digestB, matches, architecturesA, architecturesB, sizeA, sizeB);
  }

  method Compare(sources: set<nat>, rows: seq<Tag>, sourceA: nat, sourceB: nat)
    returns (r: Result<(seq<Item>, Summary), CompareError>)
    ensures sourceA !in sources <==> r == Failure(SourceANotFound)
    ensures sourceA in sources && sourceB !in sources <==> r == Failure(SourceBNotFound)
    ensures r.Success? ==>
      var a, b := ByName(OfSource(rows, sourceA)), ByName(OfSource(rows, sourceB));
      var names := NamesOf(a, b);
      && |r.value.0| == |names|
      && (forall k :: 0 <= k < |names| ==> r.value.0[k] == ItemOf(a, b, names[k]))
      && r.value.1 == SummaryOf(a, b, names)
    ensures r.Success? ==> Answers(rows, sourceA, sourceB, r.value.0, r.value.1)
  {
    if sourceA !in sources {
      return Failure(SourceANotFound);
    }
    if sourceB !in sources {
      return Failure(SourceBNotFound);
    }
    var mapA, mapB := ByName(OfSource(rows, sourceA)), ByName(OfSource(rows, sourceB));
    var tags, summary := CompareNames(mapA, mapB, NamesOf(mapA, mapB));
    AnswersExactly(rows, sourceA, sourceB, tags, summary);
    r := Success((tags, summary));
  }

  /** The loop over the sorted names. */
  method CompareNames(mapA: map<string, Tag>, mapB: map<string, Tag>, names: seq<string>)
    returns (tags: seq<Item>, summary: Summary)
    ensures |tags| == |names| && forall k :: 0 <= k < |names| ==> tags[k] == ItemOf(mapA, mapB, names[k])
    ensures summary == SummaryOf(mapA, mapB, names)
  {
    tags := [];
    var matching, differing, onlyA, onlyB := 0, 0, 0, 0;
    for k := 0 to |names|
      invariant |tags| == k && forall j :: 0 <= j < k ==> tags[j] == ItemOf(mapA, mapB, names[j])
      invariant matching == Count(mapA, mapB, names[..k], Matching)
      invariant differing == Count(mapA, mapB, names[..k], Differing)
      invariant onlyA == Count(mapA, mapB, names[..k], OnlyA)
      invariant onlyB == Count(mapA, mapB, names[..k], OnlyB)
    {
      assert names[..k + 1][..k] == names[..k];
      var item, verdict := CompareTag(mapA, mapB, names[k]);
      match verdict {
        case Matching => matching := matching + 1;
        case Differing => differing := differing + 1;
        case OnlyA => onlyA := onlyA + 1;
        case OnlyB => onlyB := onlyB + 1;
      }
      tags := tags + [item];
    }
    assert names[..|names|] == names;
    summary := Summary(|names|, matching, differing, onlyA, onlyB);
  }

  // ----- Properties

  /** Duplicate names resolve to the last row. */
  lemma {:induction false} LastRowWins(rows: seq<Tag>, name: string)
    ensures name in ByName(rows) <==> exists k :: 0 <= k < |rows| && rows[k].name == name
    ensures forall k :: 0 <= k < |rows| && rows[k].name == name ==>
      ((forall j :: k < j < |rows| ==> rows[j].name != name) ==>
         name in ByName(rows) && ByName(rows)[name] == rows[k])
  {
    if rows != [] {
      var n := |rows| - 1;
      var init := rows[..n];
      LastRowWins(init, name);
      assert forall k :: 0 <= k < n ==> init[k] == rows[k];
    }
  }

  lemma {:induction false} CountsAddUp(a: map<string, Tag>, b: map<string, Tag>, names: seq<string>)
    ensures Count(a, b, names, Matching) + Count(a, b, names, Differing) + Count(a, b, names, OnlyA)
      + Count(a, b, names, OnlyB) == |names|
  {
    if names != [] { CountsAddUp(a, b, names[..|names| - 1]); }
  }

  function Intersect(names: seq<string>, keys: set<string>): set<string> {
    set n | n in names && n in keys
  }

  lemma {:induction false} CountSide(a: map<string, Tag>, b: map<string, Tag>, names: seq<string>)
    requires StrictlySorted(names)
    ensures Count(a, b, names, Matching) + Count(a, b, names, Differing)
      + Count(a, b, names, OnlyA) == |Intersect(names, a.Keys)|
  {
    if names == [] {
      assert Intersect(names, a.Keys) == {};
    } else {
      var n := |names| - 1;
      CountSide(a, b, names[..n]);
      LastIsNew(names);
      IntersectStep(names, a.Keys);
    }
  }

  lemma LastIsNew(names: seq<string>)
    requires StrictlySorted(names) && names != []
    ensures names[|names| - 1] !in names[..|names| - 1]
    ensures StrictlySorted(names[..|names| - 1])
  {
    var n := |names| - 1;
    forall k | 0 <= k < n ensures names[k] != names[n] {
      BelowIrreflexive(names[n]);
      assert Below(names[k], names[n]);
    }
  }

  lemma IntersectStep(names: seq<string>, keys: set<string>)
    requires names != [] && names[|names| - 1] !in names[..|names| - 1]
    ensures |Intersect(names, keys)| ==
      |Intersect(names[..|names| - 1], keys)| + if names[|names| - 1] in keys then 1 else 0
  {
    var init, last := names[..|names| - 1], names[|names| - 1];
    assert names == init + [last];
    assert Intersect(names, keys) == Intersect(init, keys) + (if last in keys then {last} else {});
  }

  /** The answer lists exactly the union of the names, each once and in order; the four counters
      partition it, and three of them make up side A. */
  lemma {:induction false} SummaryIsPartition(a: map<string, Tag>, b: map<string, Tag>)
    ensures var names := NamesOf(a, b);
      var s := SummaryOf(a, b, names);
      && StrictlySorted(names)
      && (forall n :: n in names <==> n in a || n in b)
      && s.total == |a.Keys + b.Keys|
      && s.matching + s.differing + s.onlyInA + s.onlyInB == s.total
      && s.matching + s.differing + s.onlyInA == |a.Keys|
      && s.matching + s.differing + s.onlyInB == |b.Keys|
  {
    var names := NamesOf(a, b);
    SortedSpec(a.Keys + b.Keys);
    CountsAddUp(a, b, names);
    CountSide(a, b, names);
    assert Intersect(names, a.Keys) == a.Keys;
    CountSide(b, a, names);
    CountSwapped(a, b, names);
    assert Intersect(names, b.Keys) == b.Keys;
  }

  lemma {:induction false} CountSwapped(a: map<string, Tag>, b: map<string, Tag>, names: seq<string>)
    requires forall n :: n in names ==> n in a || n in b
    ensures Count(b, a, names, Matching) == Count(a, b, names, Matching)
    ensures Count(b, a, names, Differing) == Count(a, b, names, Differing)
    ensures Count(b, a, names, OnlyA) == Count(a, b, names, OnlyB)
    ensures Count(b, a, names, OnlyB) == Count(a, b, names, OnlyA)
  {
    if names != [] {
      var n := |names| - 1;
      assert names[n] in names && forall m :: m in names[..n] ==> m in names;
      CountSwapped(a, b, names[..n]);
    }
  }

  function SwapItem(i: Item): Item {
    Item(i.name, i.digestB, i.digestA, i.matches, i.architecturesB, i.architecturesA, i.sizeB, i.sizeA)
  }

  /** Swapping the sources swaps the two sides of every line and the two one-sided counters, and
      nothing else. */
  lemma {:induction false} SwapSources(a: map<string, Tag>, b: map<string, Tag>)
    ensures NamesOf(b, a) == NamesOf(a, b)
    ensures forall k :: 0 <= k < |NamesOf(a, b)| ==>
      ItemOf(b, a, NamesOf(a, b)[k]) == SwapItem(ItemOf(a, b, NamesOf(a, b)[k]))
    ensures var s := SummaryOf(a, b, NamesOf(a, b));
      SummaryOf(b, a, NamesOf(b, a)) == s.(onlyInA := s.onlyInB, onlyInB := s.onlyInA)
  {
    assert a.Keys + b.Keys == b.Keys + a.Keys;
    var names := NamesOf(a, b);
    NamesInUnion(a, b);
    CountSwapped(a, b, names);
    forall k | 0 <= k < |names| ensures ItemOf(b, a, names[k]) == SwapItem(ItemOf(a, b, names[k])) {
      ItemSwapped(a, b, names[k]);
    }
  }

  lemma {:induction false} NamesInUnion(a: map<string, Tag>, b: map<string, Tag>)
    ensures forall n :: n in NamesOf(a, b) ==> n in a || n in b
    ensures forall k :: 0 <= k < |NamesOf(a, b)| ==> NamesOf(a, b)[k] in a || NamesOf(a, b)[k] in b
  {
    SortedSpec(a.Keys + b.Keys);
    forall k | 0 <= k < |NamesOf(a, b)| ensures NamesOf(a, b)[k] in a || NamesOf(a, b)[k] in b {
      assert NamesOf(a, b)[k] in NamesOf(a, b);
    }
  }

  lemma ItemSwapped(a: map<string, Tag>, b: map<string, Tag>, name: string)
    requires name in a || name in b
    ensures ItemOf(b, a, name) == SwapItem(ItemOf(a, b, name))
  {
  }

  // ----- The answer in terms of the rows

  /** The k-th row is the last of this source and name. */
  ghost predicate LastRow(rows: seq<Tag>, source: nat, name: string, k: int) {
    && 0 <= k < |rows| && rows[k].sourceId == source && rows[k].name == name
    && forall j :: k < j < |rows| ==> rows[j].sourceId != source || rows[j].name != name
  }

  ghost predicate HasTag(rows: seq<Tag>, source: nat, name: string) {
    exists k :: 0 <= k < |rows| && rows[k].sourceId == source && rows[k].name == name
  }

  /** Both sources have the tag, and their last rows agree on the digest. */
  ghost predicate SameDigest(rows: seq<Tag>, a: nat, b: nat, name: string) {
    exists j, k :: LastRow(rows, a, name, j) && LastRow(rows, b, name, k) && rows[j].digest == rows[k].digest
  }

  ghost predicate OtherDigest(rows: seq<Tag>, a: nat, b: nat, name: string) {
    exists j, k :: LastRow(rows, a, name, j) && LastRow(rows, b, name, k) && rows[j].digest != rows[k].digest
  }

  /** The names of the rows that have the property. */
  ghost function NamesWith(rows: seq<Tag>, holds: string -> bool): set<string> {
    set k | 0 <= k < |rows| && holds(rows[k].name) :: rows[k].name
  }

  ghost predicate ItemAnswers(rows: seq<Tag>, a: nat, b: nat, item: Item) {
    && (item.matches == Some(true) <==> SameDigest(rows, a, b, item.name))
    && (item.matches == Some(false) <==> OtherDigest(rows, a, b, item.name))
    && (forall k :: LastRow(rows, a, item.name, k) ==>
          item.digestA == rows[k].digest && item.architecturesA == rows[k].architectures
              && item.sizeA == rows[k].sizeBytes)
    && (forall k :: LastRow(rows, b, item.name, k) ==>
          item.digestB == rows[k].digest && item.architecturesB == rows[k].architectures
              && item.sizeB == rows[k].sizeBytes)
    && (!HasTag(rows, a, item.name) ==> item.digestA == None && item.architecturesA == None && item.sizeA == None)
    && (!HasTag(rows, b, item.name) ==> item.digestB == None && item.architecturesB == None && item.sizeB == None)
  }

  /** One line for every name that either source has, in order, with what its last rows hold; a
      match is equality of their digests, and the counters are the sizes of the name sets. */
  ghost predicate Answers(rows: seq<Tag>, a: nat, b: nat, items: seq<Item>, summary: Summary) {
    && (forall j, k :: 0 <= j < k < |items| ==> Below(items[j].name, items[k].name))
    && (forall name :: (exists k :: 0 <= k < |items| && items[k].name == name) <==>
          HasTag(rows, a, name) || HasTag(rows, b, name))
    && (forall k :: 0 <= k < |items| ==> ItemAnswers(rows, a, b, items[k]))
    && summary.total == |items|
    && summary.matching == |NamesWith(rows, name => SameDigest(rows, a, b, name))|
    && summary.differing == |NamesWith(rows, name => OtherDigest(rows, a, b, name))|
    && summary.onlyInA == |NamesWith(rows, name => HasTag(rows, a, name) && !HasTag(rows, b, name))|
    && summary.onlyInB == |NamesWith(rows, name => HasTag(rows, b, name) && !HasTag(rows, a, name))|
  }

  lemma ByNameStep(rows: seq<Tag>, source: nat)
    requires rows != []
    ensures var init, last := rows[..|rows| - 1], rows[|rows| - 1];
      ByName(OfSource(rows, source)) ==
        if last.sourceId == source then ByName(OfSource(init, source))[last.name := last]
            else ByName(OfSource(init, source))
  {
    var before, last := OfSource(rows[..|rows| - 1], source), rows[|rows| - 1];
    assert (before + [last])[..|before|] == before && before + [] == before;
  }

  lemma LastRowStep(rows: seq<Tag>, source: nat, name: string, k: int)
    requires rows != []
    ensures var n := |rows| - 1;
      LastRow(rows, source, name, k) <==>
        if rows[n].sourceId == source && rows[n].name == name then k == n else LastRow(rows[..n], source, name, k)
  {
    var n := |rows| - 1;
    assert forall j :: 0 <= j < n ==> rows[..n][j] == rows[j];
    if LastRow(rows[..n], source, name, k) {
      assert rows[..n][k] == rows[k];
    }
  }

  lemma LastRowBound(rows: seq<Tag>, source: nat, name: string)
    ensures forall k :: LastRow(rows, source, name, k) ==> 0 <= k < |rows|
  {
  }

  lemma HasTagStep(rows: seq<Tag>, source: nat, name: string)
    requires rows != []
    ensures var n := |rows| - 1;
      HasTag(rows, source, name) <==>
        (rows[n].sourceId == source && rows[n].name == name) || HasTag(rows[..n], source, name)
  {
    var n := |rows| - 1;
    assert forall j :: 0 <= j < n ==> rows[..n][j] == rows[j];
  }

  lemma {:induction false} LastOfSource(rows: seq<Tag>, source: nat, name: string)
    ensures name in ByName(OfSource(rows, source)) <==> HasTag(rows, source, name)
    ensures HasTag(rows, source, name) ==> exists k :: LastRow(rows, source, name, k)
    ensures forall k :: LastRow(rows, source, name, k) ==>
      0 <= k < |rows| && name in ByName(OfSource(rows, source)) && ByName(OfSource(rows, source))[name] == rows[k]
  {
    if rows != [] {
      hide ByName, OfSource, HasTag, LastRow;
      var n := |rows| - 1;
      LastOfSource(rows[..n], source, name);
      ByNameStep(rows, source);
      HasTagStep(rows, source, name);
      forall k ensures LastRow(rows, source, name, k) <==>
        if rows[n].sourceId == source && rows[n].name == name then k == n else LastRow(rows[..n], source, name, k)
      {
        LastRowStep(rows, source, name, k);
      }
      LastRowBound(rows, source, name);
      LastRowBound(rows[..n], source, name);
      assert forall k :: 0 <= k < n ==> rows[..n][k] == rows[k];
      if rows[n].sourceId == source && rows[n].name == name {
        assert LastRow(rows, source, name, n);
      } else if HasTag(rows, source, name) {
        var k :| LastRow(rows[..n], source, name, k);
        assert LastRow(rows, source, name, k);
      }
    }
  }

  lemma {:induction false} VerdictExactly(rows: seq<Tag>, a: nat, b: nat, name: string)
    requires HasTag(rows, a, name) || HasTag(rows, b, name)
    ensures var mapA, mapB := ByName(OfSource(rows, a)), ByName(OfSource(rows, b));
      && (VerdictOf(mapA, mapB, name) == Matching <==> SameDigest(rows, a, b, name))
      && (VerdictOf(mapA, mapB, name) == Differing <==> OtherDigest(rows, a, b, name))
      && (VerdictOf(mapA, mapB, name) == OnlyA <==> HasTag(rows, a, name) && !HasTag(rows, b, name))
      && (VerdictOf(mapA, mapB, name) == OnlyB <==> HasTag(rows, b, name) && !HasTag(rows, a, name))
  {
    hide LastRow, HasTag, ByName, OfSource;
    LastOfSource(rows, a, name);
    LastOfSource(rows, b, name);
    TagOfLast(rows, a, name);
    TagOfLast(rows, b, name);
  }

  lemma TagOfLast(rows: seq<Tag>, source: nat, name: string)
    ensures (exists k :: LastRow(rows, source, name, k)) ==> HasTag(rows, source, name)
    ensures forall j, k :: LastRow(rows, source, name, j) && LastRow(rows, source, name, k) ==> j == k
  {
  }

  lemma {:induction false} ItemExactly(rows: seq<Tag>, a: nat, b: nat, name: string)
    requires HasTag(rows, a, name) || HasTag(rows, b, name)
    ensures ItemAnswers(rows, a, b, ItemOf(ByName(OfSource(rows, a)), ByName(OfSource(rows, b)), name))
  {
    hide LastRow, HasTag, ByName, OfSource, SameDigest, OtherDigest, VerdictOf;
    VerdictExactly(rows, a, b, name);
    LastOfSource(rows, a, name);
    LastOfSource(rows, b, name);
  }

  function WithVerdict(a: map<string, Tag>, b: map<string, Tag>, names: seq<string>, v: Verdict): set<string> {
    set n | n in names && VerdictOf(a, b, n) == v
  }

  lemma WithVerdictStep(a: map<string, Tag>, b: map<string, Tag>, names: seq<string>, v: Verdict)
    requires names != [] && names[|names| - 1] !in names[..|names| - 1]
    ensures var init, last := names[..|names| - 1], names[|names| - 1];
      && last !in WithVerdict(a, b, init, v)
      && WithVerdict(a, b, names, v) ==
           if VerdictOf(a, b, last) == v then WithVerdict(a, b, init, v) + {last} else WithVerdict(a, b, init, v)
  {
    hide VerdictOf;
    var init, last := names[..|names| - 1], names[|names| - 1];
    assert forall n :: n in names <==> n in init || n == last by {
      assert names == init + [last];
    }
  }

  /** A counter is the number of names with its verdict. */
  lemma {:induction false} CountIsSize(a: map<string, Tag>, b: map<string, Tag>, names: seq<string>, v: Verdict)
    requires StrictlySorted(names)
    ensures Count(a, b, names, v) == |WithVerdict(a, b, names, v)|
  {
    hide VerdictOf;
    if names == [] {
      assert WithVerdict(a, b, names, v) == {};
    } else {
      hide WithVerdict;
      LastIsNew(names);
      CountIsSize(a, b, names[..|names| - 1], v);
      WithVerdictStep(a, b, names, v);
    }
  }

  lemma {:induction false} CounterExactly(rows: seq<Tag>, a: nat, b: nat, v: Verdict, holds: string -> bool)
    requires forall name :: (HasTag(rows, a, name) || HasTag(rows, b, name)) ==>
      (VerdictOf(ByName(OfSource(rows, a)), ByName(OfSource(rows, b)), name) == v <==> holds(name))
    requires forall name :: holds(name) ==> HasTag(rows, a, name) || HasTag(rows, b, name)
    ensures var mapA, mapB := ByName(OfSource(rows, a)), ByName(OfSource(rows, b));
      Count(mapA, mapB, NamesOf(mapA, mapB), v) == |NamesWith(rows, holds)|
  {
    hide ByName, OfSource, VerdictOf, Count, Sorted;
    var mapA, mapB := ByName(OfSource(rows, a)), ByName(OfSource(rows, b));
    var names := NamesOf(mapA, mapB);
    SortedSpec(mapA.Keys + mapB.Keys);
    CountIsSize(mapA, mapB, names, v);
    forall n ensures n in WithVerdict(mapA, mapB, names, v) <==> n in NamesWith(rows, holds) {
      LastOfSource(rows, a, n);
      LastOfSource(rows, b, n);
    }
    assert WithVerdict(mapA, mapB, names, v) == NamesWith(rows, holds);
  }

  lemma {:induction false} CountersExactly(rows: seq<Tag>, a: nat, b: nat)
    ensures var mapA, mapB := ByName(OfSource(rows, a)), ByName(OfSource(rows, b));
      var names := NamesOf(mapA, mapB);
      && Count(mapA, mapB, names, Matching) == |NamesWith(rows, name => SameDigest(rows, a, b, name))|
      && Count(mapA, mapB, names, Differing) == |NamesWith(rows, name => OtherDigest(rows, a, b, name))|
      && Count(mapA, mapB, names, OnlyA) == |NamesWith(rows, name => HasTag(rows, a, name) && !HasTag(rows, b, name))|
      && Count(mapA, mapB, names, OnlyB) == |NamesWith(rows, name => HasTag(rows, b, name) && !HasTag(rows, a, name))|
  {
    hide ByName, OfSource, HasTag, SameDigest, OtherDigest, VerdictOf, NamesWith, Count, Sorted;
    var mapA, mapB := ByName(OfSource(rows, a)), ByName(OfSource(rows, b));
    forall name | HasTag(rows, a, name) || HasTag(rows, b, name)
      ensures VerdictOf(mapA, mapB, name) == Matching <==> SameDigest(rows, a, b, name)
      ensures VerdictOf(mapA, mapB, name) == Differing <==> OtherDigest(rows, a, b, name)
      ensures VerdictOf(mapA, mapB, name) == OnlyA <==> HasTag(rows, a, name) && !HasTag(rows, b, name)
      ensures VerdictOf(mapA, mapB, name) == OnlyB <==> HasTag(rows, b, name) && !HasTag(rows, a, name)
    {
      VerdictExactly(rows, a, b, name);
    }
    forall name | SameDigest(rows, a, b, name) || OtherDigest(rows, a, b, name) ensures HasTag(rows, a, name) {
      DigestHasTag(rows, a, b, name);
    }
    CounterExactly(rows, a, b, Matching, name => SameDigest(rows, a, b, name));
    CounterExactly(rows, a, b, Differing, name => OtherDigest(rows, a, b, name));
    CounterExactly(rows, a, b, OnlyA, name => HasTag(rows, a, name) && !HasTag(rows, b, name));
    CounterExactly(rows, a, b, OnlyB, name => HasTag(rows, b, name) && !HasTag(rows, a, name));
  }

  lemma DigestHasTag(rows: seq<Tag>, a: nat, b: nat, name: string)
    requires SameDigest(rows, a, b, name) || OtherDigest(rows, a, b, name)
    ensures HasTag(rows, a, name)
  {
    var k :| LastRow(rows, a, name, k);
    assert 0 <= k < |rows| && rows[k].sourceId == a && rows[k].name == name;
  }

  lemma {:induction false} NamesExactly(rows: seq<Tag>, a: nat, b: nat, name: string)
    ensures name in NamesOf(ByName(OfSource(rows, a)), ByName(OfSource(rows, b))) <==>
      HasTag(rows, a, name) || HasTag(rows, b, name)
  {
    hide ByName, OfSource, HasTag, LastRow, Sorted;
    SortedSpec(ByName(OfSource(rows, a)).Keys + ByName(OfSource(rows, b)).Keys);
    LastOfSource(rows, a, name);
    LastOfSource(rows, b, name);
  }

  lemma {:induction false} NamesRise(a: map<string, Tag>, b: map<string, Tag>)
    ensures forall j, k :: 0 <= j < k < |NamesOf(a, b)| ==> Below(NamesOf(a, b)[j], NamesOf(a, b)[k])
  {
    hide Sorted;
    SortedSpec(a.Keys + b.Keys);
  }

  /** The answer built from the two tables says this of the rows. */
  lemma {:induction false} AnswersExactly(rows: seq<Tag>, a: nat, b: nat, items: seq<Item>, summary: Summary)
    requires var mapA, mapB := ByName(OfSource(rows, a)), ByName(OfSource(rows, b));
      var names := NamesOf(mapA, mapB);
      && |items| == |names| && (forall k :: 0 <= k < |names| ==> items[k] == ItemOf(mapA, mapB, names[k]))
      && summary == SummaryOf(mapA, mapB, names)
    ensures Answers(rows, a, b, items, summary)
  {
    hide ByName, OfSource, HasTag, SameDigest, OtherDigest, VerdictOf, ItemAnswers, NamesWith, Count, Below, NamesOf;
    var mapA, mapB := ByName(OfSource(rows, a)), ByName(OfSource(rows, b));
    var names := NamesOf(mapA, mapB);
    NamesRise(mapA, mapB);
    assert forall k :: 0 <= k < |items| ==> items[k].name == names[k];
    forall name
      ensures (exists k :: 0 <= k < |items| && items[k].name == name)
        <==> HasTag(rows, a, name) || HasTag(rows, b, name)
    {
      NamesExactly(rows, a, b, name);
      if name in names {
        var k :| 0 <= k < |names| && names[k] == name;
        assert items[k].name == name;
      }
    }
    forall k | 0 <= k < |items| ensures ItemAnswers(rows, a, b, items[k]) {
      assert names[k] in names;
      NamesExactly(rows, a, b, names[k]);
      ItemExactly(rows, a, b, names[k]);
    }
    CountersExactly(rows, a, b);
  }
}
