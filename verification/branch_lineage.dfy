/** Subsuming candidate branches under their maximal descendants. */
module BranchLineage {
  import opened Sets

  type Tip = nat
  type Ancestry = (Tip, Tip) -> bool

  datatype Classification = Candidate | Subsumed | Other

  datatype Cover = Cover(branch: nat, tip: Tip)

  /** Ancestry of commits, a tip counting as its own ancestor. */
  ghost predicate IsOrder(le: Ancestry) {
    && (forall a :: le(a, a))
    && (forall a, b :: le(a, b) && le(b, a) ==> a == b)
    && (forall a, b, c :: le(a, b) && le(b, c) ==> le(a, c))
  }

  // ----- the relation between candidates, by index -----

  predicate Above(le: Ancestry, tips: seq<Tip>, a: nat, x: nat)
    requires a < |tips| && x < |tips|
  {
    tips[a] != tips[x] && le(tips[a], tips[x])
  }

  /** No other candidate reaches x, not even one with the same tip. */
  ghost predicate Solitary(le: Ancestry, tips: seq<Tip>, x: nat)
    requires x < |tips|
  {
    forall y | 0 <= y < |tips| && y != x :: !le(tips[x], tips[y])
  }

  ghost predicate Maximal(le: Ancestry, tips: seq<Tip>, a: nat)
    requires a < |tips|
  {
    forall x | 0 <= x < |tips| :: !Above(le, tips, a, x)
  }

  /** x covers a: it is strictly above a and solitary. */
  ghost predicate Covers(le: Ancestry, tips: seq<Tip>, a: nat, x: nat)
    requires a < |tips| && x < |tips|
  {
    Above(le, tips, a, x) && Solitary(le, tips, x)
  }

  /** What stays a candidate. */
  ghost predicate Remains(le: Ancestry, tips: seq<Tip>, a: nat)
    requires a < |tips|
  {
    forall x | 0 <= x < |tips| :: !Covers(le, tips, a, x)
  }

  ghost predicate DistinctTips(tips: seq<Tip>) {
    forall i, j | 0 <= i < j < |tips| :: tips[i] != tips[j]
  }

  /** A covering branch is itself never subsumed. */
  lemma CoverRemains(le: Ancestry, tips: seq<Tip>, a: nat, x: nat)
    requires IsOrder(le) && a < |tips| && x < |tips| && Covers(le, tips, a, x)
    ensures Remains(le, tips, x)
  {
    forall y | 0 <= y < |tips|
      ensures !Covers(le, tips, x, y)
    {
      assert y != x ==> !le(tips[x], tips[y]);
    }
  }

  /** Every original candidate is reached by some remaining one. */
  lemma EveryCandidateCovered(le: Ancestry, tips: seq<Tip>, a: nat)
    requires IsOrder(le) && a < |tips|
    ensures exists x | 0 <= x < |tips| :: Remains(le, tips, x) && le(tips[a], tips[x])
  {
    if Remains(le, tips, a) {
      assert le(tips[a], tips[a]);
    } else {
      var x :| 0 <= x < |tips| && Covers(le, tips, a, x);
      CoverRemains(le, tips, a, x);
    }
  }

  function Higher(le: Ancestry, tips: seq<Tip>, a: nat): (above: set<nat>)
    requires a < |tips|
    ensures forall x: nat :: x in above <==> x < |tips| && Above(le, tips, a, x)
  {
    set x: nat | x < |tips| && Above(le, tips, a, x)
  }

  /** Above every candidate that is not maximal there is a maximal one. */
  lemma {:induction false} MaximalAbove(le: Ancestry, tips: seq<Tip>, a: nat) returns (x: nat)
    requires IsOrder(le) && a < |tips| && !Maximal(le, tips, a)
    ensures x < |tips| && Above(le, tips, a, x) && Maximal(le, tips, x)
    decreases |Higher(le, tips, a)|
  {
    var b :| 0 <= b < |tips| && Above(le, tips, a, b);
    if Maximal(le, tips, b) {
      x := b;
    } else {
      HigherShrinks(le, tips, a, b);
      x := MaximalAbove(le, tips, b);
      assert le(tips[a], tips[x]);
    }
  }

  lemma HigherShrinks(le: Ancestry, tips: seq<Tip>, a: nat, b: nat)
    requires IsOrder(le) && a < |tips| && b < |tips| && Above(le, tips, a, b)
    ensures |Higher(le, tips, b)| < |Higher(le, tips, a)|
  {
    var above, below := Higher(le, tips, b), Higher(le, tips, a);
    forall x | x in above
      ensures x in below
    {
      assert le(tips[a], tips[x]);
    }
    assert b in below && b !in above;
    Smaller(above, below, b);
  }

  lemma Smaller(s: set<nat>, t: set<nat>, e: nat)
    requires s <= t && e in t && e !in s
    ensures |s| < |t|
  {
    SubsetSize(s, t);
  }

  /** With distinct tips the remaining candidates are exactly the maximal ones. */
  lemma DistinctRemainMaximal(le: Ancestry, tips: seq<Tip>, a: nat)
    requires IsOrder(le) && DistinctTips(tips) && a < |tips|
    ensures Remains(le, tips, a) <==> Maximal(le, tips, a)
  {
    if !Maximal(le, tips, a) {
      var x := MaximalAbove(le, tips, a);
      forall y | 0 <= y < |tips| && y != x
        ensures !le(tips[x], tips[y])
      {
        assert tips[x] != tips[y];
        assert !Above(le, tips, x, y);
      }
      assert Covers(le, tips, a, x);
    }
  }

  /** In general a candidate is subsumed exactly when some maximal tip above it is carried
      by one branch only. */
  lemma SubsumedExactly(le: Ancestry, tips: seq<Tip>, a: nat)
    requires IsOrder(le) && a < |tips|
    ensures !Remains(le, tips, a) <==>
      exists x | 0 <= x < |tips| :: Above(le, tips, a, x) && Maximal(le, tips, x) && OnlyCarrier(tips, x)
  {
    if !Remains(le, tips, a) {
      var x :| 0 <= x < |tips| && Covers(le, tips, a, x);
      assert Maximal(le, tips, x);
      forall y | 0 <= y < |tips| && y != x
        ensures tips[y] != tips[x]
      {
        assert le(tips[x], tips[x]);
      }
      assert OnlyCarrier(tips, x);
    }
    if exists x | 0 <= x < |tips| :: Above(le, tips, a, x) && Maximal(le, tips, x) && OnlyCarrier(tips, x) {
      var x :| 0 <= x < |tips| && Above(le, tips, a, x) && Maximal(le, tips, x) && OnlyCarrier(tips, x);
      forall y | 0 <= y < |tips| && y != x
        ensures !le(tips[x], tips[y])
      {
        assert !Above(le, tips, x, y);
      }
      assert Covers(le, tips, a, x);
    }
  }

  ghost predicate OnlyCarrier(tips: seq<Tip>, x: nat)
    requires x < |tips|
  {
    forall y | 0 <= y < |tips| && y != x :: tips[y] != tips[x]
  }

  /** Two branches on one maximal tip leave a plain ancestor unresolved. */
  lemma SharedTipKeepsAncestor()
    ensures exists le: Ancestry, tips: seq<Tip>, a: nat ::
      IsOrder(le) && a < |tips| && Remains(le, tips, a) && !Maximal(le, tips, a)
  {
    var le: Ancestry := (a, b) => a <= b;
    var tips: seq<Tip> := [1, 2, 2];
    assert Above(le, tips, 0, 1);
    forall x | 0 <= x < |tips|
      ensures !Covers(le, tips, 0, x)
    {
      assert le(tips[1], tips[2]) && le(tips[2], tips[1]);
    }
    assert Remains(le, tips, 0) && !Maximal(le, tips, 0);
  }

  // ----- the reconciliation -----

  class Branch {
    const name: nat
    const tip: Tip
    var classification: Classification
    var subsumedBy: seq<Cover>
    var missingPatches: nat
    var previousMissing: nat
    var patchKeys: seq<nat>
    var patches: seq<nat>
    var changedFiles: seq<nat>

    constructor (name: nat, tip: Tip, classification: Classification, missingPatches: nat, patchKeys: seq<nat>, patches: seq<nat>, changedFiles: seq<nat>)
      ensures this.name == name && this.tip == tip && this.classification == classification
      ensures this.missingPatches == missingPatches && subsumedBy == [] && previousMissing == 0
      ensures this.patchKeys == patchKeys && this.patches == patches && this.changedFiles == changedFiles
    {
      this.name, this.tip, this.classification, this.missingPatches := name, tip, classification, missingPatches;
      this.patchKeys, this.patches, this.changedFiles := patchKeys, patches, changedFiles;
      subsumedBy, previousMissing := [], 0;
    }

    /** Nothing is left to recover from the branch. */
    predicate Cleared()
      reads this
    {
      missingPatches == 0 && patchKeys == [] && patches == [] && changedFiles == []
    }
  }

  ghost predicate Processed(a: nat, b: nat, i: nat, j: nat) {
    a < b && (a < i || (a == i && b < j))
  }

  ghost predicate ListedUpTo(le: Ancestry, tips: seq<Tip>, lists: seq<seq<nat>>, i: nat, j: nat) {
    && |lists| == |tips|
    && forall a: nat, x: nat | a < |tips| :: x in lists[a] <==>
      x < |tips| && Above(le, tips, a, x) && (Processed(a, x, i, j) || Processed(x, a, i, j))
  }

  ghost predicate AllAscending(lists: seq<seq<nat>>) {
    forall a, k, m | 0 <= a < |lists| && 0 <= k < m < |lists[a]| :: lists[a][k] < lists[a][m]
  }

  lemma AppendAscends(lists: seq<seq<nat>>, a: nat, x: nat)
    requires AllAscending(lists) && a < |lists| && forall y | y in lists[a] :: y < x
    ensures AllAscending(lists[a := lists[a] + [x]])
  {
    assert forall k | 0 <= k < |lists[a]| :: lists[a][k] in lists[a];
  }

  /** For every candidate the candidates strictly above it. */
  method Descendants(le: Ancestry, tips: seq<Tip>) returns (lists: seq<seq<nat>>)
    requires IsOrder(le)
    ensures forall a | 0 <= a < |lists| :: Listed(tips, lists[a])
    ensures |lists| == |tips| && forall a: nat, x: nat | a < |tips| :: x in lists[a] <==> x < |tips| && Above(le, tips, a, x)
  {
    lists := seq(|tips|, _ => []);
    for i := 0 to |tips|
      invariant ListedUpTo(le, tips, lists, i, i + 1) && AllAscending(lists)
    {
      for j := i + 1 to |tips|
        invariant ListedUpTo(le, tips, lists, i, j) && AllAscending(lists)
      {
        if tips[i] != tips[j] {
          if le(tips[i], tips[j]) {
            AppendAscends(lists, i, j);
            lists := lists[i := lists[i] + [j]];
          } else if le(tips[j], tips[i]) {
            AppendAscends(lists, j, i);
            lists := lists[j := lists[j] + [i]];
          }
        }
      }
    }
    forall a | 0 <= a < |lists|
      ensures Listed(tips, lists[a])
    {
      forall k | 0 <= k < |lists[a]|
        ensures lists[a][k] < |tips|
      {
        assert lists[a][k] in lists[a];
      }
    }
  }

  /** Candidates, in order and without repetition. */
  ghost predicate Listed(tips: seq<Tip>, list: seq<nat>) {
    && (forall k | 0 <= k < |list| :: list[k] < |tips|)
    && (forall k, m | 0 <= k < m < |list| :: list[k] < list[m])
  }

  /** No other entry of the list among the first m reaches x. */
  ghost predicate NoneLater(le: Ancestry, tips: seq<Tip>, list: seq<nat>, x: nat, m: nat)
    requires Listed(tips, list) && x < |tips| && m <= |list|
  {
    forall k | 0 <= k < m :: list[k] == x || !le(tips[x], tips[list[k]])
  }

  /** Keeps of a list the candidates that no other of the list reaches. */
  method KeepMaximal(le: Ancestry, tips: seq<Tip>, list: seq<nat>) returns (kept: seq<nat>)
    requires Listed(tips, list)
    ensures Listed(tips, kept)
    ensures forall x: nat | x < |tips| :: x in kept <==> x in list && NoneLater(le, tips, list, x, |list|)
  {
    kept := [];
    for k := 0 to |list|
      invariant Listed(tips, kept) && forall x | x in kept :: x in list[..k]
      invariant forall x: nat | x < |tips| :: x in kept <==> x in list[..k] && NoneLater(le, tips, list, x, |list|)
    {
      var x := list[k];
      var later := false;
      for m := 0 to |list|
        invariant !later ==> NoneLater(le, tips, list, x, m)
        invariant later ==> !NoneLater(le, tips, list, x, |list|)
      {
        var y := list[m];
        if x != y && le(tips[x], tips[y]) {
          later := true;
        }
      }
      assert list[..k + 1] == list[..k] + [x];
      if !later {
        forall i | 0 <= i < |kept|
          ensures kept[i] < x
        {
          assert kept[i] in kept;
        }
        kept := kept + [x];
      }
    }
    assert list[..|list|] == list;
  }

  /** What is kept of the candidates above a are its covers. */
  lemma KeptCovers(le: Ancestry, tips: seq<Tip>, list: seq<nat>, a: nat, x: nat)
    requires IsOrder(le) && a < |tips| && x < |tips| && Listed(tips, list)
    requires forall y: nat :: y in list <==> y < |tips| && Above(le, tips, a, y)
    ensures x in list && NoneLater(le, tips, list, x, |list|) <==> Covers(le, tips, a, x)
  {
    if x in list && !Solitary(le, tips, x) {
      var y :| 0 <= y < |tips| && y != x && le(tips[x], tips[y]);
      assert le(tips[a], tips[y]) && tips[a] != tips[y];
      assert y in list;
      var k :| 0 <= k < |list| && list[k] == y;
      assert !NoneLater(le, tips, list, x, |list|);
    }
  }

  ghost predicate Named(branches: seq<Branch>) {
    forall i, j | 0 <= i < j < |branches| :: branches[i] != branches[j] && branches[i].name != branches[j].name
  }

  ghost function TipsOf(branches: seq<Branch>): (tips: seq<Tip>)
    ensures |tips| == |branches| && forall i | 0 <= i < |branches| :: tips[i] == branches[i].tip
  {
    seq(|branches|, i requires 0 <= i < |branches| => branches[i].tip)
  }

  /** The entries of a cover list are the covers of a, as they are named and tipped. */
  ghost predicate CoverList(le: Ancestry, candidates: seq<Branch>, a: nat, covers: seq<Cover>)
    requires a < |candidates|
  {
    && (forall k | 0 <= k < |covers| :: HasCover(le, candidates, a, covers[k]))
    && (forall x: nat | x < |candidates| && Covers(le, TipsOf(candidates), a, x) :: Cover(candidates[x].name, candidates[x].tip) in covers)
    && SortedCovers(covers)
  }

  ghost predicate CoverIs(le: Ancestry, candidates: seq<Branch>, a: nat, x: nat, cover: Cover)
    requires a < |candidates|
  {
    x < |candidates| && Covers(le, TipsOf(candidates), a, x) && cover == Cover(candidates[x].name, candidates[x].tip)
  }

  ghost predicate HasCover(le: Ancestry, candidates: seq<Branch>, a: nat, cover: Cover)
    requires a < |candidates|
  {
    exists x: nat :: CoverIs(le, candidates, a, x, cover)
  }

  predicate SortedCovers(covers: seq<Cover>) {
    forall i, j | 0 <= i < j < |covers| :: covers[i].branch < covers[j].branch
  }

  /** One more entry, by name. */
  method InsertCover(covers: seq<Cover>, cover: Cover) returns (more: seq<Cover>)
    requires SortedCovers(covers) && forall i | 0 <= i < |covers| :: covers[i].branch != cover.branch
    ensures SortedCovers(more) && |more| == |covers| + 1 && forall c :: c in more <==> c in covers || c == cover
  {
    var k := 0;
    while k < |covers| && covers[k].branch <= cover.branch
      invariant k <= |covers| && forall i | 0 <= i < k :: covers[i].branch < cover.branch
    {
      k := k + 1;
    }
    more := covers[..k] + [cover] + covers[k..];
    InsertedAt(covers, cover, k);
  }

  lemma {:induction false} InsertedAt(covers: seq<Cover>, cover: Cover, k: nat)
    requires SortedCovers(covers) && k <= |covers| && forall i | 0 <= i < k :: covers[i].branch < cover.branch
    requires k < |covers| ==> cover.branch < covers[k].branch
    ensures var more := covers[..k] + [cover] + covers[k..];
      SortedCovers(more) && |more| == |covers| + 1 && forall c :: c in more <==> c in covers || c == cover
  {
    var more := covers[..k] + [cover] + covers[k..];
    assert forall i | 0 <= i < |more| :: more[i] == if i < k then covers[i] else if i == k then cover else covers[i - 1];
    forall i, j | 0 <= i < j < |more|
      ensures more[i].branch < more[j].branch
    {
      assert j > k ==> cover.branch < covers[j - 1].branch;
    }
    assert covers == covers[..k] + covers[k..];
  }

  method CoversOf(candidates: seq<Branch>, kept: seq<nat>) returns (covers: seq<Cover>)
    requires Named(candidates) && forall k | 0 <= k < |kept| :: kept[k] < |candidates|
    requires forall k, m | 0 <= k < m < |kept| :: kept[k] < kept[m]
    ensures SortedCovers(covers) && (covers == [] <==> kept == [])
    ensures forall c :: c in covers <==> exists k | 0 <= k < |kept| :: c == Cover(candidates[kept[k]].name, candidates[kept[k]].tip)
  {
    covers := [];
    for m := 0 to |kept|
      invariant SortedCovers(covers) && (covers == [] <==> m == 0)
      invariant forall c :: c in covers <==> exists k | 0 <= k < m :: c == Cover(candidates[kept[k]].name, candidates[kept[k]].tip)
    {
      forall i | 0 <= i < |covers|
        ensures covers[i].branch != candidates[kept[m]].name
      {
        assert covers[i] in covers;
      }
      covers := InsertCover(covers, Cover(candidates[kept[m]].name, candidates[kept[m]].tip));
    }
  }

  method CandidatesOf(branches: seq<Branch>) returns (candidates: seq<Branch>)
    requires Named(branches)
    ensures Named(candidates) && forall b: Branch :: b in candidates <==> b in branches && b.classification == Candidate
  {
    candidates := [];
    for i := 0 to |branches|
      invariant Named(candidates) && forall b: Branch :: b in candidates <==> b in branches[..i] && b.classification == Candidate
    {
      assert branches[..i + 1] == branches[..i] + [branches[i]];
      if branches[i].classification == Candidate {
        forall c | 0 <= c < |candidates|
          ensures candidates[c] != branches[i] && candidates[c].name != branches[i].name
        {
          assert candidates[c] in candidates;
        }
        candidates := candidates + [branches[i]];
      }
    }
    assert branches[..|branches|] == branches;
  }

  /** What a candidate becomes. */
  ghost predicate Becomes(le: Ancestry, candidates: seq<Branch>, a: nat, classification: Classification, covers: seq<Cover>, cleared: bool)
    requires a < |candidates|
  {
    if Remains(le, TipsOf(candidates), a) then classification == Candidate
    else classification == Subsumed && CoverList(le, candidates, a, covers) && cleared
  }

  /** A candidate as it has been settled. */
  ghost predicate Settled(le: Ancestry, candidates: seq<Branch>, a: nat)
    requires a < |candidates|
    reads candidates[a]
  {
    Becomes(le, candidates, a, candidates[a].classification, candidates[a].subsumedBy, candidates[a].Cleared())
  }

  /** Decides one candidate from those above it. */
  method Settle(candidates: seq<Branch>, a: nat, le: Ancestry, tips: seq<Tip>, list: seq<nat>)
    requires IsOrder(le) && Named(candidates) && a < |candidates| && tips == TipsOf(candidates) && candidates[a].classification == Candidate
    requires Listed(tips, list) && forall y: nat :: y in list <==> y < |tips| && Above(le, tips, a, y)
    modifies candidates[a]
    ensures Settled(le, candidates, a)
    ensures candidates[a].classification == Candidate ==> unchanged(candidates[a])
    ensures candidates[a].classification != Candidate ==> candidates[a].previousMissing == old(candidates[a].missingPatches)
  {
    hide IsOrder, Remains, CoverList, Listed, Above;
    var kept := KeepMaximal(le, tips, list);
    KeptAreCovers(le, tips, list, kept, a);
    if kept != [] {
      ListedIs(tips, kept);
      var covers := CoversOf(candidates, kept);
      CoversListed(le, candidates, a, kept, covers);
      var branch := candidates[a];
      branch.previousMissing := branch.missingPatches;
      branch.classification := Subsumed;
      branch.subsumedBy := covers;
      branch.missingPatches, branch.patchKeys, branch.patches, branch.changedFiles := 0, [], [], [];
    }
  }

  lemma ListedIs(tips: seq<Tip>, list: seq<nat>)
    requires Listed(tips, list)
    ensures forall k | 0 <= k < |list| :: list[k] < |tips|
    ensures forall k, m | 0 <= k < m < |list| :: list[k] < list[m]
  {
  }

  // ----- the summary of an estate -----

  /** Patches by the branches that miss them, and branches by what they miss. */
  datatype Summary = Summary(candidates: nat, subsumed: nat, patches: map<nat, set<nat>>, groups: map<seq<nat>, seq<nat>>)

  ghost function ClassesOf(branches: seq<Branch>): (classes: seq<Classification>)
    reads branches
    ensures |classes| == |branches| && forall i | 0 <= i < |branches| :: classes[i] == branches[i].classification
  {
    seq(|branches|, i requires 0 <= i < |branches| reads branches => branches[i].classification)
  }

  ghost function Count(classes: seq<Classification>, c: Classification): nat {
    if classes == [] then 0 else Count(classes[..|classes| - 1], c) + if classes[|classes| - 1] == c then 1 else 0
  }

  /** Subsuming candidates moves them from one count to the other. */
  lemma {:induction false} CountsMove(before: seq<Classification>, after: seq<Classification>)
    requires |before| == |after|
    requires forall i | 0 <= i < |before| :: after[i] == before[i] || (before[i] == Candidate && after[i] == Subsumed)
    ensures Count(after, Candidate) + Count(after, Subsumed) == Count(before, Candidate) + Count(before, Subsumed)
    ensures Count(after, Candidate) <= Count(before, Candidate)
  {
    if before != [] {
      CountsMove(before[..|before| - 1], after[..|after| - 1]);
    }
  }

  ghost predicate Misses(b: Branch, key: nat)
    reads b
  {
    key in b.patches
  }

  /** Whose patches these are, counting the first n branches. */
  ghost predicate PatchesOf(branches: seq<Branch>, n: nat, patches: map<nat, set<nat>>)
    requires n <= |branches|
    reads branches
  {
    && (forall key :: key in patches <==> exists i | 0 <= i < n :: Misses(branches[i], key))
    && (forall key, name | key in patches :: name in patches[key] <==> exists i | 0 <= i < n :: branches[i].name == name && Misses(branches[i], key))
  }

  ghost function NamesMissing(branches: seq<Branch>, n: nat, keys: seq<nat>): seq<nat>
    requires n <= |branches|
    reads branches
  {
    if n == 0 then []
    else NamesMissing(branches, n - 1, keys) + OwnName(branches[n - 1], keys)
  }

  ghost predicate GroupsOf(branches: seq<Branch>, n: nat, groups: map<seq<nat>, seq<nat>>)
    requires n <= |branches|
    reads branches
  {
    && (forall keys :: keys in groups <==> keys != [] && NamesMissing(branches, n, keys) != [])
    && (forall keys | keys in groups :: groups[keys] == NamesMissing(branches, n, keys))
  }

  /** Adds the patches of one more branch. */
  method AddPatches(branches: seq<Branch>, n: nat, before: map<nat, set<nat>>) returns (patches: map<nat, set<nat>>)
    requires n < |branches| && PatchesOf(branches, n, before)
    ensures PatchesOf(branches, n + 1, patches)
  {
    patches := before;
    var b := branches[n];
    for k := 0 to |b.patches|
      invariant forall key :: key in patches <==> key in before || key in b.patches[..k]
      invariant forall key | key in patches ::
        patches[key] == (if key in before then before[key] else {}) + if key in b.patches[..k] then {b.name} else {}
    {
      var key := b.patches[k];
      assert b.patches[..k + 1] == b.patches[..k] + [key];
      patches := patches[key := (if key in patches then patches[key] else {}) + {b.name}];
    }
    assert b.patches[..|b.patches|] == b.patches;
    PatchesGrow(branches, n, before, patches);
  }

  lemma PatchesGrow(branches: seq<Branch>, n: nat, before: map<nat, set<nat>>, after: map<nat, set<nat>>)
    requires n < |branches| && PatchesOf(branches, n, before)
    requires forall key :: key in after <==> key in before || Misses(branches[n], key)
    requires forall key | key in after ::
      after[key] == (if key in before then before[key] else {}) + if Misses(branches[n], key) then {branches[n].name} else {}
    ensures PatchesOf(branches, n + 1, after)
  {
    hide Misses;
    forall key
      ensures key in after <==> exists i | 0 <= i < n + 1 :: Misses(branches[i], key)
    {
    }
    forall key, name | key in after
      ensures name in after[key] <==> exists i | 0 <= i < n + 1 :: branches[i].name == name && Misses(branches[i], key)
    {
      if key !in before {
        assert forall i | 0 <= i < n :: !Misses(branches[i], key);
      }
    }
  }

  /** Adds one more branch to the group of its missing patches. */
  method AddGroup(branches: seq<Branch>, n: nat, before: map<seq<nat>, seq<nat>>) returns (groups: map<seq<nat>, seq<nat>>)
    requires n < |branches| && GroupsOf(branches, n, before)
    ensures GroupsOf(branches, n + 1, groups)
  {
    hide NamesMissing;
    var b := branches[n];
    OneMoreName(branches, n);
    groups := before;
    if b.patchKeys != [] {
      groups := groups[b.patchKeys := (if b.patchKeys in groups then groups[b.patchKeys] else []) + [b.name]];
    }
  }

  ghost function OwnName(b: Branch, keys: seq<nat>): seq<nat>
    reads b
  {
    if b.patchKeys == keys then [b.name] else []
  }

  lemma OneMoreName(branches: seq<Branch>, n: nat)
    requires n < |branches|
    ensures forall keys :: NamesMissing(branches, n + 1, keys) == NamesMissing(branches, n, keys) + OwnName(branches[n], keys)
  {
  }

  lemma NothingSummed(branches: seq<Branch>)
    ensures PatchesOf(branches, 0, map[]) && GroupsOf(branches, 0, map[])
  {
  }

  /** Counts, patches and groups of the branches as they stand. */
  method Recompute(branches: seq<Branch>) returns (s: Summary)
    ensures s.candidates == Count(ClassesOf(branches), Candidate) && s.subsumed == Count(ClassesOf(branches), Subsumed)
    ensures PatchesOf(branches, |branches|, s.patches) && GroupsOf(branches, |branches|, s.groups)
  {
    hide PatchesOf, GroupsOf;
    NothingSummed(branches);
    s := Summary(0, 0, map[], map[]);
    ghost var classes := ClassesOf(branches);
    for n := 0 to |branches|
      invariant s.candidates == Count(classes[..n], Candidate) && s.subsumed == Count(classes[..n], Subsumed)
      invariant PatchesOf(branches, n, s.patches) && GroupsOf(branches, n, s.groups)
    {
      var b := branches[n];
      assert classes[..n + 1][..n] == classes[..n];
      var patches := AddPatches(branches, n, s.patches);
      var groups := AddGroup(branches, n, s.groups);
      s := Summary(s.candidates + if b.classification == Candidate then 1 else 0,
                   s.subsumed + if b.classification == Subsumed then 1 else 0, patches, groups);
    }
    assert classes[..|branches|] == classes;
  }

  /** Settles every candidate, each independently of the others. */
  method SettleAll(candidates: seq<Branch>, le: Ancestry)
    requires IsOrder(le) && Named(candidates) && forall c | 0 <= c < |candidates| :: candidates[c].classification == Candidate
    modifies candidates
    ensures forall a | 0 <= a < |candidates| :: Settled(le, candidates, a)
    ensures forall b: Branch | b in candidates && b.classification == Candidate :: unchanged(b)
    ensures forall b: Branch | b in candidates && b.classification != Candidate :: b.previousMissing == old(b.missingPatches)
  {
    hide IsOrder, Becomes, Listed, Above;
    var tips := seq(|candidates|, i requires 0 <= i < |candidates| => candidates[i].tip);
    assert tips == TipsOf(candidates);
    var descendants := Descendants(le, tips);
    for a := 0 to |candidates|
      invariant forall c | 0 <= c < a :: Settled(le, candidates, c)
      invariant forall c | a <= c < |candidates| :: candidates[c].classification == Candidate
      invariant forall b: Branch | b in candidates && b.classification == Candidate :: unchanged(b)
      invariant forall b: Branch | b in candidates && b.classification != Candidate :: b.previousMissing == old(b.missingPatches)
    {
      assert candidates[a] in candidates;
      NotEarlier(candidates, a);
      Settle(candidates, a, le, tips, descendants[a]);
    }
  }

  /** Settles the candidates and summarizes the estate again. */
  method Reconcile(branches: seq<Branch>, le: Ancestry) returns (candidates: seq<Branch>, summary: Summary)
    requires IsOrder(le) && Named(branches)
    modifies branches
    ensures Named(candidates) && forall b: Branch :: b in candidates <==> b in branches && old(b.classification) == Candidate
    ensures forall a | 0 <= a < |candidates| :: Settled(le, candidates, a)
    ensures forall b: Branch | b in branches && b.classification == old(b.classification) :: unchanged(b)
    ensures forall b: Branch | b in branches && b.classification != old(b.classification) :: b.previousMissing == old(b.missingPatches)
    ensures summary.candidates == Count(ClassesOf(branches), Candidate) && summary.subsumed == Count(ClassesOf(branches), Subsumed)
    ensures summary.candidates + summary.subsumed == old(Count(ClassesOf(branches), Candidate) + Count(ClassesOf(branches), Subsumed))
    ensures PatchesOf(branches, |branches|, summary.patches) && GroupsOf(branches, |branches|, summary.groups)
  {
    hide IsOrder, Settled, Count, PatchesOf, GroupsOf, Named;
    ghost var before := ClassesOf(branches);
    candidates := CandidatesOf(branches);
    assert forall c | 0 <= c < |candidates| :: candidates[c] in candidates;
    SettleAll(candidates, le);
    ghost var after := ClassesOf(branches);
    forall i | 0 <= i < |branches|
      ensures after[i] == before[i] || (before[i] == Candidate && after[i] == Subsumed)
    {
      var b := branches[i];
      assert b in branches;
      if b in candidates {
        var c :| 0 <= c < |candidates| && candidates[c] == b;
        SettledIs(le, candidates, c);
      }
    }
    CountsMove(before, after);
    summary := Recompute(branches);
  }

  lemma SettledIs(le: Ancestry, candidates: seq<Branch>, a: nat)
    requires a < |candidates| && Settled(le, candidates, a)
    ensures candidates[a].classification == Candidate || candidates[a].classification == Subsumed
  {
  }

  lemma NotEarlier(candidates: seq<Branch>, a: nat)
    requires Named(candidates) && a < |candidates|
    ensures candidates[a] !in candidates[..a]
    ensures forall c | 0 <= c < a :: candidates[c] != candidates[a]
  {
  }

  lemma KeptAreCovers(le: Ancestry, tips: seq<Tip>, list: seq<nat>, kept: seq<nat>, a: nat)
    requires IsOrder(le) && a < |tips| && Listed(tips, list) && Listed(tips, kept)
    requires forall y: nat :: y in list <==> y < |tips| && Above(le, tips, a, y)
    requires forall x: nat | x < |tips| :: x in kept <==> x in list && NoneLater(le, tips, list, x, |list|)
    ensures forall x: nat | x < |tips| :: x in kept <==> Covers(le, tips, a, x)
    ensures kept == [] <==> Remains(le, tips, a)
  {
    forall x: nat | x < |tips|
      ensures x in kept <==> Covers(le, tips, a, x)
    {
      KeptCovers(le, tips, list, a, x);
    }
    if kept != [] {
      assert kept[0] in kept && Covers(le, tips, a, kept[0]);
    }
  }

  lemma CoversListed(le: Ancestry, candidates: seq<Branch>, a: nat, kept: seq<nat>, covers: seq<Cover>)
    requires a < |candidates| && SortedCovers(covers) && Listed(TipsOf(candidates), kept)
    requires forall x: nat | x < |candidates| :: x in kept <==> Covers(le, TipsOf(candidates), a, x)
    requires forall c :: c in covers <==> exists k | 0 <= k < |kept| :: c == Cover(candidates[kept[k]].name, candidates[kept[k]].tip)
    ensures CoverList(le, candidates, a, covers)
  {
    forall k | 0 <= k < |covers|
      ensures HasCover(le, candidates, a, covers[k])
    {
      assert covers[k] in covers;
      var m :| 0 <= m < |kept| && covers[k] == Cover(candidates[kept[m]].name, candidates[kept[m]].tip);
      assert kept[m] in kept && kept[m] < |TipsOf(candidates)|;
      assert Covers(le, TipsOf(candidates), a, kept[m]);
      assert CoverIs(le, candidates, a, kept[m], covers[k]);
    }
    forall x: nat | x < |candidates| && Covers(le, TipsOf(candidates), a, x)
      ensures Cover(candidates[x].name, candidates[x].tip) in covers
    {
      var m :| 0 <= m < |kept| && kept[m] == x;
    }
  }

  /** Every branch named as a cover is still a candidate, and reaches what it covers. */
  lemma CoversStayCandidates(le: Ancestry, candidates: seq<Branch>, a: nat, k: nat)
    requires IsOrder(le) && a < |candidates| && (forall c | 0 <= c < |candidates| :: Settled(le, candidates, c))
    requires candidates[a].classification == Subsumed && k < |candidates[a].subsumedBy|
    ensures exists x: nat | x < |candidates| ::
      candidates[x].classification == Candidate && candidates[a].subsumedBy[k] == Cover(candidates[x].name, candidates[x].tip) && le(candidates[a].tip, candidates[x].tip)
  {
    assert Settled(le, candidates, a);
    var x: nat :| CoverIs(le, candidates, a, x, candidates[a].subsumedBy[k]);
    CoverRemains(le, TipsOf(candidates), a, x);
    assert Settled(le, candidates, x);
  }

  // ----- in terms of tips and names -----

  /** x stands in for a: its tip is another one, above that of a, and no other candidate's
      tip is at or above it. */
  ghost predicate StandsIn(le: Ancestry, candidates: seq<Branch>, a: nat, x: nat) {
    && a < |candidates| && x < |candidates|
    && candidates[a].tip != candidates[x].tip && le(candidates[a].tip, candidates[x].tip)
    && forall y | 0 <= y < |candidates| && y != x :: !le(candidates[x].tip, candidates[y].tip)
  }

  /** A settled candidate stays one exactly when nothing stands in for it; otherwise it is
      subsumed, has no patches, keys or files left, and lists by name and tip what stands
      in for it and nothing else. */
  lemma SettledExactly(le: Ancestry, candidates: seq<Branch>, a: nat)
    requires a < |candidates|
    ensures Settled(le, candidates, a) <==>
      if forall x: nat :: !StandsIn(le, candidates, a, x) then candidates[a].classification == Candidate
      else
        && candidates[a].classification == Subsumed
        && candidates[a].missingPatches == 0 && candidates[a].patchKeys == [] && candidates[a].patches == [] && candidates[a].changedFiles == []
        && SortedCovers(candidates[a].subsumedBy)
        && forall c: Cover :: c in candidates[a].subsumedBy <==>
          exists x: nat :: StandsIn(le, candidates, a, x) && c == Cover(candidates[x].name, candidates[x].tip)
  {
    hide SortedCovers;
    var tips, covers := TipsOf(candidates), candidates[a].subsumedBy;
    forall x: nat
      ensures StandsIn(le, candidates, a, x) <==> x < |candidates| && Covers(le, tips, a, x)
    {
    }
    CoversAre(le, candidates, a, covers);
  }

  lemma CoversAre(le: Ancestry, candidates: seq<Branch>, a: nat, covers: seq<Cover>)
    requires a < |candidates|
    requires forall x: nat :: StandsIn(le, candidates, a, x) <==> x < |candidates| && Covers(le, TipsOf(candidates), a, x)
    ensures CoverList(le, candidates, a, covers) <==>
      && SortedCovers(covers)
      && forall c: Cover :: c in covers <==> exists x: nat :: StandsIn(le, candidates, a, x) && c == Cover(candidates[x].name, candidates[x].tip)
  {
    hide SortedCovers, StandsIn, Covers;
    if CoverList(le, candidates, a, covers) {
      forall c: Cover | c in covers
        ensures exists x: nat :: StandsIn(le, candidates, a, x) && c == Cover(candidates[x].name, candidates[x].tip)
      {
        var k :| 0 <= k < |covers| && covers[k] == c;
        assert HasCover(le, candidates, a, covers[k]);
        var x: nat :| CoverIs(le, candidates, a, x, c);
        assert StandsIn(le, candidates, a, x);
      }
    }
    if forall c: Cover :: c in covers <==> exists x: nat :: StandsIn(le, candidates, a, x) && c == Cover(candidates[x].name, candidates[x].tip) {
      forall k | 0 <= k < |covers|
        ensures HasCover(le, candidates, a, covers[k])
      {
        assert covers[k] in covers;
        var x: nat :| StandsIn(le, candidates, a, x) && covers[k] == Cover(candidates[x].name, candidates[x].tip);
        assert CoverIs(le, candidates, a, x, covers[k]);
      }
      forall x: nat | x < |candidates| && Covers(le, TipsOf(candidates), a, x)
        ensures Cover(candidates[x].name, candidates[x].tip) in covers
      {
        assert StandsIn(le, candidates, a, x);
      }
    }
  }

  ghost function Classified(classes: seq<Classification>, c: Classification, n: nat): set<nat>
    requires n <= |classes|
  {
    set i: nat | i < n && classes[i] == c
  }

  lemma ClassifiedNext(classes: seq<Classification>, c: Classification, n: nat)
    requires n < |classes|
    ensures Classified(classes, c, n + 1) == Classified(classes, c, n) + if classes[n] == c then {n} else {}
    ensures n !in Classified(classes, c, n)
  {
  }

  /** The counts of the summary are the numbers of branches so classified. */
  lemma {:induction false} CountMeans(classes: seq<Classification>, c: Classification, n: nat)
    requires n <= |classes|
    ensures Count(classes[..n], c) == |Classified(classes, c, n)|
  {
    hide Classified;
    if n == 0 {
      NoneClassified(classes, c);
    } else {
      CountMeans(classes, c, n - 1);
      ClassifiedNext(classes, c, n - 1);
      assert classes[..n][..n - 1] == classes[..n - 1];
    }
  }

  lemma NoneClassified(classes: seq<Classification>, c: Classification)
    ensures Classified(classes, c, 0) == {}
  {
  }

  /** The groups of the summary: one for each list of keys that some branch has, if it is
      not empty, holding the names of exactly those branches. */
  lemma GroupsExactly(branches: seq<Branch>, n: nat, groups: map<seq<nat>, seq<nat>>)
    requires n <= |branches| && GroupsOf(branches, n, groups)
    ensures forall keys :: keys in groups <==> keys != [] && exists i | 0 <= i < n :: branches[i].patchKeys == keys
    ensures forall keys, name | keys in groups :: name in groups[keys] <==> exists i | 0 <= i < n :: branches[i].patchKeys == keys && branches[i].name == name
  {
    hide NamesMissing;
    forall keys: seq<nat>
      ensures NamesMissing(branches, n, keys) != [] <==> exists i | 0 <= i < n :: branches[i].patchKeys == keys
      ensures forall name :: name in NamesMissing(branches, n, keys) <==> exists i | 0 <= i < n :: branches[i].patchKeys == keys && branches[i].name == name
    {
      NamesExactly(branches, n, keys);
    }
  }

  lemma {:induction false} NamesExactly(branches: seq<Branch>, n: nat, keys: seq<nat>)
    requires n <= |branches|
    ensures NamesMissing(branches, n, keys) != [] <==> exists i | 0 <= i < n :: branches[i].patchKeys == keys
    ensures forall name :: name in NamesMissing(branches, n, keys) <==> exists i | 0 <= i < n :: branches[i].patchKeys == keys && branches[i].name == name
  {
    if n > 0 {
      NamesExactly(branches, n - 1, keys);
    }
  }
}
