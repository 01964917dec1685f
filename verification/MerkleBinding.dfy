/** What the Merkle root binds: which presented texts and proofs verify, and which lists of items share
    a root. */
module MerkleBinding {
  import opened Merkle

  // ------------------------------------------------------------- soundness

  /** The digest was built from the leaves by `h` pairings. */
  predicate Covers(d: Digest, h: nat, items: seq<Text>) {
    if h == 0 then d.text in items
    else IsPair(d.text) && Covers(d.text[0].digest, h - 1, items) && Covers(d.text[1].digest, h - 1, items)
  }

  /** The text is the concatenation of two digests. */
  predicate IsPair(t: Text) {
    |t| == 2 && t[0].Dig? && t[1].Dig?
  }

  predicate NoPairs(items: seq<Text>) {
    forall i :: 0 <= i < |items| ==> !IsPair(items[i])
  }

  /** The text begins or ends with a digest. */
  predicate Edged(t: Text) {
    t != [] && (t[0].Dig? || t[|t| - 1].Dig?)
  }

  lemma {:induction false} RootCovers(level: seq<Digest>, h: nat, items: seq<Text>)
    requires level != [] && forall i :: 0 <= i < |level| ==> Covers(level[i], h, items)
    ensures Covers(RootOf(level), h + Depth(|level|), items)
    decreases |level|
  {
    if |level| > 1 {
      var next := NextLevel(level);
      forall i | 0 <= i < |next|
        ensures Covers(next[i], h + 1, items)
      {
        assert next[i] == Parent(level, i);
      }
      RootCovers(next, h + 1, items);
    }
  }

  /** Going down a proof from the digest it reaches. */
  lemma {:induction false} FoldUncovers(current: Digest, proof: seq<ProofStep>, h: nat, items: seq<Text>)
    requires Covers(Fold(current, proof), h, items) && |proof| <= h
    ensures Covers(current, h - |proof|, items)
    decreases |proof|
  {
    if proof != [] {
      FoldUncovers(Combine(current, proof[0]), proof[1..], h, items);
    }
  }

  /** A proof as long as the tree is high proves what it should, whatever the items are. */
  lemma {:induction false} FullLengthProofIsSound(items: seq<Text>, leaf: Text, proof: seq<ProofStep>)
    requires items != [] && |proof| == Depth(|items|)
    requires Verifies(leaf, proof, RootOf(Leaves(items)))
    ensures leaf in items
  {
    RootCovers(Leaves(items), 0, items);
    FoldUncovers(Hash(leaf), proof, Depth(|items|), items);
  }

  lemma CombinedIsEdged(current: Digest, step: ProofStep)
    ensures Edged(Combine(current, step).text)
    ensures Combine(current, step).text[0] == Dig(current)
            || Combine(current, step).text[|step.hash|] == Dig(current)
  {
  }

  /** Coming down a proof longer than the tree is high, some step combines a digest into an item. */
  lemma {:induction false} LongerProofMeetsEdge(items: seq<Text>, current: Digest, proof: seq<ProofStep>, h: nat)
    requires Covers(Fold(current, proof), h, items) && |proof| > h
    ensures exists i :: 0 <= i < |items| && Edged(items[i])
    decreases |proof|
  {
    var shorter, step := proof[..|proof| - 1], proof[|proof| - 1];
    FoldLast(current, proof);
    CombinedIsEdged(Fold(current, shorter), step);
    if h == 0 {
      var i :| 0 <= i < |items| && items[i] == Fold(current, proof).text;
    } else {
      assert Covers(Fold(current, shorter), h - 1, items);
      LongerProofMeetsEdge(items, current, shorter, h - 1);
    }
  }

  lemma {:induction false} FoldLast(current: Digest, proof: seq<ProofStep>)
    requires proof != []
    ensures Fold(current, proof) == Combine(Fold(current, proof[..|proof| - 1]), proof[|proof| - 1])
    decreases |proof|
  {
    if |proof| == 1 {
      assert proof[1..] == [] && proof[..0] == [];
    } else {
      FoldLast(Combine(current, proof[0]), proof[1..]);
      assert proof[1..][..|proof| - 2] == proof[..|proof| - 1][1..];
    }
  }

  ghost predicate LongerVerifies(items: seq<Text>, leaf: Text, proof: seq<ProofStep>)
    requires items != []
  {
    |proof| > Depth(|items|) && Verifies(leaf, proof, RootOf(Leaves(items)))
  }

  /** The digest at the edge of an item: the text it was computed from verifies too, as the rest of the item
      can be presented for a sibling's digest. */
  lemma {:induction false} EdgeVerifies(items: seq<Text>, i: nat) returns (leaf: Text, proof: seq<ProofStep>)
    requires i < |items| && Edged(items[i])
    ensures LongerVerifies(items, leaf, proof)
    ensures if items[i][0].Dig? then leaf == items[i][0].digest.text
            else items[i][|items[i]| - 1].Dig? && leaf == items[i][|items[i]| - 1].digest.text
  {
    var t, leaves := items[i], Leaves(items);
    var first: ProofStep;
    if t[0].Dig? {
      leaf, first := t[0].digest.text, ProofStep(t[1..], OnRight);
      assert [Dig(Hash(leaf))] + t[1..] == t;
    } else {
      leaf, first := t[|t| - 1].digest.text, ProofStep(t[..|t| - 1], OnLeft);
      assert t[..|t| - 1] + [Dig(Hash(leaf))] == t;
    }
    proof := [first] + RepairedClimb(leaves, i);
    RepairedClimbReachesRoot(leaves, i);
    assert proof[1..] == RepairedClimb(leaves, i) && leaves[i] == Hash(t);
  }

  /** Some verifying proof is longer than the tree is high if and only if some item begins or ends with a
      digest. */
  lemma {:induction false} LongerProofVerifiesExactlyOverEdges(items: seq<Text>)
    requires items != []
    ensures (exists leaf, proof :: LongerVerifies(items, leaf, proof))
            <==> (exists i :: 0 <= i < |items| && Edged(items[i]))
  {
    if leaf, proof :| LongerVerifies(items, leaf, proof) {
      RootCovers(Leaves(items), 0, items);
      LongerProofMeetsEdge(items, Hash(leaf), proof, Depth(|items|));
    }
    if i :| 0 <= i < |items| && Edged(items[i]) {
      var leaf, proof := EdgeVerifies(items, i);
    }
  }

  /** Such are the trees the audit service builds: every item is one digest.  The text that any of these
      digests was computed from verifies, although it is no item unless it is one digest itself. */
  lemma {:induction false} PreimageVerifiesInServiceTree(digests: seq<Digest>, i: nat) returns (proof: seq<ProofStep>)
    requires i < |digests|
    ensures var items := ServiceItems(digests);
            && Verifies(digests[i].text, proof, RootOf(Leaves(items))) && |proof| == Depth(|items|) + 1
            && (digests[i].text in items ==> |digests[i].text| == 1 && digests[i].text[0].Dig?)
  {
    var items := ServiceItems(digests);
    var leaf, leaves := digests[i].text, Leaves(items);
    proof := [ProofStep([], OnRight)] + RepairedClimb(leaves, i);
    RepairedClimbReachesRoot(leaves, i);
    assert [Dig(Hash(leaf))] + [] == items[i];
    assert proof[1..] == RepairedClimb(leaves, i) && leaves[i] == Hash(items[i]);
  }

  function ServiceItems(digests: seq<Digest>): (r: seq<Text>)
    ensures |r| == |digests|
  {
    seq(|digests|, i requires 0 <= i < |digests| => [Dig(digests[i])])
  }

  /** Which verifying proofs are sound, for every text and proof anyone can present against a tree none of
      whose items begins or ends with a digest: those as long as the tree is high, which are those that
      present no digest pair.  No proof is longer, and the shorter ones present a pair, which is no item. */
  lemma {:induction false} VerifyingIsSoundExactlyAtFullLength(items: seq<Text>, leaf: Text, proof: seq<ProofStep>)
    requires items != [] && forall i :: 0 <= i < |items| ==> !Edged(items[i])
    requires Verifies(leaf, proof, RootOf(Leaves(items)))
    ensures leaf in items <==> |proof| == Depth(|items|)
    ensures leaf in items <==> !IsPair(leaf)
  {
    RootCovers(Leaves(items), 0, items);
    if |proof| > Depth(|items|) {
      LongerProofMeetsEdge(items, Hash(leaf), proof, Depth(|items|));
    } else {
      FoldUncovers(Hash(leaf), proof, Depth(|items|), items);
    }
  }

  /** Every pair of neighbours on every level below the root is a text that verifies, under the proof of
      the node above it. */
  lemma NeighboursVerify(level: seq<Digest>, j: nat)
    requires |level| > 1 && 2 * j < |level|
    ensures Verifies(Parent(level, j).text, RepairedClimb(NextLevel(level), j), RootOf(level))
  {
    RepairedClimbReachesRoot(NextLevel(level), j);
  }

  /** So every tree of more than one item that is no digest pair accepts a text that is none of its
      items, under the empty proof. */
  lemma {:induction false} SomethingElseVerifies(items: seq<Text>) returns (leaf: Text)
    requires |items| > 1
    ensures Verifies(leaf, [], RootOf(Leaves(items)))
    ensures NoPairs(items) ==> leaf !in items
  {
    RootCovers(Leaves(items), 0, items);
    leaf := RootOf(Leaves(items)).text;
  }

  // ------------------------------------------------------ the root binds

  lemma NextLevelInjective(a: seq<Digest>, b: seq<Digest>)
    requires |a| == |b| && NextLevel(a) == NextLevel(b)
    ensures a == b
  {
    forall i | 0 <= i < |a|
      ensures a[i] == b[i]
    {
      assert NextLevel(a)[i / 2] == Parent(a, i / 2);
      assert NextLevel(b)[i / 2] == Parent(b, i / 2);
    }
  }

  lemma {:induction false} RootInjective(a: seq<Digest>, b: seq<Digest>)
    requires |a| == |b| && a != [] && RootOf(a) == RootOf(b)
    ensures a == b
    decreases |a|
  {
    if |a| > 1 {
      RootInjective(NextLevel(a), NextLevel(b));
      NextLevelInjective(a, b);
    }
  }

  /** Trees of the same size with the same root have the same leaves in the same order. */
  lemma RootBindsLeaves(a: seq<Text>, b: seq<Text>)
    requires |a| == |b| && a != []
    ensures RootOf(Leaves(a)) == RootOf(Leaves(b)) <==> a == b
  {
    if RootOf(Leaves(a)) == RootOf(Leaves(b)) {
      RootInjective(Leaves(a), Leaves(b));
      forall i | 0 <= i < |a|
        ensures a[i] == b[i]
      {
        assert Leaves(a)[i] == Hash(a[i]) && Leaves(b)[i] == Hash(b[i]);
      }
    }
  }

  /** So sizes are not bound: repeating the last leaf of an odd list of more than one leaf gives a longer
      list with the same root. */
  lemma RepeatedLastLeafKeepsRoot(items: seq<Text>)
    requires |items| > 1 && |items| % 2 == 1
    ensures RootOf(Leaves(items + [items[|items| - 1]])) == RootOf(Leaves(items))
  {
    var a, b := Leaves(items), Leaves(items + [items[|items| - 1]]);
    assert NextLevel(a) == NextLevel(b);
  }

  // ------------------------------------------------------ which lists share a root

  function Pow2(k: nat): (r: nat)
    ensures r >= 1
  {
    if k == 0 then 1 else 2 * Pow2(k - 1)
  }

  /** The item that stands at position k of the perfect tree an n-leaf tree amounts to. */
  function Slot(n: nat, k: nat): (i: nat)
    requires n >= 1
    ensures i < n
    decreases n
  {
    if n == 1 then 0
    else
      var j := Slot((n + 1) / 2, k / 2);
      if 2 * j + k % 2 < n then 2 * j + k % 2 else 2 * j
  }

  ghost predicate SameSlots<T>(a: seq<T>, b: seq<T>, width: nat)
    requires a != [] && b != []
  {
    forall k: nat :: k < width ==> a[Slot(|a|, k)] == b[Slot(|b|, k)]
  }

  /** The node above two neighbouring slots. */
  lemma SlotAbove(level: seq<Digest>, k: nat)
    requires |level| > 1
    ensures NextLevel(level)[Slot(|NextLevel(level)|, k)]
            == Node(level[Slot(|level|, 2 * k)], level[Slot(|level|, 2 * k + 1)])
  {
    assert 2 * k / 2 == k && 2 * k % 2 == 0 && (2 * k + 1) / 2 == k && (2 * k + 1) % 2 == 1;
    var j := Slot(|NextLevel(level)|, k);
    assert NextLevel(level)[j] == Parent(level, j);
  }

  lemma SlotsAbove(a: seq<Digest>, b: seq<Digest>, width: nat)
    requires |a| > 1 && |b| > 1
    ensures SameSlots(NextLevel(a), NextLevel(b), width) <==> SameSlots(a, b, 2 * width)
  {
    if SameSlots(NextLevel(a), NextLevel(b), width) {
      forall k: nat | k < 2 * width
        ensures a[Slot(|a|, k)] == b[Slot(|b|, k)]
      {
        SlotAbove(a, k / 2);
        SlotAbove(b, k / 2);
        assert NextLevel(a)[Slot(|NextLevel(a)|, k / 2)] == NextLevel(b)[Slot(|NextLevel(b)|, k / 2)];
        assert k == 2 * (k / 2) || k == 2 * (k / 2) + 1;
      }
    }
    if SameSlots(a, b, 2 * width) {
      forall k: nat | k < width
        ensures NextLevel(a)[Slot(|NextLevel(a)|, k)] == NextLevel(b)[Slot(|NextLevel(b)|, k)]
      {
        SlotAbove(a, k);
        SlotAbove(b, k);
        assert a[Slot(|a|, 2 * k)] == b[Slot(|b|, 2 * k)];
        assert a[Slot(|a|, 2 * k + 1)] == b[Slot(|b|, 2 * k + 1)];
      }
    }
  }

  lemma {:induction false} LevelRootsEqualExactlyBySlots(a: seq<Digest>, b: seq<Digest>)
    requires a != [] && b != [] && Depth(|a|) == Depth(|b|)
    ensures RootOf(a) == RootOf(b) <==> SameSlots(a, b, Pow2(Depth(|a|)))
    decreases |a|
  {
    if |a| == 1 {
      assert Slot(|a|, 0) == 0 == Slot(|b|, 0);
      if SameSlots(a, b, Pow2(Depth(|a|))) {
        assert a[Slot(|a|, 0)] == b[Slot(|b|, 0)];
      }
    } else {
      LevelRootsEqualExactlyBySlots(NextLevel(a), NextLevel(b));
      SlotsAbove(a, b, Pow2(Depth(|NextLevel(a)|)));
    }
  }

  /** Equally high trees share a root if and only if they hold the same item at every position of the perfect
      tree, whatever the items are. */
  lemma {:induction false} EquallyHighRootsEqualExactlyBySlots(a: seq<Text>, b: seq<Text>)
    requires a != [] && b != [] && Depth(|a|) == Depth(|b|)
    ensures RootOf(Leaves(a)) == RootOf(Leaves(b)) <==> SameSlots(a, b, Pow2(Depth(|a|)))
  {
    var width := Pow2(Depth(|a|));
    LevelRootsEqualExactlyBySlots(Leaves(a), Leaves(b));
    forall k: nat | k < width
      ensures Leaves(a)[Slot(|a|, k)] == Leaves(b)[Slot(|b|, k)] <==> a[Slot(|a|, k)] == b[Slot(|b|, k)]
    {
      assert Leaves(a)[Slot(|a|, k)] == Hash(a[Slot(|a|, k)]);
      assert Leaves(b)[Slot(|b|, k)] == Hash(b[Slot(|b|, k)]);
    }
  }

  /** Exactly which lists share a root, among those whose items are no digest pairs: the trees are equally
      high and hold the same item at every position of the perfect tree. */
  lemma {:induction false} RootsEqualExactlyBySlots(a: seq<Text>, b: seq<Text>)
    requires a != [] && b != [] && NoPairs(a) && NoPairs(b)
    ensures RootOf(Leaves(a)) == RootOf(Leaves(b))
            <==> Depth(|a|) == Depth(|b|) && SameSlots(a, b, Pow2(Depth(|a|)))
  {
    if Depth(|a|) == Depth(|b|) {
      EquallyHighRootsEqualExactlyBySlots(a, b);
    } else if RootOf(Leaves(a)) == RootOf(Leaves(b)) {
      EqualRootsEqualHeight(a, b);
    }
  }

  /** For every list of more than one item there is a one-item list with the same root: the item is the
      digest pair under the root. */
  lemma {:induction false} PairUnderTheRootKeepsRoot(items: seq<Text>)
    requires |items| > 1
    ensures IsPair(RootOf(Leaves(items)).text)
    ensures RootOf(Leaves([RootOf(Leaves(items)).text])) == RootOf(Leaves(items))
    ensures Depth(1) < Depth(|items|)
  {
    RootCovers(Leaves(items), 0, items);
    var single := [RootOf(Leaves(items)).text];
    assert Leaves(single)[0] == RootOf(Leaves(items));
  }

  function Half(t: Text, side: nat): Text
    requires IsPair(t) && side < 2
  {
    t[side].digest.text
  }

  /** The items one level down: each digest pair gives the two texts its digests were computed from. */
  function Unpaired(items: seq<Text>): (r: seq<Text>)
    requires forall i :: 0 <= i < |items| ==> IsPair(items[i])
    ensures |r| == 2 * |items|
  {
    seq(2 * |items|, i requires 0 <= i < 2 * |items| =>
      Half(items[i / 2], i % 2))
  }

  lemma UnpairedKeepsRoot(items: seq<Text>)
    requires items != [] && forall i :: 0 <= i < |items| ==> IsPair(items[i])
    ensures RootOf(Leaves(Unpaired(items))) == RootOf(Leaves(items))
  {
    var a, b := Leaves(items), Leaves(Unpaired(items));
    forall i | 0 <= i < |a|
      ensures NextLevel(b)[i] == a[i]
    {
      assert NextLevel(b)[i] == Parent(b, i);
      assert items[i] == [Dig(items[i][0].digest), Dig(items[i][1].digest)];
    }
    assert NextLevel(b) == a;
  }

  lemma {:induction false} CoveredBelow(d: Digest, h: nat, a: seq<Text>, k: nat, b: seq<Text>)
    requires Covers(d, h, a) && Covers(d, k, b) && h < k
    ensures exists i :: 0 <= i < |a| && IsPair(a[i])
  {
    if h > 0 {
      CoveredBelow(d.text[0].digest, h - 1, a, k - 1, b);
    }
  }

  /** Equal roots mean equal heights among trees with no digest pair among their items. */
  lemma {:induction false} EqualRootsEqualHeight(a: seq<Text>, b: seq<Text>)
    requires a != [] && b != [] && RootOf(Leaves(a)) == RootOf(Leaves(b))
    requires NoPairs(a) && NoPairs(b)
    ensures Depth(|a|) == Depth(|b|)
  {
    RootCovers(Leaves(a), 0, a);
    RootCovers(Leaves(b), 0, b);
    if Depth(|a|) < Depth(|b|) {
      CoveredBelow(RootOf(Leaves(a)), Depth(|a|), a, Depth(|b|), b);
    } else if Depth(|b|) < Depth(|a|) {
      CoveredBelow(RootOf(Leaves(a)), Depth(|b|), b, Depth(|a|), a);
    }
  }

  /** `b` makes a higher tree than `a` with the same root. */
  predicate HigherWithSameRoot(a: seq<Text>, b: seq<Text>)
    requires a != []
  {
    b != [] && RootOf(Leaves(b)) == RootOf(Leaves(a)) && Depth(|b|) > Depth(|a|)
  }

  lemma {:induction false} HigherNeedsPairs(a: seq<Text>, b: seq<Text>, i: nat)
    requires a != [] && HigherWithSameRoot(a, b) && i < |a|
    ensures IsPair(a[i])
  {
    RootCovers(Leaves(b), 0, b);
    RepairedClimbReachesRoot(Leaves(a), i);
    FoldUncovers(Leaves(a)[i], RepairedClimb(Leaves(a), i), Depth(|b|), b);
  }

  /** A higher tree with the same root exists if and only if all items are digest pairs. */
  lemma {:induction false} HigherTreeExactlyOverPairs(items: seq<Text>)
    requires items != []
    ensures (exists b :: HigherWithSameRoot(items, b)) <==> (forall i :: 0 <= i < |items| ==> IsPair(items[i]))
  {
    if forall i :: 0 <= i < |items| ==> IsPair(items[i]) {
      UnpairedKeepsRoot(items);
      assert HigherWithSameRoot(items, Unpaired(items));
    }
    if b :| HigherWithSameRoot(items, b) {
      forall i | 0 <= i < |items|
        ensures IsPair(items[i])
      {
        HigherNeedsPairs(items, b, i);
      }
    }
  }
}
