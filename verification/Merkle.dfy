/** The Merkle tree of the audit service: building the levels, extracting an
    inclusion proof and checking it.

    One hash is used for leaves and for nodes.  A digest is the free term of the
    text it was computed from, so equal digests have equal texts.  A text is a
    sequence of digests, written out, and of other characters. */
module Merkle {
  import opened Wrappers

  datatype Atom = Ch(letter: char) | Dig(digest: Digest)

  type Text = seq<Atom>

  datatype Digest = Hash(text: Text)

  datatype Side = OnLeft | OnRight

  /** The presenter of a proof may put any text for the sibling's digest. */
  datatype ProofStep = ProofStep(hash: Text, position: Side)

  datatype Failure = IndexError

  function Node(left: Digest, right: Digest): Digest {
    Hash([Dig(left), Dig(right)])
  }

  // ---------------------------------------------------------------- levels

  function Leaves(items: seq<Text>): (r: seq<Digest>)
    ensures |r| == |items|
  {
    seq(|items|, i requires 0 <= i < |items| => Hash(items[i]))
  }

  /** The digest that stands above positions 2i and 2i+1: an unpaired last
      node is paired with itself. */
  function Parent(level: seq<Digest>, i: nat): Digest
    requires 2 * i < |level|
  {
    Node(level[2 * i], if 2 * i + 1 < |level| then level[2 * i + 1] else level[2 * i])
  }

  function NextLevel(level: seq<Digest>): (r: seq<Digest>)
    ensures |r| == (|level| + 1) / 2
  {
    seq((|level| + 1) / 2, i requires 0 <= i < (|level| + 1) / 2 => Parent(level, i))
  }

  /** All levels, leaves first.  The empty list has the one empty level. */
  function Levels(level: seq<Digest>): (r: seq<seq<Digest>>)
    ensures |r| >= 1 && r[0] == level
    ensures level != [] ==> |r[|r| - 1]| == 1
    decreases |level|
  {
    if |level| <= 1 then [level] else [level] + Levels(NextLevel(level))
  }

  /** The single digest left at the top. */
  function RootOf(level: seq<Digest>): Digest
    requires level != []
    decreases |level|
  {
    if |level| == 1 then level[0] else RootOf(NextLevel(level))
  }

  /** The number of levels above the leaves of an n-leaf tree. */
  function Depth(n: nat): nat
    decreases n
  {
    if n <= 1 then 0 else 1 + Depth((n + 1) / 2)
  }

  // ---------------------------------------------------------------- proofs

  /** Python's `index ^ 1`, for negative indices too. */
  function XorOne(i: int): int {
    if i % 2 == 0 then i + 1 else i - 1
  }

  /** Python's `xs[i]`: a negative index counts from the end. */
  function PyIndex<T>(xs: seq<T>, i: int): Result<T, Failure> {
    if 0 <= i < |xs| then Ok(xs[i])
    else if -|xs| <= i < 0 then Ok(xs[|xs| + i])
    else Err(IndexError)
  }

  function SideOf(index: int): Side {
    if XorOne(index) < index then OnLeft else OnRight
  }

  /** The proof steps contributed by `levels`, from position `index` of the first of them. */
  function ProofUp(levels: seq<seq<Digest>>, index: int): Result<seq<ProofStep>, Failure> {
    if levels == [] then Ok([])
    else
      var rest := ProofUp(levels[1..], index / 2);
      if XorOne(index) >= |levels[0]| then rest
      else
        match PyIndex(levels[0], XorOne(index))
        case Err(e) => Err(e)
        case Ok(hash) =>
          match rest
          case Err(e) => Err(e)
          case Ok(steps) => Ok([ProofStep([Dig(hash)], SideOf(index))] + steps)
  }

  function ProofFor(leaves: seq<Digest>, index: int): Result<seq<ProofStep>, Failure> {
    if index >= |leaves| then Err(IndexError)
    else
      var levels := Levels(leaves);
      ProofUp(levels[..|levels| - 1], index)
  }

  function Combine(current: Digest, step: ProofStep): Digest {
    match step.position
    case OnLeft => Hash(step.hash + [Dig(current)])
    case OnRight => Hash([Dig(current)] + step.hash)
  }

  function Fold(current: Digest, proof: seq<ProofStep>): Digest
    decreases |proof|
  {
    if proof == [] then current else Fold(Combine(current, proof[0]), proof[1..])
  }

  predicate Verifies(leaf: Text, proof: seq<ProofStep>, root: Digest) {
    Fold(Hash(leaf), proof) == root
  }

  // ---------------------------------------------------------------- the class

  class MerkleTree {
    var leaves: seq<Digest>
    var tree: seq<seq<Digest>>

    ghost predicate Valid()
      reads this
    {
      tree == Levels(leaves)
    }

    constructor (items: seq<Text>)
      ensures Valid() && leaves == Leaves(items)
    {
      var hashed := Leaves(items);
      var levels := BuildTree(hashed);
      leaves, tree := hashed, levels;
    }

    static method BuildTree(leaves: seq<Digest>) returns (tree: seq<seq<Digest>>)
      ensures tree == Levels(leaves)
    {
      if |leaves| == 1 {
        return [leaves];
      }
      tree := [leaves];
      var currentLevel := leaves;
      while |currentLevel| > 1
        invariant tree != [] && tree[|tree| - 1] == currentLevel
        invariant BuiltUpTo(tree, leaves)
        decreases |currentLevel|
      {
        BuildOneMore(tree, leaves);
        var nextLevel := PairUp(currentLevel);
        tree := tree + [nextLevel];
        currentLevel := nextLevel;
      }
      assert tree == tree[..|tree| - 1] + [currentLevel];
    }

    /** The inner loop of `_build_tree`. */
    static method PairUp(level: seq<Digest>) returns (nextLevel: seq<Digest>)
      ensures nextLevel == NextLevel(level)
    {
      nextLevel := [];
      var i := 0;
      while i < |level|
        invariant i % 2 == 0 && 0 <= i <= |level| + 1
        invariant |nextLevel| == i / 2
        invariant forall k :: 0 <= k < |nextLevel| ==> nextLevel[k] == Parent(level, k)
      {
        var left := level[i];
        var right := if i + 1 < |level| then level[i + 1] else level[i];
        nextLevel := nextLevel + [Node(left, right)];
        i := i + 2;
      }
    }

    /** `tree[-1][0]`; the empty list raises. */
    method Root() returns (r: Result<Digest, Failure>)
      requires Valid()
      ensures r == if leaves == [] then Err(IndexError) else Ok(RootOf(leaves))
    {
      LastLevelIsRoot(leaves);
      r := PyIndex(tree[|tree| - 1], 0);
    }

    method GetProof(leafIndex: int) returns (r: Result<seq<ProofStep>, Failure>)
      requires Valid()
      ensures r == ProofFor(leaves, leafIndex)
    {
      if leafIndex >= |leaves| {
        return Err(IndexError);
      }
      var proof: seq<ProofStep> := [];
      var index := leafIndex;
      var inner := tree[..|tree| - 1];
      var k := 0;
      assert inner[0..] == inner;
      PrependNothing(ProofUp(inner, leafIndex));
      while k < |inner|
        invariant 0 <= k <= |inner|
        invariant Prepend(proof, ProofUp(inner[k..], index)) == ProofUp(inner, leafIndex)
      {
        var level := inner[k];
        assert inner[k..][1..] == inner[k + 1..];
        var sibling := XorOne(index);
        if sibling < |level| {
          match PyIndex(level, sibling) {
            case Err(e) => return Err(e);
            case Ok(hash) =>
              var step := ProofStep([Dig(hash)], if sibling < index then OnLeft else OnRight);
              PrependMore(proof, step, ProofUp(inner[k + 1..], index / 2));
              proof := proof + [step];
          }
        }
        index := index / 2;
        k := k + 1;
      }
      assert inner[k..] == [] && proof + [] == proof;
      r := Ok(proof);
    }

    /** The root is compared as a text, which may be no digest. */
    static method VerifyProof(leaf: Text, proof: seq<ProofStep>, root: Text) returns (ok: bool)
      ensures forall d :: root == [Dig(d)] ==> ok == Verifies(leaf, proof, d)
      ensures (forall d :: root != [Dig(d)]) ==> !ok
    {
      var current := Hash(leaf);
      var k := 0;
      while k < |proof|
        invariant 0 <= k <= |proof|
        invariant Fold(current, proof[k..]) == Fold(Hash(leaf), proof)
      {
        assert proof[k..][1..] == proof[k + 1..];
        var step := proof[k];
        if step.position == OnLeft {
          current := Hash(step.hash + [Dig(current)]);
        } else {
          current := Hash([Dig(current)] + step.hash);
        }
        k := k + 1;
      }
      assert proof[k..] == [];
      ok := [Dig(current)] == root;
    }
  }

  /** `tree` is the lower part of the levels over `leaves`. */
  ghost predicate BuiltUpTo(tree: seq<seq<Digest>>, leaves: seq<Digest>) {
    tree != [] && tree[..|tree| - 1] + Levels(tree[|tree| - 1]) == Levels(leaves)
  }

  lemma BuildOneMore(tree: seq<seq<Digest>>, leaves: seq<Digest>)
    requires BuiltUpTo(tree, leaves) && |tree[|tree| - 1]| > 1
    ensures BuiltUpTo(tree + [NextLevel(tree[|tree| - 1])], leaves)
  {
    var top := tree[|tree| - 1];
    var more := tree + [NextLevel(top)];
    assert more[..|more| - 1] == tree == tree[..|tree| - 1] + [top];
    assert tree[..|tree| - 1] + ([top] + Levels(NextLevel(top))) == tree + Levels(NextLevel(top));
  }

  function Prepend(prefix: seq<ProofStep>, r: Result<seq<ProofStep>, Failure>): Result<seq<ProofStep>, Failure> {
    match r
    case Err(e) => Err(e)
    case Ok(steps) => Ok(prefix + steps)
  }

  lemma PrependNothing(rest: Result<seq<ProofStep>, Failure>)
    ensures Prepend([], rest) == rest
  {
    if rest.Ok? {
      assert [] + rest.value == rest.value;
    }
  }

  lemma PrependMore(prefix: seq<ProofStep>, step: ProofStep, rest: Result<seq<ProofStep>, Failure>)
    ensures Prepend(prefix + [step], rest) == Prepend(prefix, Prepend([step], rest))
  {
    if rest.Ok? {
      assert prefix + [step] + rest.value == prefix + ([step] + rest.value);
    }
  }

  lemma {:induction false} LastLevelIsRoot(level: seq<Digest>)
    ensures var levels := Levels(level);
            PyIndex(levels[|levels| - 1], 0) == if level == [] then Err(IndexError) else Ok(RootOf(level))
    decreases |level|
  {
    if |level| > 1 {
      LastLevelIsRoot(NextLevel(level));
    }
  }

  // ------------------------------------------------- when a proof verifies

  /** No level on the way up from leaf `i` of `n` leaves it as the unpaired last node. */
  predicate AlwaysPaired(n: nat, i: nat)
    requires i < n
    decreases n
  {
    n == 1 || (XorOne(i) < n && AlwaysPaired((n + 1) / 2, i / 2))
  }

  /** How many hashes a digest takes. */
  function Size(d: Digest): nat
    decreases d, |d.text| + 1
  {
    1 + SizeUpTo(d, |d.text|)
  }

  function SizeUpTo(d: Digest, k: nat): nat
    requires k <= |d.text|
    decreases d, k
  {
    if k == 0 then 0
    else SizeUpTo(d, k - 1) + if d.text[k - 1].Dig? then Size(d.text[k - 1].digest) else 0
  }

  lemma NodeSize(left: Digest, right: Digest)
    ensures Size(Node(left, right)) == 1 + Size(left) + Size(right)
  {
    var d := Node(left, right);
    assert d.text[0] == Dig(left) && d.text[1] == Dig(right);
    assert SizeUpTo(d, 0) == 0;
    assert SizeUpTo(d, 1) == SizeUpTo(d, 0) + Size(left);
    assert SizeUpTo(d, 2) == SizeUpTo(d, 1) + Size(right);
  }

  /** The steps above one level of the tree, from a position inside it. */
  function ClimbFrom(level: seq<Digest>, i: nat): (r: seq<ProofStep>)
    requires i < |level|
    decreases |level|
  {
    if |level| == 1 then []
    else
      var rest := ClimbFrom(NextLevel(level), i / 2);
      if XorOne(i) < |level| then [ProofStep([Dig(level[XorOne(i)])], SideOf(i))] + rest else rest
  }

  lemma {:induction false} ProofIsClimb(level: seq<Digest>, i: nat)
    requires i < |level|
    ensures ProofFor(level, i) == Ok(ClimbFrom(level, i))
    decreases |level|
  {
    if |level| > 1 {
      var next := NextLevel(level);
      ProofIsClimb(next, i / 2);
      var levels, above := Levels(level), Levels(next);
      assert levels[..|levels| - 1] == [level] + above[..|above| - 1];
      assert levels[..|levels| - 1][1..] == above[..|above| - 1];
    }
  }

  /** Climbing from the right digest reaches the root exactly on the always-paired positions;
      climbing from a smaller digest never does. */
  lemma {:induction false} ClimbReachesRoot(level: seq<Digest>, i: nat)
    requires i < |level|
    ensures Fold(level[i], ClimbFrom(level, i)) == RootOf(level) <==> AlwaysPaired(|level|, i)
    decreases |level|
  {
    if |level| > 1 {
      var next := NextLevel(level);
      assert next[i / 2] == Parent(level, i / 2);
      if XorOne(i) < |level| {
        ClimbReachesRoot(next, i / 2);
        var step := ProofStep([Dig(level[XorOne(i)])], SideOf(i));
        assert Combine(level[i], step) == next[i / 2];
        assert ClimbFrom(level, i)[1..] == ClimbFrom(next, i / 2);
      } else {
        NodeSize(level[i], level[i]);
        SmallerNeverReachesRoot(next, i / 2, level[i]);
      }
    }
  }

  lemma {:induction false} SmallerNeverReachesRoot(level: seq<Digest>, i: nat, smaller: Digest)
    requires i < |level| && Size(smaller) < Size(level[i])
    ensures Size(Fold(smaller, ClimbFrom(level, i))) < Size(RootOf(level))
    decreases |level|
  {
    if |level| > 1 {
      var next := NextLevel(level);
      assert next[i / 2] == Parent(level, i / 2);
      if XorOne(i) < |level| {
        var sibling := level[XorOne(i)];
        var step := ProofStep([Dig(sibling)], SideOf(i));
        assert ClimbFrom(level, i)[1..] == ClimbFrom(next, i / 2);
        if SideOf(i) == OnLeft {
          assert Combine(smaller, step) == Node(sibling, smaller);
          NodeSize(sibling, smaller);
          NodeSize(sibling, level[i]);
        } else {
          assert Combine(smaller, step) == Node(smaller, sibling);
          NodeSize(smaller, sibling);
          NodeSize(level[i], sibling);
        }
        SmallerNeverReachesRoot(next, i / 2, Combine(smaller, step));
      } else {
        NodeSize(level[i], level[i]);
        SmallerNeverReachesRoot(next, i / 2, smaller);
      }
    }
  }

  /** Completeness, with its exact condition: the extracted proof verifies against the root
      if and only if the leaf is never the unpaired last node of a level. */
  lemma ProofVerifiesExactlyWhenPaired(items: seq<Text>, i: nat)
    requires i < |items|
    ensures ProofFor(Leaves(items), i).Ok?
    ensures Verifies(items[i], ProofFor(Leaves(items), i).value, RootOf(Leaves(items)))
            <==> AlwaysPaired(|items|, i)
  {
    var leaves := Leaves(items);
    ProofIsClimb(leaves, i);
    ClimbReachesRoot(leaves, i);
  }

  predicate PowerOfTwo(n: nat) {
    n == 1 || (n > 1 && n % 2 == 0 && PowerOfTwo(n / 2))
  }

  lemma {:induction false} PowerOfTwoAlwaysPaired(n: nat, i: nat)
    requires PowerOfTwo(n) && i < n
    ensures AlwaysPaired(n, i)
    decreases n
  {
    if n > 1 {
      assert (n + 1) / 2 == n / 2;
      PowerOfTwoAlwaysPaired(n / 2, i / 2);
    }
  }

  /** The last position is always paired in the power-of-two sizes only. */
  lemma {:induction false} LastLeafPairedOnlyInPowersOfTwo(n: nat)
    requires n >= 1
    ensures AlwaysPaired(n, n - 1) <==> PowerOfTwo(n)
    decreases n
  {
    if n > 1 {
      if n % 2 == 0 {
        assert (n + 1) / 2 == n / 2 && (n - 1) / 2 == n / 2 - 1;
        LastLeafPairedOnlyInPowersOfTwo(n / 2);
      }
    }
  }

  /** The last leaf's proof verifies if and only if the number of leaves is a power of two. */
  lemma LastProofVerifiesExactlyForPowersOfTwo(items: seq<Text>)
    requires items != []
    ensures var last := |items| - 1;
            && ProofFor(Leaves(items), last).Ok?
            && (Verifies(items[last], ProofFor(Leaves(items), last).value, RootOf(Leaves(items)))
                <==> PowerOfTwo(|items|))
  {
    ProofVerifiesExactlyWhenPaired(items, |items| - 1);
    LastLeafPairedOnlyInPowersOfTwo(|items|);
  }

  /** Every leaf's proof verifies if and only if the number of leaves is a power of two. */
  lemma EveryProofVerifiesExactlyForPowersOfTwo(items: seq<Text>)
    requires items != []
    ensures (forall i :: 0 <= i < |items| ==>
               ProofFor(Leaves(items), i).Ok?
               && Verifies(items[i], ProofFor(Leaves(items), i).value, RootOf(Leaves(items))))
            <==> PowerOfTwo(|items|)
  {
    var n := |items|;
    forall i | 0 <= i < n
      ensures ProofFor(Leaves(items), i).Ok?
      ensures Verifies(items[i], ProofFor(Leaves(items), i).value, RootOf(Leaves(items))) <==> AlwaysPaired(n, i)
      ensures PowerOfTwo(n) ==> AlwaysPaired(n, i)
    {
      ProofVerifiesExactlyWhenPaired(items, i);
      if PowerOfTwo(n) {
        PowerOfTwoAlwaysPaired(n, i);
      }
    }
    LastLeafPairedOnlyInPowersOfTwo(n);
    if !PowerOfTwo(n) {
      assert !AlwaysPaired(n, n - 1);
    }
  }

  // ------------------------------------------------------ negative indices

  /** In a power-of-two tree a negative index is Python's index from the end. */
  lemma {:induction false} NegativeIndexCountsFromTheEnd(level: seq<Digest>, i: int)
    requires PowerOfTwo(|level|) && -|level| <= i < 0
    ensures ProofFor(level, i) == ProofFor(level, |level| + i)
    decreases |level|
  {
    var n := |level|;
    if n > 1 {
      var next := NextLevel(level);
      NegativeIndexCountsFromTheEnd(next, i / 2);
      var levels, above := Levels(level), Levels(next);
      assert levels[..|levels| - 1][1..] == above[..|above| - 1];
      assert (n + i) / 2 == |next| + i / 2;
      assert XorOne(n + i) == n + XorOne(i);
      assert PyIndex(level, XorOne(i)) == PyIndex(level, XorOne(n + i));
    }
  }

  /** On some level on the way up from index `i` of `n` leaves, the sibling's index is below minus the level's
      length. */
  predicate OutOfReach(n: nat, i: int)
    decreases n
  {
    n > 1 && ((if i % 2 == 0 then i + 1 else i - 1) + n < 0 || OutOfReach((n + 1) / 2, i / 2))
  }

  lemma {:induction false} ClimbRaisesExactly(level: seq<Digest>, i: int)
    ensures var levels := Levels(level); ProofUp(levels[..|levels| - 1], i).Err? <==> OutOfReach(|level|, i)
    decreases |level|
  {
    if |level| > 1 {
      var levels, above := Levels(level), Levels(NextLevel(level));
      assert levels[..|levels| - 1][1..] == above[..|above| - 1];
      ClimbRaisesExactly(NextLevel(level), i / 2);
      if i >= 0 {
        PositiveInReach(|level|, i);
      }
    }
  }

  lemma {:induction false} PositiveInReach(n: nat, i: nat)
    ensures !OutOfReach(n, i)
    decreases n
  {
    if n > 1 {
      PositiveInReach((n + 1) / 2, i / 2);
    }
  }

  lemma {:induction false} FrontInReachExactlyForPowersOfTwo(n: nat, i: int)
    requires n >= 1 && i + n == 0
    ensures OutOfReach(n, i) <==> !PowerOfTwo(n)
    decreases n
  {
    if n % 2 == 0 {
      FrontInReachExactlyForPowersOfTwo(n / 2, i / 2);
    }
  }

  /** Extraction raises an IndexError if and only if the index is past the end, or is negative and out of reach on
      some level: the first leaf's negative index is, exactly unless the size is a power of two. */
  lemma ExtractionRaisesExactly(leaves: seq<Digest>, i: int)
    ensures ProofFor(leaves, i).Err? <==> i >= |leaves| || OutOfReach(|leaves|, i)
    ensures 0 <= i < |leaves| ==> ProofFor(leaves, i).Ok?
    ensures leaves != [] && i == -|leaves| ==> (ProofFor(leaves, i).Err? <==> !PowerOfTwo(|leaves|))
  {
    ClimbRaisesExactly(leaves, i);
    if 0 <= i < |leaves| {
      PositiveInReach(|leaves|, i);
    }
    if leaves != [] && i == -|leaves| {
      FrontInReachExactlyForPowersOfTwo(|leaves|, i);
    }
  }

  // ---------------------------------------------------- the repaired proof

  /** What extraction would be if it emitted the step that building the level took:
      an unpaired last node is its own right-hand sibling. */
  function RepairedClimb(level: seq<Digest>, i: nat): (r: seq<ProofStep>)
    requires i < |level|
    decreases |level|
  {
    if |level| == 1 then []
    else
      var sibling := if XorOne(i) < |level| then level[XorOne(i)] else level[i];
      [ProofStep([Dig(sibling)], SideOf(i))] + RepairedClimb(NextLevel(level), i / 2)
  }

  lemma {:induction false} RepairedClimbReachesRoot(level: seq<Digest>, i: nat)
    requires i < |level|
    ensures Fold(level[i], RepairedClimb(level, i)) == RootOf(level)
    ensures |RepairedClimb(level, i)| == Depth(|level|)
    decreases |level|
  {
    if |level| > 1 {
      var next := NextLevel(level);
      RepairedClimbReachesRoot(next, i / 2);
      assert next[i / 2] == Parent(level, i / 2);
      assert Combine(level[i], RepairedClimb(level, i)[0]) == next[i / 2];
      assert RepairedClimb(level, i)[1..] == RepairedClimb(next, i / 2);
    }
  }

  /** The repair agrees with the code wherever the code's proof verifies, and verifies everywhere. */
  lemma {:induction false} RepairedProofAlwaysVerifies(items: seq<Text>, i: nat)
    requires i < |items|
    ensures Verifies(items[i], RepairedClimb(Leaves(items), i), RootOf(Leaves(items)))
    ensures AlwaysPaired(|items|, i) ==> ProofFor(Leaves(items), i) == Ok(RepairedClimb(Leaves(items), i))
  {
    RepairedClimbReachesRoot(Leaves(items), i);
    ProofIsClimb(Leaves(items), i);
    RepairAgreesWhenPaired(Leaves(items), i);
  }

  lemma {:induction false} RepairAgreesWhenPaired(level: seq<Digest>, i: nat)
    requires i < |level|
    ensures AlwaysPaired(|level|, i) ==> ClimbFrom(level, i) == RepairedClimb(level, i)
    decreases |level|
  {
    if |level| > 1 {
      RepairAgreesWhenPaired(NextLevel(level), i / 2);
    }
  }
}
