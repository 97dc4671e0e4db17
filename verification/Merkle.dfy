/** The Merkle tree over a block's transaction hashes (protocol/merkletree.go). At each level the largest power-of-two
    prefix is hashed pairwise and the rest is carried over. SHA3 over two hashes is the parameter `pair`. */
module Merkle {
  import opened Protocol

  type PairHash = (Hash, Hash) -> Hash

  // -------------------- the shape --------------------

  predicate IsPower2(i: nat) { i == 1 || (i > 0 && i % 2 == 0 && IsPower2(i / 2)) }

  // log2(i) is a whole number, or -Inf for 0.
  predicate CheckPower2(i: nat) { i == 0 || IsPower2(i) }

  // The largest power of two up to n.
  function Prefix(n: nat): (l: nat)
    ensures l <= n && CheckPower2(l)
    ensures forall m :: l < m <= n ==> !CheckPower2(m)
  {
    if CheckPower2(n) then n else Prefix(n - 1)
  }

  // A level of even length at least 4 is followed by a shorter level of even length at least 2.
  lemma EvenLevels(n: nat)
    requires n >= 2 && n % 2 == 0
    ensures 2 <= Prefix(n) && Prefix(n) % 2 == 0
    ensures n > 2 ==> Prefix(n) % 4 == 0 && 2 <= n - Prefix(n) / 2 < n && (n - Prefix(n) / 2) % 2 == 0
  {
    hide IsPower2;
    SmallPowers();
    var l := Prefix(n);
    if n > 2 {
      assert l >= 4;
      PowerOfFour(l);
      HalfIsEven(n, l);
    }
  }

  lemma HalfIsEven(n: nat, l: nat)
    requires n % 2 == 0 && l % 4 == 0 && 4 <= l <= n
    ensures l % 2 == 0 && 2 <= n - l / 2 < n && (n - l / 2) % 2 == 0
  {
    var q, h := l / 4, n / 2;
    assert l == 4 * q && n == 2 * h;
    assert l / 2 == 2 * q;
    assert n - l / 2 == 2 * (h - q);
  }

  lemma SmallPowers()
    ensures CheckPower2(2) && CheckPower2(4) && !IsPower2(3)
  {
    assert IsPower2(1);
  }

  lemma PowerOfFour(l: nat)
    requires IsPower2(l) && l >= 4
    ensures l % 4 == 0
  {
    var h := l / 2;
    assert l == 2 * h && IsPower2(h);
    assert h % 2 == 0;
  }

  function PairUp(hs: seq<Hash>, pair: PairHash): (up: seq<Hash>)
    requires |hs| % 2 == 0
    ensures |up| == |hs| / 2
    ensures forall i :: 0 <= i < |up| ==> up[i] == pair(hs[2 * i], hs[2 * i + 1])
  {
    seq(|hs| / 2, i requires 0 <= i < |hs| / 2 => pair(hs[2 * i], hs[2 * i + 1]))
  }

  function Level(hs: seq<Hash>, pair: PairHash): seq<Hash>
    requires Prefix(|hs|) % 2 == 0
  {
    var l := Prefix(|hs|);
    PairUp(hs[..l], pair) + hs[l..]
  }

  function RootOf(hs: seq<Hash>, pair: PairHash): Hash
    requires |hs| >= 2 && |hs| % 2 == 0
    decreases |hs|
  {
    EvenLevels(|hs|);
    if |hs| == 2 then pair(hs[0], hs[1]) else RootOf(Level(hs, pair), pair)
  }

  function NonZero(hs: seq<Hash>): (r: seq<Hash>)
    ensures forall h <- r :: h != ZERO_HASH
    ensures forall h <- hs :: h != ZERO_HASH ==> h in r
  {
    if hs == [] then []
    else
      var last := hs[|hs| - 1];
      NonZero(hs[..|hs| - 1]) + (if last != ZERO_HASH then [last] else [])
  }

  // The last leaf counts twice when the number of leaves is odd.
  function Padded(hs: seq<Hash>): (r: seq<Hash>)
    ensures |r| % 2 == 0
  {
    if |hs| % 2 == 1 then hs + [hs[|hs| - 1]] else hs
  }

  // The Merkle root of a transaction list with a nonzero hash.
  function ListRoot(hs: seq<Hash>, pair: PairHash): Hash
    requires NonZero(hs) != []
  {
    RootOf(Padded(NonZero(hs)), pair)
  }

  // Without a nonzero hash every level is the empty one again: the construction does not end.
  lemma NoLeafNoEnd(pair: PairHash)
    ensures Prefix(0) == 0 && Level([], pair) == []
  {
  }

  // -------------------- the root determines the leaves --------------------

  datatype Collision = Collision(a: Hash, b: Hash, c: Hash, d: Hash)

  ghost predicate IsCollision(x: Collision, pair: PairHash) {
    (x.a, x.b) != (x.c, x.d) && pair(x.a, x.b) == pair(x.c, x.d)
  }

  // The pairs hashed while building a tree over hs.
  ghost function Hashed(hs: seq<Hash>, pair: PairHash): set<(Hash, Hash)>
    requires |hs| >= 2 && |hs| % 2 == 0
    decreases |hs|
  {
    EvenLevels(|hs|);
    var here := set i | 0 <= i < Prefix(|hs|) / 2 :: (hs[2 * i], hs[2 * i + 1]);
    if |hs| == 2 then here else here + Hashed(Level(hs, pair), pair)
  }

  // Two different leaf lists of one length with the same root exhibit a collision among the pairs hashed for them.
  lemma {:induction false} SameRootCollides(xs: seq<Hash>, ys: seq<Hash>, pair: PairHash) returns (x: Collision)
    requires |xs| == |ys| >= 2 && |xs| % 2 == 0
    requires RootOf(xs, pair) == RootOf(ys, pair) && xs != ys
    ensures IsCollision(x, pair) && (x.a, x.b) in Hashed(xs, pair) && (x.c, x.d) in Hashed(ys, pair)
    decreases |xs|
  {
    hide RootOf, Prefix, Hashed, Level;
    LevelBelow(xs, pair);
    LevelBelow(ys, pair);
    if |xs| > 2 && Level(xs, pair) != Level(ys, pair) {
      x := SameRootCollides(Level(xs, pair), Level(ys, pair), pair);
    } else {
      SameLevel(xs, ys, pair);
      var i := Differ(xs, ys, Prefix(|xs|), pair);
      x := Collision(xs[2 * i], xs[2 * i + 1], ys[2 * i], ys[2 * i + 1]);
      HashedHere(xs, i, pair);
      HashedHere(ys, i, pair);
    }
  }

  lemma LevelBelow(hs: seq<Hash>, pair: PairHash)
    requires |hs| >= 2 && |hs| % 2 == 0
    ensures Prefix(|hs|) % 2 == 0
    ensures |hs| > 2 ==>
      var below := Level(hs, pair);
      && |below| == |hs| - Prefix(|hs|) / 2 && 2 <= |below| < |hs| && |below| % 2 == 0
      && RootOf(hs, pair) == RootOf(below, pair) && Hashed(below, pair) <= Hashed(hs, pair)
  {
    hide Prefix, PairUp, RootOf, Hashed;
    EvenLevels(|hs|);
    if |hs| > 2 {
      RootBelow(hs, pair);
      HashedBelow(hs, pair);
    }
  }

  lemma RootBelow(hs: seq<Hash>, pair: PairHash)
    requires |hs| > 2 && |hs| % 2 == 0 && Prefix(|hs|) % 2 == 0 && |Level(hs, pair)| >= 2 && |Level(hs, pair)| % 2 == 0
    ensures RootOf(hs, pair) == RootOf(Level(hs, pair), pair)
  {
    hide Prefix, PairUp, Level;
  }

  lemma HashedBelow(hs: seq<Hash>, pair: PairHash)
    requires |hs| > 2 && |hs| % 2 == 0 && Prefix(|hs|) % 2 == 0 && |Level(hs, pair)| >= 2 && |Level(hs, pair)| % 2 == 0
    ensures Hashed(Level(hs, pair), pair) <= Hashed(hs, pair)
  {
    hide Prefix, PairUp, Level;
  }

  lemma HashedHere(hs: seq<Hash>, i: nat, pair: PairHash)
    requires |hs| >= 2 && |hs| % 2 == 0 && i < Prefix(|hs|) / 2
    ensures (hs[2 * i], hs[2 * i + 1]) in Hashed(hs, pair)
  {
    EvenLevels(|hs|);
  }

  lemma SameLevel(xs: seq<Hash>, ys: seq<Hash>, pair: PairHash)
    requires |xs| == |ys| >= 2 && |xs| % 2 == 0
    requires Prefix(|xs|) % 2 == 0
    requires if |xs| == 2 then RootOf(xs, pair) == RootOf(ys, pair) else Level(xs, pair) == Level(ys, pair)
    ensures var l := Prefix(|xs|); PairUp(xs[..l], pair) + xs[l..] == PairUp(ys[..l], pair) + ys[l..]
  {
    EvenLevels(|xs|);
  }

  lemma Differ(xs: seq<Hash>, ys: seq<Hash>, l: nat, pair: PairHash) returns (i: nat)
    requires |xs| == |ys| && l <= |xs| && l % 2 == 0 && xs != ys
    requires PairUp(xs[..l], pair) + xs[l..] == PairUp(ys[..l], pair) + ys[l..]
    ensures i < l / 2 && (xs[2 * i], xs[2 * i + 1]) != (ys[2 * i], ys[2 * i + 1])
    ensures pair(xs[2 * i], xs[2 * i + 1]) == pair(ys[2 * i], ys[2 * i + 1])
  {
    var up, vp := PairUp(xs[..l], pair), PairUp(ys[..l], pair);
    assert xs[l..] == (up + xs[l..])[l / 2..] && ys[l..] == (vp + ys[l..])[l / 2..];
    assert xs == xs[..l] + xs[l..] && ys == ys[..l] + ys[l..];
    assert xs[..l] != ys[..l];
    var j :| 0 <= j < l && xs[..l][j] != ys[..l][j];
    i := j / 2;
    assert up[i] == (up + xs[l..])[i] && vp[i] == (vp + ys[l..])[i];
  }

  ghost predicate CollisionFree(pairs: set<(Hash, Hash)>, pair: PairHash) {
    forall p <- pairs, q <- pairs :: pair(p.0, p.1) == pair(q.0, q.1) ==> p == q
  }

  // Where SHA3 does not collide on the pairs hashed for two lists with equally many nonzero hashes, the roots are equal
  // exactly when the nonzero hashes are the same in the same order.
  lemma RootDeterminesLeaves(xs: seq<Hash>, ys: seq<Hash>, pair: PairHash)
    requires |NonZero(xs)| == |NonZero(ys)| > 0
    requires CollisionFree(Hashed(Padded(NonZero(xs)), pair) + Hashed(Padded(NonZero(ys)), pair), pair)
    ensures ListRoot(xs, pair) == ListRoot(ys, pair) <==> NonZero(xs) == NonZero(ys)
  {
    var us, vs := Padded(NonZero(xs)), Padded(NonZero(ys));
    if RootOf(us, pair) == RootOf(vs, pair) {
      if us != vs {
        var x := SameRootCollides(us, vs, pair);
        assert false;
      }
      assert NonZero(xs) == us[..|NonZero(xs)|] == vs[..|NonZero(xs)|] == NonZero(ys);
    }
  }

  // The root of twice a power of two of hashes is the hash of the roots of the halves, the first half on the left.
  lemma {:induction false} HalvesHash(xs: seq<Hash>, ys: seq<Hash>, pair: PairHash)
    requires |xs| == |ys| >= 2 && IsPower2(|xs|)
    ensures |xs| % 2 == 0 && RootOf(xs + ys, pair) == pair(RootOf(xs, pair), RootOf(ys, pair))
    decreases |xs|
  {
    hide RootOf, Level, IsPower2, Prefix;
    PowerIsEven(|xs|);
    LevelOfPower(xs, pair);
    LevelOfPower(ys, pair);
    PowerDoubles(|xs|);
    LevelOfPower(xs + ys, pair);
    LevelBelow(xs + ys, pair);
    assert PairUp(xs + ys, pair) == PairUp(xs, pair) + PairUp(ys, pair);
    if |xs| == 2 {
      RootOfTwo(xs, pair);
      RootOfTwo(ys, pair);
      RootOfTwo(PairUp(xs, pair) + PairUp(ys, pair), pair);
    } else {
      PowerHalves(|xs|);
      LevelBelow(xs, pair);
      LevelBelow(ys, pair);
      HalvesHash(PairUp(xs, pair), PairUp(ys, pair), pair);
    }
  }

  lemma RootOfTwo(hs: seq<Hash>, pair: PairHash)
    requires |hs| == 2
    ensures RootOf(hs, pair) == pair(hs[0], hs[1])
  {
  }

  lemma PowerIsEven(n: nat)
    requires IsPower2(n) && n >= 2
    ensures n % 2 == 0
  {
  }

  lemma PowerHalves(n: nat)
    requires IsPower2(n) && n > 2
    ensures n >= 4 && IsPower2(n / 2)
  {
    SmallPowers();
  }

  lemma PowerDoubles(n: nat)
    requires IsPower2(n)
    ensures IsPower2(n + n)
  {
    assert (n + n) / 2 == n;
  }

  lemma LevelOfPower(hs: seq<Hash>, pair: PairHash)
    requires |hs| >= 2 && IsPower2(|hs|)
    ensures Prefix(|hs|) == |hs| && |hs| % 2 == 0 && Level(hs, pair) == PairUp(hs, pair)
  {
    hide PairUp;
    assert hs[..|hs|] == hs;
    assert PairUp(hs, pair) + hs[|hs|..] == PairUp(hs, pair);
  }

  // Every root is the hash of one of the pairs hashed for it.
  lemma {:induction false} RootIsHashed(hs: seq<Hash>, pair: PairHash) returns (p: (Hash, Hash))
    requires |hs| >= 2 && |hs| % 2 == 0
    ensures p in Hashed(hs, pair) && RootOf(hs, pair) == pair(p.0, p.1)
    decreases |hs|
  {
    hide Hashed, Level, Prefix;
    LevelBelow(hs, pair);
    EvenLevels(|hs|);
    if |hs| == 2 {
      p := (hs[0], hs[1]);
      RootOfTwo(hs, pair);
      HashedHere(hs, 0, pair);
    } else {
      p := RootIsHashed(Level(hs, pair), pair);
    }
  }

  // The number of leaves matters: repeating the last of an odd number of hashes keeps the root.
  lemma RepeatedLastKeepsRoot(xs: seq<Hash>, pair: PairHash)
    requires |NonZero(xs)| % 2 == 1
    ensures var ys := xs + [NonZero(xs)[|NonZero(xs)| - 1]];
            NonZero(ys) != NonZero(xs) && ListRoot(ys, pair) == ListRoot(xs, pair)
  {
    var last := NonZero(xs)[|NonZero(xs)| - 1];
    var ys := xs + [last];
    assert last in NonZero(xs);
    assert ys[..|xs|] == xs;
    assert NonZero(ys) == NonZero(xs) + [last];
  }

  // -------------------- the heap --------------------

  class Node {
    var parent: Node?
    var dup: bool
    const left: Node?
    const right: Node?
    const leaf: bool
    const hash: Hash
    ghost const height: nat

    constructor Leaf(hash: Hash)
      ensures leaf && this.hash == hash && parent == null && height == 0
    {
      this.hash, leaf, left, right, parent, dup, height := hash, true, null, null, null, false, 0;
    }

    constructor Inner(left: Node, right: Node, hash: Hash)
      ensures !leaf && this.left == left && this.right == right && this.hash == hash && parent == null
      ensures height == left.height + right.height + 1
    {
      this.hash, leaf, this.left, this.right, parent, dup := hash, false, left, right, null, false;
      this.height := left.height + right.height + 1;
    }
  }

  // Inner nodes carry the hash of their children, which are in the set and lower.
  ghost predicate Closed(nodes: set<Node>, pair: PairHash) {
    forall n <- nodes :: n.leaf || IsParent(n, nodes, pair)
  }

  ghost predicate IsParent(n: Node, nodes: set<Node>, pair: PairHash) {
    && n.left != null && n.right != null && n.left in nodes && n.right in nodes
    && n.left.height < n.height && n.right.height < n.height && n.hash == pair(n.left.hash, n.right.hash)
  }

  // verifyNode: the hash recomputed from the leaves is the stored one.
  function VerifyNode(n: Node, pair: PairHash, ghost nodes: set<Node>): (h: Hash)
    requires Closed(nodes, pair) && n in nodes
    ensures h == n.hash
    decreases n.height
  {
    if n.leaf then n.hash
    else
      assert IsParent(n, nodes, pair);
      pair(VerifyNode(n.left, pair, nodes), VerifyNode(n.right, pair, nodes))
  }

  // The leaves from left to right.
  ghost function Leaves(n: Node, nodes: set<Node>, pair: PairHash): seq<Node>
    requires Closed(nodes, pair) && n in nodes
    decreases n.height
  {
    if n.leaf then [n]
    else
      assert IsParent(n, nodes, pair);
      Leaves(n.left, nodes, pair) + Leaves(n.right, nodes, pair)
  }

  ghost function AllLeaves(nl: seq<Node>, nodes: set<Node>, pair: PairHash): seq<Node>
    requires Closed(nodes, pair) && Within(nl, nodes)
  {
    if nl == [] then [] else AllLeaves(nl[..|nl| - 1], nodes, pair) + Leaves(nl[|nl| - 1], nodes, pair)
  }

  ghost predicate Within(nl: seq<Node>, nodes: set<Node>) { forall n <- nl :: n in nodes }

  function HashesOf(nodes: seq<Node>): (hs: seq<Hash>)
    ensures |hs| == |nodes| && forall i :: 0 <= i < |nodes| ==> hs[i] == nodes[i].hash
  {
    seq(|nodes|, i requires 0 <= i < |nodes| => nodes[i].hash)
  }

  // The list nl is the top of a forest over `nodes`: everything else hangs below through its parent pointer.
  ghost predicate Forest(nl: seq<Node>, nodes: set<Node>, pair: PairHash)
    reads nodes
  {
    Closed(nodes, pair) && Within(nl, nodes) && OnTop(nl, nodes) && Hanging(nl, nodes) && NoRepeat(nl)
  }

  ghost predicate OnTop(nl: seq<Node>, nodes: set<Node>)
    requires Within(nl, nodes)
    reads nodes
  {
    forall n <- nl :: n.parent == null
  }

  ghost predicate Hanging(nl: seq<Node>, nodes: set<Node>)
    reads nodes
  {
    forall n <- nodes :: n !in nl ==> n.parent != null && n.parent in nodes && ChildOf(n, n.parent)
  }

  ghost predicate ChildOf(n: Node, p: Node) { !p.leaf && (p.left == n || p.right == n) }

  // A node occurs once in the list, or as both of the last two elements.
  ghost predicate NoRepeat(nl: seq<Node>) {
    forall i, j :: 0 <= i < j < |nl| && nl[i] == nl[j] ==> i == |nl| - 2
  }

  ghost predicate Rooted(root: Node, nodes: set<Node>, pair: PairHash)
    reads nodes
  {
    Forest([root], nodes, pair)
  }

  // -------------------- joining two trees --------------------

  lemma NoRepeatJoin(a: seq<Node>, x: Node, y: Node, b: seq<Node>, n: Node)
    requires NoRepeat(a + [x, y] + b) && |b| % 2 == 0 && n !in a && n !in b
    ensures NoRepeat(a + [n] + b)
    ensures x !in a && x !in b && y !in a && y !in b
  {
    var s, t := a + [x, y] + b, a + [n] + b;
    assert s[|a|] == x && s[|a| + 1] == y;
    forall i | 0 <= i < |a| ensures a[i] != x && a[i] != y { assert s[i] == a[i]; }
    forall i | 0 <= i < |b| ensures b[i] != x && b[i] != y { assert s[|a| + 2 + i] == b[i]; }
    forall i, j | 0 <= i < j < |t| && t[i] == t[j] ensures i == |t| - 2 {
      assert i != |a| && j != |a|;
      var i', j' := if i < |a| then i else i + 1, if j < |a| then j else j + 1;
      assert s[i'] == t[i] && s[j'] == t[j];
    }
  }

  lemma ClosedJoin(nodes: set<Node>, n: Node, pair: PairHash)
    requires Closed(nodes, pair) && n !in nodes && IsParent(n, nodes, pair)
    ensures Closed(nodes + {n}, pair)
  {
    forall m | m in nodes + {n} && !m.leaf ensures IsParent(m, nodes + {n}, pair) {
      assert IsParent(m, nodes, pair);
    }
  }

  lemma {:induction false} LeavesWiden(m: Node, nodes: set<Node>, more: set<Node>, pair: PairHash)
    requires Closed(nodes, pair) && Closed(more, pair) && nodes <= more && m in nodes
    ensures Leaves(m, nodes, pair) == Leaves(m, more, pair)
    decreases m.height
  {
    hide Closed;
    if !m.leaf {
      assert IsParent(m, nodes, pair) by { ClosedAt(m, nodes, pair); }
      LeavesWiden(m.left, nodes, more, pair);
      LeavesWiden(m.right, nodes, more, pair);
      LeavesOfParent(m, nodes, pair);
      assert IsParent(m, more, pair);
      LeavesOfParent(m, more, pair);
    }
  }

  lemma ClosedAt(m: Node, nodes: set<Node>, pair: PairHash)
    requires Closed(nodes, pair) && m in nodes && !m.leaf
    ensures IsParent(m, nodes, pair)
  {
  }

  lemma LeavesOfParent(m: Node, nodes: set<Node>, pair: PairHash)
    requires Closed(nodes, pair) && m in nodes && !m.leaf
    ensures IsParent(m, nodes, pair)
    ensures Leaves(m, nodes, pair) == Leaves(m.left, nodes, pair) + Leaves(m.right, nodes, pair)
  {
  }

  lemma {:induction false} AllLeavesWiden(nl: seq<Node>, nodes: set<Node>, more: set<Node>, pair: PairHash)
    requires Closed(nodes, pair) && Closed(more, pair) && nodes <= more && Within(nl, nodes)
    ensures Within(nl, more) && AllLeaves(nl, nodes, pair) == AllLeaves(nl, more, pair)
  {
    hide Closed, Leaves;
    if nl != [] {
      AllLeavesWiden(nl[..|nl| - 1], nodes, more, pair);
      LeavesWiden(nl[|nl| - 1], nodes, more, pair);
    }
  }

  lemma {:induction false} AllLeavesConcat(a: seq<Node>, b: seq<Node>, nodes: set<Node>, pair: PairHash)
    requires Closed(nodes, pair) && Within(a, nodes) && Within(b, nodes)
    ensures Within(a + b, nodes)
    ensures AllLeaves(a + b, nodes, pair) == AllLeaves(a, nodes, pair) + AllLeaves(b, nodes, pair)
  {
    hide Closed, Leaves;
    if b == [] {
      assert a + b == a;
    } else {
      assert (a + b)[..|a + b| - 1] == a + b[..|b| - 1];
      AllLeavesConcat(a, b[..|b| - 1], nodes, pair);
    }
  }

  lemma AllLeavesPair(x: Node, y: Node, nodes: set<Node>, pair: PairHash)
    requires Closed(nodes, pair) && x in nodes && y in nodes
    ensures AllLeaves([x], nodes, pair) == Leaves(x, nodes, pair)
    ensures AllLeaves([x, y], nodes, pair) == Leaves(x, nodes, pair) + Leaves(y, nodes, pair)
  {
    hide Closed, Leaves;
    assert [x, y][..1] == [x] && [x][..0] == [];
    assert AllLeaves([x][..0], nodes, pair) == [];
  }

  lemma LeavesJoin(a: seq<Node>, x: Node, y: Node, b: seq<Node>, n: Node, nodes: set<Node>, pair: PairHash)
    requires Closed(nodes, pair) && Within(a + [x, y] + b, nodes) && n !in nodes
    requires !n.leaf && n.left == x && n.right == y && IsParent(n, nodes, pair)
    ensures Closed(nodes + {n}, pair) && Within(a + [n] + b, nodes + {n})
    ensures AllLeaves(a + [n] + b, nodes + {n}, pair) == AllLeaves(a + [x, y] + b, nodes, pair)
  {
    hide Closed, Leaves;
    var more := nodes + {n};
    ClosedJoin(nodes, n, pair);
    assert forall m <- a + [x, y] + b :: m in nodes;
    assert x in a + [x, y] + b && y in a + [x, y] + b;
    assert forall m <- a :: m in a + [x, y] + b;
    assert forall m <- b :: m in a + [x, y] + b;
    AllLeavesWiden(a + [x, y] + b, nodes, more, pair);
    AllLeavesConcat(a, [x, y], more, pair);
    AllLeavesConcat(a + [x, y], b, more, pair);
    AllLeavesConcat(a, [n], more, pair);
    AllLeavesConcat(a + [n], b, more, pair);
    AllLeavesPair(x, y, more, pair);
    AllLeavesPair(n, n, more, pair);
    LeavesOfParent(n, more, pair);
  }

  // Two neighbours in the list get a parent, which takes their place.
  method Join(x: Node, y: Node, pair: PairHash, ghost a: seq<Node>, ghost b: seq<Node>, ghost nodes: set<Node>)
    returns (n: Node)
    requires Forest(a + [x, y] + b, nodes, pair) && |b| % 2 == 0
    modifies x`parent, y`parent
    ensures fresh(n) && n.hash == pair(x.hash, y.hash)
    ensures Forest(a + [n] + b, nodes + {n}, pair)
    ensures AllLeaves(a + [n] + b, nodes + {n}, pair) == AllLeaves(a + [x, y] + b, nodes, pair)
  {
    hide Closed, NoRepeat, AllLeaves, Leaves;
    ghost var list := a + [x, y] + b;
    assert list[|a|] == x && list[|a| + 1] == y && x in nodes && y in nodes;
    n := new Node.Inner(x, y, pair(x.hash, y.hash));
    x.parent := n;
    y.parent := n;
    assert forall m <- a :: m in list;
    assert forall m <- b :: m in list;
    NoRepeatJoin(a, x, y, b, n);
    LeavesJoin(a, x, y, b, n, nodes, pair);
    assert OnTop(a + [n] + b, nodes + {n});
    forall m | m in nodes + {n} && m !in a + [n] + b
      ensures m.parent != null && m.parent in nodes + {n} && ChildOf(m, m.parent)
    {
      if m != x && m != y {
        assert m !in list;
      }
    }
  }

  // The loop that looks for the largest power of two.
  method LargestPower(n: nat) returns (l: nat)
    ensures l == Prefix(n)
  {
    l := n;
    while !CheckPower2(l)
      invariant l <= n && forall m: nat :: l < m <= n ==> !CheckPower2(m)
      decreases l
    {
      l := l - 1;
    }
  }

  lemma PairUpStep(hs: seq<Hash>, i: nat, pair: PairHash)
    requires i % 2 == 0 && i + 2 <= |hs|
    ensures PairUp(hs[..i + 2], pair) == PairUp(hs[..i], pair) + [pair(hs[i], hs[i + 1])]
  {
  }

  // The loop that pairs up the first l trees.
  method PairFirst(nl: seq<Node>, l: nat, pair: PairHash, ghost nodes: set<Node>)
    returns (top: seq<Node>, ghost all: set<Node>)
    requires l <= |nl| && l % 2 == 0 && |nl| % 2 == 0
    requires Forest(nl, nodes, pair)
    modifies (set n | n in nl)`parent
    ensures nodes <= all && fresh(all - nodes) && forall n <- top :: fresh(n)
    ensures HashesOf(top) == PairUp(HashesOf(nl)[..l], pair)
    ensures Forest(top + nl[l..], all, pair)
    ensures AllLeaves(top + nl[l..], all, pair) == AllLeaves(nl, nodes, pair)
  {
    hide *;
    top, all := [], nodes;
    var i := 0;
    ForestParts(nl, nodes, pair);
    ghost var whole, leaves, hs := nl, AllLeaves(nl, nodes, pair), HashesOf(nl);
    assert HashesOf(top) == PairUp(HashesOf(nl)[..0], pair) by { NothingPaired(HashesOf(nl), pair); }
    while i < l
      invariant 0 <= i <= l && i % 2 == 0
      invariant nodes <= all && fresh(all - nodes) && forall n <- top :: fresh(n)
      invariant whole == top + nl[i..] && Forest(whole, all, pair)
      invariant Closed(all, pair) && Within(whole, all) && AllLeaves(whole, all, pair) == leaves
      invariant HashesOf(top) == PairUp(hs[..i], pair)
    {
      var n;
      n, whole := PairNext(nl[i], nl[i + 1], pair, nl, i, top, whole, all);
      PairUpStep(hs, i, pair);
      HashesSnoc(top, n);
      top := top + [n];
      all := all + {n};
      i := i + 2;
    }
  }

  // One turn of that loop.
  method PairNext(x: Node, y: Node, pair: PairHash, ghost nl: seq<Node>, ghost i: nat, ghost top: seq<Node>,
                  ghost whole: seq<Node>, ghost all: set<Node>) returns (n: Node, ghost next: seq<Node>)
    requires i + 2 <= |nl| && (|nl| - i) % 2 == 0 && x == nl[i] && y == nl[i + 1]
    requires whole == top + nl[i..] && Forest(whole, all, pair)
    modifies x`parent, y`parent
    ensures fresh(n) && n.hash == pair(x.hash, y.hash)
    ensures next == top + [n] + nl[i + 2..] && Forest(next, all + {n}, pair)
    ensures Closed(all + {n}, pair) && Within(next, all + {n})
    ensures Closed(all, pair) && Within(whole, all)
    ensures AllLeaves(next, all + {n}, pair) == AllLeaves(whole, all, pair)
  {
    hide Forest, Closed, Within, AllLeaves;
    ghost var rest := nl[i + 2..];
    ForestParts(whole, all, pair);
    assert whole == top + [nl[i], nl[i + 1]] + rest;
    n := Join(x, y, pair, top, rest, all);
    next := top + [n] + rest;
    ForestParts(next, all + {n}, pair);
  }

  lemma NothingPaired(hs: seq<Hash>, pair: PairHash)
    ensures HashesOf([]) == PairUp(hs[..0], pair)
  {
  }

  lemma HashesSnoc(top: seq<Node>, n: Node)
    ensures HashesOf(top + [n]) == HashesOf(top) + [n.hash]
  {
  }

  lemma ForestParts(nl: seq<Node>, nodes: set<Node>, pair: PairHash)
    requires Forest(nl, nodes, pair)
    ensures Closed(nodes, pair) && Within(nl, nodes)
  {
  }

  method BuildIntermediate(nl: seq<Node>, pair: PairHash, ghost nodes: set<Node>)
    returns (root: Node, ghost all: set<Node>)
    requires |nl| >= 2 && |nl| % 2 == 0
    requires Forest(nl, nodes, pair)
    modifies (set n | n in nl)`parent
    ensures nodes <= all && fresh(all - nodes)
    ensures Rooted(root, all, pair)
    ensures root.hash == RootOf(HashesOf(nl), pair)
    ensures Leaves(root, all, pair) == AllLeaves(nl, nodes, pair)
    decreases |nl|
  {
    hide Forest, Closed, AllLeaves, Leaves, Prefix, PairUp;
    EvenLevels(|nl|);
    var l := LargestPower(|nl|);
    var nextLevel;
    nextLevel, all := PairFirst(nl, l, pair, nodes);
    ghost var next := nextLevel + nl[l..];
    assert HashesOf(next) == Level(HashesOf(nl), pair);
    ForestParts(next, all, pair);
    if |nl| == 2 {
      assert next == [nextLevel[0]];
      PairOfTwo(HashesOf(nl), pair);
      AllLeavesPair(nextLevel[0], nextLevel[0], all, pair);
      return nextLevel[0], all;
    }
    var i := l;
    while i < |nl|
      invariant l <= i <= |nl| && nextLevel + nl[i..] == next
    {
      nextLevel := nextLevel + [nl[i]];
      i := i + 1;
    }
    assert nextLevel == next;
    root, all := BuildIntermediate(nextLevel, pair, all);
  }

  lemma PairOfTwo(hs: seq<Hash>, pair: PairHash)
    requires |hs| == 2
    ensures PairUp(hs[..2], pair) == [pair(hs[0], hs[1])]
  {
  }

  // The tree over the nonzero hashes; a null root for the empty list, which the code reports as an error.
  method BuildWithContent(txSlices: seq<Hash>, pair: PairHash)
    returns (root: Node?, leafs: seq<Node>, ghost all: set<Node>)
    requires txSlices != [] ==> NonZero(txSlices) != []
    ensures root == null <==> txSlices == []
    ensures fresh(all)
    ensures root != null ==>
      Rooted(root, all, pair) && root.hash == ListRoot(txSlices, pair) && Leaves(root, all, pair) == leafs
    ensures root != null ==> HashesOf(leafs) == Padded(NonZero(txSlices))
    ensures (forall n <- leafs :: n.leaf && n in all) && (root == null ==> leafs == [])
  {
    hide Closed, AllLeaves, Leaves, RootOf, Forest, Rooted;
    all := {};
    leafs := [];
    if |txSlices| == 0 {
      return null, leafs, all;
    }
    leafs := NewLeaves(txSlices);
    all := set n | n in leafs;
    if |leafs| % 2 == 1 {
      leafs := leafs + [leafs[|leafs| - 1]];
      leafs[|leafs| - 1].dup := true;
    }
    assert HashesOf(leafs) == Padded(NonZero(txSlices));
    LeavesForest(leafs, all, pair);
    root, all := BuildIntermediate(leafs, pair, all);
  }

  lemma LeavesForest(leafs: seq<Node>, all: set<Node>, pair: PairHash)
    requires all == (set n | n in leafs) && NoRepeat(leafs) && forall n <- leafs :: n.leaf && n.parent == null
    ensures Forest(leafs, all, pair) && Closed(all, pair) && Within(leafs, all) && AllLeaves(leafs, all, pair) == leafs
  {
    LeavesClosed(all, pair);
    LeavesOfLeaves(leafs, all, pair);
  }

  method NewLeaves(txSlices: seq<Hash>) returns (leafs: seq<Node>)
    ensures fresh(set n | n in leafs)
    ensures HashesOf(leafs) == NonZero(txSlices)
    ensures forall n <- leafs :: n.leaf && n.parent == null
    ensures forall j, k :: 0 <= j < k < |leafs| ==> leafs[j] != leafs[k]
  {
    leafs := [];
    var i := 0;
    while i < |txSlices|
      invariant 0 <= i <= |txSlices| && fresh(set n | n in leafs)
      invariant HashesOf(leafs) == NonZero(txSlices[..i])
      invariant forall n <- leafs :: n.leaf && n.parent == null
      invariant forall j, k :: 0 <= j < k < |leafs| ==> leafs[j] != leafs[k]
    {
      assert txSlices[..i + 1][..i] == txSlices[..i];
      if txSlices[i] != ZERO_HASH {
        var n := new Node.Leaf(txSlices[i]);
        leafs := leafs + [n];
      }
      i := i + 1;
    }
    assert txSlices[..i] == txSlices;
  }

  lemma LeavesClosed(nodes: set<Node>, pair: PairHash)
    requires forall n <- nodes :: n.leaf
    ensures Closed(nodes, pair)
  {
  }

  lemma {:induction false} LeavesOfLeaves(leafs: seq<Node>, nodes: set<Node>, pair: PairHash)
    requires Closed(nodes, pair) && Within(leafs, nodes) && forall n <- leafs :: n.leaf
    ensures AllLeaves(leafs, nodes, pair) == leafs
  {
    hide Closed;
    if leafs != [] {
      assert Leaves(leafs[|leafs| - 1], nodes, pair) == [leafs[|leafs| - 1]];
      LeavesOfLeaves(leafs[..|leafs| - 1], nodes, pair);
    }
  }

  class MerkleTree {
    const root: Node
    const merkleRoot: Hash
    const leafs: seq<Node>
    const pair: PairHash
    ghost const nodes: set<Node>

    ghost predicate Valid()
      reads nodes
    {
      && Rooted(root, nodes, pair) && merkleRoot == root.hash
      && (forall n <- leafs :: n.leaf && n in nodes) && Leaves(root, nodes, pair) == leafs
    }

    constructor (root: Node, leafs: seq<Node>, pair: PairHash, ghost nodes: set<Node>)
      requires Rooted(root, nodes, pair) && (forall n <- leafs :: n.leaf && n in nodes)
        && Leaves(root, nodes, pair) == leafs
      ensures Valid()
      ensures this.root == root && this.leafs == leafs && this.pair == pair && this.nodes == nodes
    {
      this.root, this.leafs, this.pair, this.nodes, merkleRoot := root, leafs, pair, nodes, root.hash;
    }

    // A built tree verifies: the hash recomputed from the leaves is the stored root.
    method VerifyTree() returns (ok: bool)
      requires Valid()
      ensures ok
    {
      var calculatedMerkleRoot := VerifyNode(root, pair, nodes);
      ok := merkleRoot == calculatedMerkleRoot;
    }

    // The first leaf with the hash.
    method GetLeaf(leafHash: Hash) returns (leaf: Node?)
      requires Valid()
      ensures leaf == null <==> leafHash !in HashesOf(leafs)
      ensures leaf != null ==> leaf in nodes && leaf in leafs && leaf.hash == leafHash
    {
      hide Rooted, Leaves, Closed;
      var i := 0;
      while i < |leafs|
        invariant 0 <= i <= |leafs| && forall k :: 0 <= k < i ==> leafs[k].hash != leafHash
      {
        if leafHash == leafs[i].hash {
          assert HashesOf(leafs)[i] == leafHash;
          return leafs[i];
        }
        i := i + 1;
      }
      return null;
    }

    // The inclusion path of a node, sibling and parent by turns; `ok` is false for the source's error.
    method GetIntermediate(leaf: Node) returns (intermediate: seq<Node>, ok: bool)
      requires Valid() && leaf in nodes
      ensures ok
      ensures Chain(leaf.hash, HashesOf(intermediate), pair)
      ensures Top(leaf.hash, HashesOf(intermediate)) == merkleRoot
      ensures leaf != root ==> intermediate != [] && intermediate[|intermediate| - 1] == root
    {
      hide Valid, Chain;
      var currentNode, currentParent := leaf, leaf.parent;
      intermediate := [];
      assert Chain(leaf.hash, HashesOf(intermediate), pair) by { ChainStart(leaf.hash, pair); }
      while currentParent != null
        invariant currentNode in nodes && currentParent == currentNode.parent
        invariant Chain(leaf.hash, HashesOf(intermediate), pair)
        invariant Top(leaf.hash, HashesOf(intermediate)) == currentNode.hash
        invariant currentNode == if intermediate == [] then leaf else intermediate[|intermediate| - 1]
        decreases HeightBound(nodes) - currentNode.height
      {
        ParentAbove(currentNode);
        var left, right := currentParent.left, currentParent.right;
        var before := intermediate;
        if currentNode.hash == left.hash {
          intermediate := intermediate + [right];
          intermediate := intermediate + [currentParent];
          ChainStep(leaf.hash, HashesOf(before), right.hash, currentParent.hash, pair);
        } else if currentNode.hash == right.hash {
          intermediate := intermediate + [left];
          intermediate := intermediate + [currentParent];
          ChainStep(leaf.hash, HashesOf(before), left.hash, currentParent.hash, pair);
        } else {
          return [], false;
        }
        assert HashesOf(intermediate)
            == HashesOf(before) + [intermediate[|intermediate| - 2].hash] + [intermediate[|intermediate| - 1].hash];
        currentNode := currentParent;
        currentParent := currentParent.parent;
      }
      OnlyRootOnTop(currentNode);
      ok := true;
    }

    lemma ParentAbove(n: Node)
      requires Valid() && n in nodes && n.parent != null
      ensures n.parent in nodes && n.parent.left != null && n.parent.right != null
      ensures n.parent.left == n || n.parent.right == n
      ensures n.parent.hash == pair(n.parent.left.hash, n.parent.right.hash) && n.parent.height > n.height
    {
      assert n != root;
      ClosedAt(n.parent, nodes, pair);
    }

    lemma OnlyRootOnTop(n: Node)
      requires Valid() && n in nodes && n.parent == null
      ensures n == root && merkleRoot == n.hash
    {
    }
  }

  ghost function HeightBound(nodes: set<Node>): (b: nat)
    ensures forall n <- nodes :: n.height <= b
  {
    if nodes == {} then 0 else var n :| n in nodes; n.height + HeightBound(nodes - {n})
  }

  // The hash a path ends at, and whether each sibling and parent continue it: a parent is the hash of the current hash
  // and the sibling, on one side or the other.
  function Top(h: Hash, path: seq<Hash>): Hash { if path == [] then h else path[|path| - 1] }

  predicate Chain(h: Hash, path: seq<Hash>, pair: PairHash) {
    path == []
    || (|path| >= 2 && Chain(h, path[..|path| - 2], pair)
        && var current, sibling, parent := Top(h, path[..|path| - 2]), path[|path| - 2], path[|path| - 1];
           parent == pair(current, sibling) || parent == pair(sibling, current))
  }

  lemma ChainStart(h: Hash, pair: PairHash)
    ensures Chain(h, [], pair)
  {
  }

  lemma ChainStep(h: Hash, path: seq<Hash>, sibling: Hash, parent: Hash, pair: PairHash)
    requires Chain(h, path, pair)
    requires parent == pair(Top(h, path), sibling) || parent == pair(sibling, Top(h, path))
    ensures Chain(h, path + [sibling] + [parent], pair)
  {
    assert (path + [sibling] + [parent])[..|path|] == path;
  }

  // newTree.
  method NewTree(txSlices: seq<Hash>, pair: PairHash) returns (tree: MerkleTree?)
    requires txSlices != [] ==> NonZero(txSlices) != []
    ensures tree == null <==> txSlices == []
    ensures tree != null ==> tree.Valid() && tree.pair == pair && fresh(tree.nodes)
    ensures tree != null ==>
      tree.merkleRoot == ListRoot(txSlices, pair) && HashesOf(tree.leafs) == Padded(NonZero(txSlices))
  {
    ghost var all: set<Node>;
    var root, leafs;
    root, leafs, all := BuildWithContent(txSlices, pair);
    if root == null {
      return null;
    }
    tree := new MerkleTree(root, leafs, pair, all);
  }

  datatype TxData = TxData(funds: seq<Hash>, accs: seq<Hash>, configs: seq<Hash>, stakes: seq<Hash>, aggs: seq<Hash>,
                           updates: seq<Hash>)
  {
    function All(): seq<Hash> { funds + accs + configs + stakes + aggs + updates }
  }

  // The hashes of every kind of transaction are nonzero.
  ghost predicate NoZeroHash(d: TxData) {
    && (forall h <- d.funds :: h != ZERO_HASH) && (forall h <- d.accs :: h != ZERO_HASH)
    && (forall h <- d.configs :: h != ZERO_HASH) && (forall h <- d.stakes :: h != ZERO_HASH)
    && (forall h <- d.aggs :: h != ZERO_HASH) && (forall h <- d.updates :: h != ZERO_HASH)
  }

  ghost predicate SameLengths(d: TxData, e: TxData) {
    && |d.funds| == |e.funds| && |d.accs| == |e.accs| && |d.configs| == |e.configs|
    && |d.stakes| == |e.stakes| && |d.aggs| == |e.aggs| && |d.updates| == |e.updates|
  }

  ghost predicate NoTransactions(d: TxData) { d.funds == d.accs == d.configs == d.stakes == d.aggs == d.updates == [] }

  // BuildMerkleTree(b).MerkleRoot(), the root a block is checked against.
  function BlockRoot(d: TxData, pair: PairHash): Hash
    requires d.All() != [] ==> NonZero(d.All()) != []
  {
    if d.All() == [] then ZERO_HASH else ListRoot(d.All(), pair)
  }

  // The pairs hashed for a block.
  ghost function BlockPairs(d: TxData, pair: PairHash): set<(Hash, Hash)> {
    if NonZero(d.All()) == [] then {} else Hashed(Padded(NonZero(d.All())), pair)
  }

  lemma NonZeroEnds(rest: seq<Hash>, last: Hash)
    requires forall h <- rest + [last] :: h != ZERO_HASH
    ensures last != ZERO_HASH && forall h <- rest :: h != ZERO_HASH
  {
    assert last in rest + [last];
    assert forall h <- rest :: h in rest + [last];
  }

  lemma {:induction false} NonZeroAll(hs: seq<Hash>)
    requires forall h <- hs :: h != ZERO_HASH
    ensures NonZero(hs) == hs
  {
    if hs != [] {
      var rest, last := hs[..|hs| - 1], hs[|hs| - 1];
      assert hs == rest + [last];
      NonZeroEnds(rest, last);
      NonZeroAll(rest);
    }
  }

  lemma NoZeroInAll(d: TxData)
    requires NoZeroHash(d)
    ensures NonZero(d.All()) == d.All() && (d.All() == [] <==> NoTransactions(d))
  {
    NonZeroAll(d.All());
    assert |d.All()| == |d.funds| + |d.accs| + |d.configs| + |d.stakes| + |d.aggs| + |d.updates|;
  }

  // The root commits to every transaction in every list: blocks with as many transactions of each kind have the same
  // root exactly when all six lists agree, in order.
  lemma BlockRootCommits(d: TxData, e: TxData, pair: PairHash)
    requires SameLengths(d, e) && NoZeroHash(d) && NoZeroHash(e)
    requires CollisionFree(BlockPairs(d, pair) + BlockPairs(e, pair), pair)
    ensures NonZero(d.All()) == d.All() && NonZero(e.All()) == e.All()
    ensures BlockRoot(d, pair) == BlockRoot(e, pair) <==>
      && d.funds == e.funds && d.accs == e.accs && d.configs == e.configs
      && d.stakes == e.stakes && d.aggs == e.aggs && d.updates == e.updates
  {
    hide Hashed, ListRoot, Padded, CollisionFree;
    NoZeroInAll(d);
    NoZeroInAll(e);
    ListsRecovered(d, e);
    if d.All() != [] {
      RootDeterminesLeaves(d.All(), e.All(), pair);
    }
  }

  lemma ListsRecovered(d: TxData, e: TxData)
    requires SameLengths(d, e)
    ensures d.All() == e.All() ==> d == e
  {
    if d.All() == e.All() {
      var a, b := d.funds + d.accs + d.configs + d.stakes + d.aggs, e.funds + e.accs + e.configs + e.stakes + e.aggs;
      Parted(a, d.updates, b, e.updates);
      Parted(d.funds + d.accs + d.configs + d.stakes, d.aggs, e.funds + e.accs + e.configs + e.stakes, e.aggs);
      Parted(d.funds + d.accs + d.configs, d.stakes, e.funds + e.accs + e.configs, e.stakes);
      Parted(d.funds + d.accs, d.configs, e.funds + e.accs, e.configs);
      Parted(d.funds, d.accs, e.funds, e.accs);
    }
  }

  lemma Parted(a: seq<Hash>, x: seq<Hash>, b: seq<Hash>, y: seq<Hash>)
    requires |x| == |y| && a + x == b + y
    ensures a == b && x == y
  {
    assert |a| == |b|;
    assert a == (a + x)[..|a|] && b == (b + y)[..|a|] && x == (a + x)[|a|..] && y == (b + y)[|a|..];
  }

  // The root is 0 without transactions, and with some only if a pair hashed for them has the hash 0.
  lemma BlockRootIsZero(d: TxData, pair: PairHash)
    requires NoZeroHash(d)
    ensures NonZero(d.All()) == d.All() && (NoTransactions(d) ==> BlockRoot(d, pair) == ZERO_HASH)
    ensures BlockRoot(d, pair) == ZERO_HASH ==>
      NoTransactions(d) || exists p <- BlockPairs(d, pair) :: pair(p.0, p.1) == ZERO_HASH
  {
    hide Hashed, RootOf, NonZero, NoZeroHash, NoTransactions, TxData.All;
    NoZeroInAll(d);
    if d.All() != [] {
      var p := RootIsHashed(Padded(NonZero(d.All())), pair);
    }
  }

  method MerkleRoot(data: TxData, pair: PairHash) returns (root: Hash)
    requires data.All() != [] ==> NonZero(data.All()) != []
    ensures root == BlockRoot(data, pair)
  {
    var tree := NewTree(data.All(), pair);
    root := if tree == null then ZERO_HASH else tree.merkleRoot;
  }
}
