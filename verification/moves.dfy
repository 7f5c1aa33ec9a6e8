/**
 * The move model of the pocket cube: twelve quarter-turns, each a fixed
 * table over the 24 sticker positions (Rubik_2x2x2.py, RULES). Positions
 * 4k .. 4k + 3 hold face k, in the order U, R, F, D, L, B.
 */
module Moves {
  import opened Wrappers

  /** Number of stickers, and so the length of every move table. */
  const StickerCount: nat := 24

  /** The move names, in the order the rule table lists them; every search tries moves in this order. */
  const Names: seq<string> := ["U", "U'", "R", "R'", "F", "F'", "D", "D'", "L", "L'", "B", "B'"]

  // One table per move: entry i is the old position whose sticker lands
  // on position i. Rules lists them in the order of Names.
  const U: seq<nat> :=
    [ 2,  0,  3,  1, 20, 21,  6,  7,  4,  5, 10, 11,
     12, 13, 14, 15,  8,  9, 18, 19, 16, 17, 22, 23]
  const UPrime: seq<nat> :=
    [ 1,  3,  0,  2,  8,  9,  6,  7, 16, 17, 10, 11,
     12, 13, 14, 15, 20, 21, 18, 19,  4,  5, 22, 23]
  const R: seq<nat> :=
    [ 0,  9,  2, 11,  6,  4,  7,  5,  8, 13, 10, 15,
     12, 22, 14, 20, 16, 17, 18, 19,  3, 21,  1, 23]
  const RPrime: seq<nat> :=
    [ 0, 22,  2, 20,  5,  7,  4,  6,  8,  1, 10,  3,
     12,  9, 14, 11, 16, 17, 18, 19, 15, 21, 13, 23]
  const F: seq<nat> :=
    [ 0,  1, 19, 17,  2,  5,  3,  7, 10,  8, 11,  9,
      6,  4, 14, 15, 16, 12, 18, 13, 20, 21, 22, 23]
  const FPrime: seq<nat> :=
    [ 0,  1,  4,  6, 13,  5, 12,  7,  9, 11,  8, 10,
     17, 19, 14, 15, 16,  3, 18,  2, 20, 21, 22, 23]
  const D: seq<nat> :=
    [ 0,  1,  2,  3,  4,  5, 10, 11,  8,  9, 18, 19,
     14, 12, 15, 13, 16, 17, 22, 23, 20, 21,  6,  7]
  const DPrime: seq<nat> :=
    [ 0,  1,  2,  3,  4,  5, 22, 23,  8,  9,  6,  7,
     13, 15, 12, 14, 16, 17, 10, 11, 20, 21, 18, 19]
  const L: seq<nat> :=
    [23,  1, 21,  3,  4,  5,  6,  7,  0,  9,  2, 11,
      8, 13, 10, 15, 18, 16, 19, 17, 20, 14, 22, 12]
  const LPrime: seq<nat> :=
    [ 8,  1, 10,  3,  4,  5,  6,  7, 12,  9, 14, 11,
     23, 13, 21, 15, 17, 19, 16, 18, 20,  2, 22,  0]
  const B: seq<nat> :=
    [ 5,  7,  2,  3,  4, 15,  6, 14,  8,  9, 10, 11,
     12, 13, 16, 18,  1, 17,  0, 19, 22, 20, 23, 21]
  const BPrime: seq<nat> :=
    [18, 16,  2,  3,  4,  0,  6,  1,  8,  9, 10, 11,
     12, 13,  7,  5, 14, 17, 15, 19, 21, 23, 20, 22]

  /** The rule table: row m is the table of move Names[m]. */
  const Rules: seq<seq<nat>> := [U, UPrime, R, RPrime, F, FPrime, D, DPrime, L, LPrime, B, BPrime]

  /** The table of move Names[m]. */
  function Table(m: nat): seq<nat>
    requires m < |Names|
  {
    Rules[m]
  }

  /** The move that undoes move m: X and X' sit side by side, X first. */
  function Inverse(m: nat): (r: nat)
    requires m < |Names|
    ensures r < |Names|
  {
    if m == 0 || m == 2 || m == 4 || m == 6 || m == 8 || m == 10 then m + 1 else m - 1
  }

  /** The position of `name` in Names, searching from `from` on. */
  function Find(name: string, from: nat): (r: Option<nat>)
    ensures r.Some? ==> from <= r.value < |Names| && Names[r.value] == name
    ensures r.None? <==> forall i | from <= i < |Names| :: Names[i] != name
    decreases |Names| - from
  {
    if from >= |Names| then None
    else if Names[from] == name then Some(from)
    else Find(name, from + 1)
  }

  /** The table lookup `RULES.get(name)`: None for a name that is not a move. */
  function Lookup(name: string): (r: Option<seq<nat>>)
    ensures r.None? <==> name !in Names
    ensures r.Some? ==> exists m | 0 <= m < |Names| :: Names[m] == name && r.value == Table(m)
    ensures r.Some? ==> |r.value| == StickerCount && forall k | 0 <= k < StickerCount :: r.value[k] < StickerCount
  {
    match Find(name, 0)
    case None => None
    case Some(m) =>
      TableInRange(m);
      Some(Table(m))
  }

  /** Names are pairwise different, so a name identifies its table. */
  lemma NamesDistinct()
    ensures forall a, b | 0 <= a < b < |Names| :: Names[a] != Names[b]
  {
  }

  /** `p` and `q` are mutually inverse permutations of 0 .. n-1. */
  ghost predicate Inverses(p: seq<nat>, q: seq<nat>, n: nat)
  {
    && |p| == n && |q| == n
    && (forall k | 0 <= k < n :: p[k] < n && q[k] < n)
    && (forall k {:trigger p[q[k]]} | 0 <= k < n :: p[q[k]] == k)
    && (forall k {:trigger q[p[k]]} | 0 <= k < n :: q[p[k]] == k)
  }

  /** `p` is a permutation of 0 .. n-1: in range and without repeats. */
  ghost predicate IsPermutation(p: seq<nat>, n: nat)
  {
    && |p| == n
    && (forall k | 0 <= k < n :: p[k] < n)
    && (forall a, b | 0 <= a < b < n :: p[a] != p[b])
  }

  lemma Cases24(k: int)
    requires 0 <= k < 24
    ensures k == 0 || k == 1 || k == 2 || k == 3 || k == 4 || k == 5 || k == 6 || k == 7 || k == 8 || k == 9 || k == 10 || k == 11 || k == 12 || k == 13 || k == 14 || k == 15 || k == 16 || k == 17 || k == 18 || k == 19 || k == 20 || k == 21 || k == 22 || k == 23
  {
  }

  /** Moves U and U' undo each other. */
  lemma {:induction false} UndoU()
    ensures Undoes(0) && Undoes(1)
  {
    forall k | 0 <= k < StickerCount
      ensures U[k] < StickerCount && UPrime[k] < StickerCount
      ensures U[UPrime[k]] == k
    {
      Cases24(k);
    }
    forall k | 0 <= k < StickerCount
      ensures UPrime[U[k]] == k
    {
      Cases24(k);
    }
    assert Table(0) == U && Table(1) == UPrime;
  }
  /** Moves R and R' undo each other. */
  lemma {:induction false} UndoR()
    ensures Undoes(2) && Undoes(3)
  {
    forall k | 0 <= k < StickerCount
      ensures R[k] < StickerCount && RPrime[k] < StickerCount
      ensures R[RPrime[k]] == k
    {
      Cases24(k);
    }
    forall k | 0 <= k < StickerCount
      ensures RPrime[R[k]] == k
    {
      Cases24(k);
    }
    assert Table(2) == R && Table(3) == RPrime;
  }
  /** Moves F and F' undo each other. */
  lemma {:induction false} UndoF()
    ensures Undoes(4) && Undoes(5)
  {
    forall k | 0 <= k < StickerCount
      ensures F[k] < StickerCount && FPrime[k] < StickerCount
      ensures F[FPrime[k]] == k
    {
      Cases24(k);
    }
    forall k | 0 <= k < StickerCount
      ensures FPrime[F[k]] == k
    {
      Cases24(k);
    }
    assert Table(4) == F && Table(5) == FPrime;
  }
  /** Moves D and D' undo each other. */
  lemma {:induction false} UndoD()
    ensures Undoes(6) && Undoes(7)
  {
    forall k | 0 <= k < StickerCount
      ensures D[k] < StickerCount && DPrime[k] < StickerCount
      ensures D[DPrime[k]] == k
    {
      Cases24(k);
    }
    forall k | 0 <= k < StickerCount
      ensures DPrime[D[k]] == k
    {
      Cases24(k);
    }
    assert Table(6) == D && Table(7) == DPrime;
  }
  /** Moves L and L' undo each other. */
  lemma {:induction false} UndoL()
    ensures Undoes(8) && Undoes(9)
  {
    forall k | 0 <= k < StickerCount
      ensures L[k] < StickerCount && LPrime[k] < StickerCount
      ensures L[LPrime[k]] == k
    {
      Cases24(k);
    }
    forall k | 0 <= k < StickerCount
      ensures LPrime[L[k]] == k
    {
      Cases24(k);
    }
    assert Table(8) == L && Table(9) == LPrime;
  }
  /** Moves B and B' undo each other. */
  lemma {:induction false} UndoB()
    ensures Undoes(10) && Undoes(11)
  {
    forall k | 0 <= k < StickerCount
      ensures B[k] < StickerCount && BPrime[k] < StickerCount
      ensures B[BPrime[k]] == k
    {
      Cases24(k);
    }
    forall k | 0 <= k < StickerCount
      ensures BPrime[B[k]] == k
    {
      Cases24(k);
    }
    assert Table(10) == B && Table(11) == BPrime;
  }

  /** Move Inverse(m) undoes move m, position by position. */
  ghost predicate Undoes(m: nat)
    requires m < |Names|
  {
    && |Table(m)| == StickerCount && |Table(Inverse(m))| == StickerCount
    && (forall k | 0 <= k < StickerCount :: Table(m)[k] < StickerCount && Table(Inverse(m))[k] < StickerCount)
    && (forall k | 0 <= k < StickerCount :: Table(m)[Table(Inverse(m))[k]] == k)
  }

  lemma {:induction false} Undo(m: nat)
    requires m < |Names|
    ensures Undoes(m)
  {
    if m / 2 == 0 { UndoU(); }
    else if m / 2 == 1 { UndoR(); }
    else if m / 2 == 2 { UndoF(); }
    else if m / 2 == 3 { UndoD(); }
    else if m / 2 == 4 { UndoL(); }
    else { UndoB(); }
  }

  /** Each move's table and its partner's are mutually inverse permutations. */
  lemma {:induction false} TableInverses(m: nat)
    requires m < |Names|
    ensures Inverses(Table(m), Table(Inverse(m)), StickerCount)
    ensures IsPermutation(Table(m), StickerCount)
  {
    Undo(m);
    Undo(Inverse(m));
    assert Inverse(Inverse(m)) == m;
    MutualUndoIsPermutation(Table(m), Table(Inverse(m)), StickerCount);
  }

  /** Every table lists 24 sticker positions. */
  lemma TableInRange(m: nat)
    requires m < |Names|
    ensures |Table(m)| == StickerCount
    ensures forall k | 0 <= k < StickerCount :: Table(m)[k] < StickerCount
  {
    TableInverses(m);
  }

  /** Two tables that undo each other both ways are inverse permutations. */
  lemma MutualUndoIsPermutation(p: seq<nat>, q: seq<nat>, n: nat)
    requires |p| == n && |q| == n
    requires forall k | 0 <= k < n :: p[k] < n && q[k] < n
    requires forall k | 0 <= k < n :: p[q[k]] == k
    requires forall k | 0 <= k < n :: q[p[k]] == k
    ensures Inverses(p, q, n) && IsPermutation(p, n)
  {
    forall a, b | 0 <= a < b < n
      ensures p[a] != p[b]
    {
      assert q[p[a]] == a && q[p[b]] == b;
    }
  }

  /** The stickers `t` rearranged by table `p`: position k receives t[p[k]]. */
  function Gather<T>(t: seq<T>, p: seq<nat>): (r: seq<T>)
    requires forall k | 0 <= k < |p| :: p[k] < |t|
    ensures |r| == |p|
    ensures forall k | 0 <= k < |p| :: r[k] == t[p[k]]
  {
    seq(|p|, k requires 0 <= k < |p| => t[p[k]])
  }

  /** Removing the position that holds n-1 from a permutation of 0 .. n-1 leaves one of 0 .. n-2. */
  lemma {:induction false} DropLast(p: seq<nat>, q: seq<nat>, n: nat) returns (r: seq<nat>, q': seq<nat>)
    requires n > 0 && Inverses(p, q, n)
    ensures q[n - 1] < n && p[q[n - 1]] == n - 1
    ensures |r| == n - 1
    ensures forall k {:trigger r[k]} | 0 <= k < n - 1 :: r[k] == if k < q[n - 1] then p[k] else p[k + 1]
    ensures Inverses(r, q', n - 1)
  {
    var j := q[n - 1];
    r := seq(n - 1, k requires 0 <= k < n - 1 => if k < j then p[k] else p[k + 1]);
    q' := seq(n - 1, v requires 0 <= v < n - 1 => if q[v] <= j then q[v] else q[v] - 1);
    DropLastForward(p, q, n, r);
    DropLastBackward(p, q, n, r, q');
  }

  lemma DropLastForward(p: seq<nat>, q: seq<nat>, n: nat, r: seq<nat>)
    requires n > 0 && Inverses(p, q, n)
    requires |r| == n - 1
    requires forall k {:trigger r[k]} | 0 <= k < n - 1 :: r[k] == if k < q[n - 1] then p[k] else p[k + 1]
    ensures forall k | 0 <= k < n - 1 :: r[k] < n - 1
  {
    var j := q[n - 1];
    forall k | 0 <= k < n - 1
      ensures r[k] < n - 1
    {
      var i := if k < j then k else k + 1;
      assert r[k] == p[i] && i != j;
      assert q[p[i]] == i;
    }
  }

  lemma DropLastBackward(p: seq<nat>, q: seq<nat>, n: nat, r: seq<nat>, q': seq<nat>)
    requires n > 0 && Inverses(p, q, n)
    requires |r| == n - 1 && |q'| == n - 1
    requires forall k {:trigger r[k]} | 0 <= k < n - 1 :: r[k] == if k < q[n - 1] then p[k] else p[k + 1]
    requires forall k | 0 <= k < n - 1 :: r[k] < n - 1
    requires forall v {:trigger q'[v]} | 0 <= v < n - 1 :: q'[v] == if q[v] <= q[n - 1] then q[v] else q[v] - 1
    ensures Inverses(r, q', n - 1)
  {
    var j := q[n - 1];
    forall v | 0 <= v < n - 1
      ensures q'[v] < n - 1 && r[q'[v]] == v
    {
      assert p[q[v]] == v;
      assert q[v] != j;
    }
    forall k | 0 <= k < n - 1
      ensures q'[r[k]] == k
    {
      var i := if k < j then k else k + 1;
      assert r[k] == p[i] && q[p[i]] == i;
    }
  }

  /** Rearranging by a permutation keeps the same multiset of labels. */
  lemma {:induction false} GatherMultiset<T>(t: seq<T>, p: seq<nat>, q: seq<nat>)
    requires Inverses(p, q, |t|)
    ensures multiset(Gather(t, p)) == multiset(t)
    decreases |t|
  {
    var n := |t|;
    if n > 0 {
      var r, q' := DropLast(p, q, n);
      GatherMultiset(t[..n - 1], r, q');
      GatherStep(t, p, r, q[n - 1]);
    }
  }

  /** Gather by p is Gather by r with the last sticker spliced in at position j. */
  lemma GatherStep<T>(t: seq<T>, p: seq<nat>, r: seq<nat>, j: nat)
    requires |t| > 0 && |p| == |t| && j < |p| && p[j] == |t| - 1
    requires forall k | 0 <= k < |p| :: p[k] < |t|
    requires |r| == |p| - 1
    requires forall k {:trigger r[k]} | 0 <= k < |r| :: r[k] == if k < j then p[k] else p[k + 1]
    requires forall k | 0 <= k < |r| :: r[k] < |t| - 1
    requires multiset(Gather(t[..|t| - 1], r)) == multiset(t[..|t| - 1])
    ensures multiset(Gather(t, p)) == multiset(t)
  {
    var t', x := t[..|t| - 1], t[|t| - 1];
    GatherPieces(t, p, r, j);
    var a, b := Gather(t', r[..j]), Gather(t', r[j..]);
    assert multiset(a + [x] + b) == multiset(a) + multiset{x} + multiset(b);
    assert multiset(a + b) == multiset(a) + multiset(b);
    SplitLast(t);
  }

  /** Gather(t, p) split at the position j of the last index, against the same gather on t without its last element. */
  lemma GatherPieces<T>(t: seq<T>, p: seq<nat>, r: seq<nat>, j: nat)
    requires |t| > 0 && |p| == |t| && j < |p| && p[j] == |t| - 1
    requires forall k | 0 <= k < |p| :: p[k] < |t|
    requires |r| == |p| - 1
    requires forall k {:trigger r[k]} | 0 <= k < |r| :: r[k] == if k < j then p[k] else p[k + 1]
    requires forall k | 0 <= k < |r| :: r[k] < |t| - 1
    ensures Gather(t, p) == Gather(t[..|t| - 1], r[..j]) + [t[|t| - 1]] + Gather(t[..|t| - 1], r[j..])
    ensures Gather(t[..|t| - 1], r) == Gather(t[..|t| - 1], r[..j]) + Gather(t[..|t| - 1], r[j..])
  {
    var t' := t[..|t| - 1];
    var g := Gather(t, p);
    GatherFront(t, p, r, j);
    GatherBack(t, p, r, j);
    assert g == g[..j] + [g[j]] + g[j + 1..];
    GatherSplit(t', r, j);
  }

  lemma GatherFront<T>(t: seq<T>, p: seq<nat>, r: seq<nat>, j: nat)
    requires |t| > 0 && |p| == |t| && j < |p|
    requires forall k | 0 <= k < |p| :: p[k] < |t|
    requires |r| == |p| - 1
    requires forall k {:trigger r[k]} | 0 <= k < |r| :: r[k] == if k < j then p[k] else p[k + 1]
    requires forall k | 0 <= k < |r| :: r[k] < |t| - 1
    ensures Gather(t, p)[..j] == Gather(t[..|t| - 1], r[..j])
  {
    var a := Gather(t[..|t| - 1], r[..j]);
    forall k | 0 <= k < j
      ensures Gather(t, p)[..j][k] == a[k]
    {
      assert r[..j][k] == r[k] == p[k];
    }
  }

  lemma GatherBack<T>(t: seq<T>, p: seq<nat>, r: seq<nat>, j: nat)
    requires |t| > 0 && |p| == |t| && j < |p|
    requires forall k | 0 <= k < |p| :: p[k] < |t|
    requires |r| == |p| - 1
    requires forall k {:trigger r[k]} | 0 <= k < |r| :: r[k] == if k < j then p[k] else p[k + 1]
    requires forall k | 0 <= k < |r| :: r[k] < |t| - 1
    ensures Gather(t, p)[j + 1..] == Gather(t[..|t| - 1], r[j..])
  {
    var b := Gather(t[..|t| - 1], r[j..]);
    forall k | 0 <= k < |b|
      ensures Gather(t, p)[j + 1..][k] == b[k]
    {
      assert r[j..][k] == r[j + k] == p[j + k + 1];
    }
  }

  lemma GatherSplit<T>(t: seq<T>, r: seq<nat>, j: nat)
    requires j <= |r| && forall k | 0 <= k < |r| :: r[k] < |t|
    ensures Gather(t, r) == Gather(t, r[..j]) + Gather(t, r[j..])
  {
  }

  /** A non-empty sequence is its front followed by its last element. */
  lemma SplitLast<T>(t: seq<T>)
    requires |t| > 0
    ensures t == t[..|t| - 1] + [t[|t| - 1]]
    ensures multiset(t) == multiset(t[..|t| - 1]) + multiset{t[|t| - 1]}
  {
    assert t == t[..|t| - 1] + [t[|t| - 1]];
  }
}
