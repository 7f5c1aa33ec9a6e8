/**
 * The OPEN/CLOSED graph search of Rubik_2x2x2.py (`graphsearch`). The
 * source keeps cube objects linked by `parent` references; here they live
 * in a store indexed by generation order, a parent is an index into the
 * store, and OPEN and CLOSED are lists of indices. `ToCube` rebuilds the
 * linked cube value of a store entry.
 */
module GraphSearch {
  import opened Wrappers
  import Moves
  import opened CubeState
  import KeySort

  /** A cube object of the search: stickers, depth, move name and the store index of its parent. */
  datatype Node = Node(stickers: Stickers, depth: int, rule: string, parent: Option<nat>)

  /** What `graphsearch` hands back. OutOfFuel stands for a search still running when the round bound is reached. */
  datatype SearchResult = Found(path: seq<Cube>) | Exhausted | Crashed(error: Error) | OutOfFuel

  /** lo, lo + 1, ..., hi - 1. */
  function Range(lo: nat, hi: nat): (r: seq<nat>)
    requires lo <= hi
    ensures |r| == hi - lo && forall k | 0 <= k < |r| :: r[k] == lo + k
  {
    seq(hi - lo, k requires 0 <= k < hi - lo => lo + k)
  }

  /** Every non-root entry points to an earlier entry. */
  predicate ParentsBefore(store: seq<Node>)
  {
    && |store| > 0
    && store[0].parent == None
    && forall i | 0 < i < |store| :: store[i].parent.Some? && store[i].parent.value < i
  }

  /** The cube object of entry i: the root's own parent chain hangs below entry 0. */
  function ToCube(store: seq<Node>, root: Cube, i: nat): (c: Cube)
    requires ParentsBefore(store) && i < |store|
    ensures c.stickers == store[i].stickers && c.depth == store[i].depth && c.rule == store[i].rule
    decreases i
  {
    var n := store[i];
    if i == 0 then Cube(n.stickers, n.depth, n.rule, root.parent)
    else Cube(n.stickers, n.depth, n.rule, Some(ToCube(store, root, n.parent.value)))
  }

  /** `[s, s.parent, s.parent.parent, ...]` up to the first cube without a parent. */
  function Chain(c: Cube): (r: seq<Cube>)
    ensures |r| > 0 && r[0] == c && r[|r| - 1].parent == None
    ensures forall k | 0 <= k < |r| - 1 :: r[k].parent == Some(r[k + 1])
  {
    match c.parent
    case None => [c]
    case Some(p) => [c] + Chain(p)
  }

  /** Entry i was produced from its parent entry by the move it records. */
  ghost predicate Linked(store: seq<Node>, i: nat)
    requires ParentsBefore(store) && 0 < i < |store|
  {
    var p := store[i].parent.value;
    && Turn(store[p].stickers, store[i].rule) == Ok(store[i].stickers)
    && store[i].depth == store[p].depth + 1
  }

  /** The store as the search builds it from `root`. */
  ghost predicate Grown(store: seq<Node>, root: Cube)
  {
    && ParentsBefore(store)
    && store[0] == Node(root.stickers, root.depth, root.rule, None)
    && (forall i | 0 < i < |store| :: Linked(store, i))
    && (forall i, j | 0 <= i < j < |store| :: !Eq(store[i].stickers, store[j].stickers))
  }

  /** `x in [store[k] for k in list]` with the cube equality. */
  function Among(store: seq<Node>, list: seq<nat>, st: Stickers): (b: bool)
    requires forall k | 0 <= k < |list| :: list[k] < |store|
    ensures b <==> exists k | 0 <= k < |list| :: Eq(store[list[k]].stickers, st)
  {
    if |list| == 0 then false
    else Eq(store[list[0]].stickers, st) || Among(store, list[1..], st)
  }

  /** Every store index sits exactly once in OPEN or CLOSED, and every parent is in CLOSED. */
  ghost predicate Partitioned(store: seq<Node>, open: seq<nat>, closed: seq<nat>)
    requires ParentsBefore(store)
  {
    && Listing(open, closed, |store|)
    && (forall i | 0 < i < |store| :: store[i].parent.value in closed)
  }

  /** OPEN and CLOSED together hold 0, ..., n - 1, each once. */
  ghost predicate Listing(open: seq<nat>, closed: seq<nat>, n: nat)
  {
    multiset(open + closed) == multiset(Range(0, n))
  }

  /** The sort key `h` applied to entry k's cube. */
  function Key(store: seq<Node>, root: Cube, h: Cube -> int): (key: nat -> int)
    ensures forall k: nat :: ParentsBefore(store) && k < |store| ==> key(k) == h(ToCube(store, root, k))
  {
    (k: nat) => if ParentsBefore(store) && k < |store| then h(ToCube(store, root, k)) else h(root)
  }

  /** The heuristic gives every cube the same value, as the breadth-first and depth-first drivers do. */
  ghost predicate Constant(h: Cube -> int)
  {
    forall a: Cube, b: Cube :: h(a) == h(b)
  }

  /**
   * The descendant fix-up of the on-CLOSED branch: every CLOSED entry whose
   * parent equals `st` gets its parent's depth plus one. Only depths can
   * change, and when every depth is already its parent's plus one nothing
   * changes at all.
   */
  method FixDescendants(store: seq<Node>, closed: seq<nat>, st: Stickers) returns (fixed: seq<Node>)
    requires ParentsBefore(store)
    requires forall k | 0 <= k < |closed| :: closed[k] < |store|
    ensures |fixed| == |store|
    ensures forall i | 0 <= i < |store| :: fixed[i] == store[i].(depth := fixed[i].depth)
    ensures (forall i | 0 < i < |store| :: store[i].depth == store[store[i].parent.value].depth + 1) ==> fixed == store
  {
    var descendants: seq<nat> := [];
    var k := 0;
    while k < |closed|
      invariant k <= |closed|
      invariant forall j | 0 <= j < |descendants| :: 0 < descendants[j] < |store|
    {
      var c := closed[k];
      if store[c].parent.Some? && Eq(store[store[c].parent.value].stickers, st) {
        descendants := descendants + [c];
      }
      k := k + 1;
    }
    fixed := store;
    k := 0;
    while k < |descendants|
      invariant k <= |descendants|
      invariant |fixed| == |store|
      invariant forall i | 0 <= i < |store| :: fixed[i] == store[i].(depth := fixed[i].depth)
      invariant (forall i | 0 < i < |store| :: store[i].depth == store[store[i].parent.value].depth + 1) ==> fixed == store
    {
      var d := descendants[k];
      fixed := fixed[d := fixed[d].(depth := fixed[fixed[d].parent.value].depth + 1)];
      k := k + 1;
    }
  }

  /** The store and the lists after some passes of the move loop for the expanded entry s. */
  ghost predicate Progress(store: seq<Node>, root: Cube, open: seq<nat>, closed: seq<nat>, s: nat, store': seq<Node>, open': seq<nat>)
  {
    && Grown(store', root) && Partitioned(store', open', closed)
    && |store| <= |store'| && store'[..|store|] == store
    && open' == open + Range(|store|, |store'|)
    && (forall j | |store| <= j < |store'| :: store'[j].parent == Some(s))
  }

  /**
   * One pass of the `for r in state.applicableRules()` loop for the
   * expanded entry s: each move's result that equals nothing on OPEN or
   * CLOSED becomes a new entry with parent s, appended to OPEN; a result
   * already on CLOSED runs the descendant fix-up; a result already on OPEN
   * only changes the discarded fresh object.
   */
  method Expand(store: seq<Node>, root: Cube, open: seq<nat>, closed: seq<nat>, s: nat)
    returns (err: Option<Error>, store': seq<Node>, open': seq<nat>)
    requires Grown(store, root) && Partitioned(store, open, closed)
    requires s < |store| && s in closed
    ensures err.None? ==> Grown(store', root) && Partitioned(store', open', closed)
    ensures err.None? ==> |store| <= |store'| && store'[..|store|] == store
    ensures err.None? ==> open' == open + Range(|store|, |store'|)
    ensures err.None? ==> forall i | |store| <= i < |store'| :: store'[i].parent == Some(s)
    ensures err.Some? <==> |store[s].stickers.tiles| < Moves.StickerCount
    ensures err.Some? ==> err.value == StickerOutOfRange
    ensures err.None? ==> ExploredBy(store', store[s].stickers, |Moves.Names|)
    ensures err.None? ==> TableOrdered(store', |store|)
  {
    err, store', open' := None, store, open;
    var i := 0;
    while i < |Moves.Names|
      invariant i <= |Moves.Names|
      invariant err == None
      invariant Progress(store, root, open, closed, s, store', open')
      invariant i > 0 ==> |store[s].stickers.tiles| >= Moves.StickerCount
      invariant ExploredBy(store', store[s].stickers, i)
      invariant TableOrdered(store', |store|) && RankedBelow(store', |store|, i)
    {
      var rule := ApplicableRules(root)[i];
      assert rule == Moves.Names[i] && rule in Moves.Names;
      ghost var before := store';
      err, store', open' := ExpandBy(store, root, open, closed, s, store', open', rule);
      if err.Some? {
        return;
      }
      ExploredNext(before, store', store[s].stickers, i);
      OrderNext(before, store', |store|, i);
      i := i + 1;
    }
  }

  /** The pass of the move loop for the move `rule`. */
  method ExpandBy(store: seq<Node>, root: Cube, open: seq<nat>, closed: seq<nat>, s: nat, store1: seq<Node>, open1: seq<nat>, rule: string)
    returns (err: Option<Error>, store': seq<Node>, open': seq<nat>)
    requires Progress(store, root, open, closed, s, store1, open1)
    requires s < |store| && s in closed
    ensures err.None? ==> Progress(store, root, open, closed, s, store', open')
    ensures err == (match Turn(store[s].stickers, rule) case Err(e) => Some(e) case Ok(_) => None)
    ensures err.None? ==> |store1| <= |store'| && store'[..|store1|] == store1
    ensures err.None? ==> Stored(store', Turn(store[s].stickers, rule).value)
    ensures err.None? ==> |store'| <= |store1| + 1 && forall j | |store1| <= j < |store'| :: store'[j].rule == rule
  {
    match Turn(store[s].stickers, rule)
    case Err(e) =>
      return Some(e), store1, open1;
    case Ok(st) =>
      store', open' := Add(store, root, open, closed, s, store1, open1, rule, st);
      err := None;
  }

  /** The pass of the move loop for a move that yields `st`. */
  method Add(store: seq<Node>, root: Cube, open: seq<nat>, closed: seq<nat>, s: nat, store1: seq<Node>, open1: seq<nat>, rule: string, st: Stickers)
    returns (store': seq<Node>, open': seq<nat>)
    requires Progress(store, root, open, closed, s, store1, open1)
    requires s < |store| && s in closed
    requires Turn(store[s].stickers, rule) == Ok(st)
    ensures Progress(store, root, open, closed, s, store', open')
    ensures |store1| <= |store'| && store'[..|store1|] == store1
    ensures Stored(store', st)
    ensures |store'| <= |store1| + 1 && forall j | |store1| <= j < |store'| :: store'[j].rule == rule
  {
    assert store1[s] == store[s];
    ListedBelow(open1, closed, |store1|);
    store', open' := Consider(store1, root, open1, closed, s, rule, st);
    assert store'[..|store1|] == store1;
    Extend(store, open, store1, open1, store', open', s);
  }

  /**
   * The body of the move loop for one move whose result is `st`: a result
   * equal to nothing on OPEN or CLOSED is stored as a child of s and put on
   * OPEN; a result on OPEN changes nothing; a result on CLOSED runs the
   * descendant fix-up, which finds every depth already right.
   */
  method Consider(store: seq<Node>, root: Cube, open: seq<nat>, closed: seq<nat>, s: nat, rule: string, st: Stickers)
    returns (store': seq<Node>, open': seq<nat>)
    requires Grown(store, root) && Partitioned(store, open, closed)
    requires s < |store| && s in closed
    requires Turn(store[s].stickers, rule) == Ok(st)
    requires forall k | 0 <= k < |open| :: open[k] < |store|
    requires forall k | 0 <= k < |closed| :: closed[k] < |store|
    ensures Grown(store', root) && Partitioned(store', open', closed)
    ensures store' == store ==> open' == open
    ensures store' != store ==> store' == store + [Node(st, store[s].depth + 1, rule, Some(s))] && open' == open + [|store|]
    ensures store' != store <==> !Among(store, open, st) && !Among(store, closed, st)
    ensures Stored(store', st)
    ensures |store'| <= |store| + 1 && forall j | |store| <= j < |store'| :: store'[j].rule == rule
  {
    if !Among(store, open, st) && !Among(store, closed, st) {
      AddChild(store, root, open, closed, s, rule, st);
      store' := store + [Node(st, store[s].depth + 1, rule, Some(s))];
      open' := open + [|store|];
      assert |store'| != |store|;
      assert Eq(store'[|store|].stickers, st);
    } else if Among(store, open, st) {
      store', open' := store, open;
      var k :| 0 <= k < |open| && Eq(store[open[k]].stickers, st);
      assert Eq(store'[open[k]].stickers, st);
    } else {
      var k :| 0 <= k < |closed| && Eq(store[closed[k]].stickers, st);
      assert Eq(store[closed[k]].stickers, st);
      var fixed := FixDescendants(store, closed, st);
      assert fixed == store by {
        forall j | 0 < j < |store|
          ensures store[j].depth == store[store[j].parent.value].depth + 1
        {
          assert Linked(store, j);
        }
      }
      store', open' := fixed, open;
    }
  }

  /** Appending a new child of s that equals no stored state keeps the store and the lists in shape. */
  lemma AddChild(store: seq<Node>, root: Cube, open: seq<nat>, closed: seq<nat>, s: nat, rule: string, st: Stickers)
    requires Grown(store, root) && Partitioned(store, open, closed)
    requires s < |store| && s in closed
    requires Turn(store[s].stickers, rule) == Ok(st)
    requires forall k | 0 <= k < |open| :: open[k] < |store|
    requires forall k | 0 <= k < |closed| :: closed[k] < |store|
    requires !Among(store, open, st) && !Among(store, closed, st)
    ensures var grown := store + [Node(st, store[s].depth + 1, rule, Some(s))];
      Grown(grown, root) && Partitioned(grown, open + [|store|], closed)
  {
    var grown := store + [Node(st, store[s].depth + 1, rule, Some(s))];
    GrownLinks(store, root, s, rule, st);
    NewIsDistinct(store, open, closed, st);
    AddDistinct(store, st, Node(st, store[s].depth + 1, rule, Some(s)));
    AddIndex(open, closed, |store|, |grown|);
    AddParent(store, closed, Node(st, store[s].depth + 1, rule, Some(s)));
  }

  /** A node whose stickers equal no stored state keeps the stored states pairwise distinct. */
  lemma AddDistinct(store: seq<Node>, st: Stickers, node: Node)
    requires forall i, j | 0 <= i < j < |store| :: !Eq(store[i].stickers, store[j].stickers)
    requires forall i | 0 <= i < |store| :: !Eq(store[i].stickers, st)
    requires node.stickers == st
    ensures var grown := store + [node];
      forall i, j | 0 <= i < j < |grown| :: !Eq(grown[i].stickers, grown[j].stickers)
  {
    var grown := store + [node];
    forall i, j | 0 <= i < j < |grown|
      ensures !Eq(grown[i].stickers, grown[j].stickers)
    {
      if j < |store| {
        assert grown[i] == store[i] && grown[j] == store[j];
      } else {
        assert grown[i] == store[i] && grown[j].stickers == st;
      }
    }
  }

  /** A node whose parent is on CLOSED keeps every parent on CLOSED. */
  lemma AddParent(store: seq<Node>, closed: seq<nat>, node: Node)
    requires ParentsBefore(store) && forall i | 0 < i < |store| :: store[i].parent.value in closed
    requires node.parent.Some? && node.parent.value < |store| && node.parent.value in closed
    ensures var grown := store + [node];
      ParentsBefore(grown) && forall i | 0 < i < |grown| :: grown[i].parent.value in closed
  {
    var grown := store + [node];
    forall i | 0 < i < |grown| ensures grown[i].parent.value in closed {
      if i < |store| {
        assert grown[i] == store[i];
      }
    }
  }

  /** A state equal to nothing on OPEN or CLOSED equals no stored state. */
  lemma NewIsDistinct(store: seq<Node>, open: seq<nat>, closed: seq<nat>, st: Stickers)
    requires ParentsBefore(store) && Listing(open, closed, |store|)
    requires forall k | 0 <= k < |open| :: open[k] < |store|
    requires forall k | 0 <= k < |closed| :: closed[k] < |store|
    requires !Among(store, open, st) && !Among(store, closed, st)
    ensures forall i | 0 <= i < |store| :: !Eq(store[i].stickers, st)
  {
    forall i | 0 <= i < |store|
      ensures !Eq(store[i].stickers, st)
    {
      Listed(open, closed, |store|, i);
      var k :| 0 <= k < |open + closed| && (open + closed)[k] == i;
      if k < |open| {
        assert open[k] == i;
      } else {
        assert closed[k - |open|] == i;
      }
    }
  }

  /** Appending the next index to OPEN keeps every index listed exactly once. */
  lemma AddIndex(open: seq<nat>, closed: seq<nat>, n: nat, m: nat)
    requires Listing(open, closed, n) && m == n + 1
    ensures Listing(open + [n], closed, m)
  {
    assert Range(0, n) + [n] == Range(0, m);
    assert open + [n] + closed == open + ([n] + closed);
    assert multiset(open + [n] + closed) == multiset(open + closed) + multiset{n};
  }

  /** The appended entry is linked to s, and the old entries keep their links. */
  lemma GrownLinks(store: seq<Node>, root: Cube, s: nat, rule: string, st: Stickers)
    requires Grown(store, root)
    requires s < |store|
    requires Turn(store[s].stickers, rule) == Ok(st)
    ensures var grown := store + [Node(st, store[s].depth + 1, rule, Some(s))];
      && ParentsBefore(grown)
      && grown[0] == Node(root.stickers, root.depth, root.rule, None)
      && forall i | 0 < i < |grown| :: Linked(grown, i)
  {
    var n := |store|;
    var grown := store + [Node(st, store[s].depth + 1, rule, Some(s))];
    assert forall i | 0 <= i < n :: grown[i] == store[i];
    assert ParentsBefore(grown);
    forall i | 0 < i < |grown|
      ensures Linked(grown, i)
    {
      if i < n {
        assert Linked(store, i);
        assert grown[grown[i].parent.value] == store[store[i].parent.value];
      }
    }
  }

  /** Every store index appears in OPEN or CLOSED. */
  lemma Listed(open: seq<nat>, closed: seq<nat>, n: nat, i: nat)
    requires Listing(open, closed, n)
    requires i < n
    ensures i in open + closed
  {
    assert Range(0, n)[i] == i;
    assert i in multiset(Range(0, n));
    assert i in multiset(open + closed);
  }

  /** Every index on OPEN or CLOSED is a store index. */
  lemma ListedBelow(open: seq<nat>, closed: seq<nat>, n: nat)
    requires Listing(open, closed, n)
    ensures forall k | 0 <= k < |open| :: open[k] < n
    ensures forall k | 0 <= k < |closed| :: closed[k] < n
  {
    forall k | 0 <= k < |open| ensures open[k] < n {
      assert open[k] in multiset(open + closed);
    }
    forall k | 0 <= k < |closed| ensures closed[k] < n {
      assert closed[k] in multiset(open + closed);
    }
  }

  /** Appending hi to a list ending in lo, ..., hi - 1 extends the range by one. */
  lemma RangeSnoc(front: seq<nat>, lo: nat, hi: nat)
    requires lo <= hi
    ensures front + Range(lo, hi) + [hi] == front + Range(lo, hi + 1)
  {
    assert Range(lo, hi) + [hi] == Range(lo, hi + 1);
  }

  /** One more pass of the move loop keeps the old entries and lists only new children of s on OPEN. */
  lemma Extend(store: seq<Node>, open: seq<nat>, store1: seq<Node>, open1: seq<nat>, store2: seq<Node>, open2: seq<nat>, s: nat)
    requires |store| <= |store1| && store1[..|store|] == store
    requires open1 == open + Range(|store|, |store1|)
    requires forall j | |store| <= j < |store1| :: store1[j].parent == Some(s)
    requires store2 == store1 ==> open2 == open1
    requires store2 != store1 ==> exists x: Node :: x.parent == Some(s) && store2 == store1 + [x] && open2 == open1 + [|store1|]
    ensures |store| <= |store2| && store2[..|store|] == store
    ensures open2 == open + Range(|store|, |store2|)
    ensures forall j | |store| <= j < |store2| :: store2[j].parent == Some(s)
  {
    if store2 != store1 {
      var x: Node :| x.parent == Some(s) && store2 == store1 + [x] && open2 == open1 + [|store1|];
      RangeSnoc(open, |store|, |store1|);
      assert store2[..|store|] == store1[..|store|];
      forall j | |store| <= j < |store2|
        ensures store2[j].parent == Some(s)
      {
        if j < |store1| {
          assert store2[j] == store1[j];
        }
      }
    }
  }

  /** The position of a move name in table order; |Moves.Names| for a name that is not a move. */
  function Rank(name: string): (m: nat)
    ensures m <= |Moves.Names|
    ensures m < |Moves.Names| <==> name in Moves.Names
    ensures m < |Moves.Names| ==> Moves.Names[m] == name
  {
    match Moves.Find(name, 0)
    case Some(m) => m
    case None => |Moves.Names|
  }

  /** The entries from lo on were made by moves in strictly increasing table order. */
  ghost predicate TableOrdered(store: seq<Node>, lo: nat)
  {
    forall a, b | lo <= a < b < |store| :: Rank(store[a].rule) < Rank(store[b].rule)
  }

  /** The entries from lo on were made by moves before table position i. */
  ghost predicate RankedBelow(store: seq<Node>, lo: nat, i: nat)
  {
    forall j | lo <= j < |store| :: Rank(store[j].rule) < i
  }

  /** A pass for move i that adds at most one entry, made by that move, keeps the table order. */
  lemma OrderNext(before: seq<Node>, after: seq<Node>, lo: nat, i: nat)
    requires i < |Moves.Names| && lo <= |before| <= |after| <= |before| + 1 && after[..|before|] == before
    requires forall j | |before| <= j < |after| :: after[j].rule == Moves.Names[i]
    requires TableOrdered(before, lo) && RankedBelow(before, lo, i)
    ensures TableOrdered(after, lo) && RankedBelow(after, lo, i + 1)
  {
    FindName(i);
    forall j | lo <= j < |before|
      ensures after[j] == before[j]
    {
      assert after[..|before|][j] == after[j];
    }
  }

  /** Some stored state equals st. */
  ghost predicate Stored(store: seq<Node>, st: Stickers)
  {
    exists j | 0 <= j < |store| :: Eq(store[j].stickers, st)
  }

  /** The first i moves, applied to st, all succeed and give states equal to stored ones. */
  ghost predicate ExploredBy(store: seq<Node>, st: Stickers, i: nat)
  {
    forall m | 0 <= m < i && m < |Moves.Names| ::
      Turn(st, Moves.Names[m]).Ok? && Stored(store, Turn(st, Moves.Names[m]).value)
  }

  /** A state equal to a stored one stays so when the store grows. */
  lemma StoredGrows(store: seq<Node>, store': seq<Node>, st: Stickers)
    requires |store| <= |store'| && store'[..|store|] == store
    requires Stored(store, st)
    ensures Stored(store', st)
  {
    var j :| 0 <= j < |store| && Eq(store[j].stickers, st);
    assert store'[j] == store[j];
  }

  /** Exploration of a state survives growth of the store. */
  lemma ExploredGrows(store: seq<Node>, store': seq<Node>, st: Stickers, i: nat)
    requires |store| <= |store'| && store'[..|store|] == store
    requires ExploredBy(store, st, i)
    ensures ExploredBy(store', st, i)
  {
    forall m | 0 <= m < i && m < |Moves.Names|
      ensures Turn(st, Moves.Names[m]).Ok? && Stored(store', Turn(st, Moves.Names[m]).value)
    {
      StoredGrows(store, store', Turn(st, Moves.Names[m]).value);
    }
  }

  /** Having stored the result of move i as well, the first i + 1 moves are explored. */
  lemma ExploredNext(store: seq<Node>, store': seq<Node>, st: Stickers, i: nat)
    requires |store| <= |store'| && store'[..|store|] == store
    requires i < |Moves.Names| && ExploredBy(store, st, i)
    requires Turn(st, Moves.Names[i]).Ok? && Stored(store', Turn(st, Moves.Names[i]).value)
    ensures ExploredBy(store', st, i + 1)
  {
    ExploredGrows(store, store', st, i);
  }

  /** A state `graphsearch` can expand without an index error, and whose moves keep it so. */
  predicate Clean(st: Stickers)
  {
    |st.tiles| >= Moves.StickerCount && ' ' !in st.tiles
  }

  /** `path` runs back from its first entry to root, each entry the result of its successor under its move, and continues with root's own chain. */
  ghost predicate Leads(root: Cube, path: seq<Cube>)
  {
    exists n | 0 <= n < |path| :: LeadsAt(root, path, n)
  }

  /** `b` is `a.applyRule(b.rule)`. */
  predicate Made(a: Cube, b: Cube)
  {
    ApplyRule(a, b.rule) == Ok(b)
  }

  /** Leads, with root at position n of path. */
  ghost predicate LeadsAt(root: Cube, path: seq<Cube>, n: nat)
    requires n < |path|
  {
    && path[n] == root
    && path[n..] == Chain(root)
    && forall i | 0 <= i < n :: Made(path[i + 1], path[i])
  }

  /** No state of `visited` is a goal. */
  ghost predicate Unsolved(visited: seq<Stickers>)
  {
    forall k | 0 <= k < |visited| :: !Goal(visited[k].tiles)
  }

  /** No state of `visited` but the last is a goal. */
  ghost predicate UnsolvedBeforeLast(visited: seq<Stickers>)
  {
    forall k | 0 <= k < |visited| - 1 :: !Goal(visited[k].tiles)
  }

  /** Appending a state to unsolved states leaves the earlier ones unsolved, and all of them if it is no goal. */
  lemma Visit(visited: seq<Stickers>, st: Stickers)
    requires Unsolved(visited)
    ensures UnsolvedBeforeLast(visited + [st])
    ensures !Goal(st.tiles) ==> Unsolved(visited + [st])
  {
  }

  /** Every move from every state of vs succeeds and gives a state equal to one of vs. */
  ghost predicate ClosedUnderMoves(vs: seq<Stickers>)
  {
    forall k, m | 0 <= k < |vs| && 0 <= m < |Moves.Names| ::
      Turn(vs[k], Moves.Names[m]).Ok? && Matched(vs, Turn(vs[k], Moves.Names[m]).value)
  }

  /** Some state of vs equals st. */
  ghost predicate Matched(vs: seq<Stickers>, st: Stickers)
  {
    exists i | 0 <= i < |vs| :: Eq(vs[i], st)
  }

  /**
   * The expanded states: `visited` holds the stickers of the CLOSED entries
   * in order, and none but the last is a goal; before a goal is reached the
   * last is no goal either and every one has had all its moves explored;
   * once reached, the last one is entry s.
   */
  ghost predicate Trail(store: seq<Node>, closed: seq<nat>, visited: seq<Stickers>, reached: bool, s: nat)
  {
    && |visited| == |closed|
    && (forall k | 0 <= k < |closed| :: closed[k] < |store| && visited[k] == store[closed[k]].stickers)
    && UnsolvedBeforeLast(visited)
    && (reached ==> 0 < |visited| && s < |store| && visited[|visited| - 1] == store[s].stickers)
    && (!reached ==> Unsolved(visited) && forall k | 0 <= k < |visited| :: ExploredBy(store, visited[k], |Moves.Names|))
  }

  /** A round that expands s, or stops on it as a goal, extends the trail. */
  lemma TrailStep(store: seq<Node>, closed: seq<nat>, visited: seq<Stickers>, s: nat, goal: bool, store': seq<Node>)
    requires Trail(store, closed, visited, false, s) && s < |store|
    requires |store| <= |store'| && store'[..|store|] == store
    requires goal == Goal(store[s].stickers.tiles)
    requires !goal ==> ExploredBy(store', store[s].stickers, |Moves.Names|)
    ensures Trail(store', closed + [s], visited + [store[s].stickers], goal, s)
  {
    var closed', visited' := closed + [s], visited + [store[s].stickers];
    Visit(visited, store[s].stickers);
    forall k | 0 <= k < |closed'|
      ensures closed'[k] < |store'| && visited'[k] == store'[closed'[k]].stickers
    {
      if k < |closed| {
        assert store'[closed[k]] == store[closed[k]];
      } else {
        assert store'[s] == store[s];
      }
    }
    if !goal {
      forall k | 0 <= k < |visited'|
        ensures ExploredBy(store', visited'[k], |Moves.Names|)
      {
        if k < |visited| {
          ExploredGrows(store, store', visited[k], |Moves.Names|);
        }
      }
    }
  }

  /** Once OPEN is empty every stored entry is on CLOSED, so the explored states are closed under moves. */
  lemma Closure(store: seq<Node>, closed: seq<nat>, visited: seq<Stickers>)
    requires Listing([], closed, |store|)
    requires Trail(store, closed, visited, false, 0)
    ensures ClosedUnderMoves(visited)
  {
    forall k, m | 0 <= k < |visited| && 0 <= m < |Moves.Names|
      ensures Turn(visited[k], Moves.Names[m]).Ok? && Matched(visited, Turn(visited[k], Moves.Names[m]).value)
    {
      var t := Turn(visited[k], Moves.Names[m]).value;
      assert ExploredBy(store, visited[k], |Moves.Names|);
      var j :| 0 <= j < |store| && Eq(store[j].stickers, t);
      Listed([], closed, |store|, j);
      assert [] + closed == closed;
      var i :| 0 <= i < |closed| && closed[i] == j;
      assert Eq(visited[i], t);
    }
  }

  /** CLOSED starts with the root entry, and every later entry on it has its parent earlier on it. */
  ghost predicate Lineage(store: seq<Node>, closed: seq<nat>)
  {
    && (|closed| > 0 ==> closed[0] == 0)
    && forall k | 0 < k < |closed| ::
         && 0 < closed[k] < |store|
         && store[closed[k]].parent.Some?
         && store[closed[k]].parent.value in closed[..k]
  }

  /** A round that moves the head s of OPEN to CLOSED keeps the lineage. */
  lemma LineageStep(store: seq<Node>, open: seq<nat>, closed: seq<nat>, s: nat, store': seq<Node>)
    requires ParentsBefore(store) && Partitioned(store, open, closed) && Lineage(store, closed)
    requires |open| > 0 && s == open[0] && (|closed| == 0 ==> s == 0)
    requires |store| <= |store'| && store'[..|store|] == store
    ensures Lineage(store', closed + [s])
  {
    ListedBelow(open, closed, |store|);
    var closed' := closed + [s];
    forall k | 0 < k < |closed'|
      ensures 0 < closed'[k] < |store'| && store'[closed'[k]].parent.Some?
      ensures store'[closed'[k]].parent.value in closed'[..k]
    {
      assert closed'[..k] == if k < |closed| then closed[..k] else closed;
      if k < |closed| {
        assert closed'[k] == closed[k] && store'[closed[k]] == store[closed[k]];
      } else {
        Once(open + closed, |store|);
        assert (open + closed)[0] == s && (open + closed)[|open|] == closed[0] == 0;
        assert store'[s] == store[s];
      }
    }
  }

  /** No two states of vs are equal. */
  ghost predicate Different(vs: seq<Stickers>)
  {
    forall i, j | 0 <= i < j < |vs| :: !Eq(vs[i], vs[j])
  }

  /** Every state of vs after the first is one move away from an earlier one. */
  ghost predicate Derived(vs: seq<Stickers>)
  {
    forall k | 0 < k < |vs| :: MadeEarlier(vs, k)
  }

  /** vs[k] is the result of some move applied to a state before it in vs. */
  ghost predicate MadeEarlier(vs: seq<Stickers>, k: nat)
    requires k < |vs|
  {
    exists j, m | 0 <= j < k && 0 <= m < |Moves.Names| :: Turn(vs[j], Moves.Names[m]) == Ok(vs[k])
  }

  /**
   * The expanded states are pairwise different, and each after the first
   * is made by a move from one expanded before it.
   */
  lemma VisitedDerived(store: seq<Node>, root: Cube, open: seq<nat>, closed: seq<nat>, visited: seq<Stickers>)
    requires Grown(store, root) && Partitioned(store, open, closed) && Lineage(store, closed)
    requires |visited| == |closed|
    requires forall k | 0 <= k < |closed| :: closed[k] < |store| && visited[k] == store[closed[k]].stickers
    ensures Different(visited) && Derived(visited)
  {
    ListsApart(store, root, open, closed);
    forall i, j | 0 <= i < j < |visited|
      ensures !Eq(visited[i], visited[j])
    {
      assert (open + closed)[|open| + i] == closed[i] && (open + closed)[|open| + j] == closed[j];
    }
    forall k | 0 < k < |visited|
      ensures MadeEarlier(visited, k)
    {
      var c := closed[k];
      var p := store[c].parent.value;
      var j :| 0 <= j < k && closed[..k][j] == p;
      assert closed[j] == p;
      assert Linked(store, c);
      var rule := store[c].rule;
      assert Moves.Lookup(rule).Some?;
      var m :| 0 <= m < |Moves.Names| && Moves.Names[m] == rule;
      assert Turn(visited[j], Moves.Names[m]) == Ok(visited[k]);
    }
  }

  /** The lists and the store between rounds of the search loop. */
  ghost predicate Searching(store: seq<Node>, root: Cube, open: seq<nat>, closed: seq<nat>, h: Cube -> int)
  {
    && Grown(store, root) && Partitioned(store, open, closed)
    && |open| + |closed| == |store|
    && (Constant(h) ==> closed == Range(0, |closed|) && open == Range(|closed|, |store|))
  }

  /**
   * `graphsearch(state, h)`. The loop runs at most `fuel` rounds; `generated`
   * and `expanded` are the increments of the source's open and closed node
   * counters during the call, and `visited` lists the stickers of the
   * expanded states in the order they were taken from OPEN.
   */
  method Search(root: Cube, h: Cube -> int, fuel: nat) returns (r: SearchResult, generated: nat, expanded: nat, visited: seq<Stickers>)
    ensures r.Found? ==> |r.path| > 0 && Goal(r.path[0].stickers.tiles)
    ensures r.Found? ==> r.path == Chain(r.path[0]) && Leads(root, r.path)
    ensures Goal(root.stickers.tiles) && fuel > 0 ==> r == Found(Chain(root)) && expanded == 1
    ensures expanded <= fuel && expanded <= generated + 1
    ensures r.Exhausted? ==> expanded == generated + 1
    ensures r.OutOfFuel? ==> expanded == fuel
    ensures r.Crashed? ==> r.error == StickerOutOfRange && !Clean(root.stickers)
    ensures |visited| == expanded && (expanded > 0 ==> visited[0] == root.stickers)
    ensures r.Found? ==> 0 < |visited| && visited[|visited| - 1] == r.path[0].stickers
    ensures UnsolvedBeforeLast(visited)
    ensures !r.Found? ==> Unsolved(visited)
    ensures r.Exhausted? ==> ClosedUnderMoves(visited)
    ensures !r.Crashed? ==> Different(visited) && Derived(visited)
  {
    var store, open, closed, reached, s, err;
    store, open, closed, generated, expanded, visited, reached, s, err := Run(root, h, fuel);
    if err.Some? {
      return Crashed(err.value), generated, expanded, visited;
    }
    r := Conclude(store, root, open, closed, h, fuel, generated, expanded, visited, reached, s);
  }

  /** The search loop of `graphsearch`, up to the point where it stops or a rule fails. */
  method Run(root: Cube, h: Cube -> int, fuel: nat)
    returns (store: seq<Node>, open: seq<nat>, closed: seq<nat>, generated: nat, expanded: nat,
             visited: seq<Stickers>, reached: bool, s: nat, err: Option<Error>)
    ensures err.None? ==> Looping(store, root, open, closed, h, fuel, generated, expanded, visited, reached, s)
    ensures err.None? ==> |open| == 0 || reached || expanded == fuel
    ensures err.Some? ==> err.value == StickerOutOfRange && !Clean(root.stickers) && !Goal(root.stickers.tiles)
    ensures err.Some? ==> expanded <= fuel && expanded <= generated + 1 && |visited| == expanded
    ensures err.Some? ==> 0 < |visited| && visited[0] == root.stickers && Unsolved(visited)
  {
    store := [Node(root.stickers, root.depth, root.rule, None)];
    open, closed := [0], [];
    generated, expanded, visited := 0, 0, [];
    s, reached, err := 0, false, None;
    Start(root, h, fuel);
    while |open| > 0 && !reached && expanded < fuel
      invariant err.None? && Looping(store, root, open, closed, h, fuel, generated, expanded, visited, reached, s)
      decreases fuel - expanded
    {
      var store', open', closed';
      s, reached, err, store', open', closed', generated, expanded, visited :=
        Step(store, root, open, closed, h, fuel, generated, expanded, visited);
      if err.Some? {
        return;
      }
      store, open, closed := store', open', closed';
    }
  }

  /** The state before the first round. */
  lemma Start(root: Cube, h: Cube -> int, fuel: nat)
    ensures Looping([Node(root.stickers, root.depth, root.rule, None)], root, [0], [], h, fuel, 0, 0, [], false, 0)
  {
    assert Range(0, 1) == [0];
  }

  /** The result `graphsearch` reports once its loop has stopped without an error. */
  method Conclude(store: seq<Node>, root: Cube, open: seq<nat>, closed: seq<nat>, h: Cube -> int,
                  fuel: nat, generated: nat, expanded: nat, visited: seq<Stickers>, reached: bool, s: nat)
    returns (r: SearchResult)
    requires Looping(store, root, open, closed, h, fuel, generated, expanded, visited, reached, s)
    requires |open| == 0 || reached || expanded == fuel
    ensures !r.Crashed?
    ensures r.Found? ==> |r.path| > 0 && Goal(r.path[0].stickers.tiles)
    ensures r.Found? ==> r.path == Chain(r.path[0]) && Leads(root, r.path)
    ensures Goal(root.stickers.tiles) && fuel > 0 ==> r == Found(Chain(root)) && expanded == 1
    ensures r.Exhausted? ==> expanded == generated + 1
    ensures r.OutOfFuel? ==> expanded == fuel
    ensures r.Found? ==> 0 < |visited| && visited[|visited| - 1] == r.path[0].stickers
    ensures !r.Found? ==> Unsolved(visited)
    ensures r.Exhausted? ==> ClosedUnderMoves(visited)
    ensures Different(visited) && Derived(visited)
  {
    VisitedDerived(store, root, open, closed, visited);
    if reached {
      var c := ToCube(store, root, s);
      Finish(store, root, s, c);
      r := Found(Chain(c));
    } else if |open| == 0 {
      Closure(store, closed, visited);
      r := Exhausted;
    } else {
      r := OutOfFuel;
    }
  }

  /** What holds between rounds of the search loop. */
  ghost predicate Looping(store: seq<Node>, root: Cube, open: seq<nat>, closed: seq<nat>, h: Cube -> int,
                          fuel: nat, generated: nat, expanded: nat, visited: seq<Stickers>, reached: bool, s: nat)
  {
    && Searching(store, root, open, closed, h)
    && expanded == |closed| <= fuel && generated + 1 == |store|
    && |visited| == expanded && (expanded > 0 ==> visited[0] == root.stickers)
    && (reached ==> 0 < expanded && s < |store| && Goal(store[s].stickers.tiles))
    && Trail(store, closed, visited, reached, s)
    && Lineage(store, closed)
    && (Goal(root.stickers.tiles) && expanded > 0 ==> reached && s == 0 && expanded == 1)
  }

  /**
   * One pass of the search loop with its bookkeeping: a round, the
   * expanded state appended to `visited`, and the node counters advanced.
   */
  method Step(store: seq<Node>, root: Cube, open: seq<nat>, closed: seq<nat>, h: Cube -> int,
              fuel: nat, generated: nat, expanded: nat, visited: seq<Stickers>)
    returns (s: nat, goal: bool, err: Option<Error>, store': seq<Node>, open': seq<nat>, closed': seq<nat>,
             generated': nat, expanded': nat, visited': seq<Stickers>)
    requires Looping(store, root, open, closed, h, fuel, generated, expanded, visited, false, 0)
    requires |open| > 0 && expanded < fuel
    ensures expanded' == expanded + 1 && generated <= generated' && |visited'| == expanded'
    ensures visited'[0] == root.stickers && UnsolvedBeforeLast(visited')
    ensures err.Some? ==> err.value == StickerOutOfRange && !Clean(root.stickers)
    ensures err.Some? ==> !Goal(root.stickers.tiles) && Unsolved(visited') && expanded' <= generated' + 1
    ensures err.None? ==> Looping(store', root, open', closed', h, fuel, generated', expanded', visited', goal, s)
  {
    s, goal, err, store', open', closed' := Round(store, root, open, closed, h);
    if expanded == 0 {
      assert s == 0;
    }
    Visit(visited, store[s].stickers);
    visited' := visited + [store[s].stickers];
    expanded' := expanded + 1;
    if err.Some? {
      generated' := generated;
      return;
    }
    TrailStep(store, closed, visited, s, goal, store');
    LineageStep(store, open, closed, s, store');
    generated' := generated + (|store'| - |store|);
  }

  /** The cube of the goal entry s, whose parent chain is the path the search returns. */
  lemma Finish(store: seq<Node>, root: Cube, s: nat, c: Cube)
    requires Grown(store, root) && s < |store| && c == ToCube(store, root, s)
    ensures c.stickers == store[s].stickers
    ensures Chain(c)[0] == c && Leads(root, Chain(c))
  {
    ChainLeads(store, root, s);
  }

  /**
   * One round of the search loop: take the head s of OPEN, put it on CLOSED,
   * stop if it is a goal, else expand it and sort OPEN by h.
   */
  method Round(store: seq<Node>, root: Cube, open: seq<nat>, closed: seq<nat>, h: Cube -> int)
    returns (s: nat, goal: bool, err: Option<Error>, store': seq<Node>, open': seq<nat>, closed': seq<nat>)
    requires Searching(store, root, open, closed, h) && |open| > 0
    ensures s == open[0] && s < |store| && closed' == closed + [s]
    ensures goal == Goal(store[s].stickers.tiles)
    ensures err.Some? ==> !goal && err.value == StickerOutOfRange && !Clean(root.stickers)
    ensures err.None? ==> Searching(store', root, open', closed', h) && |store| <= |store'| && store'[..|store|] == store
    ensures goal ==> store' == store
    ensures err.None? && !goal ==> ExploredBy(store', store[s].stickers, |Moves.Names|)
    ensures err.None? && !goal ==> open' == KeySort.Sort(open[1..] + Range(|store|, |store'|), Key(store', root, h))
    ensures err.None? && !goal ==> TableOrdered(store', |store|) && forall j | |store| <= j < |store'| :: store'[j].parent == Some(s)
  {
    s := open[0];
    Pop(store, open, closed);
    if Constant(h) {
      FifoPop(open, closed, |store|);
    }
    open', closed' := open[1..], closed + [s];
    ListingSize(open', closed', |store|);
    goal := Goal(store[s].stickers.tiles);
    if goal {
      return s, goal, None, store, open', closed';
    }
    var grown, more;
    err, grown, more := Expand(store, root, open', closed', s);
    if err.Some? {
      CleanAt(store, root, s);
      return s, goal, err, store, open', closed';
    }
    var sorted := KeySort.Sort(more, Key(grown, root, h));
    Reorder(grown, more, sorted, closed');
    if Constant(h) {
      FifoOrder(grown, root, h, more);
      RangeJoin(|closed'|, |store|, |grown|);
    }
    store', open' := grown, sorted;
    ListingSize(open', closed', |store'|);
  }

  /** Moving the head of OPEN to the end of CLOSED keeps every index listed once and every parent on CLOSED. */
  lemma Pop(store: seq<Node>, open: seq<nat>, closed: seq<nat>)
    requires ParentsBefore(store) && Partitioned(store, open, closed) && |open| > 0
    ensures open[0] < |store|
    ensures Partitioned(store, open[1..], closed + [open[0]])
  {
    ListedBelow(open, closed, |store|);
    assert open[1..] + (closed + [open[0]]) == (open[1..] + closed) + [open[0]];
    assert open == [open[0]] + open[1..];
    assert multiset(open + closed) == multiset(open[1..] + closed) + multiset{open[0]};
  }

  /** Reordering OPEN keeps every index listed once. */
  lemma Reorder(store: seq<Node>, open: seq<nat>, open2: seq<nat>, closed: seq<nat>)
    requires ParentsBefore(store) && Partitioned(store, open, closed)
    requires multiset(open2) == multiset(open)
    ensures Partitioned(store, open2, closed)
  {
    assert multiset(open2 + closed) == multiset(open2) + multiset(closed);
    assert multiset(open + closed) == multiset(open) + multiset(closed);
  }

  /** OPEN and CLOSED together are exactly as long as the store. */
  lemma ListingSize(open: seq<nat>, closed: seq<nat>, n: nat)
    requires Listing(open, closed, n)
    ensures |open| + |closed| == n
  {
    assert |multiset(open + closed)| == |open + closed|;
    assert |multiset(Range(0, n))| == |Range(0, n)|;
  }

  /** With a constant heuristic the sort leaves OPEN as it is, so OPEN is first-in first-out. */
  lemma FifoOrder(store: seq<Node>, root: Cube, h: Cube -> int, list: seq<nat>)
    requires Constant(h)
    ensures KeySort.Sort(list, Key(store, root, h)) == list
  {
    var key := Key(store, root, h);
    if |list| > 0 {
      assert forall i | 0 <= i < |list| :: key(list[i]) == key(list[0]);
    }
    KeySort.SortConstant(list, key);
  }

  /** Every stored state of a search from a clean root is clean. */
  lemma {:induction false} CleanAt(store: seq<Node>, root: Cube, i: nat)
    requires Grown(store, root) && i < |store|
    ensures Clean(root.stickers) ==> Clean(store[i].stickers)
    decreases i
  {
    if i > 0 && Clean(root.stickers) {
      var p := store[i].parent.value;
      assert Linked(store, i);
      CleanAt(store, root, p);
      TurnSpec(store[p].stickers, store[i].rule);
    }
  }

  /** The parent chain of any stored entry leads back to root by recorded moves. */
  lemma {:induction false} ChainLeads(store: seq<Node>, root: Cube, g: nat)
    requires Grown(store, root) && g < |store|
    ensures Leads(root, Chain(ToCube(store, root, g)))
    decreases g
  {
    var c := ToCube(store, root, g);
    var path := Chain(c);
    if g == 0 {
      assert c == root;
      assert path[0..] == path;
      assert LeadsAt(root, path, 0);
    } else {
      var p := store[g].parent.value;
      var tail := Chain(ToCube(store, root, p));
      assert path == [c] + tail;
      ChainLeads(store, root, p);
      var n :| 0 <= n < |tail| && LeadsAt(root, tail, n);
      ChainStep(store, root, g);
      Prepend(root, c, tail, n);
    }
  }

  /** An entry is its parent's cube under the entry's recorded move. */
  lemma ChainStep(store: seq<Node>, root: Cube, g: nat)
    requires Grown(store, root) && 0 < g < |store|
    ensures Made(ToCube(store, root, store[g].parent.value), ToCube(store, root, g))
  {
    var p := store[g].parent.value;
    var a := ToCube(store, root, p);
    assert Linked(store, g);
    assert ToCube(store, root, g) == Cube(store[g].stickers, a.depth + 1, store[g].rule, Some(a));
    Applied(a, store[g].rule, store[g].stickers);
  }

  /** Putting in front of a leading path a cube made from its first entry gives a leading path. */
  lemma Prepend(root: Cube, c: Cube, tail: seq<Cube>, n: nat)
    requires n < |tail| && LeadsAt(root, tail, n)
    requires Made(tail[0], c)
    ensures LeadsAt(root, [c] + tail, n + 1)
  {
    var path := [c] + tail;
    assert path[n + 1..] == tail[n..];
    PrependSteps(c, tail, n);
  }

  /** The move steps of a path shifted by one place. */
  lemma PrependSteps(c: Cube, tail: seq<Cube>, n: nat)
    requires n < |tail| && forall i | 0 <= i < n :: Made(tail[i + 1], tail[i])
    requires Made(tail[0], c)
    ensures var path := [c] + tail; forall i | 0 <= i < n + 1 :: Made(path[i + 1], path[i])
  {
    var path := [c] + tail;
    forall i | 0 <= i < n + 1
      ensures Made(path[i + 1], path[i])
    {
      if i > 0 {
        assert Made(tail[i], tail[i - 1]);
        assert path[i + 1] == tail[i] && path[i] == tail[i - 1];
      } else {
        assert path[1] == tail[0] && path[0] == c;
      }
    }
  }

  /** Under first-in first-out order, the head of OPEN is the next index after CLOSED. */
  lemma FifoPop(open: seq<nat>, closed: seq<nat>, n: nat)
    requires |closed| <= n && closed == Range(0, |closed|) && open == Range(|closed|, n) && |open| > 0
    ensures closed + [open[0]] == Range(0, |closed| + 1)
    ensures open[1..] == Range(|closed| + 1, n)
  {
  }

  /** Two adjacent ranges join into one. */
  lemma RangeJoin(lo: nat, mid: nat, hi: nat)
    requires lo <= mid <= hi
    ensures Range(lo, mid) + Range(mid, hi) == Range(lo, hi)
  {
  }

  /** OPEN and CLOSED hold no two equal states: each is duplicate-free and no state is on both. */
  lemma ListsApart(store: seq<Node>, root: Cube, open: seq<nat>, closed: seq<nat>)
    requires Grown(store, root) && Partitioned(store, open, closed)
    ensures forall k | 0 <= k < |open + closed| :: (open + closed)[k] < |store|
    ensures forall i, j | 0 <= i < j < |open + closed| ::
      !Eq(store[(open + closed)[i]].stickers, store[(open + closed)[j]].stickers)
  {
    var both := open + closed;
    ListedBelow(open, closed, |store|);
    assert forall k | 0 <= k < |both| :: both[k] < |store| by {
      forall k | 0 <= k < |both| ensures both[k] < |store| {
        if k >= |open| {
          assert both[k] == closed[k - |open|];
        }
      }
    }
    Once(both, |store|);
    forall i, j | 0 <= i < j < |both|
      ensures !Eq(store[both[i]].stickers, store[both[j]].stickers)
    {
      var a, b := both[i], both[j];
      if a < b {
        assert !Eq(store[a].stickers, store[b].stickers);
      } else {
        assert !Eq(store[b].stickers, store[a].stickers);
      }
    }
  }

  /** A list holding 0, ..., n - 1 once each has no repeated entry. */
  lemma Once(l: seq<nat>, n: nat)
    requires multiset(l) == multiset(Range(0, n))
    ensures forall i, j | 0 <= i < j < |l| :: l[i] != l[j]
  {
    forall i, j | 0 <= i < j < |l|
      ensures l[i] != l[j]
    {
      if l[i] == l[j] {
        var v := l[i];
        assert l == l[..j] + l[j..];
        assert l[..j][i] == v && l[j..][0] == v;
        assert multiset(l[..j])[v] >= 1 && multiset(l[j..])[v] >= 1;
        assert multiset(l)[v] >= 2;
        RangeOnce(n, v);
        assert false;
      }
    }
  }

  /** Each value appears at most once in 0, ..., n - 1. */
  lemma {:induction false} RangeOnce(n: nat, v: nat)
    ensures multiset(Range(0, n))[v] <= 1
    ensures multiset(Range(0, n))[v] == 1 <==> v < n
  {
    if n > 0 {
      RangeOnce(n - 1, v);
      assert Range(0, n) == Range(0, n - 1) + [n - 1];
    }
  }
}
