/**
 * One configuration of the pocket cube and the operations on it
 * (Rubik_2x2x2.py, class Cube): construction from a configuration string,
 * printing, equality, move application, shuffling by given moves, and the
 * goal test.
 */
module CubeState {
  import opened Wrappers
  import Moves

  /**
   * The sticker content of a state: `tiles`, the labels in position order,
   * and `config`, the printed form (`__str__`). Equality of states looks at
   * these two fields only.
   */
  datatype Stickers = Stickers(tiles: seq<char>, config: string)

  /**
   * A search node: its stickers, its depth below the search root, the name
   * of the move that produced it ("" at a root) and the state it was
   * produced from. Values are immutable, so applying a move can never
   * change the state it is applied to.
   */
  datatype Cube = Cube(stickers: Stickers, depth: int, rule: string, parent: Option<Cube>)

  /** What `applyRule` raises: an unknown move name, or a state too short for the move table. */
  datatype Error = NoSuchRule(name: string) | StickerOutOfRange

  /** The face colours of the default configuration, in face order. */
  const Colours: string := "WRGYOB"

  /**
   * The default configuration string of `Cube()`, "WWWW RRRR GGGG YYYY OOOO BBBB",
   * assembled group by group (see SolvedConfigText).
   */
  const SolvedConfig: string :=
    (Group(Colours[0]) + " ") + (Group(Colours[1]) + " ") + (Group(Colours[2]) + " ")
    + (Group(Colours[3]) + " ") + (Group(Colours[4]) + " ") + Group(Colours[5])

  /** Four stickers of one colour. */
  function Group(x: char): (g: string)
    ensures |g| == 4 && forall j | 0 <= j < 4 :: g[j] == x
  {
    [x, x, x, x]
  }

  lemma SolvedConfigText()
    ensures SolvedConfig == "WWWW RRRR GGGG YYYY OOOO BBBB"
  {
  }

  /** `s.replace(" ", "")`. */
  function Strip(s: string): (r: string)
    ensures |r| <= |s|
  {
    if |s| == 0 then ""
    else (if s[0] == ' ' then "" else [s[0]]) + Strip(s[1..])
  }

  /** Stripping leaves no space and only characters of the original. */
  lemma {:induction false} StripRemovesSpaces(s: string)
    ensures ' ' !in Strip(s)
    ensures forall x | x in Strip(s) :: x in s
    decreases |s|
  {
    if |s| > 0 {
      StripRemovesSpaces(s[1..]);
      assert forall x | x in s[1..] :: x in s;
    }
  }

  /** A string without spaces is left as it is. */
  lemma {:induction false} StripKeeps(s: string)
    requires ' ' !in s
    ensures Strip(s) == s
    decreases |s|
  {
    if |s| > 0 {
      StripKeeps(s[1..]);
      assert s == [s[0]] + s[1..];
    }
  }

  lemma {:induction false} StripAppend(a: string, b: string)
    ensures Strip(a + b) == Strip(a) + Strip(b)
    decreases |a|
  {
    if |a| > 0 {
      var h := if a[0] == ' ' then "" else [a[0]];
      assert (a + b)[0] == a[0];
      assert (a + b)[1..] == a[1..] + b;
      StripAppend(a[1..], b);
      calc {
        Strip(a + b);
        h + Strip(a[1..] + b);
        h + (Strip(a[1..]) + Strip(b));
        (h + Strip(a[1..])) + Strip(b);
        Strip(a) + Strip(b);
      }
    } else {
      assert a + b == b;
    }
  }

  /** The printed form `__init__` builds: each group of up to four tiles followed by a space. */
  function Chunked(t: seq<char>): string
    decreases |t|
  {
    if |t| == 0 then ""
    else if |t| <= 4 then t + " "
    else t[..4] + " " + Chunked(t[4..])
  }

  /**
   * The printed form `applyRule` builds: a space between consecutive groups
   * of four, none at the end (for 24 tiles, spaces inserted at 20, 16, 12, 8, 4).
   */
  function Spaced(t: seq<char>): string
    decreases |t|
  {
    if |t| <= 4 then t else t[..4] + " " + Spaced(t[4..])
  }

  /** The printed form and the tiles agree, as they do for every state the source builds. */
  ghost predicate Consistent(st: Stickers)
  {
    ' ' !in st.tiles && Strip(st.config) == st.tiles
  }

  lemma {:induction false} ChunkedStrips(t: seq<char>)
    requires ' ' !in t
    ensures Strip(Chunked(t)) == t
    decreases |t|
  {
    if 0 < |t| <= 4 {
      StripAppend(t, " ");
      StripKeeps(t);
    } else if |t| > 4 {
      StripKeeps(t[..4]);
      StripAppend(t[..4], " ");
      StripAppend(t[..4] + " ", Chunked(t[4..]));
      ChunkedStrips(t[4..]);
      assert t == t[..4] + t[4..];
    }
  }

  lemma {:induction false} SpacedStrips(t: seq<char>)
    requires ' ' !in t
    ensures Strip(Spaced(t)) == t
    decreases |t|
  {
    if |t| <= 4 {
      StripKeeps(t);
    } else {
      StripKeeps(t[..4]);
      StripAppend(t[..4], " ");
      StripAppend(t[..4] + " ", Spaced(t[4..]));
      SpacedStrips(t[4..]);
      assert t == t[..4] + t[4..];
    }
  }

  /** `Cube(config)`: a root state whose tiles are the configuration without spaces. */
  function FromConfig(config: string): (c: Cube)
    ensures c.stickers.tiles == Strip(config)
    ensures Consistent(c.stickers)
    ensures c.depth == 0 && c.rule == "" && c.parent == None
  {
    var t := Strip(config);
    StripRemovesSpaces(config);
    ChunkedStrips(t);
    Cube(Stickers(t, Chunked(t)), 0, "", None)
  }

  /** `Cube()`: the default, solved configuration. */
  function Solved(): Cube
  {
    FromConfig(SolvedConfig)
  }

  /** `str(c)`. */
  function Show(c: Cube): string
  {
    c.stickers.config
  }

  /** `a == b`: same tiles or same printed form. */
  predicate Eq(a: Stickers, b: Stickers)
  {
    a.tiles == b.tiles || a.config == b.config
  }

  /** For states whose printed form agrees with their tiles, equality is tile equality. */
  lemma EqIsTileEquality(a: Stickers, b: Stickers)
    requires Consistent(a) && Consistent(b)
    ensures Eq(a, b) <==> a.tiles == b.tiles
  {
  }

  /** Rebuilding a state from its printed form gives an equal state with the same tiles. */
  lemma RebuildFromPrinted(c: Cube)
    requires Consistent(c.stickers)
    ensures FromConfig(Show(c)).stickers.tiles == c.stickers.tiles
    ensures Eq(FromConfig(Show(c)).stickers, c.stickers)
  {
  }

  /** `applicableRules()`: every move, in table order, whatever the state. */
  function ApplicableRules(c: Cube): seq<string>
  {
    Moves.Names
  }

  /** Every state offers all twelve moves, pairwise different, each with a table. */
  lemma AllRulesApply(c: Cube)
    ensures var r := ApplicableRules(c);
      && |r| == |Moves.Names|
      && (forall i | 0 <= i < |r| :: Moves.Lookup(r[i]).Some?)
      && (forall i, j | 0 <= i < j < |r| :: r[i] != r[j])
  {
    Moves.NamesDistinct();
  }

  /** Find locates each move name at its own index. */
  lemma FindName(m: nat)
    requires m < |Moves.Names|
    ensures Moves.Find(Moves.Names[m], 0) == Some(m)
  {
    Moves.NamesDistinct();
  }

  /**
   * The sticker part of `applyRule`: position i of the new arrangement holds
   * old position RULES[name][i]; the printed form is that arrangement with
   * spaces between groups of four, and the tiles are the printed form with
   * its spaces removed.
   */
  function Turn(st: Stickers, name: string): (r: Result<Stickers, Error>)
    ensures name !in Moves.Names ==> r == Err(NoSuchRule(name))
    ensures name in Moves.Names && |st.tiles| < Moves.StickerCount ==> r == Err(StickerOutOfRange)
    ensures r.Ok? <==> name in Moves.Names && |st.tiles| >= Moves.StickerCount
  {
    match Moves.Lookup(name)
    case None => Err(NoSuchRule(name))
    case Some(table) =>
      if |st.tiles| < Moves.StickerCount then Err(StickerOutOfRange)
      else
        var config := Spaced(Moves.Gather(st.tiles[..Moves.StickerCount], table));
        Ok(Stickers(Strip(config), config))
  }

  /**
   * What a successful move does to the stickers: the result is consistent
   * and uses only labels of the old state; for a space-free state it is the
   * old first 24 stickers rearranged by the move's table, so the same
   * multiset of labels.
   */
  lemma TurnSpec(st: Stickers, name: string)
    requires Turn(st, name).Ok?
    ensures Consistent(Turn(st, name).value)
    ensures forall x | x in Turn(st, name).value.tiles :: x in st.tiles
    ensures ' ' !in st.tiles ==> |Turn(st, name).value.tiles| == Moves.StickerCount
    ensures ' ' !in st.tiles ==> Moved(st.tiles, Moves.Find(name, 0).value, Turn(st, name).value.tiles)
    ensures ' ' !in st.tiles ==> multiset(Turn(st, name).value.tiles) == multiset(st.tiles[..Moves.StickerCount])
  {
    var m := Moves.Find(name, 0).value;
    Moves.TableInRange(m);
    var t := Moves.Gather(st.tiles[..Moves.StickerCount], Moves.Table(m));
    var config := Spaced(t);
    assert Turn(st, name).value == Stickers(Strip(config), config);
    StripRemovesSpaces(config);
    SpacedChars(t);
    Arranged(st.tiles, m);
    if ' ' !in st.tiles {
      SpacedStrips(t);
    }
  }

  /** Every move applies to a full cube without blanks, and leaves one. */
  lemma CleanMove(c: Cube, m: nat)
    requires m < |Moves.Names| && |c.stickers.tiles| >= Moves.StickerCount && ' ' !in c.stickers.tiles
    ensures ApplyRule(c, Moves.Names[m]).Ok?
    ensures |ApplyRule(c, Moves.Names[m]).value.stickers.tiles| == Moves.StickerCount
    ensures ' ' !in ApplyRule(c, Moves.Names[m]).value.stickers.tiles
  {
    var name := Moves.Names[m];
    assert name in Moves.Names;
    TurnSpec(c.stickers, name);
  }

  /** The move's rearrangement of the first 24 stickers, before printing. */
  lemma Arranged(tiles: seq<char>, m: nat)
    requires m < |Moves.Names| && |tiles| >= Moves.StickerCount
    requires |Moves.Table(m)| == Moves.StickerCount && forall k | 0 <= k < Moves.StickerCount :: Moves.Table(m)[k] < Moves.StickerCount
    ensures var t := Moves.Gather(tiles[..Moves.StickerCount], Moves.Table(m));
      && (forall x | x in t :: x in tiles)
      && (' ' !in tiles ==> ' ' !in t && Moved(tiles, m, t) && multiset(t) == multiset(tiles[..Moves.StickerCount]))
  {
    Moves.TableInverses(m);
    var t := Moves.Gather(tiles[..Moves.StickerCount], Moves.Table(m));
    assert forall x | x in t :: x in tiles by {
      forall x | x in t ensures x in tiles {
        var i :| 0 <= i < |t| && t[i] == x;
        assert tiles[Moves.Table(m)[i]] == x;
      }
    }
    Moves.GatherMultiset(tiles[..Moves.StickerCount], Moves.Table(m), Moves.Table(Moves.Inverse(m)));
  }

  /** The printed form holds the arranged tiles and spaces, nothing else. */
  lemma {:induction false} SpacedChars(t: seq<char>)
    ensures forall x | x in Spaced(t) :: x in t || x == ' '
    decreases |t|
  {
    if |t| > 4 {
      SpacedChars(t[4..]);
      assert forall x | x in t[..4] :: x in t;
      assert forall x | x in t[4..] :: x in t;
    }
  }

  /** `after` is `before` rearranged by move m: 24 stickers, position i taken from RULES[m][i]. */
  ghost predicate Moved(before: seq<char>, m: nat, after: seq<char>)
    requires m < |Moves.Names|
  {
    && |Moves.Table(m)| == Moves.StickerCount
    && |after| == Moves.StickerCount
    && forall i | 0 <= i < Moves.StickerCount :: Moves.Table(m)[i] < |before| && after[i] == before[Moves.Table(m)[i]]
  }

  /** `c.applyRule(name)`: a new state one deeper, remembering the move and `c` as its parent. */
  function ApplyRule(c: Cube, name: string): (r: Result<Cube, Error>)
    ensures r.Ok? <==> Turn(c.stickers, name).Ok?
    ensures r.Err? ==> r.error == Turn(c.stickers, name).error
    ensures r.Ok? ==> r.value == Cube(Turn(c.stickers, name).value, c.depth + 1, name, Some(c))
  {
    match Turn(c.stickers, name)
    case Err(e) => Err(e)
    case Ok(st) => Ok(Cube(st, c.depth + 1, name, Some(c)))
  }

  /** The state a successful move makes, written out. */
  lemma Applied(c: Cube, name: string, st: Stickers)
    requires Turn(c.stickers, name) == Ok(st)
    ensures ApplyRule(c, name) == Ok(Cube(st, c.depth + 1, name, Some(c)))
  {
  }

  /** Applying move m and then its partner restores the first 24 stickers. */
  lemma TurnThenUndo(st: Stickers, m: nat)
    requires m < |Moves.Names| && |st.tiles| >= Moves.StickerCount && ' ' !in st.tiles
    ensures Turn(st, Moves.Names[m]).Ok?
    ensures Turn(Turn(st, Moves.Names[m]).value, Moves.Names[Moves.Inverse(m)]).Ok?
    ensures Turn(Turn(st, Moves.Names[m]).value, Moves.Names[Moves.Inverse(m)]).value.tiles == st.tiles[..Moves.StickerCount]
  {
    var i := Moves.Inverse(m);
    FindName(m);
    FindName(i);
    var once := Turn(st, Moves.Names[m]).value;
    TurnSpec(st, Moves.Names[m]);
    var twice := Turn(once, Moves.Names[i]).value;
    TurnSpec(once, Moves.Names[i]);
    MovedTwice(st.tiles, m, once.tiles, twice.tiles);
  }

  /** Rearranging by move m and then by its partner is the identity on the first 24 stickers. */
  lemma MovedTwice(before: seq<char>, m: nat, mid: seq<char>, after: seq<char>)
    requires m < |Moves.Names| && |before| >= Moves.StickerCount
    requires Moved(before, m, mid) && Moved(mid, Moves.Inverse(m), after)
    ensures after == before[..Moves.StickerCount]
  {
    var i := Moves.Inverse(m);
    Moves.TableInverses(m);
    GatherTwice(before, Moves.Table(m), mid, Moves.Table(i), after);
  }

  lemma GatherTwice(before: seq<char>, p: seq<nat>, mid: seq<char>, q: seq<nat>, after: seq<char>)
    requires |before| >= Moves.StickerCount && |p| == Moves.StickerCount && |q| == Moves.StickerCount
    requires |mid| == Moves.StickerCount && |after| == Moves.StickerCount
    requires forall k | 0 <= k < Moves.StickerCount :: p[k] < |before| && mid[k] == before[p[k]]
    requires forall k | 0 <= k < Moves.StickerCount :: q[k] < |mid| && after[k] == mid[q[k]]
    requires forall k | 0 <= k < Moves.StickerCount :: p[q[k]] == k
    ensures after == before[..Moves.StickerCount]
  {
    forall k | 0 <= k < Moves.StickerCount
      ensures after[k] == before[k]
    {
      assert after[k] == mid[q[k]] == before[p[q[k]]];
    }
  }

  /** For a 24-sticker state, X then X' gives back a state equal to the original. */
  lemma ApplyThenUndo(c: Cube, m: nat)
    requires m < |Moves.Names| && |c.stickers.tiles| == Moves.StickerCount && ' ' !in c.stickers.tiles
    ensures ApplyRule(c, Moves.Names[m]).Ok?
    ensures ApplyRule(ApplyRule(c, Moves.Names[m]).value, Moves.Names[Moves.Inverse(m)]).Ok?
    ensures ApplyRule(ApplyRule(c, Moves.Names[m]).value, Moves.Names[Moves.Inverse(m)]).value.stickers.tiles == c.stickers.tiles
    ensures Eq(ApplyRule(ApplyRule(c, Moves.Names[m]).value, Moves.Names[Moves.Inverse(m)]).value.stickers, c.stickers)
  {
    TakeAll(c.stickers.tiles);
    TurnThenUndo(c.stickers, m);
  }

  lemma TakeAll<T>(t: seq<T>)
    requires |t| == Moves.StickerCount
    ensures t[..Moves.StickerCount] == t
  {
  }

  /**
   * `shuffle(n)` with the random draws made explicit: picks[i] is the index
   * `random.randint(0, 11)` returned on round i.
   */
  function Shuffle(c: Cube, picks: seq<nat>): (r: Result<Cube, Error>)
    requires forall i | 0 <= i < |picks| :: picks[i] < |Moves.Names|
    ensures |picks| > 0 && ' ' !in c.stickers.tiles ==> (r.Ok? <==> |c.stickers.tiles| >= Moves.StickerCount)
    ensures r.Ok? ==> r.value.depth == c.depth + |picks|
    ensures r.Ok? && |picks| > 0 ==> Consistent(r.value.stickers)
    decreases |picks|
  {
    if |picks| == 0 then Ok(c)
    else
      FindName(picks[0]);
      match ApplyRule(c, Moves.Names[picks[0]])
      case Err(e) => Err(e)
      case Ok(next) =>
        TurnSpec(c.stickers, Moves.Names[picks[0]]);
        Shuffle(next, picks[1..])
  }

  /** A shuffled 24-sticker state carries the same stickers, only rearranged. */
  lemma {:induction false} ShuffleKeepsStickers(c: Cube, picks: seq<nat>)
    requires forall i | 0 <= i < |picks| :: picks[i] < |Moves.Names|
    requires |c.stickers.tiles| == Moves.StickerCount && ' ' !in c.stickers.tiles
    ensures Shuffle(c, picks).Ok?
    ensures |Shuffle(c, picks).value.stickers.tiles| == Moves.StickerCount
    ensures multiset(Shuffle(c, picks).value.stickers.tiles) == multiset(c.stickers.tiles)
    decreases |picks|
  {
    if |picks| > 0 {
      FindName(picks[0]);
      var next := ApplyRule(c, Moves.Names[picks[0]]).value;
      TurnSpec(c.stickers, Moves.Names[picks[0]]);
      TakeAll(c.stickers.tiles);
      ShuffleKeepsStickers(next, picks[1..]);
    }
  }

  /** The picks that undo `picks`: partners, in reverse order. */
  function Unshuffle(picks: seq<nat>): (r: seq<nat>)
    requires forall i | 0 <= i < |picks| :: picks[i] < |Moves.Names|
    ensures |r| == |picks|
    ensures forall i | 0 <= i < |r| :: r[i] < |Moves.Names| && r[i] == Moves.Inverse(picks[|picks| - 1 - i])
  {
    if |picks| == 0 then [] else Unshuffle(picks[1..]) + [Moves.Inverse(picks[0])]
  }

  /** Shuffling and then applying the partner moves in reverse order restores the tiles. */
  lemma {:induction false} UnshuffleRestores(c: Cube, picks: seq<nat>)
    requires forall i | 0 <= i < |picks| :: picks[i] < |Moves.Names|
    requires |c.stickers.tiles| == Moves.StickerCount && ' ' !in c.stickers.tiles
    ensures Shuffle(c, picks).Ok?
    ensures Shuffle(Shuffle(c, picks).value, Unshuffle(picks)).Ok?
    ensures Shuffle(Shuffle(c, picks).value, Unshuffle(picks)).value.stickers.tiles == c.stickers.tiles
    decreases |picks|
  {
    if |picks| > 0 {
      var m, rest := picks[0], picks[1..];
      FindName(m);
      ApplyThenUndo(c, m);
      var next := ApplyRule(c, Moves.Names[m]).value;
      TurnSpec(c.stickers, Moves.Names[m]);
      UnshuffleRestores(next, rest);
      var mid := Shuffle(next, rest).value;
      var back := Shuffle(mid, Unshuffle(rest)).value;
      ShuffleAppend(mid, Unshuffle(rest), Moves.Inverse(m));
      TurnDependsOnTiles(back.stickers, next.stickers, Moves.Names[Moves.Inverse(m)]);
    }
  }

  /** Shuffling by picks + [m] is shuffling by picks and then applying move m. */
  lemma {:induction false} ShuffleAppend(c: Cube, picks: seq<nat>, m: nat)
    requires forall i | 0 <= i < |picks| :: picks[i] < |Moves.Names|
    requires m < |Moves.Names|
    requires Shuffle(c, picks).Ok?
    ensures Shuffle(c, picks + [m]) == ApplyRule(Shuffle(c, picks).value, Moves.Names[m])
    decreases |picks|
  {
    if |picks| == 0 {
      assert [m][1..] == [];
    } else {
      assert (picks + [m])[0] == picks[0];
      assert (picks + [m])[1..] == picks[1..] + [m];
      var next := ApplyRule(c, Moves.Names[picks[0]]).value;
      ShuffleAppend(next, picks[1..], m);
    }
  }

  /** A move's effect on the stickers depends on the tiles alone. */
  lemma TurnDependsOnTiles(a: Stickers, b: Stickers, name: string)
    requires a.tiles == b.tiles
    ensures Turn(a, name) == Turn(b, name)
  {
  }

  /** The labels occurring in a face, `set(face)`. */
  function Labels(f: seq<char>): set<char>
  {
    set x | x in f
  }

  /**
   * Face k as `goal()` cuts it: spaces are inserted at 20, 16, 12, 8, 4 and
   * the string split on them, so faces 0..4 are the 4-blocks (clipped to the
   * length) and face 5 is everything from position 20 on.
   */
  function Face(t: seq<char>, k: nat): (f: seq<char>)
    requires k < 6
    ensures |t| == Moves.StickerCount ==> f == Block(t, k)
  {
    var lo := if 4 * k < |t| then 4 * k else |t|;
    var hi := if k == 5 || 4 * k + 4 > |t| then |t| else 4 * k + 4;
    t[lo..hi]
  }

  /** Stickers 4k .. 4k+3 of a 24-sticker state. */
  function Block(t: seq<char>, k: nat): seq<char>
    requires |t| == Moves.StickerCount && k < 6
  {
    t[4 * k..4 * k + 4]
  }

  /** All stickers of `f` carry the same label. */
  predicate AllSame(f: seq<char>)
  {
    forall j | 0 <= j < |f| :: f[j] == f[0]
  }

  /** `goal()`: each of the six faces carries exactly one distinct label. */
  predicate Goal(t: seq<char>)
  {
    forall k | 0 <= k < 6 :: |Labels(Face(t, k))| == 1
  }

  /** A face has one distinct label exactly when it is non-empty and all its stickers agree. */
  lemma OneLabel(f: seq<char>)
    ensures |Labels(f)| == 1 <==> |f| > 0 && AllSame(f)
  {
    if |f| > 0 && AllSame(f) {
      assert Labels(f) == {f[0]};
    }
    if |Labels(f)| == 1 {
      var x :| x in Labels(f);
      assert |f| > 0;
      assert |Labels(f) - {f[0]}| == 0;
      assert Labels(f) - {f[0]} == {};
      forall j | 0 <= j < |f|
        ensures f[j] == f[0]
      {
        assert f[j] in Labels(f);
        assert f[j] !in Labels(f) - {f[0]};
      }
    }
  }

  /** On 24 stickers, the goal test is: every 4-block [4k, 4k+4) is one colour. */
  lemma GoalIsUniformBlocks(t: seq<char>)
    requires |t| == Moves.StickerCount
    ensures Goal(t) <==> forall k | 0 <= k < 6 :: AllSame(Block(t, k))
  {
    forall k | 0 <= k < 6
      ensures |Labels(Face(t, k))| == 1 <==> AllSame(Block(t, k))
    {
      OneLabel(Face(t, k));
    }
  }

  /** The default configuration is a goal. */
  lemma SolvedIsGoal()
    ensures |Solved().stickers.tiles| == Moves.StickerCount
    ensures Goal(Solved().stickers.tiles)
  {
    SolvedTiles();
    var t := Solved().stickers.tiles;
    UniformSix(t, Group(Colours[0]), Group(Colours[1]), Group(Colours[2]),
                  Group(Colours[3]), Group(Colours[4]), Group(Colours[5]));
    GoalIsUniformBlocks(t);
  }

  /** Six one-colour groups of four, laid end to end, make six one-colour blocks. */
  lemma UniformSix(t: seq<char>, a: string, b: string, c: string, d: string, e: string, f: string)
    requires t == a + b + c + d + e + f
    requires |a| == 4 && |b| == 4 && |c| == 4 && |d| == 4 && |e| == 4 && |f| == 4
    requires AllSame(a) && AllSame(b) && AllSame(c) && AllSame(d) && AllSame(e) && AllSame(f)
    ensures |t| == Moves.StickerCount
    ensures forall k | 0 <= k < 6 :: AllSame(Block(t, k))
  {
    assert Block(t, 0) == a;
    assert Block(t, 1) == b;
    assert Block(t, 2) == c;
    assert Block(t, 3) == d;
    assert Block(t, 4) == e;
    assert Block(t, 5) == f;
    forall k | 0 <= k < 6
      ensures AllSame(Block(t, k))
    {
      Cases6(k);
    }
  }

  lemma Cases6(k: int)
    requires 0 <= k < 6
    ensures k == 0 || k == 1 || k == 2 || k == 3 || k == 4 || k == 5
  {
  }

  /** Stripping the default configuration leaves the 24 solved tiles. */
  lemma SolvedTiles()
    ensures Strip(SolvedConfig) == Group(Colours[0]) + Group(Colours[1]) + Group(Colours[2])
                                 + Group(Colours[3]) + Group(Colours[4]) + Group(Colours[5])
  {
    var w, r, g := Group(Colours[0]), Group(Colours[1]), Group(Colours[2]);
    var y, o, b := Group(Colours[3]), Group(Colours[4]), Group(Colours[5]);
    StripSix(w, r, g, y, o, b);
    StripKeeps(w);
    StripKeeps(r);
    StripKeeps(g);
    StripKeeps(y);
    StripKeeps(o);
    StripKeeps(b);
  }

  /** Stripping six groups joined by spaces concatenates the stripped groups. */
  lemma StripSix(w: string, r: string, g: string, y: string, o: string, b: string)
    ensures Strip((w + " ") + (r + " ") + (g + " ") + (y + " ") + (o + " ") + b)
         == Strip(w) + Strip(r) + Strip(g) + Strip(y) + Strip(o) + Strip(b)
  {
    var s1 := w + " ";
    var s2 := s1 + (r + " ");
    var s3 := s2 + (g + " ");
    var s4 := s3 + (y + " ");
    var s5 := s4 + (o + " ");
    StripGroup(w);
    StripAppend(s1, r + " ");
    StripGroup(r);
    StripAppend(s2, g + " ");
    StripGroup(g);
    StripAppend(s3, y + " ");
    StripGroup(y);
    StripAppend(s4, o + " ");
    StripGroup(o);
    StripAppend(s5, b);
  }

  /** Stripping a group followed by a space. */
  lemma StripGroup(w: string)
    ensures Strip(w + " ") == Strip(w)
  {
    StripAppend(w, " ");
    assert " "[1..] == "";
    assert Strip(w) + "" == Strip(w);
  }

}
