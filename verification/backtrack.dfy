/**
 * Depth-bounded backtracking over a list of states and the
 * iterative-deepening loop around it (Rubik_2x2x2.py, `backtrack` and
 * `iterative_deep`). The list holds the current state first and its
 * ancestors after it; a successful search returns the move names with the
 * last move first, because each level appends its move while unwinding.
 */
module Backtracking {
  import opened Wrappers
  import Moves
  import opened CubeState

  /** The three ways the search gives up on a list: 'FAILED-1', 'FAILED-3' and 'FAILED-5'. */
  datatype Failure = Revisited | TooDeep | RulesExhausted

  /**
   * What `backtrack` hands back: a move list, a failure string, or the
   * exception raised by `applyRule` on a state with too few stickers.
   */
  datatype Outcome = Path(moves: seq<string>) | Failed(reason: Failure) | Crashed(error: Error)

  /** `c in rest`, a left-to-right scan with the cube equality. */
  function Seen(c: Cube, rest: seq<Cube>): (b: bool)
    ensures b <==> exists i | 0 <= i < |rest| :: Eq(c.stickers, rest[i].stickers)
  {
    if |rest| == 0 then false
    else Eq(c.stickers, rest[0].stickers) || Seen(c, rest[1..])
  }

  /** How many more levels the depth bound allows below a list of this length. */
  function Budget(states: seq<Cube>, maxDepth: int): nat
  {
    if |states| > maxDepth then 0 else maxDepth + 1 - |states|
  }

  /**
   * `backtrack(stateList, MAX_DEPTH)`: a repeated head fails first, then a
   * goal head succeeds with no moves, then an over-long list fails, and
   * otherwise the moves are tried in table order.
   */
  function Backtrack(states: seq<Cube>, maxDepth: int): (r: Outcome)
    requires |states| > 0
    ensures Seen(states[0], states[1..]) ==> r == Failed(Revisited)
    ensures !Seen(states[0], states[1..]) && Goal(states[0].stickers.tiles) ==> r == Path([])
    ensures (!Seen(states[0], states[1..]) && !Goal(states[0].stickers.tiles) && |states| > maxDepth)
              ==> r == Failed(TooDeep)
    ensures r.Failed? && r.reason == RulesExhausted ==> |states| <= maxDepth
    decreases Budget(states, maxDepth), 1, 0
  {
    if Seen(states[0], states[1..]) then Failed(Revisited)
    else if Goal(states[0].stickers.tiles) then Path([])
    else if |states| > maxDepth then Failed(TooDeep)
    else TryRules(states, maxDepth, 0)
  }

  /** The `for r in ruleSet` loop of `backtrack`, from rule index i on. */
  function TryRules(states: seq<Cube>, maxDepth: int, i: nat): (r: Outcome)
    requires 0 < |states| <= maxDepth && i <= |Moves.Names|
    ensures r.Failed? ==> r.reason == RulesExhausted
    ensures r.Path? ==> |r.moves| > 0
    decreases Budget(states, maxDepth), 0, |Moves.Names| - i
  {
    var rules := ApplicableRules(states[0]);
    if i == |rules| then Failed(RulesExhausted)
    else
      match ApplyRule(states[0], rules[i])
      case Err(e) => Crashed(e)
      case Ok(next) =>
        match Backtrack([next] + states, maxDepth)
        case Path(ms) => Path(ms + [rules[i]])
        case Crashed(e) => Crashed(e)
        case Failed(_) => TryRules(states, maxDepth, i + 1)
  }

  /**
   * The states visited when the moves of a `backtrack` result are replayed
   * from `c`, last list element first: w[0] is c and w[k + 1] is w[k]
   * after move ms[|ms| - 1 - k].
   */
  function Walk(c: Cube, ms: seq<string>): (r: Result<seq<Cube>, Error>)
    ensures r.Ok? ==> |r.value| == |ms| + 1 && r.value[0] == c
    ensures r.Ok? ==> forall k | 0 <= k < |ms| :: ApplyRule(r.value[k], ms[|ms| - 1 - k]) == Ok(r.value[k + 1])
    decreases |ms|
  {
    if |ms| == 0 then Ok([c])
    else
      match ApplyRule(c, ms[|ms| - 1])
      case Err(e) => Err(e)
      case Ok(next) =>
        match Walk(next, ms[..|ms| - 1])
        case Err(e) => Err(e)
        case Ok(rest) => Ok([c] + rest)
  }

  /** No two states of w are equal. */
  predicate Distinct(w: seq<Cube>)
  {
    forall i, j | 0 <= i < j < |w| :: !Eq(w[i].stickers, w[j].stickers)
  }

  /** No state of w equals a state of others. */
  predicate Apart(w: seq<Cube>, others: seq<Cube>)
  {
    forall i, j | 0 <= i < |w| && 0 <= j < |others| :: !Eq(w[i].stickers, others[j].stickers)
  }

  /** What a successful search promises about its move list. */
  ghost predicate Sound(states: seq<Cube>, maxDepth: int, ms: seq<string>)
    requires |states| > 0
  {
    && Walk(states[0], ms).Ok?
    && Goal(Walk(states[0], ms).value[|ms|].stickers.tiles)
    && |ms| <= Budget(states, maxDepth)
    && Distinct(Walk(states[0], ms).value)
    && Apart(Walk(states[0], ms).value, states[1..])
  }

  /** Extending a walk by one move taken first. */
  lemma WalkFront(c: Cube, m: string, next: Cube, ms: seq<string>)
    requires ApplyRule(c, m) == Ok(next)
    requires Walk(next, ms).Ok?
    ensures Walk(c, ms + [m]) == Ok([c] + Walk(next, ms).value)
  {
    assert (ms + [m])[..|ms|] == ms;
  }

  /**
   * Every move list `backtrack` returns, replayed from the head, reaches a
   * goal, stays within the depth bound, and visits pairwise different states
   * none of which equals a state further down the input list.
   */
  lemma {:induction false} BacktrackSound(states: seq<Cube>, maxDepth: int)
    requires |states| > 0
    ensures Backtrack(states, maxDepth).Path? ==> Sound(states, maxDepth, Backtrack(states, maxDepth).moves)
    decreases Budget(states, maxDepth), 1, 0
  {
    if Backtrack(states, maxDepth).Path? {
      if !Seen(states[0], states[1..]) && !Goal(states[0].stickers.tiles) {
        TryRulesSound(states, maxDepth, 0);
      } else {
        assert Walk(states[0], []) == Ok([states[0]]);
      }
    }
  }

  lemma {:induction false} TryRulesSound(states: seq<Cube>, maxDepth: int, i: nat)
    requires 0 < |states| <= maxDepth && i <= |Moves.Names|
    requires !Seen(states[0], states[1..])
    ensures TryRules(states, maxDepth, i).Path? ==> Sound(states, maxDepth, TryRules(states, maxDepth, i).moves)
    decreases Budget(states, maxDepth), 0, |Moves.Names| - i
  {
    if i < |Moves.Names| && ApplyRule(states[0], Moves.Names[i]).Ok? {
      var next := ApplyRule(states[0], Moves.Names[i]).value;
      var longer := [next] + states;
      match Backtrack(longer, maxDepth)
      case Path(ms) =>
        BacktrackSound(longer, maxDepth);
        ExtendSound(states, maxDepth, Moves.Names[i], next, ms);
      case Crashed(_) =>
      case Failed(_) =>
        TryRulesSound(states, maxDepth, i + 1);
    }
  }

  /** A sound result one level down, with the move into that level appended, is sound here. */
  lemma ExtendSound(states: seq<Cube>, maxDepth: int, m: string, next: Cube, ms: seq<string>)
    requires 0 < |states| <= maxDepth
    requires !Seen(states[0], states[1..])
    requires ApplyRule(states[0], m) == Ok(next)
    requires Sound([next] + states, maxDepth, ms)
    ensures Sound(states, maxDepth, ms + [m])
  {
    var longer := [next] + states;
    assert longer[0] == next && longer[1..] == states;
    var tail := Walk(next, ms).value;
    assert Goal(tail[|ms|].stickers.tiles) && |ms| <= Budget(longer, maxDepth);
    assert Distinct(tail) && Apart(tail, states);
    assert [states[0]] + states[1..] == states;
    PutInFront(states[0], tail, states[1..]);
    WalkFront(states[0], m, next, ms);
    var w := [states[0]] + tail;
    assert w[|ms + [m]|] == tail[|ms|];
  }

  /** A state none of whose successors on the walk equals it, put in front of that walk. */
  lemma PutInFront(c: Cube, tail: seq<Cube>, rest: seq<Cube>)
    requires Distinct(tail) && Apart(tail, [c] + rest) && !Seen(c, rest)
    ensures Distinct([c] + tail) && Apart([c] + tail, rest)
  {
    var w := [c] + tail;
    forall a, b | 0 <= a < b < |w|
      ensures !Eq(w[a].stickers, w[b].stickers)
    {
      assert w[b] == tail[b - 1];
      if a > 0 {
        assert w[a] == tail[a - 1];
      } else {
        assert ([c] + rest)[0] == c;
      }
    }
    forall a, b | 0 <= a < |w| && 0 <= b < |rest|
      ensures !Eq(w[a].stickers, rest[b].stickers)
    {
      if a > 0 {
        assert w[a] == tail[a - 1] && rest[b] == ([c] + rest)[b + 1];
      }
    }
  }

  /** The state reached from the head of `states` by move index j. */
  function Child(states: seq<Cube>, j: nat): (r: Result<Cube, Error>)
    requires |states| > 0 && j < |Moves.Names|
    ensures r.Ok? ==> r.value.parent == Some(states[0]) && r.value.rule == Moves.Names[j]
  {
    ApplyRule(states[0], Moves.Names[j])
  }

  /** Rule j's subsearch was tried and failed. */
  ghost predicate RuleFailed(states: seq<Cube>, maxDepth: int, j: nat)
    requires |states| > 0 && j < |Moves.Names|
  {
    Child(states, j).Ok? && Backtrack([Child(states, j).value] + states, maxDepth).Failed?
  }

  /**
   * Rule j settles the loop started at rule i with result ms: rules i .. j-1
   * failed, and rule j's subsearch returned ms without its last element,
   * which is rule j's name.
   */
  ghost predicate WinsAt(states: seq<Cube>, maxDepth: int, i: nat, j: nat, ms: seq<string>)
    requires |states| > 0
  {
    && i <= j < |Moves.Names|
    && |ms| > 0
    && ms[|ms| - 1] == Moves.Names[j]
    && (forall k | i <= k < j :: RuleFailed(states, maxDepth, k))
    && Child(states, j).Ok?
    && Backtrack([Child(states, j).value] + states, maxDepth) == Path(ms[..|ms| - 1])
  }

  /** The first rule whose subsearch succeeds wins. */
  lemma {:induction false} FirstSuccessWins(states: seq<Cube>, maxDepth: int, i: nat)
    requires 0 < |states| <= maxDepth && i <= |Moves.Names|
    ensures TryRules(states, maxDepth, i).Path? ==>
      exists j :: WinsAt(states, maxDepth, i, j, TryRules(states, maxDepth, i).moves)
    decreases |Moves.Names| - i
  {
    if i < |Moves.Names| && Child(states, i).Ok? {
      var sub := Backtrack([Child(states, i).value] + states, maxDepth);
      if sub.Path? {
        WinsHere(states, maxDepth, i);
      } else if sub.Failed? {
        FirstSuccessWins(states, maxDepth, i + 1);
        WinsLater(states, maxDepth, i, i + 1);
      } else {
        NoPath(states, maxDepth, i);
      }
    } else {
      NoPath(states, maxDepth, i);
    }
  }

  /** Past the last rule, or at a rule whose move or subsearch raises, the loop returns no path. */
  lemma NoPath(states: seq<Cube>, maxDepth: int, i: nat)
    requires 0 < |states| <= maxDepth && i <= |Moves.Names|
    requires i < |Moves.Names| && Child(states, i).Ok? ==> Backtrack([Child(states, i).value] + states, maxDepth).Crashed?
    ensures !TryRules(states, maxDepth, i).Path?
  {
  }

  /** A rule whose subsearch succeeds settles the loop at that rule. */
  lemma WinsHere(states: seq<Cube>, maxDepth: int, i: nat)
    requires 0 < |states| <= maxDepth && i < |Moves.Names|
    requires Child(states, i).Ok? && Backtrack([Child(states, i).value] + states, maxDepth).Path?
    ensures TryRules(states, maxDepth, i).Path?
    ensures WinsAt(states, maxDepth, i, i, TryRules(states, maxDepth, i).moves)
  {
    var ms := Backtrack([Child(states, i).value] + states, maxDepth).moves;
    var full := ms + [Moves.Names[i]];
    assert full[..|full| - 1] == ms;
    assert TryRules(states, maxDepth, i).moves == full;
  }

  /** A rule whose subsearch fails passes the loop on to the next rule. */
  lemma WinsLater(states: seq<Cube>, maxDepth: int, i: nat, next: nat)
    requires 0 < |states| <= maxDepth && i < |Moves.Names| && next == i + 1
    requires RuleFailed(states, maxDepth, i)
    requires TryRules(states, maxDepth, next).Path? ==>
      exists j :: WinsAt(states, maxDepth, next, j, TryRules(states, maxDepth, next).moves)
    ensures TryRules(states, maxDepth, i).Path? ==>
      exists j :: WinsAt(states, maxDepth, i, j, TryRules(states, maxDepth, i).moves)
  {
    PassOn(states, maxDepth, i, next);
    if TryRules(states, maxDepth, i).Path? {
      var ms := TryRules(states, maxDepth, i).moves;
      var j :| WinsAt(states, maxDepth, next, j, ms);
      WinsEarlier(states, maxDepth, i, next, j, ms);
    }
  }

  /** After a failed rule the loop goes on exactly as if it had started at the next rule. */
  lemma PassOn(states: seq<Cube>, maxDepth: int, i: nat, next: nat)
    requires 0 < |states| <= maxDepth && i < |Moves.Names| && next == i + 1
    requires RuleFailed(states, maxDepth, i)
    ensures TryRules(states, maxDepth, i) == TryRules(states, maxDepth, next)
  {
  }

  /** A win at j for the loop from next is a win at j for the loop from the failed rule before it. */
  lemma WinsEarlier(states: seq<Cube>, maxDepth: int, i: nat, next: nat, j: nat, ms: seq<string>)
    requires |states| > 0 && i < |Moves.Names| && next == i + 1
    requires RuleFailed(states, maxDepth, i)
    requires WinsAt(states, maxDepth, next, j, ms)
    ensures WinsAt(states, maxDepth, i, j, ms)
  {
    FailedBefore(states, maxDepth, i, next, j);
  }

  /** The failed rules i and next .. j - 1 make up all of i .. j - 1. */
  lemma FailedBefore(states: seq<Cube>, maxDepth: int, i: nat, next: nat, j: nat)
    requires |states| > 0 && next == i + 1 && j <= |Moves.Names|
    requires i < |Moves.Names| && RuleFailed(states, maxDepth, i)
    requires forall k | next <= k < j :: RuleFailed(states, maxDepth, k)
    ensures forall k | i <= k < j :: RuleFailed(states, maxDepth, k)
  {
    forall k | i <= k < j
      ensures RuleFailed(states, maxDepth, k)
    {
      if k != i {
        assert next <= k;
      }
    }
  }

  /** 'FAILED-5' exactly when every rule, in order, was tried and failed. */
  lemma {:induction false} ExhaustedMeansAllFailed(states: seq<Cube>, maxDepth: int, i: nat)
    requires 0 < |states| <= maxDepth && i <= |Moves.Names|
    ensures TryRules(states, maxDepth, i) == Failed(RulesExhausted)
        <==> forall k | i <= k < |Moves.Names| :: RuleFailed(states, maxDepth, k)
    decreases |Moves.Names| - i
  {
    if i == |Moves.Names| {
      PastLastRule(states, maxDepth);
    } else {
      ExhaustedMeansAllFailed(states, maxDepth, i + 1);
      if !RuleFailed(states, maxDepth, i) {
        StopsAt(states, maxDepth, i);
      } else if TryRules(states, maxDepth, i + 1) == Failed(RulesExhausted) {
        PassOn(states, maxDepth, i, i + 1);
        FailedBefore(states, maxDepth, i, i + 1, |Moves.Names|);
      } else {
        PassOn(states, maxDepth, i, i + 1);
        var k :| i + 1 <= k < |Moves.Names| && !RuleFailed(states, maxDepth, k);
      }
    }
  }

  /** With every rule tried, the loop falls through to 'FAILED-5'. */
  lemma PastLastRule(states: seq<Cube>, maxDepth: int)
    requires 0 < |states| <= maxDepth
    ensures TryRules(states, maxDepth, |Moves.Names|) == Failed(RulesExhausted)
  {
  }

  /** A rule whose move raises or whose subsearch does not fail ends the loop without 'FAILED-5'. */
  lemma StopsAt(states: seq<Cube>, maxDepth: int, i: nat)
    requires 0 < |states| <= maxDepth && i < |Moves.Names|
    requires !RuleFailed(states, maxDepth, i)
    ensures TryRules(states, maxDepth, i) != Failed(RulesExhausted)
  {
  }

  /**
   * A head with at least 24 stickers and no spaces never makes the search
   * raise: every state built by a move has exactly 24 stickers.
   */
  lemma {:induction false} NoCrash(states: seq<Cube>, maxDepth: int)
    requires |states| > 0 && |states[0].stickers.tiles| >= Moves.StickerCount && ' ' !in states[0].stickers.tiles
    ensures !Backtrack(states, maxDepth).Crashed?
    decreases Budget(states, maxDepth), 1, 0, 0
  {
    if !Seen(states[0], states[1..]) && !Goal(states[0].stickers.tiles) && |states| <= maxDepth {
      TryRulesNoCrash(states, maxDepth, 0);
    }
  }

  lemma {:induction false} TryRulesNoCrash(states: seq<Cube>, maxDepth: int, i: nat)
    requires 0 < |states| <= maxDepth && i <= |Moves.Names|
    requires |states[0].stickers.tiles| >= Moves.StickerCount && ' ' !in states[0].stickers.tiles
    ensures !TryRules(states, maxDepth, i).Crashed?
    decreases Budget(states, maxDepth), 0, |Moves.Names| - i, 1
  {
    if i < |Moves.Names| {
      TryRulesNoCrash(states, maxDepth, i + 1);
      RuleNoCrash(states, maxDepth, i);
    }
  }

  /** Rule i does not raise, so the loop from i raises only if the loop from i + 1 does. */
  lemma {:induction false} RuleNoCrash(states: seq<Cube>, maxDepth: int, i: nat)
    requires 0 < |states| <= maxDepth && i < |Moves.Names|
    requires |states[0].stickers.tiles| >= Moves.StickerCount && ' ' !in states[0].stickers.tiles
    requires !TryRules(states, maxDepth, i + 1).Crashed?
    ensures !TryRules(states, maxDepth, i).Crashed?
    decreases Budget(states, maxDepth), 0, |Moves.Names| - i, 0
  {
    ChildNoCrash(states, maxDepth, i);
    GoesOn(states, maxDepth, i);
  }

  /** Rule i applies to a full, blank-free head, and the subsearch from its child does not raise. */
  lemma {:induction false} ChildNoCrash(states: seq<Cube>, maxDepth: int, i: nat)
    requires 0 < |states| <= maxDepth && i < |Moves.Names|
    requires |states[0].stickers.tiles| >= Moves.StickerCount && ' ' !in states[0].stickers.tiles
    ensures Child(states, i).Ok? && !Backtrack([Child(states, i).value] + states, maxDepth).Crashed?
    decreases Budget(states, maxDepth), 0, 0, 0
  {
    CleanMove(states[0], i);
    var deeper := [Child(states, i).value] + states;
    assert deeper[0] == Child(states, i).value && |deeper| == |states| + 1;
    NoCrash(deeper, maxDepth);
  }

  /** A rule whose move and subsearch do not raise hands the loop on without raising. */
  lemma GoesOn(states: seq<Cube>, maxDepth: int, i: nat)
    requires 0 < |states| <= maxDepth && i < |Moves.Names|
    requires Child(states, i).Ok? && !Backtrack([Child(states, i).value] + states, maxDepth).Crashed?
    requires !TryRules(states, maxDepth, i + 1).Crashed?
    ensures !TryRules(states, maxDepth, i).Crashed?
  {
  }

  /** What `iterative_deep` hands back; GaveUp when the fuel runs out first. */
  datatype Deepening = Found(moves: seq<string>) | Raised(error: Error) | GaveUp

  /** The result at `bound` does not stop the deepening loop: a failure or an empty move list. */
  predicate KeepsDeepening(o: Outcome)
  {
    o.Failed? || o == Path([])
  }

  /**
   * `iterative_deep(stateList, depthBound)` for at most `fuel` rounds: rerun
   * the search with bounds depthBound, depthBound + 1, ... until it returns
   * a non-empty move list.
   */
  function IterativeDeep(states: seq<Cube>, bound: int, fuel: nat): (r: Deepening)
    requires |states| > 0
    ensures r.Found? ==> |r.moves| > 0
    ensures r.Found? ==> SettlesOn(states, bound, fuel, Path(r.moves))
    ensures r.Raised? ==> SettlesOn(states, bound, fuel, Crashed(r.error))
    ensures r == GaveUp ==> forall b | bound <= b < bound + fuel :: KeepsDeepening(Backtrack(states, b))
    decreases fuel
  {
    if fuel == 0 then GaveUp
    else
      match Backtrack(states, bound)
      case Crashed(e) => Raised(e)
      case Path(ms) =>
        if |ms| != 0 then Found(ms)
        else Deepen(states, bound, fuel)
      case Failed(_) => Deepen(states, bound, fuel)
  }

  /**
   * Some bound b in [bound, bound + fuel) makes the search return o, and every
   * bound before b kept the loop going.
   */
  ghost predicate SettlesOn(states: seq<Cube>, bound: int, fuel: nat, o: Outcome)
    requires |states| > 0
  {
    exists b | bound <= b < bound + fuel ::
      && Backtrack(states, b) == o
      && forall b' | bound <= b' < b :: KeepsDeepening(Backtrack(states, b'))
  }

  /** The next round of the loop, after `bound` kept it going. */
  function Deepen(states: seq<Cube>, bound: int, fuel: nat): (r: Deepening)
    requires |states| > 0 && fuel > 0 && KeepsDeepening(Backtrack(states, bound))
    ensures r.Found? ==> |r.moves| > 0 && SettlesOn(states, bound, fuel, Path(r.moves))
    ensures r.Raised? ==> SettlesOn(states, bound, fuel, Crashed(r.error))
    ensures r == GaveUp ==> forall b | bound <= b < bound + fuel :: KeepsDeepening(Backtrack(states, b))
    decreases fuel, 0
  {
    var r := IterativeDeep(states, bound + 1, fuel - 1);
    if r.Found? then SettlesEarlier(states, bound, fuel, Path(r.moves)); r
    else if r.Raised? then SettlesEarlier(states, bound, fuel, Crashed(r.error)); r
    else r
  }

  /** A settling point one bound later is one for the loop that starts a bound earlier. */
  lemma SettlesEarlier(states: seq<Cube>, bound: int, fuel: nat, o: Outcome)
    requires |states| > 0 && fuel > 0 && KeepsDeepening(Backtrack(states, bound))
    requires SettlesOn(states, bound + 1, fuel - 1, o)
    ensures SettlesOn(states, bound, fuel, o)
  {
    var b :| bound + 1 <= b < bound + fuel
      && Backtrack(states, b) == o
      && forall b' | bound + 1 <= b' < b :: KeepsDeepening(Backtrack(states, b'));
    assert forall b' | bound <= b' < b :: KeepsDeepening(Backtrack(states, b'));
  }

  /**
   * A list whose head is already a goal never leaves the loop: each round
   * returns no moves or fails, so `iterative_deep` runs forever.
   */
  lemma {:induction false} GoalHeadNeverFound(states: seq<Cube>, bound: int, fuel: nat)
    requires |states| > 0 && Goal(states[0].stickers.tiles)
    ensures IterativeDeep(states, bound, fuel) == GaveUp
    decreases fuel
  {
    if fuel > 0 {
      assert KeepsDeepening(Backtrack(states, bound));
      GoalHeadNeverFound(states, bound + 1, fuel - 1);
    }
  }
}
