/**
 * The game session of Star Match (src/App.js:38-108, 154-182): a target
 * number of stars, the pool of digits still in play, the digits the player
 * has tentatively selected, and a countdown. The session is a class whose
 * four fields are the four state slots of `useGameState`; the click handler,
 * the match rule and the one-second timer step are its methods, and the
 * derived digit and game statuses are functions of its state.
 */
module Game {
  import opened Utils

  /** What a digit button shows (`numberStatus`). */
  datatype DigitStatus = Available | Used | Wrong | Candidate

  /** `gameStatus`. */
  datatype SessionStatus = Active | Won | Lost

  /** The bound every target is drawn within: each target is at most 9 stars. */
  const MAX_STARS := 9

  /** The length of a round, in seconds. */
  const ROUND_SECONDS := 10

  predicate Distinct(s: seq<int>)
  {
    forall i, j :: 0 <= i < j < |s| ==> s[i] != s[j]
  }

  /** `c` is a valid selection from `pool`: no digit twice, every digit in the pool. */
  predicate IsSelection(c: seq<int>, pool: seq<int>)
  {
    Distinct(c) && forall x :: x in c ==> x in pool
  }

  // ---------------------------------------------------------------------------
  // Filtering: `s.filter(x => !drop.includes(x))`
  // ---------------------------------------------------------------------------

  /** The elements of `s`, in order, that do not occur in `drop`. */
  function Without(s: seq<int>, drop: seq<int>): seq<int>
  {
    if s == [] then []
    else
      Without(s[..|s| - 1], drop) + (if s[|s| - 1] in drop then [] else [s[|s| - 1]])
  }

  /** Filtering keeps exactly the elements of `s` that are not in `drop`. */
  lemma {:induction false} WithoutMembers(s: seq<int>, drop: seq<int>, x: int)
    ensures x in Without(s, drop) <==> x in s && x !in drop
  {
    if s != [] {
      var p := s[..|s| - 1];
      assert s == p + [s[|s| - 1]];
      WithoutMembers(p, drop, x);
    }
  }

  /** Filtering keeps the order of what it keeps. */
  lemma {:induction false} WithoutSubsequence(s: seq<int>, drop: seq<int>)
    ensures IsSubsequence(Without(s, drop), s)
  {
    if s == [] {
    } else {
      var p, x := s[..|s| - 1], s[|s| - 1];
      assert s == p + [x];
      WithoutSubsequence(p, drop);
      if x in drop {
        assert Without(s, drop) == Without(p, drop);
        SubsequenceOfSnoc(Without(p, drop), p, x);
      } else {
        SubsequenceSnoc(Without(p, drop), p, x);
      }
    }
  }

  lemma {:induction false} WithoutDistinct(s: seq<int>, drop: seq<int>)
    requires Distinct(s)
    ensures Distinct(Without(s, drop))
  {
    if s != [] {
      var p, x := s[..|s| - 1], s[|s| - 1];
      assert s == p + [x];
      WithoutDistinct(p, drop);
      var w := Without(p, drop);
      if x in drop {
        assert Without(s, drop) == w;
      } else {
        assert Without(s, drop) == w + [x];
        forall i | 0 <= i < |w| ensures w[i] != x {
          assert w[i] in w;
          WithoutMembers(p, drop, w[i]);
        }
      }
    }
  }

  /** The set of elements of a sequence. */
  function Elements(s: seq<int>): set<int>
  {
    set x | x in s
  }

  lemma {:induction false} DistinctCardinality(s: seq<int>)
    requires Distinct(s)
    ensures |Elements(s)| == |s|
  {
    if s != [] {
      var p, x := s[..|s| - 1], s[|s| - 1];
      assert Elements(s) == Elements(p) + {x};
      assert x !in Elements(p);
      DistinctCardinality(p);
    }
  }

  /**
   * Removing a duplicate-free selection from a duplicate-free pool shrinks
   * the pool by exactly the size of the selection.
   */
  lemma WithoutLength(s: seq<int>, drop: seq<int>)
    requires Distinct(s) && IsSelection(drop, s)
    ensures |Without(s, drop)| == |s| - |drop|
  {
    var r := Without(s, drop);
    WithoutDistinct(s, drop);
    DistinctCardinality(s);
    DistinctCardinality(drop);
    DistinctCardinality(r);
    forall x ensures x in Elements(r) <==> x in Elements(s) - Elements(drop) {
      WithoutMembers(s, drop, x);
    }
    assert Elements(r) == Elements(s) - Elements(drop);
    assert Elements(s) == Elements(r) + Elements(drop);
    assert Elements(r) * Elements(drop) == {};
  }

  /** A pool of distinct digits 1 to 9. */
  predicate IsPool(pool: seq<int>)
  {
    Distinct(pool) && forall k :: 0 <= k < |pool| ==> 1 <= pool[k] <= 9
  }

  /**
   * The pool left after a match (src/App.js:173-175): still a pool, the old
   * one with the selection filtered out in order, smaller by exactly the
   * size of the selection.
   */
  lemma MatchedPool(pool: seq<int>, cands: seq<int>)
    requires IsPool(pool) && IsSelection(cands, pool)
    ensures IsPool(Without(pool, cands))
    ensures IsSubsequence(Without(pool, cands), pool)
    ensures |Without(pool, cands)| == |pool| - |cands|
  {
    var r := Without(pool, cands);
    WithoutSubsequence(pool, cands);
    WithoutDistinct(pool, cands);
    WithoutLength(pool, cands);
    forall k | 0 <= k < |r| ensures 1 <= r[k] <= 9 {
      assert r[k] in r;
      WithoutMembers(pool, cands, r[k]);
    }
  }

  /** Filtering out an element that does not occur changes nothing. */
  lemma {:induction false} WithoutAbsent(s: seq<int>, drop: seq<int>)
    requires forall x :: x in s ==> x !in drop
    ensures Without(s, drop) == s
  {
    if s != [] {
      var p, last := s[..|s| - 1], s[|s| - 1];
      assert s == p + [last];
      assert last in s;
      assert forall x :: x in p ==> x in s;
      WithoutAbsent(p, drop);
      assert Without(s, drop) == Without(p, drop) + [last];
    }
  }

  // ---------------------------------------------------------------------------
  // The new candidate list of a click (src/App.js:103-106)
  // ---------------------------------------------------------------------------

  /**
   * An `Available` digit is appended to the candidates; a digit of any other
   * status (a `Candidate` or `Wrong` one, as a click passes it) is removed.
   */
  function Toggled(cands: seq<int>, number: int, status: DigitStatus): seq<int>
  {
    if status == Available then cands + [number] else Without(cands, [number])
  }

  /**
   * `newCandidateNums`: an available digit is appended, any other is
   * filtered out, and every other candidate stays.
   */
  lemma ToggledMembers(cands: seq<int>, number: int, status: DigitStatus, x: int)
    ensures x in Toggled(cands, number, status) <==>
      if status == Available then x in cands || x == number else x in cands && x != number
  {
    if status != Available {
      WithoutMembers(cands, [number], x);
    }
  }

  /** Selecting a digit and deselecting it again restores the candidates. */
  lemma ToggleTwice(cands: seq<int>, number: int, status: DigitStatus)
    requires number !in cands && status != Available
    ensures Toggled(Toggled(cands, number, Available), number, status) == cands
  {
    var c := cands + [number];
    assert c[..|c| - 1] == cands;
    WithoutAbsent(cands, [number]);
  }

  /** A click on a digit consistent with its status keeps a valid selection. */
  lemma ToggleKeepsSelection(pool: seq<int>, cands: seq<int>, number: int, status: DigitStatus)
    requires IsSelection(cands, pool)
    requires status == Available ==> number in pool && number !in cands
    ensures IsSelection(Toggled(cands, number, status), pool)
  {
    if status != Available {
      WithoutDistinct(cands, [number]);
      forall x | x in Toggled(cands, number, status) ensures x in pool {
        WithoutMembers(cands, [number], x);
      }
    }
  }

  // ---------------------------------------------------------------------------
  // The session
  // ---------------------------------------------------------------------------

  class Session {
    /** The target; `None` once the pool is empty (the generator's `undefined`). */
    var stars: Option<int>
    var availableNums: seq<int>
    var candidateNums: seq<int>
    var secondsLeft: int

    /**
     * The session invariant: the clock is within the round, the pool is a
     * duplicate-free set of digits, the candidates are a selection from it,
     * while digits remain the target is an achievable sum of at most 9, and
     * the selection never already sums to the target (a match is taken at once).
     */
    ghost predicate Valid()
      reads this
    {
      && 0 <= secondsLeft <= ROUND_SECONDS
      && IsPool(availableNums)
      && IsSelection(candidateNums, availableNums)
      && (availableNums != [] <==> stars.Some?)
      && (stars.Some? ==>
            1 <= stars.value <= MAX_STARS && Achievable(availableNums, stars.value))
      && stars != Some(Sum(candidateNums))
    }

    /**
     * A fresh session (a new mount of the game): the full pool, no
     * candidates, a full clock and a target `utils.random(1, 9)`.
     */
    constructor (u: real)
      requires 0.0 <= u < 1.0
      ensures Valid()
      ensures stars == Some(Random(1, 9, u)) && availableNums == Range(1, 9)
      ensures candidateNums == [] && secondsLeft == ROUND_SECONDS
      ensures GameStatus() == Active
    {
      var target := Random(1, 9, u);
      stars := Some(target);
      availableNums := Range(1, 9);
      candidateNums := [];
      secondsLeft := ROUND_SECONDS;
      new;
      SingletonSubsequence(availableNums, target - 1);
      assert Sum([target]) == target by {
        assert [target][..0] == [];
      }
    }

    /** `candidatesAreWrong`: the selection overshoots the target. */
    function CandidatesAreWrong(): bool
      reads this
    {
      stars.Some? && Sum(candidateNums) > stars.value
    }

    /**
     * In a valid session the selection overshoots exactly when some selected
     * digit shows as wrong, and an empty selection never overshoots.
     */
    lemma WrongSelection()
      requires Valid()
      ensures CandidatesAreWrong() <==> exists n :: n in candidateNums && NumberStatus(n) == Wrong
      ensures CandidatesAreWrong() ==> candidateNums != []
    {
      if CandidatesAreWrong() {
        assert candidateNums != [];
        assert NumberStatus(candidateNums[0]) == Wrong;
      }
    }

    /** `gameStatus`: an empty pool wins, even when the clock is also at 0. */
    function GameStatus(): (r: SessionStatus)
      reads this
      ensures r == Won <==> availableNums == []
      ensures r == Lost <==> availableNums != [] && secondsLeft == 0
      ensures r == Active <==> availableNums != [] && secondsLeft != 0
    {
      if |availableNums| == 0 then Won
      else if secondsLeft == 0 then Lost
      else Active
    }

    /** `numberStatus`: the status a digit button shows. */
    function NumberStatus(number: int): (r: DigitStatus)
      reads this
      ensures r == Used <==> number !in availableNums
      ensures r == Wrong <==>
        number in availableNums && number in candidateNums && CandidatesAreWrong()
      ensures r == Candidate <==>
        number in availableNums && number in candidateNums && !CandidatesAreWrong()
      ensures r == Available <==> number in availableNums && number !in candidateNums
    {
      if number !in availableNums then Used
      else if number in candidateNums then (if CandidatesAreWrong() then Wrong else Candidate)
      else Available
    }

    /**
     * `setGameState`, the match rule. A selection that does not sum to the
     * target only replaces the candidates. One that does removes its digits
     * from the pool, clears the candidates and draws a new target from the
     * remaining pool (`u` is the generator's `Math.random()` value).
     */
    method SetGameState(newCandidateNums: seq<int>, u: real)
      requires Valid() && 0.0 <= u < 1.0
      requires IsSelection(newCandidateNums, availableNums)
      modifies this
      ensures Valid()
      ensures secondsLeft == old(secondsLeft)
      ensures old(stars) != Some(Sum(newCandidateNums)) ==>
        && candidateNums == newCandidateNums
        && availableNums == old(availableNums)
        && stars == old(stars)
      ensures old(stars) == Some(Sum(newCandidateNums)) ==>
        && availableNums == Without(old(availableNums), newCandidateNums)
        && |availableNums| == |old(availableNums)| - |newCandidateNums| < |old(availableNums)|
        && candidateNums == []
        && stars == Pick(CollectedSums(availableNums, MAX_STARS), u)
    {
      if stars != Some(Sum(newCandidateNums)) {
        candidateNums := newCandidateNums;
      } else {
        var newAvailableNums := Without(availableNums, newCandidateNums);
        assert newCandidateNums != [] by {
          AchievablePositive(availableNums, stars.value);
        }
        MatchedPool(availableNums, newCandidateNums);
        var newStars := RandomSumIn(newAvailableNums, MAX_STARS, u);
        DrawnTarget(newAvailableNums, u);
        stars := newStars;
        availableNums := newAvailableNums;
        candidateNums := [];
      }
    }

    /**
     * `onNumberClick`, with the digit's status as the button passes it,
     * `numberStatus(number)` of the same state. Nothing happens unless the
     * game is active and the digit is still in the pool; otherwise the digit
     * is selected or deselected and the match rule applies.
     */
    method OnNumberClick(number: int, u: real)
      requires Valid() && 0.0 <= u < 1.0
      modifies this
      ensures Valid()
      ensures old(GameStatus()) != Active || old(NumberStatus(number)) == Used ==>
        && stars == old(stars)
        && availableNums == old(availableNums)
        && candidateNums == old(candidateNums)
        && secondsLeft == old(secondsLeft)
      ensures old(GameStatus()) == Active && old(NumberStatus(number)) != Used ==>
        var c := Toggled(old(candidateNums), number, old(NumberStatus(number)));
        && secondsLeft == old(secondsLeft)
        && (old(stars) != Some(Sum(c)) ==>
              candidateNums == c && availableNums == old(availableNums) && stars == old(stars))
        && (old(stars) == Some(Sum(c)) ==>
              && availableNums == Without(old(availableNums), c)
              && |availableNums| == |old(availableNums)| - |c|
              && candidateNums == []
              && stars == Pick(CollectedSums(availableNums, MAX_STARS), u))
    {
      var currentStatus := NumberStatus(number);
      if GameStatus() != Active || currentStatus == Used {
        return;
      }
      var newCandidateNums := Toggled(candidateNums, number, currentStatus);
      ToggleKeepsSelection(availableNums, candidateNums, number, currentStatus);
      SetGameState(newCandidateNums, u);
    }

    /**
     * One elapsed second of the countdown timer: the clock goes down only
     * while there is time left and digits remain, that is, while the game
     * is active; nothing else changes.
     */
    method Tick()
      requires Valid()
      modifies this
      ensures Valid()
      ensures secondsLeft == if old(GameStatus()) == Active then old(secondsLeft) - 1 else old(secondsLeft)
      ensures stars == old(stars) && availableNums == old(availableNums)
      ensures candidateNums == old(candidateNums)
    {
      if secondsLeft > 0 && |availableNums| > 0 {
        secondsLeft := secondsLeft - 1;
      }
    }
  }

  /**
   * Selecting an available digit and clicking it again restores the
   * selection, when the first click does not complete a match; the pool,
   * the target and the clock stay as they were.
   */
  method DoubleClick(g: Session, number: int, u: real, u': real)
    requires g.Valid() && 0.0 <= u < 1.0 && 0.0 <= u' < 1.0
    requires g.GameStatus() == Active && g.NumberStatus(number) == Available
    requires g.stars != Some(Sum(g.candidateNums + [number]))
    modifies g
    ensures g.Valid()
    ensures g.candidateNums == old(g.candidateNums) && g.availableNums == old(g.availableNums)
    ensures g.stars == old(g.stars) && g.secondsLeft == old(g.secondsLeft)
  {
    g.OnNumberClick(number, u);
    assert g.NumberStatus(number) != Used && g.NumberStatus(number) != Available;
    ToggleTwice(old(g.candidateNums), number, g.NumberStatus(number));
    g.OnNumberClick(number, u');
  }
}
