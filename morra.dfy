/**
 * The rules of Chinese morra (rock, paper, scissors) and the scoreboard's
 * arithmetic, shared by the condition-variable and the semaphore variant of
 * the match program.
 */
module Morra {

  datatype Move = Rock | Paper | Scissors

  /** Position of a move in the moves_type table {"rock", "paper", "scissors"}. */
  function Index(m: Move): int
  {
    match m
    case Rock => 0
    case Paper => 1
    case Scissors => 2
  }

  /** moves_type[i]: the move a player picks from the random index i. */
  function MoveType(i: int): (m: Move)
    requires 0 <= i < 3
    ensures Index(m) == i
  {
    if i == 0 then Rock else if i == 1 then Paper else Scissors
  }

  /** Reference rule: a move beats the one just before it in the cycle rock, paper, scissors. */
  predicate Beats(a: Move, b: Move)
  {
    (Index(a) - Index(b)) % 3 == 1
  }

  /**
   * checkWinner: -1 for a draw, 0 when P1 won (rock on scissors, paper on
   * rock, scissors on paper), 1 otherwise.
   */
  function CheckWinner(p1: Move, p2: Move): (r: int)
    ensures -1 <= r <= 1
    ensures r == -1 <==> p1 == p2
  {
    if p1 == p2 then -1
    else if (p1 == Rock && p2 == Scissors) || (p1 == Paper && p2 == Rock) || (p1 == Scissors && p2 == Paper) then 0
    else 1
  }

  /** checkWinner agrees with the cyclic rule: 0 exactly when P1's move beats P2's, 1 exactly when P2's beats P1's. */
  lemma CheckWinnerFollowsCycle(p1: Move, p2: Move)
    ensures CheckWinner(p1, p2) == 0 <==> Beats(p1, p2)
    ensures CheckWinner(p1, p2) == 1 <==> Beats(p2, p1)
  {
  }

  /** Every unequal pair has exactly one winner, so swapping the players swaps 0 and 1. */
  lemma CheckWinnerSwap(p1: Move, p2: Move)
    requires p1 != p2
    ensures CheckWinner(p1, p2) in {0, 1}
    ensures CheckWinner(p2, p1) == 1 - CheckWinner(p1, p2)
  {
  }

  /** The match's final outcome as the scoreboard announces it. */
  datatype Verdict = DrawGame | WinnerP1 | WinnerP2

  /** Final verdict: a draw on equal scores, otherwise the player with the higher score. */
  function FinalVerdict(score1: int, score2: int): (v: Verdict)
    ensures v == DrawGame <==> score1 == score2
    ensures v == WinnerP1 <==> score1 > score2
    ensures v == WinnerP2 <==> score1 < score2
  {
    if score1 == score2 then DrawGame
    else if score1 > score2 then WinnerP1
    else WinnerP2
  }

  /** A decided game's winner: index 0 for P1, 1 for P2. */
  predicate IsDecided(w: int)
  {
    w == 0 || w == 1
  }

  /** How many games of the history the player with index w won. */
  function Wins(history: seq<int>, w: int): nat
  {
    if history == [] then 0
    else Wins(history[..|history| - 1], w) + (if history[|history| - 1] == w then 1 else 0)
  }

  /** Every decided game is scored for exactly one of the two players. */
  lemma {:induction false} WinsAddUp(history: seq<int>)
    requires forall i :: 0 <= i < |history| ==> IsDecided(history[i])
    ensures Wins(history, 0) + Wins(history, 1) == |history|
  {
    if history != [] {
      WinsAddUp(history[..|history| - 1]);
    }
  }

  /** Adding a decided game to the history scores one more win for its winner only. */
  lemma WinsAppend(history: seq<int>, w: int)
    ensures Wins(history + [w], w) == Wins(history, w) + 1
    ensures forall x :: x != w ==> Wins(history + [w], x) == Wins(history, x)
  {
    assert (history + [w])[..|history|] == history;
  }

  /** The game one round decides: checkWinner on the moves moves_type[d1 % 3] and moves_type[d2 % 3] drawn by P1 and P2. */
  function RoundWinner(d: (nat, nat)): int
  {
    CheckWinner(MoveType(d.0 % 3), MoveType(d.1 % 3))
  }

  /** The winners of the rounds that were not draws, in order: a draw decides nothing and the game is replayed. */
  function Decided(rounds: seq<(nat, nat)>): (w: seq<int>)
    ensures |w| <= |rounds|
    ensures forall i :: 0 <= i < |w| ==> IsDecided(w[i])
  {
    if rounds == [] then []
    else Decided(rounds[..|rounds| - 1]) + (if RoundWinner(rounds[|rounds| - 1]) >= 0 then [RoundWinner(rounds[|rounds| - 1])] else [])
  }

  /** Playing the rounds of a and then those of b decides the games of a and then those of b. */
  lemma {:induction false} DecidedAppend(a: seq<(nat, nat)>, b: seq<(nat, nat)>)
    ensures Decided(a + b) == Decided(a) + Decided(b)
    decreases |b|
  {
    if b != [] {
      var b' := b[..|b| - 1];
      assert (a + b)[..|a + b| - 1] == a + b';
      assert (a + b)[|a + b| - 1] == b[|b| - 1];
      DecidedAppend(a, b');
    } else {
      assert a + b == a;
    }
  }
}
