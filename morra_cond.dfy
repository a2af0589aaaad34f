/**
 * The Chinese morra match coordinated by one mutex and four condition
 * variables.  The judge raises do_move for both players, each player writes
 * its move and clears its flag, the judge decides the round and, when there
 * is a winner, raises show_score for the scoreboard and waits until the
 * scoreboard clears it.  Each method is one locked region between two waits;
 * the predicate waited on is the method's precondition.
 */
module MorraCond {
  import opened Wrappers
  import opened Morra

  /** Where the judge thread is in its loop. */
  datatype JudgeAt = Idle | AwaitingMoves | AwaitingScore | MatchOver

  class Match {
    var moves: array<Move>
    var winner: int
    var gamesNum: nat
    var endedGames: nat
    var doMove: array<bool>
    var showScore: bool
    /** The scoreboard thread's own score[2]. */
    var score: array<nat>

    ghost var phase: JudgeAt
    /** The moves written by the players in the current round, by player index. */
    ghost var roundMoves: map<int, Move>
    /** The winner of every decided game, in order. */
    ghost var history: seq<int>

    /** The winners the scoreboard has already counted, in order. */
    ghost var scored: seq<int>

    ghost predicate Valid()
      reads this, moves, doMove, score
    {
      && moves.Length == 2 && doMove.Length == 2 && score.Length == 2
      && endedGames <= gamesNum
      && |history| == endedGames
      && (forall i :: 0 <= i < |history| ==> IsDecided(history[i]))
      && -1 <= winner <= 1
      && roundMoves.Keys <= {0, 1}
      && (0 in roundMoves ==> roundMoves[0] == moves[0])
      && (1 in roundMoves ==> roundMoves[1] == moves[1])
      && history == scored + (if showScore then [winner] else [])
      && score[0] == Wins(scored, 0) && score[1] == Wins(scored, 1)
      && (showScore ==> phase == AwaitingScore)
      && match phase
         case Idle => !doMove[0] && !doMove[1]
         case AwaitingMoves =>
           && endedGames < gamesNum
           && (doMove[0] <==> 0 !in roundMoves) && (doMove[1] <==> 1 !in roundMoves)
         case AwaitingScore =>
           && !doMove[0] && !doMove[1]
           && endedGames >= 1 && IsDecided(winner) && winner == history[|history| - 1]
         case MatchOver => endedGames == gamesNum
    }

    /** init_shared together with the scoreboard's score[2] = {0}. */
    constructor (gamesNum: nat)
      ensures Valid() && fresh(moves) && fresh(doMove) && fresh(score)
      ensures this.gamesNum == gamesNum && endedGames == 0 && winner == -1
      ensures !doMove[0] && !doMove[1] && !showScore
      ensures score[0] == 0 && score[1] == 0
      ensures phase == Idle && roundMoves == map[] && history == [] && scored == []
    {
      var flags := new bool[2];
      flags[0], flags[1] := false, false;
      var counts := new nat[2];
      counts[0], counts[1] := 0, 0;
      moves := new Move[2];
      doMove, score := flags, counts;
      winner := -1;
      this.gamesNum := gamesNum;
      endedGames := 0;
      showScore := false;
      phase, roundMoves, history, scored := Idle, map[], [], [];
    }

    /** The judge opens a round while ended_games < games_num: it raises both do_move flags. */
    method JudgeStartRound()
      requires Valid() && phase == Idle && endedGames < gamesNum
      modifies this, doMove
      ensures Valid() && phase == AwaitingMoves
      ensures doMove[0] && doMove[1] && roundMoves == map[]
      ensures endedGames == old(endedGames) && gamesNum == old(gamesNum) && winner == old(winner)
      ensures showScore == old(showScore) && history == old(history) && scored == old(scored)
      ensures moves == old(moves) && doMove == old(doMove) && score == old(score)
    {
      doMove[0], doMove[1] := true, true;
      phase, roundMoves := AwaitingMoves, map[];
    }

    /**
     * Player p (thread_i - 1) once its do_move flag is raised: it leaves if
     * every game was played, otherwise it writes moves_type[draw % 3], where
     * draw is its rand() value, and clears its flag.
     */
    method PlayerTurn(p: int, draw: nat) returns (finished: bool)
      requires Valid() && 0 <= p < 2 && doMove[p]
      modifies this, moves, doMove
      ensures Valid()
      ensures finished <==> old(endedGames) == gamesNum
      ensures finished ==> moves[..] == old(moves[..]) && doMove[..] == old(doMove[..]) && roundMoves == old(roundMoves)
      ensures !finished ==>
        && moves[..] == old(moves[..])[p := MoveType(draw % 3)] && doMove[..] == old(doMove[..])[p := false]
        && roundMoves == old(roundMoves)[p := MoveType(draw % 3)]
      ensures endedGames == old(endedGames) && gamesNum == old(gamesNum) && winner == old(winner)
      ensures showScore == old(showScore) && phase == old(phase) && history == old(history) && scored == old(scored)
      ensures moves == old(moves) && doMove == old(doMove) && score == old(score)
    {
      if endedGames == gamesNum {
        return true;
      }
      var m := MoveType(draw % 3);
      moves[p] := m;
      doMove[p] := false;
      roundMoves := roundMoves[p := m];
      return false;
    }

    /**
     * The judge once both do_move flags are clear: it decides the round on
     * the two moves the players wrote in it.  A winner ends the game and wakes
     * the scoreboard; a draw leaves ended_games alone, so the game is replayed.
     */
    method JudgeDecide()
      requires Valid() && phase == AwaitingMoves && !doMove[0] && !doMove[1]
      modifies this
      ensures Valid()
      ensures 0 in old(roundMoves) && 1 in old(roundMoves)
      ensures winner == CheckWinner(old(roundMoves)[0], old(roundMoves)[1])
      ensures winner >= 0 ==>
        && endedGames == old(endedGames) + 1 && showScore && phase == AwaitingScore
        && history == old(history) + [winner]
      ensures winner < 0 ==>
        && endedGames == old(endedGames) && !showScore && phase == Idle
        && history == old(history)
      ensures gamesNum == old(gamesNum) && roundMoves == old(roundMoves) && scored == old(scored)
      ensures moves == old(moves) && doMove == old(doMove) && score == old(score)
    {
      winner := CheckWinner(moves[0], moves[1]);
      if winner >= 0 {
        endedGames, history, showScore, phase := endedGames + 1, history + [winner], true, AwaitingScore;
      } else {
        phase := Idle;
      }
    }

    /** The scoreboard once show_score is raised: one more win for the last winner, then it clears the flag. */
    method ScoreboardUpdate()
      requires Valid() && showScore
      modifies this, score
      ensures Valid() && !showScore
      ensures IsDecided(winner) && score[winner] == old(score[winner]) + 1 && score[1 - winner] == old(score[1 - winner])
      ensures winner == old(winner) && endedGames == old(endedGames) && gamesNum == old(gamesNum)
      ensures phase == old(phase) && history == old(history) && roundMoves == old(roundMoves)
      ensures scored == old(scored) + [winner]
      ensures moves == old(moves) && doMove == old(doMove) && score == old(score)
    {
      WinsAppend(scored, winner);
      score[winner] := score[winner] + 1;
      scored := scored + [winner];
      showScore := false;
    }

    /** The judge, woken with show_score cleared, releases the lock and goes round its loop. */
    method JudgeScoreShown()
      requires Valid() && phase == AwaitingScore && !showScore
      modifies this
      ensures Valid() && phase == Idle
      ensures endedGames == old(endedGames) && gamesNum == old(gamesNum) && winner == old(winner)
      ensures showScore == old(showScore) && history == old(history)
      ensures roundMoves == old(roundMoves) && scored == old(scored)
      ensures moves == old(moves) && doMove == old(doMove) && score == old(score)
    {
      phase := Idle;
    }

    /** The judge leaves its loop once ended_games == games_num and raises both do_move flags so the players exit. */
    method JudgeEndMatch()
      requires Valid() && phase == Idle && !(endedGames < gamesNum)
      modifies this, doMove
      ensures Valid() && phase == MatchOver
      ensures doMove[0] && doMove[1] && endedGames == gamesNum
      ensures endedGames == old(endedGames) && gamesNum == old(gamesNum) && winner == old(winner)
      ensures showScore == old(showScore) && history == old(history)
      ensures roundMoves == old(roundMoves) && scored == old(scored)
      ensures moves == old(moves) && doMove == old(doMove) && score == old(score)
    {
      doMove[0], doMove[1] := true, true;
      phase := MatchOver;
    }

    /**
     * The scoreboard after its loop: with every game played and scored, the
     * two scores add up to games_num and the verdict follows the higher score.
     */
    method FinalScore() returns (v: Verdict)
      requires Valid() && endedGames == gamesNum && !showScore
      ensures score[0] + score[1] == gamesNum
      ensures score[0] == Wins(history, 0) && score[1] == Wins(history, 1)
      ensures v == FinalVerdict(score[0], score[1])
    {
      assert scored + [] == scored;
      WinsAddUp(history);
      v := FinalVerdict(score[0], score[1]);
    }
  }

  /** Between steps, the scores add up to the decided games, the one the scoreboard is about to count aside. */
  lemma ScoresAddUp(m: Match)
    requires m.Valid()
    ensures m.score[0] + m.score[1] + (if m.showScore then 1 else 0) == m.endedGames
  {
    assert forall i :: 0 <= i < |m.scored| ==> m.scored[i] == m.history[i];
    WinsAddUp(m.scored);
  }

  /**
   * One pass of the judge's loop with the threads taking their turns: the
   * judge opens the round, P1 and P2 move on their random draws d, the judge
   * decides, and after a win the scoreboard counts it before the judge goes on.
   */
  method PlayRound(m: Match, d: (nat, nat)) returns (r: int)
    requires m.Valid() && m.phase == Idle && m.endedGames < m.gamesNum
    modifies m, m.moves, m.doMove, m.score
    ensures m.Valid() && m.phase == Idle && !m.showScore
    ensures r == RoundWinner(d)
    ensures r >= 0 ==> m.history == old(m.history) + [r] && m.endedGames == old(m.endedGames) + 1
    ensures r < 0 ==> m.history == old(m.history) && m.endedGames == old(m.endedGames)
    ensures m.gamesNum == old(m.gamesNum)
    ensures m.moves == old(m.moves) && m.doMove == old(m.doMove) && m.score == old(m.score)
  {
    m.JudgeStartRound();
    var finished1 := m.PlayerTurn(0, d.0);
    var finished2 := m.PlayerTurn(1, d.1);
    m.JudgeDecide();
    r := m.winner;
    if r >= 0 {
      m.ScoreboardUpdate();
      m.JudgeScoreShown();
    }
  }

  /**
   * The judge's loop over the rounds' draws: it plays rounds until games_num
   * games are decided or the rounds run out, and the decided games are those
   * of the rounds played.
   */
  method PlayRounds(m: Match, rounds: seq<(nat, nat)>) returns (i: nat)
    requires m.Valid() && m.phase == Idle && !m.showScore && m.history == []
    modifies m, m.moves, m.doMove, m.score
    ensures m.Valid() && m.phase == Idle && !m.showScore && m.gamesNum == old(m.gamesNum)
    ensures i <= |rounds| && m.history == Decided(rounds[..i])
    ensures m.endedGames == m.gamesNum || i == |rounds|
    ensures m.moves == old(m.moves) && m.doMove == old(m.doMove) && m.score == old(m.score)
  {
    i := 0;
    while i < |rounds| && m.endedGames < m.gamesNum
      invariant i <= |rounds|
      invariant m.Valid() && m.phase == Idle && !m.showScore && m.gamesNum == old(m.gamesNum)
      invariant m.moves == old(m.moves) && m.doMove == old(m.doMove) && m.score == old(m.score)
      invariant m.history == Decided(rounds[..i])
    {
      assert rounds[..i + 1][..i] == rounds[..i];
      var r := PlayRound(m, rounds[i]);
      i := i + 1;
    }
  }

  /**
   * A match of games_num games on the players' draws: the judge's loop until
   * games_num games are decided, the end-of-match wake-up on which both
   * players leave, and the scoreboard's final verdict on the first games_num
   * decided games — or None when the rounds run out first.
   */
  method PlayMatch(gamesNum: nat, rounds: seq<(nat, nat)>) returns (v: Option<Verdict>)
    ensures |Decided(rounds)| >= gamesNum ==>
      v == Some(FinalVerdict(Wins(Decided(rounds)[..gamesNum], 0), Wins(Decided(rounds)[..gamesNum], 1)))
    ensures |Decided(rounds)| < gamesNum ==> v == None
  {
    var m := new Match(gamesNum);
    var i := PlayRounds(m, rounds);
    DecidedAppend(rounds[..i], rounds[i..]);
    assert rounds[..i] + rounds[i..] == rounds;
    if m.endedGames < gamesNum {
      assert rounds[..i] == rounds;
      return None;
    }
    m.JudgeEndMatch();
    var finished1 := m.PlayerTurn(0, 0);
    var finished2 := m.PlayerTurn(1, 0);
    assert finished1 && finished2;
    var verdict := m.FinalScore();
    return Some(verdict);
  }
}
