/**
 * The Chinese morra match coordinated by four semaphores, all starting at 0:
 * sem[PLAYER1] and sem[PLAYER2] let a player move, sem[JUDGE] tells the judge
 * a move was made or the score was shown, sem[SCOREBOARD] asks for the score.
 * Each method is one wait on a semaphore and the code up to the next wait.
 */
module MorraSem {
  import opened Wrappers
  import opened Morra

  /** Indices of the four semaphores (the threads_name enumeration). */
  const Player1: nat := 0
  const Player2: nat := 1
  const JudgeSem: nat := 2
  const ScoreboardSem: nat := 3

  /** Where the judge thread is in its loop; received counts its completed waits on sem[JUDGE]. */
  datatype JudgeAt = Idle | AwaitingMoves(received: nat) | AwaitingScore | MatchOver

  class Match {
    var moves: array<Move>
    var winner: int
    var gamesNum: nat
    var endedGames: nat
    /** The counts of sem[4]. */
    var sem: array<nat>
    /** The scoreboard thread's own score[2]. */
    var score: array<nat>

    ghost var phase: JudgeAt
    /** The moves written by the players in the current round, by player index. */
    ghost var roundMoves: map<int, Move>
    /** The winner of every decided game, in order. */
    ghost var history: seq<int>

    /** How many players have moved in the current round. */
    ghost function Moved(): nat
      reads this
    {
      (if Player1 in roundMoves then 1 else 0) + (if Player2 in roundMoves then 1 else 0)
    }

    /** The winners the scoreboard has already counted, in order. */
    ghost var scored: seq<int>

    ghost predicate Valid()
      reads this, moves, sem, score
    {
      && moves.Length == 2 && sem.Length == 4 && score.Length == 2 && sem != score
      && endedGames <= gamesNum
      && |history| == endedGames
      && (forall i :: 0 <= i < |history| ==> IsDecided(history[i]))
      && -1 <= winner <= 1
      && roundMoves.Keys <= {Player1, Player2}
      && (Player1 in roundMoves ==> roundMoves[Player1] == moves[Player1])
      && (Player2 in roundMoves ==> roundMoves[Player2] == moves[Player2])
      && history == scored + (if sem[ScoreboardSem] > 0 then [winner] else [])
      && score[0] == Wins(scored, 0) && score[1] == Wins(scored, 1)
      && match phase
         case Idle =>
           sem[Player1] == 0 && sem[Player2] == 0 && sem[JudgeSem] == 0 && sem[ScoreboardSem] == 0
         case AwaitingMoves(received) =>
           && endedGames < gamesNum && sem[ScoreboardSem] == 0
           && sem[Player1] == (if Player1 in roundMoves then 0 else 1)
           && sem[Player2] == (if Player2 in roundMoves then 0 else 1)
           && received + sem[JudgeSem] == Moved()
         case AwaitingScore =>
           && sem[Player1] == 0 && sem[Player2] == 0 && sem[JudgeSem] + sem[ScoreboardSem] == 1
           && endedGames >= 1 && IsDecided(winner) && winner == history[|history| - 1]
         case MatchOver =>
           && endedGames == gamesNum
           && sem[Player1] <= 1 && sem[Player2] <= 1 && sem[JudgeSem] == 0 && sem[ScoreboardSem] == 0
    }

    /** init_shared together with the scoreboard's score[2] = {0}. */
    constructor (gamesNum: nat)
      ensures Valid() && fresh(moves) && fresh(sem) && fresh(score)
      ensures this.gamesNum == gamesNum && endedGames == 0 && winner == -1
      ensures sem[..] == [0, 0, 0, 0]
      ensures score[0] == 0 && score[1] == 0
      ensures phase == Idle && roundMoves == map[] && history == [] && scored == []
    {
      var counts := new nat[4];
      counts[Player1], counts[Player2], counts[JudgeSem], counts[ScoreboardSem] := 0, 0, 0, 0;
      var scores := new nat[2];
      scores[0], scores[1] := 0, 0;
      moves := new Move[2];
      sem, score := counts, scores;
      winner := -1;
      this.gamesNum := gamesNum;
      endedGames := 0;
      phase, roundMoves, history, scored := Idle, map[], [], [];
    }

    /** The judge opens a round while ended_games < games_num: up(sem[PLAYER1]), up(sem[PLAYER2]). */
    method JudgeStartRound()
      requires Valid() && phase == Idle && endedGames < gamesNum
      modifies this, sem
      ensures Valid() && phase == AwaitingMoves(0) && roundMoves == map[]
      ensures sem[..] == old(sem[..])[Player1 := 1][Player2 := 1]
      ensures endedGames == old(endedGames) && gamesNum == old(gamesNum) && winner == old(winner)
      ensures history == old(history) && scored == old(scored)
      ensures moves == old(moves) && sem == old(sem) && score == old(score)
    {
      sem[Player1] := sem[Player1] + 1;
      sem[Player2] := sem[Player2] + 1;
      phase, roundMoves := AwaitingMoves(0), map[];
    }

    /**
     * Player p (thread_i - 1): down(sem[p]); it leaves if every game was
     * played, otherwise it writes moves_type[draw % 3], where draw is its
     * rand() value, and does up(sem[JUDGE]).
     */
    method PlayerTurn(p: nat, draw: nat) returns (finished: bool)
      requires Valid() && p < 2 && sem[p] > 0
      modifies this, moves, sem
      ensures Valid()
      ensures finished <==> old(endedGames) == gamesNum
      ensures finished ==>
        && sem[..] == old(sem[..])[p := old(sem[p]) - 1]
        && moves[..] == old(moves[..]) && roundMoves == old(roundMoves)
      ensures !finished ==>
        && sem[..] == old(sem[..])[p := old(sem[p]) - 1][JudgeSem := old(sem[JudgeSem]) + 1]
        && moves[..] == old(moves[..])[p := MoveType(draw % 3)] && roundMoves == old(roundMoves)[p := MoveType(draw % 3)]
      ensures endedGames == old(endedGames) && gamesNum == old(gamesNum) && winner == old(winner)
      ensures phase == old(phase) && history == old(history) && scored == old(scored)
      ensures moves == old(moves) && sem == old(sem) && score == old(score)
    {
      if endedGames == gamesNum {
        assert phase == MatchOver;
        sem[p] := sem[p] - 1;
        return true;
      }
      assert phase.AwaitingMoves? && p !in roundMoves;
      var m := MoveType(draw % 3);
      sem[p], sem[JudgeSem] := sem[p] - 1, sem[JudgeSem] + 1;
      moves[p] := m;
      roundMoves := roundMoves[p := m];
      return false;
    }

    /** One of the judge's two down(sem[JUDGE]) before it checks the moves. */
    method JudgeAwaitMove()
      requires Valid() && phase.AwaitingMoves? && phase.received < 2 && sem[JudgeSem] > 0
      modifies this, sem
      ensures Valid() && phase == AwaitingMoves(old(phase.received) + 1)
      ensures sem[..] == old(sem[..])[JudgeSem := old(sem[JudgeSem]) - 1]
      ensures endedGames == old(endedGames) && gamesNum == old(gamesNum) && winner == old(winner)
      ensures history == old(history) && roundMoves == old(roundMoves) && scored == old(scored)
      ensures moves == old(moves) && sem == old(sem) && score == old(score)
    {
      sem[JudgeSem] := sem[JudgeSem] - 1;
      phase := AwaitingMoves(phase.received + 1);
    }

    /**
     * The judge after both waits: the two tokens it took came from the two
     * players, so both moves of this round are written.  A winner ends the
     * game and does up(sem[SCOREBOARD]); a draw replays the same game.
     */
    method JudgeDecide()
      requires Valid() && phase == AwaitingMoves(2)
      modifies this, sem
      ensures Valid()
      ensures Player1 in old(roundMoves) && Player2 in old(roundMoves)
      ensures winner == CheckWinner(old(roundMoves)[Player1], old(roundMoves)[Player2])
      ensures winner >= 0 ==>
        && endedGames == old(endedGames) + 1 && phase == AwaitingScore
        && sem[..] == old(sem[..])[ScoreboardSem := 1]
        && history == old(history) + [winner]
      ensures winner < 0 ==>
        && endedGames == old(endedGames) && phase == Idle
        && sem[..] == old(sem[..]) && history == old(history)
      ensures gamesNum == old(gamesNum) && roundMoves == old(roundMoves) && scored == old(scored)
      ensures moves == old(moves) && sem == old(sem) && score == old(score)
    {
      winner := CheckWinner(moves[Player1], moves[Player2]);
      if winner >= 0 {
        sem[ScoreboardSem] := sem[ScoreboardSem] + 1;
        endedGames, history, phase := endedGames + 1, history + [winner], AwaitingScore;
      } else {
        phase := Idle;
      }
    }

    /** The scoreboard: down(sem[SCOREBOARD]), one more win for the last winner, up(sem[JUDGE]). */
    method ScoreboardUpdate()
      requires Valid() && sem[ScoreboardSem] > 0
      modifies this, sem, score
      ensures Valid()
      ensures IsDecided(winner) && score[winner] == old(score[winner]) + 1 && score[1 - winner] == old(score[1 - winner])
      ensures sem[..] == old(sem[..])[ScoreboardSem := old(sem[ScoreboardSem]) - 1][JudgeSem := old(sem[JudgeSem]) + 1]
      ensures winner == old(winner) && endedGames == old(endedGames) && gamesNum == old(gamesNum)
      ensures phase == old(phase) && history == old(history) && roundMoves == old(roundMoves)
      ensures scored == old(scored) + [winner]
      ensures moves == old(moves) && sem == old(sem) && score == old(score)
    {
      WinsAppend(scored, winner);
      sem[ScoreboardSem] := sem[ScoreboardSem] - 1;
      score[winner] := score[winner] + 1;
      scored := scored + [winner];
      sem[JudgeSem] := sem[JudgeSem] + 1;
    }

    /** The judge's down(sem[JUDGE]) that waits for the score to be shown. */
    method JudgeScoreShown()
      requires Valid() && phase == AwaitingScore && sem[JudgeSem] > 0
      modifies this, sem
      ensures Valid() && phase == Idle
      ensures sem[..] == old(sem[..])[JudgeSem := old(sem[JudgeSem]) - 1]
      ensures endedGames == old(endedGames) && gamesNum == old(gamesNum) && winner == old(winner)
      ensures history == old(history) && roundMoves == old(roundMoves) && scored == old(scored)
      ensures moves == old(moves) && sem == old(sem) && score == old(score)
    {
      sem[JudgeSem] := sem[JudgeSem] - 1;
      phase := Idle;
    }

    /** The judge leaves its loop once ended_games == games_num and posts both players so they exit. */
    method JudgeEndMatch()
      requires Valid() && phase == Idle && !(endedGames < gamesNum)
      modifies this, sem
      ensures Valid() && phase == MatchOver && endedGames == gamesNum
      ensures sem[..] == old(sem[..])[Player1 := 1][Player2 := 1]
      ensures endedGames == old(endedGames) && gamesNum == old(gamesNum) && winner == old(winner)
      ensures history == old(history) && roundMoves == old(roundMoves) && scored == old(scored)
      ensures moves == old(moves) && sem == old(sem) && score == old(score)
    {
      sem[Player1] := sem[Player1] + 1;
      sem[Player2] := sem[Player2] + 1;
      phase := MatchOver;
    }

    /**
     * The scoreboard after its loop: with every game played and scored, the
     * two scores add up to games_num and the verdict follows the higher score.
     */
    method FinalScore() returns (v: Verdict)
      requires Valid() && endedGames == gamesNum && sem[ScoreboardSem] == 0
      ensures score[0] + score[1] == gamesNum
      ensures score[0] == Wins(history, 0) && score[1] == Wins(history, 1)
      ensures v == FinalVerdict(score[0], score[1])
    {
      assert scored + [] == scored;
      WinsAddUp(history);
      v := FinalVerdict(score[0], score[1]);
    }
  }

  /** Between steps, the scores add up to the decided games, the one the scoreboard is about to count aside. */
  lemma ScoresAddUp(m: Match)
    requires m.Valid()
    ensures m.score[0] + m.score[1] + m.sem[ScoreboardSem] == m.endedGames
  {
    assert forall i :: 0 <= i < |m.scored| ==> m.scored[i] == m.history[i];
    WinsAddUp(m.scored);
  }

  /** The judge's two tokens on sem[JUDGE] can only come from the two players, one each. */
  lemma TwoTokensMeanBothMoved(m: Match)
    requires m.Valid() && m.phase.AwaitingMoves? && m.phase.received + m.sem[JudgeSem] >= 2
    ensures Player1 in m.roundMoves && Player2 in m.roundMoves
    ensures m.sem[Player1] == 0 && m.sem[Player2] == 0
  {
  }

  /**
   * One pass of the judge's loop with the threads taking their turns: the
   * judge posts both players, P1 and P2 move on their random draws d, the
   * judge takes their two tokens and decides, and after a win the scoreboard
   * counts it and posts the judge, which takes that token.
   */
  method PlayRound(m: Match, d: (nat, nat)) returns (r: int)
    requires m.Valid() && m.phase == Idle && m.endedGames < m.gamesNum
    modifies m, m.moves, m.sem, m.score
    ensures m.Valid() && m.phase == Idle
    ensures r == RoundWinner(d)
    ensures r >= 0 ==> m.history == old(m.history) + [r] && m.endedGames == old(m.endedGames) + 1
    ensures r < 0 ==> m.history == old(m.history) && m.endedGames == old(m.endedGames)
    ensures m.gamesNum == old(m.gamesNum)
    ensures m.moves == old(m.moves) && m.sem == old(m.sem) && m.score == old(m.score)
  {
    m.JudgeStartRound();
    var finished1 := m.PlayerTurn(Player1, d.0);
    m.JudgeAwaitMove();
    var finished2 := m.PlayerTurn(Player2, d.1);
    m.JudgeAwaitMove();
    m.JudgeDecide();
    r := m.winner;
    if r >= 0 {
      m.ScoreboardUpdate();
      m.JudgeScoreShown();
    }
  }

  /**
   * The judge's loop over the rounds' draws: it plays rounds until games_num
   * games are decided or the rounds run out, and the decided games are those
   * of the rounds played.
   */
  method PlayRounds(m: Match, rounds: seq<(nat, nat)>) returns (i: nat)
    requires m.Valid() && m.phase == Idle && m.history == []
    modifies m, m.moves, m.sem, m.score
    ensures m.Valid() && m.phase == Idle && m.gamesNum == old(m.gamesNum)
    ensures i <= |rounds| && m.history == Decided(rounds[..i])
    ensures m.endedGames == m.gamesNum || i == |rounds|
    ensures m.moves == old(m.moves) && m.sem == old(m.sem) && m.score == old(m.score)
  {
    i := 0;
    while i < |rounds| && m.endedGames < m.gamesNum
      invariant i <= |rounds|
      invariant m.Valid() && m.phase == Idle && m.gamesNum == old(m.gamesNum)
      invariant m.moves == old(m.moves) && m.sem == old(m.sem) && m.score == old(m.score)
      invariant m.history == Decided(rounds[..i])
    {
      assert rounds[..i + 1][..i] == rounds[..i];
      var r := PlayRound(m, rounds[i]);
      i := i + 1;
    }
  }

  /**
   * A match of games_num games on the players' draws: the judge's loop until
   * games_num games are decided, the end-of-match posts on which both players
   * leave, and the scoreboard's final verdict on the first games_num decided
   * games — or None when the rounds run out first.
   */
  method PlayMatch(gamesNum: nat, rounds: seq<(nat, nat)>) returns (v: Option<Verdict>)
    ensures |Decided(rounds)| >= gamesNum ==>
      v == Some(FinalVerdict(Wins(Decided(rounds)[..gamesNum], 0), Wins(Decided(rounds)[..gamesNum], 1)))
    ensures |Decided(rounds)| < gamesNum ==> v == None
  {
    var m := new Match(gamesNum);
    var i := PlayRounds(m, rounds);
    DecidedAppend(rounds[..i], rounds[i..]);
    assert rounds[..i] + rounds[i..] == rounds;
    if m.endedGames < gamesNum {
      assert rounds[..i] == rounds;
      return None;
    }
    m.JudgeEndMatch();
    var finished1 := m.PlayerTurn(Player1, 0);
    var finished2 := m.PlayerTurn(Player2, 0);
    assert finished1 && finished2;
    var verdict := m.FinalScore();
    return Some(verdict);
  }
}
