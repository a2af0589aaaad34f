# Threading demos in Dafny

This project models the shared-state core of a collection of POSIX-thread
demonstration programs written in C. Each program wraps a small shared data
structure in a mutex with condition variables, or in semaphores:

- **Bounded buffer** (`prod_cons_sem_t.c`). Producers put random items (1..99)
  into a 10-slot circular buffer. Consumers take them out and put the neutral
  value 0 back. The semaphores `empty` and `full` count free and used slots.
  Each side stops at 100 items.
- **Reverse map** (`reverse_map_cond_t.c`, `reverse_map_sem_t.c`). One thread
  per file reverses the file's bytes in a memory mapping. It then puts the
  file's path into a 4-slot circular buffer of paths. A `print_file` thread
  takes the paths out in order. One variant uses a mutex and two condition
  variables, the other uses `empty`/`full` semaphores.
- **Chinese morra** (`chinese_morra_cond_t.c`, `chinese_morra_sem_t.c`). A judge
  lets two players make a move: rock, paper or scissors. It decides each game
  with `checkWinner`, and a draw replays the game. A scoreboard counts the
  wins, and after `games_num` decided games it announces the final verdict.
  One variant hands control over with `do_move[2]`/`show_score` flags under a
  mutex, the other with four semaphores.
- **Palindrome filter** (`palindrome_filter.c`). A reader trims each line of a
  file and copies it into a shared buffer. A palindrome-check thread passes palindromes to a
  writer, which prints them. Anything else goes back to the reader. Three
  semaphores pass one token around.

There is one module per program, plus five shared modules:

- `SeqReversal` defines the reverse of a sequence. The reverse-map programs
  reverse files and the palindrome test compares a line with its reverse.
- `FileReversal` holds the swap loop, which both reverse-map programs share.
- `CircularSlots` describes which slot of a circular buffer holds which item.
- `Morra` holds the game rules, which both morra programs share.
- `Wrappers` holds `Option`.

Every shared structure is a `class`. Its `Valid()` invariant relates the
counters, cursors and semaphore counts to ghost histories:

- the items produced and consumed;
- the paths inserted and taken;
- the winners decided;
- the lines read and printed.

Each locked region becomes one method. The condition a thread waits for
before it may enter becomes that method's `requires`. For a semaphore, this
is that its count is positive. Each method states its whole new state and
keeps `Valid()`. Lemmas draw the program-level consequences from `Valid()`:

- FIFO delivery;
- a drained buffer is back to neutral;
- scores add up to the games played;
- the printed lines are exactly the palindromic ones.

Driver methods chain the steps in an order the synchronisation allows. A
whole morra match announces the verdict of its first `games_num` decided
games. A whole file run through the filter prints exactly its palindromic
lines.

## Model

| member | source | states |
|---|---|---|
| SeqReversal.ReversedMirrors | threads/pthread-exercises/reverse-map/reverse_map_cond_t.c:107-111 | the reversal of a sequence has the same length and puts `s[len-1-k]` at position `k`, the pairing the swap loop uses |
| SeqReversal.ReversedInvolutive | threads/pthread-exercises/reverse-map/reverse_map_cond_t.c:107-111 | reversing twice gives back the original contents |
| FileReversal.ReverseInPlace | threads/pthread-exercises/reverse-map/reverse_map_cond_t.c:107-111 | for a file whose half size fits the `int` counter `i`, the swap loop over `i < size/2` with a temporary leaves the mapped region holding exactly the reverse of its old contents (also reverse_map_sem_t.c:105-109) |
| FileReversal.ReverseTwice | threads/pthread-exercises/reverse-map/reverse_map_sem_t.c:105-109 | running the reversal twice on a file restores its contents |
| CircularSlots.CursorStep | threads/producer-consumer/prod_cons_sem_t.c:106 | advancing a cursor mod the capacity keeps it equal to the number of steps taken, mod the capacity |
| CircularSlots.CursorGap | threads/producer-consumer/prod_cons_sem_t.c:106 | with fewer than `cap` items outstanding, the distance from the read cursor to the write cursor is the number of outstanding items |
| CircularSlots.HeldAtReadCursor | threads/producer-consumer/prod_cons_sem_t.c:139 | when the buffer is not empty, the slot under the read cursor holds the oldest item not yet taken |
| CircularSlots.HeldAfterInsert | threads/producer-consumer/prod_cons_sem_t.c:103-107 | an insert at the write cursor makes that slot hold the new item and leaves every other slot's item unchanged |
| CircularSlots.HeldAfterRemove | threads/producer-consumer/prod_cons_sem_t.c:139-144 | a removal at the read cursor frees that slot only, and every other slot keeps its item |
| CircularSlots.ShowsAfterInsert | threads/pthread-exercises/reverse-map/reverse_map_cond_t.c:138-140 | writing a path into the write cursor's slot keeps every waiting path in its slot and adds the new one as the newest |
| CircularSlots.ShowsAfterRemove | threads/pthread-exercises/reverse-map/reverse_map_cond_t.c:180-182 | the read cursor's slot holds the oldest waiting path, and after it is taken every other waiting path is still in its slot |
| ProducerConsumer.SlotsAfterProduce | threads/producer-consumer/prod_cons_sem_t.c:103-107 | writing the new item at `in` keeps every slot showing the unconsumed items in order and the neutral value elsewhere, now with one more item |
| ProducerConsumer.SlotsAfterConsume | threads/producer-consumer/prod_cons_sem_t.c:139-144 | slot `out` held the oldest unconsumed item; once it is set to the neutral value the slots show the remaining items and the neutral value elsewhere |
| ProducerConsumer.SharedData.constructor | threads/producer-consumer/prod_cons_sem_t.c:49-55 | every slot holds `NEUTRAL_VALUE`; `in`, `out`, `produced_items` and `consumed_items` are 0; `empty = BUFFER_SIZE` and `full = 0` |
| ProducerConsumer.SharedData.Produce | threads/producer-consumer/prod_cons_sem_t.c:96-117 | below the target: writes only `buffer[in]`, advances `in` mod 10 and counts the item. At the target: changes no slot, cursor or counter. Either way `empty` is one less, `full` one more, and the invariant holds |
| ProducerConsumer.SharedData.Consume | threads/producer-consumer/prod_cons_sem_t.c:132-154 | below the target: returns the old `buffer[out]`, which is the oldest unconsumed item and lies in 1..99. It resets that slot to 0, advances `out` mod 10 and counts the item. At the target: a no-op. Either way `full` is one less and `empty` one more |
| ProducerConsumer.DrainedBufferIsNeutral | threads/producer-consumer/prod_cons_sem_t.c:102-144 | once 100 items are produced and 100 consumed, every slot is neutral again, both cursors are back at 0, and the consumers took exactly the produced items in order |
| ProducerConsumer.NeutralMarksFreeSlots | threads/producer-consumer/prod_cons_sem_t.c:51-52 | a slot holds the neutral value exactly when it holds no outstanding item |
| ProducerConsumer.CursorsInRange | threads/producer-consumer/prod_cons_sem_t.c:102-107 | the cursors stay inside the array; at most 10 items are outstanding; producers never exceed the 100-item target |
| ReverseMapCond.SharedData.constructor | threads/pthread-exercises/reverse-map/reverse_map_cond_t.c:46-51 | cursors and the three path counters start at 0, and `paths_num` is recorded |
| ReverseMapCond.SharedData.Insert | threads/pthread-exercises/reverse-map/reverse_map_cond_t.c:131-142 | entered only when the buffer is not full. Writes the path into slot `in` only, advances `in` mod 4, and counts the path in `paths_to_produce` and `current_paths_num` |
| ReverseMapCond.SharedData.TakePath | threads/pthread-exercises/reverse-map/reverse_map_cond_t.c:165-184 | entered once a path is waiting or all paths were produced. Once `paths_to_consume == paths_num` it returns nothing and changes nothing. Otherwise it returns the oldest untaken path from slot `out`, advances `out` mod 4, and moves the counters |
| ReverseMapCond.TakenSlotIsFilled | threads/pthread-exercises/reverse-map/reverse_map_cond_t.c:165-181 | past the wait and the exit check, at least one path is waiting, and slot `out` holds the oldest untaken path |
| ReverseMapCond.RelayIsFifo | threads/pthread-exercises/reverse-map/reverse_map_cond_t.c:172-184 | when every path was produced and taken, `print_file` took exactly the inserted paths in insertion order, and the buffer is empty |
| ReverseMapCond.ReverseFile | threads/pthread-exercises/reverse-map/reverse_map_cond_t.c:101-142 | an empty file fails `mmap` and the thread returns with the relay untouched. Any other file ends up reversed, and its path is inserted exactly as `Insert` states: slot `in`, the cursor and both counters. `out`, `paths_to_consume`, `paths_num` and the paths taken never change |
| ReverseMapSem.SharedData.constructor | threads/pthread-exercises/reverse-map/reverse_map_sem_t.c:45-58 | cursors and `paths_to_consume` start at 0, `empty = BUFFER_SIZE` and `full = 0` |
| ReverseMapSem.SharedData.Insert | threads/pthread-exercises/reverse-map/reverse_map_sem_t.c:125-141 | after `down(empty)`: writes slot `in` only, advances `in` mod 4, then `up(full)` |
| ReverseMapSem.SharedData.TakePath | threads/pthread-exercises/reverse-map/reverse_map_sem_t.c:151-170 | after `down(full)`: returns the oldest untaken path from slot `out`, advances `out` mod 4 and counts it, then `up(empty)` |
| ReverseMapSem.SemaphoresGuardSlots | threads/pthread-exercises/reverse-map/reverse_map_sem_t.c:125-160 | both counts stay within 0..4. A positive `empty` means a slot is free. A positive `full` means slot `out` holds the oldest untaken path |
| ReverseMapSem.RelayIsFifo | threads/pthread-exercises/reverse-map/reverse_map_sem_t.c:151-162 | once all `paths_num` paths were inserted and consumed, they were received in insertion order and the semaphores are back to their initial counts |
| ReverseMapSem.ReverseFile | threads/pthread-exercises/reverse-map/reverse_map_sem_t.c:99-141 | an empty file fails `mmap` and the thread returns with the relay untouched. Any other file ends up reversed, and its path is inserted exactly as `Insert` states: slot `in`, the cursor and `empty`/`full`. `out`, `paths_to_consume`, `paths_num` and the paths taken never change |
| Morra.MoveType | threads/pthread-exercises/chinese-morra/chinese_morra_cond_t.c:24 | `moves_type[i]` for `i` in 0..2 is the move with index `i` (rock, paper, scissors) |
| Morra.CheckWinner | threads/pthread-exercises/chinese-morra/chinese_morra_cond_t.c:111-124 | the result is one of -1, 0 and 1, and it is -1 exactly on equal moves (also chinese_morra_sem_t.c:95-108) |
| Morra.CheckWinnerFollowsCycle | threads/pthread-exercises/chinese-morra/chinese_morra_cond_t.c:111-124 | 0 exactly when P1's move beats P2's under the cyclic rule (rock beats scissors, paper beats rock, scissors beat paper); 1 exactly when P2's move beats P1's |
| Morra.CheckWinnerSwap | threads/pthread-exercises/chinese-morra/chinese_morra_sem_t.c:95-108 | swapping the players of a non-draw swaps the winner |
| Morra.FinalVerdict | threads/pthread-exercises/chinese-morra/chinese_morra_cond_t.c:218-225 | a draw exactly on equal scores, P1 exactly when its score is higher, P2 exactly when lower (also chinese_morra_sem_t.c:178-185) |
| Morra.WinsAddUp | threads/pthread-exercises/chinese-morra/chinese_morra_sem_t.c:166 | over decided games, P1's wins plus P2's wins is the number of games |
| Morra.WinsAppend | threads/pthread-exercises/chinese-morra/chinese_morra_cond_t.c:201 | one more game won by `w` adds one to `w`'s wins only |
| Morra.Decided | threads/pthread-exercises/chinese-morra/chinese_morra_cond_t.c:151-169 | the games a sequence of rounds decides: at most one per round, each won by P1 or P2, draws left out |
| Morra.DecidedAppend | threads/pthread-exercises/chinese-morra/chinese_morra_cond_t.c:130-174 | the rounds of two stretches of play decide the games of the first and then those of the second |
| MorraCond.Match.constructor | threads/pthread-exercises/chinese-morra/chinese_morra_cond_t.c:45-66 | `winner = -1`, no game ended, both `do_move` flags and `show_score` false, and both scores 0 (line 186) |
| MorraCond.Match.JudgeStartRound | threads/pthread-exercises/chinese-morra/chinese_morra_cond_t.c:130-142 | while games remain, the judge raises both `do_move` flags and changes nothing else |
| MorraCond.Match.PlayerTurn | threads/pthread-exercises/chinese-morra/chinese_morra_cond_t.c:85-103 | entered with its `do_move` flag raised. When all games are ended the player leaves and changes nothing. Otherwise it writes only its own move, `moves_type[draw % 3]` for its `rand()` value `draw`, and clears only its own flag |
| MorraCond.Match.JudgeDecide | threads/pthread-exercises/chinese-morra/chinese_morra_cond_t.c:145-160 | entered with both flags cleared, so both players' moves of this round are in. `winner` is `checkWinner` of them. A winner ends one more game and raises `show_score`; a draw changes no counter |
| MorraCond.Match.ScoreboardUpdate | threads/pthread-exercises/chinese-morra/chinese_morra_cond_t.c:195-209 | entered with `show_score` raised. It adds one win to the last game's winner only and clears `show_score` |
| MorraCond.Match.JudgeScoreShown | threads/pthread-exercises/chinese-morra/chinese_morra_cond_t.c:163-166 | entered with `show_score` cleared; the judge returns to the top of its loop and nothing else changes |
| MorraCond.Match.JudgeEndMatch | threads/pthread-exercises/chinese-morra/chinese_morra_cond_t.c:177-181 | after the last game the judge raises both flags so that the players reach their exit branch |
| MorraCond.Match.FinalScore | threads/pthread-exercises/chinese-morra/chinese_morra_cond_t.c:216-225 | after all games are scored, the two scores add up to `games_num`, each is that player's number of game wins, and the verdict follows the higher score |
| MorraCond.ScoresAddUp | threads/pthread-exercises/chinese-morra/chinese_morra_cond_t.c:155-201 | between steps, the scores add up to `ended_games`, less the one game still waiting for the scoreboard |
| MorraCond.PlayRound | threads/pthread-exercises/chinese-morra/chinese_morra_cond_t.c:130-174 | one pass of the judge's loop with the players and the scoreboard taking their turns. `winner` is the round's `checkWinner`; a win adds one game to the history and to `ended_games`, and a draw changes neither. The judge is back at the top of its loop |
| MorraCond.PlayRounds | threads/pthread-exercises/chinese-morra/chinese_morra_cond_t.c:130-174 | the judge's loop stops once `games_num` games are decided or the rounds run out; the decided games are exactly those of the rounds played |
| MorraCond.PlayMatch | threads/pthread-exercises/chinese-morra/chinese_morra_cond_t.c:130-225 | a whole match run through the methods above. With at least `games_num` decided rounds, both players reach their exit branch, and the scoreboard announces `FinalVerdict` of the two players' wins in the first `games_num` decided games. Otherwise the rounds run out first (none) |
| MorraSem.Match.constructor | threads/pthread-exercises/chinese-morra/chinese_morra_sem_t.c:42-65 | `winner = -1`, no game ended, all four semaphores 0, and both scores 0 (line 157) |
| MorraSem.Match.JudgeStartRound | threads/pthread-exercises/chinese-morra/chinese_morra_sem_t.c:114-121 | while games remain, `up(sem[PLAYER1])` and `up(sem[PLAYER2])` and nothing else |
| MorraSem.Match.PlayerTurn | threads/pthread-exercises/chinese-morra/chinese_morra_sem_t.c:79-91 | `down(sem[p])`. When all games are ended the player leaves. Otherwise it writes only its own move, `moves_type[draw % 3]` for its `rand()` value `draw`, and does `up(sem[JUDGE])` |
| MorraSem.Match.JudgeAwaitMove | threads/pthread-exercises/chinese-morra/chinese_morra_sem_t.c:124-127 | one of the judge's two `down(sem[JUDGE])` before it decides |
| MorraSem.Match.JudgeDecide | threads/pthread-exercises/chinese-morra/chinese_morra_sem_t.c:130-138 | after two tokens, both players' moves of this round are in. `winner` is `checkWinner` of them. A winner ends one more game and does `up(sem[SCOREBOARD])`; a draw changes no counter or semaphore |
| MorraSem.Match.ScoreboardUpdate | threads/pthread-exercises/chinese-morra/chinese_morra_sem_t.c:162-173 | `down(sem[SCOREBOARD])`, one more win for the last game's winner only, then `up(sem[JUDGE])` |
| MorraSem.Match.JudgeScoreShown | threads/pthread-exercises/chinese-morra/chinese_morra_sem_t.c:141-142 | the judge's `down(sem[JUDGE])` that waits for the score to be shown |
| MorraSem.Match.JudgeEndMatch | threads/pthread-exercises/chinese-morra/chinese_morra_sem_t.c:149-152 | after the last game, one token to each player so that they reach their exit branch |
| MorraSem.Match.FinalScore | threads/pthread-exercises/chinese-morra/chinese_morra_sem_t.c:176-186 | after all games are scored, the two scores add up to `games_num`, each is that player's number of game wins, and the verdict follows the higher score |
| MorraSem.ScoresAddUp | threads/pthread-exercises/chinese-morra/chinese_morra_sem_t.c:133-166 | between steps, the scores plus the pending `sem[SCOREBOARD]` token add up to `ended_games` |
| MorraSem.TwoTokensMeanBothMoved | threads/pthread-exercises/chinese-morra/chinese_morra_sem_t.c:124-130 | two tokens on `sem[JUDGE]` in a round can only come from both players having moved |
| MorraSem.PlayRound | threads/pthread-exercises/chinese-morra/chinese_morra_sem_t.c:114-146 | one pass of the judge's loop with the players and the scoreboard taking their turns on the four semaphores. `winner` is the round's `checkWinner`; a win adds one game to the history and to `ended_games`, and a draw changes neither. All semaphores are back at 0 |
| MorraSem.PlayRounds | threads/pthread-exercises/chinese-morra/chinese_morra_sem_t.c:114-146 | the judge's loop stops once `games_num` games are decided or the rounds run out; the decided games are exactly those of the rounds played |
| MorraSem.PlayMatch | threads/pthread-exercises/chinese-morra/chinese_morra_sem_t.c:114-186 | a whole match run through the methods above. With at least `games_num` decided rounds, both players reach their exit branch, and the scoreboard announces `FinalVerdict` of the two players' wins in the first `games_num` decided games. Otherwise the rounds run out first (none) |
| PalindromeFilter.MirrorsIffPalindromic | threads/pthread-exercises/palindrome-filter/palindrome_filter.c:94-102 | all pairs `s[i]`, `s[len-1-i]` with `i < len/2` agree exactly when the string equals its reverse |
| PalindromeFilter.IsPalindrome | threads/pthread-exercises/palindrome-filter/palindrome_filter.c:94-102 | true exactly when the string equals its reverse, i.e. exactly when no mirrored pair below `len/2` differs; always true for strings of length 0 or 1 |
| PalindromeFilter.Strlen | threads/pthread-exercises/palindrome-filter/palindrome_filter.c:71 | the index of the first NUL in a NUL-terminated buffer |
| PalindromeFilter.StrlenAt | threads/pthread-exercises/palindrome-filter/palindrome_filter.c:72 | a NUL with no NUL before it is where `strlen` stops, so the trim shortens the string by exactly one |
| PalindromeFilter.CString | threads/pthread-exercises/palindrome-filter/palindrome_filter.c:78 | the string a buffer holds is its prefix up to the first NUL and contains no NUL |
| PalindromeFilter.TrimNewline | threads/pthread-exercises/palindrome-filter/palindrome_filter.c:71-72 | a line ending in `'\n'` loses exactly that character; every other line is unchanged |
| PalindromeFilter.TrimNewlineKeepsPrefix | threads/pthread-exercises/palindrome-filter/palindrome_filter.c:71-72 | the trimmed line is a prefix of the line, at most one shorter, and has no NUL if the line had none |
| PalindromeFilter.TrimNewlineUndoesNewline | threads/pthread-exercises/palindrome-filter/palindrome_filter.c:71-72 | trimming a line with a newline appended gives back the line |
| PalindromeFilter.TrimNewlineInPlace | threads/pthread-exercises/palindrome-filter/palindrome_filter.c:71-72 | on `readerbuff`: the string it holds becomes the trimmed line. Only the byte before the terminator is written, and only when it is `'\n'` |
| PalindromeFilter.TrimAll | threads/pthread-exercises/palindrome-filter/palindrome_filter.c:70-72 | the reader's trim applied to every line of the file |
| PalindromeFilter.TrimAllStep | threads/pthread-exercises/palindrome-filter/palindrome_filter.c:70-72 | one more line read extends the trimmed file by that line's trim |
| PalindromeFilter.PalindromicLines | threads/pthread-exercises/palindrome-filter/palindrome_filter.c:1-11 | the output: no longer than the input and made of palindromes only |
| PalindromeFilter.PalindromicLinesMembers | threads/pthread-exercises/palindrome-filter/palindrome_filter.c:113-122 | a line is printed exactly when it occurs in the file and is a palindrome |
| PalindromeFilter.PalindromicLinesAppend | threads/pthread-exercises/palindrome-filter/palindrome_filter.c:70-83 | filtering a file line by line keeps file order: the output of two parts in turn is the output of the whole |
| PalindromeFilter.Shared.constructor | threads/pthread-exercises/palindrome-filter/palindrome_filter.c:40-57 | `sem[R] = 1`, `sem[P] = sem[W] = 0`, nothing read or printed |
| PalindromeFilter.Shared.ReaderInsert | threads/pthread-exercises/palindrome-filter/palindrome_filter.c:74-82 | `down(sem[R])`, the buffer becomes the line, `up(sem[P])`; the line joins the lines read |
| PalindromeFilter.Shared.PalindromeCheck | threads/pthread-exercises/palindrome-filter/palindrome_filter.c:110-122 | `down(sem[P])`; a palindromic buffer gives the token to W, any other buffer gives it back to R |
| PalindromeFilter.Shared.WriterPrint | threads/pthread-exercises/palindrome-filter/palindrome_filter.c:132-139 | `down(sem[W])`, prints the buffer, which is a palindrome, then `up(sem[R])` |
| PalindromeFilter.FilterLine | threads/pthread-exercises/palindrome-filter/palindrome_filter.c:70-139 | one line passes the reader, the palindrome check and, for a palindrome, writer: it joins the lines read, it is printed exactly when it is a palindrome, and the token is back with the reader |
| PalindromeFilter.Filter | threads/pthread-exercises/palindrome-filter/palindrome_filter.c:70-83 | running the three threads over a whole file prints exactly the file's trimmed palindromic lines, in file order |

## Left out

- Threads and blocking: thread creation and joining, and the mutex,
  condition-variable and semaphore calls themselves. Each locked region is one
  atomic method, and each wait is that method's precondition.
- Atomic semaphore steps: in the semaphore variants, the `down` before a
  region, the region itself and the `up` after it form one step. A thread
  blocked between `down(empty)` and `down(mutex)` is therefore not a state of
  the model.
- Liveness, deadlock freedom and fairness are not stated.
- Unlocked loop guards: these read shared counters outside any lock.
  - prod_cons_sem_t.c lines 92 and 130;
  - the morra judge and scoreboard loops, chinese_morra_cond_t.c lines 130
    and 189 and chinese_morra_sem_t.c lines 114 and 160;
  - the palindrome threads' `ended_work` loops, palindrome_filter.c lines 108
    and 130.
- Scoreboard race: the scoreboard's guard can see `ended_games == games_num`
  as soon as the judge counts the last game. It then skips that game's
  score. The judge waits on `show_score`/`sem[JUDGE]` for it forever.
  `FinalScore` requires that the last game was scored, which is the intended
  order.
- Shutdown posts in the bounded buffer and the palindrome filter: the extra
  `sem_post(full)` of each producer (prod_cons_sem_t.c line 121), and
  `ended_work` with its two posts (palindrome_filter.c lines 85-91). They only
  serve to wake threads at exit. At that point the writer can print the
  stale last buffer again, even a non-palindrome. The morra end-of-match
  signals ARE modelled (`JudgeEndMatch`), because a player's exit branch is
  reachable only through them.
- File I/O and memory mapping: `open`, `fstat`/`lstat`, `mmap`/`munmap`,
  `fopen`/`fgets`, and their error returns. The mapped file is an input
  `array<char>`, and the input file is a sequence of lines as `fgets`
  returns them.
- `print_file`'s reading of each file, and all console output (`printf`,
  `puts`, `printBuffer`, `fprintf` on failed calls). The writer's print is
  its returned line.
- Randomness: the `rand()` items and the players' `rand()` values are method
  parameters. Items are required to lie in 1..99. A player's move is
  `moves_type[value % 3]`, as in the source.
- Argument parsing in every `main`: `strtol` checks, usage messages, and the
  thread counts taken from the command line.
- Path and line length: `strncpy` truncation at `PATH_MAX` or `BUFFER_SIZE`
  is excluded by a precondition that the string is shorter than the limit.
  The same holds for `fgets` splitting longer lines, and for lines with a NUL
  byte.
- Slot aliasing: `print_file` keeps the address of the slot after the lock is
  released (reverse_map_cond_t.c line 180, reverse_map_sem_t.c line 160).
  The model returns a copy of the path.
- In the reverse-map model, the slots' contents after a path is taken are
  left as they were. Only the occupied slots are constrained.
- C integer widths: the shared counters stay below twice `games_num`,
  `paths_num`, 100 or 4096, so only the modulo on the buffer cursors matters,
  and it is modelled. The one exception is the swap loop's `int i`, which
  counts to `st_size / 2`, an `off_t` (reverse_map_cond_t.c line 107,
  reverse_map_sem_t.c line 105). For a file of 4 GiB or more, `i++` overflows
  before the bound. `ReverseInPlace` and `ReverseFile` require
  `size / 2 <= INT_MAX`, so such files are outside the model.
- Empty files in the relay: `mmap` fails on a file of size 0, and that
  `reverse_file` returns without inserting its path (`ReverseFile` returns
  false). `paths_to_produce` then never reaches `paths_num`, and `print_file`
  waits forever. `RelayIsFifo` is stated for the runs in which every path
  was inserted. The model does not state that blocking.
- `open`, `fstat`, the regular-file test and `close`/`munmap` failures in
  `reverse_file` are file I/O and fall under the I/O item above.
- Match drivers: `PlayRound` runs the threads in one fixed order per round,
  and the players' random draws are the input of `PlayMatch`.
  - `MorraCond`: the judge opens the round, then P1 moves, then P2, then
    the judge decides, then the scoreboard counts a win, and the judge
    resumes.
  - `MorraSem`: the judge posts both players, then P1 moves, the judge
    takes P1's token, P2 moves, the judge takes P2's token, the judge
    decides, then the scoreboard counts a win, and the judge takes its
    token.
- TrimNewlineInPlace: guards the case `strlen == 0` and leaves the buffer
  unchanged there. The source reads `readerbuff[-1]` in that case, for a
  line that starts with a NUL byte. `TrimNewlineInPlace` accepts such a
  buffer. `Filter`, `FilterLine` and `ReaderInsert` require lines without
  NUL, so the out-of-bounds read is not reachable through them.
- The in-place trim is not on the driven path: `Filter` trims with the
  pure `TrimNewline`. `TrimNewlineInPlace` is proved to leave the same
  string in the buffer.
- Bytes: a Dafny `char` stands for one C byte. The palindrome comparison,
  `strlen`, the newline trim and the file reversal all act on bytes.
  Character encodings are left out. For multi-byte UTF-8 input, the C
  code reverses and compares bytes, not characters.
