/**
 * The palindrome filter: a reader R hands lines of a file, one at a time,
 * through a shared buffer to a palindrome-check thread P, which passes palindromes on to a
 * writer W and gives control back to R otherwise.  The three semaphores
 * sem[R] (initially 1), sem[P] and sem[W] (initially 0) pass a single token
 * around, so exactly one thread owns the buffer at any time.
 */
module PalindromeFilter {
  import opened SeqReversal

  /** BUFFER_SIZE: the length of the reader's line buffer and of the shared buffer. */
  const BufferSize: nat := 4096

  /** Indices of the three semaphores (the thread_i enumeration). */
  const R: nat := 0
  const P: nat := 1
  const W: nat := 2

  /** A string reads the same backwards. */
  predicate IsPalindromic(s: string) {
    s == Reversed(s)
  }

  /** The pairwise comparison is_palindrome performs decides exactly palindromes. */
  lemma MirrorsIffPalindromic(s: string)
    ensures IsPalindromic(s) <==> forall i :: 0 <= i < |s| / 2 ==> s[i] == s[|s| - 1 - i]
  {
    ReversedMirrors(s);
    if forall i :: 0 <= i < |s| / 2 ==> s[i] == s[|s| - 1 - i] {
      forall k | 0 <= k < |s|
        ensures Reversed(s)[k] == s[k]
      {
        if k >= |s| / 2 {
          assert s[|s| - 1 - k] == s[|s| - 1 - (|s| - 1 - k)];
        }
      }
      assert Reversed(s) == s;
    }
  }

  /**
   * is_palindrome: compares str[i] with str[len - i - 1] for i below len / 2
   * and answers false at the first pair that differs.
   */
  method IsPalindrome(str: string) returns (b: bool)
    ensures b <==> IsPalindromic(str)
    ensures b <==> forall i :: 0 <= i < |str| / 2 ==> str[i] == str[|str| - 1 - i]
    ensures |str| <= 1 ==> b
  {
    MirrorsIffPalindromic(str);
    var i := 0;
    while i < |str| / 2
      invariant 0 <= i <= |str| / 2
      invariant forall k :: 0 <= k < i ==> str[k] == str[|str| - 1 - k]
    {
      if str[i] != str[|str| - i - 1] {
        return false;
      }
      i := i + 1;
    }
    return true;
  }

  /** strlen: the index of the first NUL. */
  function Strlen(s: seq<char>): (n: nat)
    requires '\0' in s
    ensures n < |s| && s[n] == '\0'
    ensures forall k :: 0 <= k < n ==> s[k] != '\0'
  {
    if s[0] == '\0' then 0 else 1 + Strlen(s[1..])
  }

  /** A NUL with no NUL before it is where strlen stops. */
  lemma StrlenAt(s: seq<char>, n: nat)
    requires n < |s| && s[n] == '\0'
    requires forall k :: 0 <= k < n ==> s[k] != '\0'
    ensures Strlen(s) == n
  {
  }

  /** The C string held by a NUL-terminated buffer. */
  function CString(s: seq<char>): (r: string)
    requires '\0' in s
    ensures |r| < |s| && r == s[..|r|] && s[|r|] == '\0'
    ensures '\0' !in r
  {
    s[..Strlen(s)]
  }

  /** The line fgets returned with one trailing newline, if any, removed. */
  function TrimNewline(line: string): (r: string)
    ensures |line| > 0 && line[|line| - 1] == '\n' ==> r + ['\n'] == line
    ensures !(|line| > 0 && line[|line| - 1] == '\n') ==> r == line
  {
    if |line| > 0 && line[|line| - 1] == '\n' then line[..|line| - 1] else line
  }

  /** Trimming keeps every character before the newline and never lengthens the line. */
  lemma TrimNewlineKeepsPrefix(line: string)
    ensures |TrimNewline(line)| <= |line|
    ensures TrimNewline(line) == line[..|TrimNewline(line)|]
    ensures |line| - 1 <= |TrimNewline(line)|
    ensures '\0' !in line ==> '\0' !in TrimNewline(line)
  {
  }

  /** Trimming after appending a newline gives back the line. */
  lemma TrimNewlineUndoesNewline(line: string)
    ensures TrimNewline(line + ['\n']) == line
  {
    assert (line + ['\n'])[..|line|] == line;
  }

  /**
   * The reader's trim on readerbuff: a newline just before the terminating
   * NUL becomes a NUL, and nothing else is written.
   */
  method TrimNewlineInPlace(buf: array<char>)
    requires '\0' in buf[..]
    modifies buf
    ensures '\0' in buf[..]
    ensures CString(buf[..]) == TrimNewline(old(CString(buf[..])))
    ensures var n := Strlen(old(buf[..]));
      if n > 0 && old(buf[n - 1]) == '\n' then buf[..] == old(buf[..])[n - 1 := '\0']
      else buf[..] == old(buf[..])
  {
    var n := Strlen(buf[..]);
    if n > 0 && buf[n - 1] == '\n' {
      buf[n - 1] := '\0';
      StrlenAt(buf[..], n - 1);
      assert buf[..][..n - 1] == old(buf[..])[..n][..n - 1];
    }
  }

  /** The trimmed content of every line of the file. */
  function TrimAll(lines: seq<string>): (r: seq<string>)
    ensures |r| == |lines|
    ensures forall k :: 0 <= k < |lines| ==> r[k] == TrimNewline(lines[k])
  {
    seq(|lines|, k requires 0 <= k < |lines| => TrimNewline(lines[k]))
  }

  /** Trimming one more line extends the trimmed file by that line. */
  lemma TrimAllStep(lines: seq<string>, i: nat)
    requires i < |lines|
    ensures TrimAll(lines[..i + 1]) == TrimAll(lines[..i]) + [TrimNewline(lines[i])]
  {
    assert lines[..i + 1][..i] == lines[..i];
  }

  /** The palindromic lines of a file, in file order: what the filter prints. */
  function PalindromicLines(lines: seq<string>): (r: seq<string>)
    ensures |r| <= |lines|
    ensures forall k :: 0 <= k < |r| ==> IsPalindromic(r[k])
    decreases |lines|
  {
    if |lines| == 0 then []
    else if IsPalindromic(lines[|lines| - 1]) then PalindromicLines(lines[..|lines| - 1]) + [lines[|lines| - 1]]
    else PalindromicLines(lines[..|lines| - 1])
  }

  /** A line is printed exactly when it is in the file and a palindrome. */
  lemma {:induction false} PalindromicLinesMembers(lines: seq<string>, s: string)
    ensures s in PalindromicLines(lines) <==> s in lines && IsPalindromic(s)
    decreases |lines|
  {
    if |lines| > 0 {
      var front := lines[..|lines| - 1];
      PalindromicLinesMembers(front, s);
      assert lines == front + [lines[|lines| - 1]];
    }
  }

  /** Filtering two parts of a file one after the other prints what filtering the whole file prints. */
  lemma {:induction false} PalindromicLinesAppend(a: seq<string>, b: seq<string>)
    ensures PalindromicLines(a + b) == PalindromicLines(a) + PalindromicLines(b)
    decreases |b|
  {
    if |b| == 0 {
      assert a + b == a;
    } else {
      var front := b[..|b| - 1];
      PalindromicLinesAppend(a, front);
      assert (a + b)[..|a + b| - 1] == a + front;
      assert (a + b)[|a + b| - 1] == b[|b| - 1];
    }
  }

  /** The shared structure: the buffer and the three semaphore counts. */
  class Shared {
    /** The C string in buffer[BUFFER_SIZE]. */
    var buffer: string
    var sem: array<nat>

    /** The lines R has copied into the buffer, in order. */
    ghost var read: seq<string>
    /** The lines W has printed, in order. */
    ghost var printed: seq<string>

    ghost predicate Valid()
      reads this, sem
    {
      && sem.Length == 3
      && sem[R] + sem[P] + sem[W] == 1
      && (forall k :: 0 <= k < |read| ==> '\0' !in read[k] && |read[k]| < BufferSize)
      && (sem[R] == 1 ==> printed == PalindromicLines(read))
      && (sem[P] == 1 ==> |read| > 0 && buffer == read[|read| - 1]
                          && printed == PalindromicLines(read[..|read| - 1]))
      && (sem[W] == 1 ==> |read| > 0 && buffer == read[|read| - 1] && IsPalindromic(buffer)
                          && printed + [buffer] == PalindromicLines(read))
    }

    /** init_shared: the token starts with R. */
    constructor ()
      ensures Valid() && fresh(sem)
      ensures sem[..] == [1, 0, 0]
      ensures buffer == [] && read == [] && printed == []
    {
      var counts := new nat[3];
      counts[R], counts[P], counts[W] := 1, 0, 0;
      sem := counts;
      buffer := [];
      read, printed := [], [];
    }

    /** R: down(sem[R]), copy the trimmed line into the buffer, up(sem[P]). */
    method ReaderInsert(line: string)
      requires Valid() && sem[R] > 0
      requires '\0' !in line && |line| < BufferSize
      modifies this, sem
      ensures Valid()
      ensures buffer == line && read == old(read) + [line] && printed == old(printed)
      ensures sem[..] == [0, 1, 0]
      ensures sem == old(sem)
    {
      sem[R] := sem[R] - 1;
      buffer := line;
      read := read + [line];
      assert read[..|read| - 1] == old(read);
      sem[P] := sem[P] + 1;
    }

    /** P: down(sem[P]); a palindrome goes on to W, anything else hands the buffer back to R. */
    method PalindromeCheck()
      requires Valid() && sem[P] > 0
      modifies sem
      ensures Valid()
      ensures IsPalindromic(buffer) ==> sem[..] == [0, 0, 1]
      ensures !IsPalindromic(buffer) ==> sem[..] == [1, 0, 0]
      ensures buffer == old(buffer) && read == old(read) && printed == old(printed)
    {
      sem[P] := sem[P] - 1;
      var palindrome := IsPalindrome(buffer);
      if palindrome {
        sem[W] := sem[W] + 1;
      } else {
        sem[R] := sem[R] + 1;
      }
    }

    /** W: down(sem[W]), print the buffer, up(sem[R]). */
    method WriterPrint() returns (line: string)
      requires Valid() && sem[W] > 0
      modifies this, sem
      ensures Valid()
      ensures line == old(buffer) && IsPalindromic(line)
      ensures printed == old(printed) + [line] && read == old(read) && buffer == old(buffer)
      ensures sem[..] == [1, 0, 0]
      ensures sem == old(sem)
    {
      sem[W] := sem[W] - 1;
      line := buffer;
      printed := printed + [line];
      sem[R] := sem[R] + 1;
    }
  }

  /**
   * One line's trip: R copies it into the buffer, P checks it, and W prints
   * it when it is a palindrome, after which the token is back with R.
   */
  method FilterLine(sh: Shared, line: string) returns (printed: seq<string>)
    requires sh.Valid() && sh.sem[R] == 1
    requires '\0' !in line && |line| < BufferSize
    modifies sh, sh.sem
    ensures sh.Valid() && sh.sem[R] == 1 && sh.sem == old(sh.sem)
    ensures printed == (if IsPalindromic(line) then [line] else [])
    ensures sh.read == old(sh.read) + [line] && sh.printed == old(sh.printed) + printed
  {
    sh.ReaderInsert(line);
    sh.PalindromeCheck();
    if sh.sem[W] > 0 {
      var shown := sh.WriterPrint();
      printed := [shown];
    } else {
      printed := [];
    }
  }

  /**
   * The three threads run over a whole file in the one order the token
   * allows: the printed lines are the palindromic lines of the file, in
   * order, each without its newline.
   */
  method Filter(lines: seq<string>) returns (out: seq<string>)
    requires forall k :: 0 <= k < |lines| ==> '\0' !in lines[k] && |lines[k]| < BufferSize
    ensures out == PalindromicLines(TrimAll(lines))
  {
    var sh := new Shared();
    out := [];
    var i := 0;
    while i < |lines|
      invariant 0 <= i <= |lines|
      invariant fresh(sh) && fresh(sh.sem)
      invariant sh.Valid() && sh.sem[R] == 1
      invariant sh.read == TrimAll(lines[..i]) && out == sh.printed
    {
      var line := TrimNewline(lines[i]);
      TrimNewlineKeepsPrefix(lines[i]);
      TrimAllStep(lines, i);
      var printed := FilterLine(sh, line);
      out := out + printed;
      i := i + 1;
    }
    assert lines[..|lines|] == lines;
    assert sh.read == TrimAll(lines);
  }
}
