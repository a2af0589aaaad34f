/**
 * The file-path relay coordinated by the counting semaphores empty and full
 * and a binary semaphore mutex.  As in the bounded buffer, one method is one
 * wait, the mutex-protected region after it, and the post that closes it.
 */
module ReverseMapSem {
  import opened Wrappers
  import opened CircularSlots
  import FileReversal
  import SeqReversal

  const BufferSize: nat := 4
  /** PATH_MAX on Linux, the size of every buffer slot. */
  const PathMax: nat := 4096

  class SharedData {
    var buffer: array<string>
    /** The write cursor (the program's in). */
    var inPos: nat
    /** The read cursor (the program's out). */
    var outPos: nat
    var pathsNum: nat
    var pathsToConsume: nat
    /** The counts of the semaphores empty and full. */
    var empty: nat
    var full: nat

    /** The paths inserted so far and the paths taken by print_file so far, in order. */
    ghost var inserted: seq<string>
    ghost var taken: seq<string>

    ghost predicate Valid()
      reads this, buffer
    {
      && buffer.Length == BufferSize
      && pathsToConsume == |taken|
      && pathsToConsume <= |inserted|
      && pathsToConsume <= pathsNum
      && full == |inserted| - pathsToConsume
      && empty + full == BufferSize
      && inPos == |inserted| % BufferSize
      && outPos == pathsToConsume % BufferSize
      && taken == inserted[..pathsToConsume]
      && Shows(BufferSize, buffer[..], inserted, pathsToConsume, |inserted|)
    }

    /** init_shared: cursors and paths_to_consume zero, empty = BUFFER_SIZE, full = 0. */
    constructor (pathsNum: nat)
      ensures Valid() && fresh(buffer)
      ensures this.pathsNum == pathsNum
      ensures inPos == 0 && outPos == 0 && pathsToConsume == 0
      ensures empty == BufferSize && full == 0
      ensures inserted == [] && taken == []
    {
      buffer := new string[BufferSize];
      inPos, outPos := 0, 0;
      this.pathsNum := pathsNum;
      pathsToConsume := 0;
      empty, full := BufferSize, 0;
      inserted, taken := [], [];
    }

    /**
     * The insert section of reverse_file: down(empty), copy the path into
     * slot in and advance in under the mutex, up(full).
     */
    method Insert(path: string)
      requires Valid() && empty > 0 && |path| < PathMax
      modifies this, buffer
      ensures Valid() && buffer == old(buffer)
      ensures buffer[..] == old(buffer[..])[old(inPos) := path]
      ensures inPos == (old(inPos) + 1) % BufferSize
      ensures empty == old(empty) - 1 && full == old(full) + 1
      ensures inserted == old(inserted) + [path]
      ensures outPos == old(outPos) && pathsToConsume == old(pathsToConsume) && pathsNum == old(pathsNum)
      ensures taken == old(taken)
    {
      ghost var (p, c, before) := (|inserted|, pathsToConsume, inserted);
      CursorStep(BufferSize, p);
      ShowsAfterInsert(BufferSize, buffer[..], before, c, p, path);
      buffer[inPos] := path;
      inPos, inserted := (inPos + 1) % BufferSize, inserted + [path];
      empty, full := empty - 1, full + 1;
    }

    /**
     * One iteration of print_file's loop while paths_to_consume < paths_num:
     * down(full), take the path at out, advance out and count it under the
     * mutex, up(empty).
     */
    method TakePath() returns (path: string)
      requires Valid() && pathsToConsume < pathsNum && full > 0
      modifies this
      ensures Valid()
      ensures pathsToConsume == old(pathsToConsume) + 1
      ensures path == old(buffer[outPos]) && path == inserted[old(pathsToConsume)]
      ensures outPos == (old(outPos) + 1) % BufferSize
      ensures full == old(full) - 1 && empty == old(empty) + 1
      ensures taken == old(taken) + [path]
      ensures buffer == old(buffer) && inPos == old(inPos) && pathsNum == old(pathsNum) && inserted == old(inserted)
    {
      ghost var (p, c) := (|inserted|, pathsToConsume);
      CursorStep(BufferSize, c);
      ShowsAfterRemove(BufferSize, buffer[..], inserted, c, p);
      path := buffer[outPos];
      assert taken + [path] == inserted[..c + 1];
      outPos, pathsToConsume, taken := (outPos + 1) % BufferSize, pathsToConsume + 1, taken + [path];
      full, empty := full - 1, empty + 1;
    }
  }

  /**
   * The semaphore counts stay in range: a producer that passed down(empty)
   * finds a free slot, a consumer that passed down(full) finds a pending path.
   */
  lemma SemaphoresGuardSlots(sh: SharedData)
    requires sh.Valid()
    ensures 0 <= sh.empty <= BufferSize && 0 <= sh.full <= BufferSize
    ensures sh.empty > 0 ==> |sh.inserted| - sh.pathsToConsume < BufferSize
    ensures sh.full > 0 ==> Held(BufferSize, sh.inserted, sh.pathsToConsume, |sh.inserted|, sh.outPos) == Some(sh.inserted[sh.pathsToConsume])
  {
    if sh.full > 0 {
      HeldAtReadCursor(BufferSize, sh.inserted, sh.pathsToConsume, |sh.inserted|);
    }
  }

  /**
   * When each of the paths_num reverse_file threads has inserted its path
   * and print_file has left its loop, the paths printed are exactly the paths
   * inserted, in insertion order, and the buffer is empty again.
   */
  lemma RelayIsFifo(sh: SharedData)
    requires sh.Valid()
    requires |sh.inserted| == sh.pathsNum && sh.pathsToConsume == sh.pathsNum
    ensures sh.taken == sh.inserted
    ensures sh.full == 0 && sh.empty == BufferSize && sh.inPos == sh.outPos
  {
  }

  /**
   * The body of a reverse_file thread once its file is open: mmap refuses an
   * empty file and the thread returns without touching the relay; otherwise
   * it reverses the mapped region in place and inserts the file's path
   * between down(empty) and up(full).
   */
  method ReverseFile(sh: SharedData, region: array<char>, path: string) returns (relayed: bool)
    requires sh.Valid() && |path| < PathMax
    requires region.Length > 0 ==> sh.empty > 0
    requires region.Length / 2 <= FileReversal.IntMax
    modifies sh, sh.buffer, region
    ensures sh.Valid() && sh.buffer == old(sh.buffer)
    ensures relayed <==> region.Length > 0
    ensures region[..] == SeqReversal.Reversed(old(region[..]))
    ensures relayed ==>
      && sh.buffer[..] == old(sh.buffer[..])[old(sh.inPos) := path]
      && sh.inPos == (old(sh.inPos) + 1) % BufferSize
      && sh.empty == old(sh.empty) - 1 && sh.full == old(sh.full) + 1
      && sh.inserted == old(sh.inserted) + [path]
    ensures !relayed ==>
      && sh.buffer[..] == old(sh.buffer[..])
      && sh.inPos == old(sh.inPos)
      && sh.empty == old(sh.empty) && sh.full == old(sh.full)
      && sh.inserted == old(sh.inserted)
    ensures sh.outPos == old(sh.outPos) && sh.pathsToConsume == old(sh.pathsToConsume)
    ensures sh.pathsNum == old(sh.pathsNum) && sh.taken == old(sh.taken)
  {
    if region.Length == 0 {
      return false;
    }
    FileReversal.ReverseInPlace(region);
    sh.Insert(path);
    return true;
  }
}
