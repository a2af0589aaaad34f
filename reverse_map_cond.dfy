/**
 * The file-path relay coordinated by one mutex and the condition variables
 * empty and full: paths_num reverse_file threads each reverse their file and
 * insert its path into a four-slot circular buffer, and one print_file thread
 * takes the paths out.  Each method is one locked region; the predicate a
 * thread waits on before it may go on is negated in the method's precondition.
 */
module ReverseMapCond {
  import opened Wrappers
  import opened CircularSlots
  import FileReversal
  import SeqReversal

  const BufferSize: nat := 4
  /** PATH_MAX on Linux, the size of every buffer slot. */
  const PathMax: nat := 4096

  class SharedData {
    var buffer: array<string>
    /** The write cursor (the program's in). */
    var inPos: nat
    /** The read cursor (the program's out). */
    var outPos: nat
    var pathsNum: nat
    var pathsToProduce: nat
    var pathsToConsume: nat
    var currentPathsNum: nat

    /** The paths inserted so far and the paths taken by print_file so far, in order. */
    ghost var inserted: seq<string>
    ghost var taken: seq<string>

    ghost predicate Valid()
      reads this, buffer
    {
      && buffer.Length == BufferSize
      && pathsToProduce == |inserted|
      && pathsToConsume == |taken|
      && pathsToConsume <= pathsToProduce
      && currentPathsNum == pathsToProduce - pathsToConsume
      && currentPathsNum <= BufferSize
      && pathsToConsume <= pathsNum
      && inPos == pathsToProduce % BufferSize
      && outPos == pathsToConsume % BufferSize
      && taken == inserted[..pathsToConsume]
      && Shows(BufferSize, buffer[..], inserted, pathsToConsume, pathsToProduce)
    }

    /** init_shared: both cursors and all three counters zero; the slots are left unspecified. */
    constructor (pathsNum: nat)
      ensures Valid() && fresh(buffer)
      ensures this.pathsNum == pathsNum
      ensures inPos == 0 && outPos == 0
      ensures pathsToProduce == 0 && pathsToConsume == 0 && currentPathsNum == 0
      ensures inserted == [] && taken == []
    {
      buffer := new string[BufferSize];
      inPos, outPos := 0, 0;
      this.pathsNum := pathsNum;
      pathsToProduce, pathsToConsume, currentPathsNum := 0, 0, 0;
      inserted, taken := [], [];
    }

    /**
     * The insert section of reverse_file, entered once current_paths_num ==
     * BUFFER_SIZE no longer holds: copy the path into slot in, advance in,
     * count the path as produced and as present.
     */
    method Insert(path: string)
      requires Valid() && currentPathsNum < BufferSize && |path| < PathMax
      modifies this, buffer
      ensures Valid() && buffer == old(buffer)
      ensures buffer[..] == old(buffer[..])[old(inPos) := path]
      ensures inPos == (old(inPos) + 1) % BufferSize
      ensures pathsToProduce == old(pathsToProduce) + 1
      ensures currentPathsNum == old(currentPathsNum) + 1
      ensures inserted == old(inserted) + [path]
      ensures outPos == old(outPos) && pathsToConsume == old(pathsToConsume) && pathsNum == old(pathsNum)
      ensures taken == old(taken)
    {
      ghost var (p, c, before) := (pathsToProduce, pathsToConsume, inserted);
      CursorStep(BufferSize, pathsToProduce);
      ShowsAfterInsert(BufferSize, buffer[..], before, c, p, path);
      buffer[inPos] := path;
      inPos, pathsToProduce, currentPathsNum, inserted := (inPos + 1) % BufferSize, pathsToProduce + 1, currentPathsNum + 1, inserted + [path];
    }

    /**
     * One iteration of print_file once its wait predicate (nothing present
     * and not every path produced yet) is false: if every path was already
     * consumed it leaves without touching the shared state, otherwise it takes
     * the path at out, advances out and counts it as consumed.
     */
    method TakePath() returns (path: Option<string>)
      requires Valid()
      requires !(currentPathsNum == 0 && pathsToProduce != pathsNum)
      modifies this
      ensures Valid()
      ensures old(pathsToConsume) == pathsNum ==>
        && path == None
        && outPos == old(outPos) && pathsToConsume == old(pathsToConsume)
        && currentPathsNum == old(currentPathsNum) && taken == old(taken)
      ensures old(pathsToConsume) != pathsNum ==>
        && old(currentPathsNum) >= 1
        && pathsToConsume == old(pathsToConsume) + 1
        && path == Some(old(buffer[outPos]))
        && path == Some(inserted[old(pathsToConsume)])
        && outPos == (old(outPos) + 1) % BufferSize
        && currentPathsNum == old(currentPathsNum) - 1
        && taken == old(taken) + [path.value]
      ensures buffer == old(buffer) && inPos == old(inPos) && pathsToProduce == old(pathsToProduce)
      ensures pathsNum == old(pathsNum) && inserted == old(inserted)
    {
      if pathsToConsume == pathsNum {
        return None;
      }
      ghost var (p, c) := (pathsToProduce, pathsToConsume);
      CursorStep(BufferSize, pathsToConsume);
      ShowsAfterRemove(BufferSize, buffer[..], inserted, c, p);
      var x := buffer[outPos];
      assert taken + [x] == inserted[..c + 1];
      outPos, pathsToConsume, currentPathsNum, taken := (outPos + 1) % BufferSize, pathsToConsume + 1, currentPathsNum - 1, taken + [x];
      path := Some(x);
    }
  }

  /**
   * A print_file thread that got past its wait and its exit check finds at
   * least one path present, so it never reads a slot nobody filled.
   */
  lemma TakenSlotIsFilled(sh: SharedData)
    requires sh.Valid()
    requires !(sh.currentPathsNum == 0 && sh.pathsToProduce != sh.pathsNum)
    requires sh.pathsToConsume != sh.pathsNum
    ensures sh.currentPathsNum >= 1
    ensures Held(BufferSize, sh.inserted, sh.pathsToConsume, sh.pathsToProduce, sh.outPos) == Some(sh.inserted[sh.pathsToConsume])
  {
    HeldAtReadCursor(BufferSize, sh.inserted, sh.pathsToConsume, sh.pathsToProduce);
  }

  /** When every path was produced and consumed, print_file printed exactly the inserted paths in order. */
  lemma RelayIsFifo(sh: SharedData)
    requires sh.Valid()
    requires sh.pathsToConsume == sh.pathsNum && sh.pathsToProduce == sh.pathsNum
    ensures sh.taken == sh.inserted && sh.currentPathsNum == 0 && sh.inPos == sh.outPos
  {
  }

  /**
   * The body of a reverse_file thread once its file is open: mmap refuses an
   * empty file and the thread returns without touching the relay; otherwise
   * it reverses the mapped region in place and inserts the file's path, after
   * waiting until the buffer is not full.
   */
  method ReverseFile(sh: SharedData, region: array<char>, path: string) returns (relayed: bool)
    requires sh.Valid() && |path| < PathMax
    requires region.Length > 0 ==> sh.currentPathsNum < BufferSize
    requires region.Length / 2 <= FileReversal.IntMax
    modifies sh, sh.buffer, region
    ensures sh.Valid() && sh.buffer == old(sh.buffer)
    ensures relayed <==> region.Length > 0
    ensures region[..] == SeqReversal.Reversed(old(region[..]))
    ensures relayed ==>
      && sh.buffer[..] == old(sh.buffer[..])[old(sh.inPos) := path]
      && sh.inPos == (old(sh.inPos) + 1) % BufferSize
      && sh.pathsToProduce == old(sh.pathsToProduce) + 1
      && sh.currentPathsNum == old(sh.currentPathsNum) + 1
      && sh.inserted == old(sh.inserted) + [path]
    ensures !relayed ==>
      && sh.buffer[..] == old(sh.buffer[..])
      && sh.inPos == old(sh.inPos)
      && sh.pathsToProduce == old(sh.pathsToProduce)
      && sh.currentPathsNum == old(sh.currentPathsNum)
      && sh.inserted == old(sh.inserted)
    ensures sh.outPos == old(sh.outPos) && sh.pathsToConsume == old(sh.pathsToConsume)
    ensures sh.pathsNum == old(sh.pathsNum) && sh.taken == old(sh.taken)
  {
    if region.Length == 0 {
      return false;
    }
    FileReversal.ReverseInPlace(region);
    sh.Insert(path);
    return true;
  }
}
