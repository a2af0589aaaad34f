/**
 * The in-place reversal that every reverse_file thread applies to the
 * memory-mapped contents of its file, identical in the condition-variable
 * and the semaphore variant of the relay program.
 */
module FileReversal {

  import opened SeqReversal

  /** The largest value of the C int loop counter. */
  const IntMax: nat := 0x7FFF_FFFF

  /**
   * The swap loop of reverse_file: position i and position size - i - 1 are
   * exchanged through a temporary for every i below size / 2.
   */
  method ReverseInPlace(region: array<char>)
    requires region.Length / 2 <= IntMax
    modifies region
    ensures region[..] == Reversed(old(region[..]))
  {
    var size := region.Length;
    for i := 0 to size / 2
      invariant forall k :: 0 <= k < i ==> region[k] == old(region[size - k - 1]) && region[size - k - 1] == old(region[k])
      invariant forall k :: i <= k < size - i ==> region[k] == old(region[k])
    {
      var tmp := region[size - i - 1];
      region[size - i - 1] := region[i];
      region[i] := tmp;
    }
    ReversedMirrors(old(region[..]));
    assert region[..] == Reversed(old(region[..]));
  }

  /** Running the swap loop a second time restores the original contents. */
  method ReverseTwice(region: array<char>)
    requires region.Length / 2 <= IntMax
    modifies region
    ensures region[..] == old(region[..])
  {
    ReverseInPlace(region);
    ReverseInPlace(region);
    ReversedInvolutive(old(region[..]));
  }
}
