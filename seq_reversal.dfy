/**
 * The reverse of a sequence and its two basic facts, shared by the file
 * reversal of the relay programs and the palindrome test of the filter.
 */
module SeqReversal {

  /** The reverse of a sequence: its last element, then the reverse of the rest. */
  function Reversed<T>(s: seq<T>): seq<T>
    decreases |s|
  {
    if |s| == 0 then [] else [s[|s| - 1]] + Reversed(s[..|s| - 1])
  }

  /** Reversal keeps the length and mirrors every position. */
  lemma {:induction false} ReversedMirrors<T>(s: seq<T>)
    ensures |Reversed(s)| == |s|
    ensures forall k :: 0 <= k < |s| ==> Reversed(s)[k] == s[|s| - 1 - k]
    decreases |s|
  {
    if |s| > 0 {
      ReversedMirrors(s[..|s| - 1]);
    }
  }

  /** Reversing twice gives back the original sequence. */
  lemma ReversedInvolutive<T>(s: seq<T>)
    ensures Reversed(Reversed(s)) == s
  {
    ReversedMirrors(s);
    ReversedMirrors(Reversed(s));
  }
}
