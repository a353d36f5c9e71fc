/**
 * Byte-array helpers used to derive an initialization vector from a key:
 * the centred slice (`middle`) and the byte-reversed copy (`reverse`).
 */
module ByteUtils {

  /** A Java `byte`: signed, 8 bits. */
  newtype Byte = b: int | -128 <= b < 128

  /** Reference definition of a byte-reversed sequence. */
  function Reversed(s: seq<Byte>): seq<Byte>
  {
    if s == [] then [] else Reversed(s[1..]) + [s[0]]
  }

  /** Reversal keeps the length and mirrors every index. */
  lemma {:induction false} ReversedAt(s: seq<Byte>)
    ensures |Reversed(s)| == |s|
    ensures forall i :: 0 <= i < |s| ==> Reversed(s)[i] == s[|s| - 1 - i]
  {
    if s != [] {
      ReversedAt(s[1..]);
    }
  }

  /** Reversing twice gives back the original bytes. */
  lemma {:induction false} ReversedInvolutive(s: seq<Byte>)
    ensures Reversed(Reversed(s)) == s
  {
    ReversedAt(s);
    ReversedAt(Reversed(s));
  }

  /** [1, 2, 3] reverses to [3, 2, 1]. */
  lemma ReversedExample()
    ensures Reversed([1, 2, 3]) == [3, 2, 1]
  {
    assert [1, 2, 3][1..] == [2, 3];
    assert [2, 3][1..] == [3];
  }

  /**
   * Index of the first byte of the centred `length`-byte slice. Java's `/` truncates
   * toward zero and Dafny's is Euclidean; they agree because `requires` keeps the
   * numerator non-negative.
   */
  function MiddleStart(inputLength: nat, length: nat): (start: nat)
    requires length <= inputLength
  {
    (inputLength - length) / 2
  }

  /** Specification of `middle`: the `length` bytes starting at `MiddleStart`. */
  function Middle(input: seq<Byte>, length: nat): seq<Byte>
    requires length <= |input|
  {
    var start := MiddleStart(|input|, length);
    input[start..start + length]
  }

  /**
   * The slice is centred: it drops as many bytes on the left as on the right,
   * or one fewer on the left when the surplus is odd.
   */
  lemma MiddleIsCentred(input: seq<Byte>, length: nat)
    requires length <= |input|
    ensures |Middle(input, length)| == length
    ensures var left := MiddleStart(|input|, length);
            var right := |input| - length - left;
            (right == left || right == left + 1) &&
            Middle(input, length) == input[left..|input| - right]
  {
  }

  /** For a 32-byte input, the middle 16 bytes are those at indices 8 to 23. */
  lemma MiddleOf32(input: seq<Byte>)
    requires |input| == 32
    ensures Middle(input, 16) == input[8..24]
    ensures forall i :: 0 <= i < 16 ==> Middle(input, 16)[i] == input[8 + i]
  {
  }

  /** `ByteUtils.middle`: allocates a `length`-byte array and copies the centred bytes into it. */
  method MiddleArray(input: array<Byte>, length: nat) returns (result: array<Byte>)
    requires length <= input.Length
    ensures fresh(result)
    ensures result[..] == Middle(input[..], length)
  {
    var startIndex := MiddleStart(input.Length, length);
    result := new Byte[length];
    // System.arraycopy(input, startIndex, result, 0, length)
    forall i | 0 <= i < length {
      result[i] := input[startIndex + i];
    }
  }

  /** `ByteUtils.reverse`: fills a fresh array from the back of the input. */
  method ReverseArray(bytes: array<Byte>) returns (reversedArray: array<Byte>)
    ensures fresh(reversedArray)
    ensures reversedArray[..] == Reversed(bytes[..])
  {
    var length := bytes.Length;
    reversedArray := new Byte[length];
    for i := 0 to length
      invariant forall k :: 0 <= k < i ==> reversedArray[k] == bytes[length - 1 - k]
    {
      reversedArray[i] := bytes[length - 1 - i];
    }
    ReversedAt(bytes[..]);
  }
}
