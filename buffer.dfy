/** The output buffers of `src/buffer.rs`: the `String` implementation of
    `ByteBuffer`, and `JsByteBuffer`, a growable byte array with an explicit
    length that is handed to JavaScript as a `Uint8Array`. */
module Buffer {

  // ---------------------------------------------------------------------
  // ByteBuffer for String
  // ---------------------------------------------------------------------

  /** `push` on a `String`: the byte is appended as the character with
      the same code. */
  function StringPush(s: string, byte: bv8): (r: string)
    ensures |r| == |s| + 1 && r[..|s|] == s && r[|s|] as int == byte as int
  {
    s + [(byte as int) as char]
  }

  /** `push_str` on a `String`: the text is appended unchanged. */
  function StringPushStr(s: string, t: string): (r: string)
    ensures |r| == |s| + |t| && r[..|s|] == s && r[|s|..] == t
  {
    s + t
  }

  // ---------------------------------------------------------------------
  // Capacity growth
  // ---------------------------------------------------------------------

  function Pow2(k: nat): (r: nat)
    ensures r >= 1
  {
    if k == 0 then 1 else 2 * Pow2(k - 1)
  }

  /** `c` doubled until it is at least `needed`. */
  function Doubled(c: nat, needed: nat): nat
    requires c >= 1
    decreases needed - c
  {
    if c >= needed then c else Doubled(2 * c, needed)
  }

  /** The capacity `ensure_capacity` allocates when `needed` bytes do not
      fit: the old capacity, at least 8, doubled until they fit. */
  function GrowCap(cap: nat, needed: nat): nat {
    Doubled(if cap < 8 then 8 else cap, needed)
  }

  /** Doubling stops at the first power-of-two multiple of the start that
      holds `needed`: large enough, and less than twice what is needed
      whenever it doubled at all. */
  lemma {:induction false} DoubledBounds(c: nat, needed: nat)
    requires c >= 1
    ensures Doubled(c, needed) >= needed && Doubled(c, needed) >= c
    ensures Doubled(c, needed) > c ==> Doubled(c, needed) < 2 * needed
    ensures exists k: nat :: Doubled(c, needed) == c * Pow2(k)
    decreases needed - c
  {
    if c >= needed {
      assert c == c * Pow2(0);
    } else {
      DoubledBounds(2 * c, needed);
      var k: nat :| Doubled(2 * c, needed) == 2 * c * Pow2(k);
      assert Doubled(c, needed) == c * Pow2(k + 1);
    }
  }

  /** The capacity after growth: at least 8 and at least `needed`, a
      power-of-two multiple of the old capacity (or of 8), and never more
      than twice what is needed once past the start. */
  lemma GrowCapBounds(cap: nat, needed: nat)
    ensures var s := if cap < 8 then 8 else cap;
      GrowCap(cap, needed) >= needed && GrowCap(cap, needed) >= 8 && GrowCap(cap, needed) >= cap &&
      (GrowCap(cap, needed) > s ==> GrowCap(cap, needed) < 2 * needed) &&
      exists k: nat :: GrowCap(cap, needed) == s * Pow2(k)
  {
    DoubledBounds(if cap < 8 then 8 else cap, needed);
  }

  // ---------------------------------------------------------------------
  // JsByteBuffer
  // ---------------------------------------------------------------------

  class JsByteBuffer {
    var arr: array<bv8>
    var len: nat

    ghost predicate Valid()
      reads this
    {
      len <= arr.Length
    }

    /** The bytes written so far. */
    ghost function Contents(): seq<bv8>
      requires Valid()
      reads this, arr
    {
      arr[..len]
    }

    /** `new`: an empty buffer over a zero-filled array of `capacity` bytes. */
    constructor (capacity: nat)
      ensures Valid() && fresh(arr) && arr.Length == capacity && Contents() == []
    {
      arr := new bv8[capacity](_ => 0);
      len := 0;
    }

    /** `len`: the number of bytes written. */
    function Len(): (n: nat)
      requires Valid()
      reads this, arr
      ensures n == |Contents()|
    {
      len
    }

    /** `as_uint8array`: a fresh copy of the bytes written. */
    method AsUint8Array() returns (r: array<bv8>)
      requires Valid()
      ensures fresh(r) && r[..] == Contents()
    {
      r := new bv8[len];
      for i := 0 to len
        invariant r[..i] == arr[..i]
      {
        r[i] := arr[i];
      }
    }

    /** `ensure_capacity`: when `additional` more bytes do not fit, the
        bytes move to a fresh zero-filled array of `GrowCap` bytes. */
    method EnsureCapacity(additional: nat)
      requires Valid()
      modifies this
      ensures Valid() && len == old(len) && Contents() == old(Contents())
      ensures arr.Length >= len + additional && arr.Length >= old(arr.Length)
      ensures len + additional <= old(arr.Length) ==> arr == old(arr)
      ensures len + additional > old(arr.Length) ==>
        fresh(arr) && arr.Length == GrowCap(old(arr.Length), len + additional)
    {
      var needed := len + additional;
      if needed > arr.Length {
        var newCap := if arr.Length < 8 then 8 else arr.Length;
        while newCap < needed
          invariant newCap >= 8 && Doubled(newCap, needed) == GrowCap(arr.Length, needed)
          decreases needed - newCap
        {
          newCap := newCap * 2;
        }
        assert newCap == GrowCap(arr.Length, needed) >= needed;
        var newArr := new bv8[newCap](_ => 0);
        for i := 0 to len
          modifies newArr
          invariant newArr[..i] == arr[..i]
        {
          newArr[i] := arr[i];
        }
        arr := newArr;
      }
    }

    /** `push`: one byte appended, growing the array when it is full. */
    method Push(byte: bv8)
      requires Valid()
      modifies this, arr
      ensures Valid() && Contents() == old(Contents()) + [byte]
      ensures arr.Length >= old(arr.Length)
    {
      EnsureCapacity(1);
      arr[len] := byte;
      len := len + 1;
    }

    /** `push_str`: the bytes appended in order, after growing the array
        once for all of them. */
    method PushStr(bytes: seq<bv8>)
      requires Valid()
      modifies this, arr
      ensures Valid() && Contents() == old(Contents()) + bytes
      ensures arr.Length >= old(len) + |bytes| && arr.Length >= old(arr.Length)
    {
      EnsureCapacity(|bytes|);
      ghost var before := arr[..len];
      for j := 0 to |bytes|
        invariant arr == old(arr) || fresh(arr)
        invariant arr.Length >= old(arr.Length)
        invariant Valid() && len == old(len) + j && len + |bytes| - j <= arr.Length
        invariant arr[..len] == before + bytes[..j]
      {
        arr[len] := bytes[j];
        len := len + 1;
      }
    }
  }
}
