/** lib/string.c: the two string primitives the kernel links in. */
module KString {
  import opened Words

  const NUL: char := 0 as char

  /** What `strnlen` computes: the number of characters before the first
      NUL, but never more than `count`.  Defined only where every inspected
      character exists (`count` characters, or up to a NUL). */
  function BoundedLength(s: seq<char>, count: nat): (n: nat)
    requires count <= |s| || NUL in s
    ensures n <= count && n <= |s|
    decreases count
  {
    if count == 0 || s[0] == NUL then 0 else 1 + BoundedLength(s[1..], count - 1)
  }

  /** `BoundedLength` is the smaller of `count` and the index of the first NUL. */
  lemma {:induction false} BoundedLengthMeaning(s: seq<char>, count: nat)
    requires count <= |s| || NUL in s
    ensures var n := BoundedLength(s, count);
      && n <= count && n <= |s|
      && (forall i :: 0 <= i < n ==> s[i] != NUL)
      && (n < count ==> n < |s| && s[n] == NUL)
  {
    if count != 0 && s[0] != NUL {
      assert NUL in s ==> NUL in s[1..] by {
        if NUL in s {
          var k :| 0 <= k < |s| && s[k] == NUL;
          assert s[1..][k - 1] == NUL;
        }
      }
      BoundedLengthMeaning(s[1..], count - 1);
      var n' := BoundedLength(s[1..], count - 1);
      forall i | 0 <= i < n' + 1 ensures s[i] != NUL {
        if i > 0 { assert s[i] == s[1..][i - 1]; }
      }
    }
  }

  /** `strnlen` reads nothing at or beyond index `count`: two memories that
      agree on their first `count` characters give the same length. */
  lemma {:induction false} BoundedLengthLocal(s: seq<char>, t: seq<char>, count: nat)
    requires count <= |s| && count <= |t| && s[..count] == t[..count]
    ensures BoundedLength(s, count) == BoundedLength(t, count)
  {
    if count != 0 {
      assert s[0] == s[..count][0] && t[0] == t[..count][0];
      if s[0] != NUL {
        assert s[1..][..count - 1] == s[..count][1..];
        assert t[1..][..count - 1] == t[..count][1..];
        BoundedLengthLocal(s[1..], t[1..], count - 1);
      }
    }
  }

  /** `strnlen(s, count)`: `s` is the memory starting at the string; the
      loop counts `count` down and stops at the first NUL. */
  method Strnlen(s: seq<char>, count: nat) returns (n: nat)
    requires count < TWO32
    requires count <= |s| || NUL in s
    ensures n <= count && n <= |s|
    ensures forall i :: 0 <= i < n ==> s[i] != NUL
    ensures n < count ==> s[n] == NUL
    ensures n == BoundedLength(s, count)
  {
    var left: nat := count;
    var sc: nat := 0;
    while left != 0 && s[sc] != NUL
      invariant sc + left == count && sc <= |s|
      invariant forall i :: 0 <= i < sc ==> s[i] != NUL
      invariant left != 0 ==> sc < |s|
      decreases left
    {
      left := left - 1;
      sc := sc + 1;
    }
    n := sc;
    BoundedLengthMeaning(s, count);
  }

  /** The byte a C `int` becomes when stored through a `char *`. */
  function ByteOf(c: int): bv8 {
    (c % 256) as bv8
  }

  /** `memset(s, c, count)` on the memory `mem` (indexed by address):
      exactly `count` bytes from `s` become `c`, nothing else changes, and
      the start address is returned. */
  method Memset(mem: array<bv8>, s: nat, c: int, count: nat) returns (r: nat)
    requires count < TWO32 && s + count <= mem.Length
    modifies mem
    ensures r == s
    ensures forall i :: s <= i < s + count ==> mem[i] == ByteOf(c)
    ensures forall i :: 0 <= i < mem.Length && !(s <= i < s + count) ==> mem[i] == old(mem[i])
  {
    var xs: nat := s;
    var left: nat := count;
    while left != 0
      invariant xs == s + (count - left) && left <= count
      invariant forall i :: s <= i < xs ==> mem[i] == ByteOf(c)
      invariant forall i :: 0 <= i < mem.Length && !(s <= i < xs) ==> mem[i] == old(mem[i])
    {
      left := left - 1;
      mem[xs] := ByteOf(c);
      xs := xs + 1;
    }
    r := s;
  }
}
