/**
 * Letter-case folding of names: `lwip_tolower` and `lwip_strnicmp` (src/lwip/def.c).
 * A C string is the sequence of its bytes before the terminating zero.
 */
module CaseFold {
  import opened Words

  function Lower(c: Byte): Byte {
    if 'A' as int <= c <= 'Z' as int then c + 32 else c
  }

  ghost function LowerAll(s: seq<Byte>): (t: seq<Byte>)
    ensures |t| == |s| && forall i :: 0 <= i < |s| ==> t[i] == Lower(s[i])
  {
    seq(|s|, i requires 0 <= i < |s| => Lower(s[i]))
  }

  /** `c | 0x20` */
  function Or20(c: Byte): Byte {
    if c / 0x20 % 2 == 0 then c + 0x20 else c
  }

  /** Equal, or the first is a letter and both agree once 0x20 is set. */
  predicate FoldEqual(c1: Byte, c2: Byte) {
    c1 == c2 || ('a' as int <= Or20(c1) <= 'z' as int && Or20(c1) == Or20(c2))
  }

  lemma FoldEqualIsLower(c1: Byte, c2: Byte)
    ensures FoldEqual(c1, c2) <==> Lower(c1) == Lower(c2)
  {
    Or20Letter(c1);
    Or20Letter(c2);
  }

  lemma Or20Letter(c: Byte)
    ensures 'a' as int <= Or20(c) <= 'z' as int <==> ('A' as int <= c <= 'Z' as int || 'a' as int <= c <= 'z' as int)
    ensures 'a' as int <= Or20(c) <= 'z' as int ==> Or20(c) == Lower(c)
  {
  }

  ghost predicate CString(s: seq<Byte>) {
    forall i :: 0 <= i < |s| ==> s[i] != 0
  }

  /** What is read at index `i` of a C string, up to the terminating zero. */
  function CharAt(s: seq<Byte>, i: nat): Byte
    requires i <= |s|
  {
    if i < |s| then s[i] else 0
  }

  /** `s1` and `s2` agree up to case on their first `n` bytes. */
  ghost predicate AgreeUpTo(s1: seq<Byte>, s2: seq<Byte>, n: nat) {
    n <= |s1| && n <= |s2| && forall i :: 0 <= i < n ==> Lower(s1[i]) == Lower(s2[i])
  }

  /**
   * `lwip_strnicmp`.  The length is decremented before it is tested, so length 0 means
   * no limit; the strings are then compared to their ends.
   */
  method Strnicmp(s1: seq<Byte>, s2: seq<Byte>, len: nat) returns (r: int)
    requires CString(s1) && CString(s2)
    ensures r == 0 || r == 1
    ensures 0 < len <= |s1| ==> (r == 0 <==> AgreeUpTo(s1, s2, len))
    ensures len == 0 || len > |s1| ==> (r == 0 <==> LowerAll(s1) == LowerAll(s2))
  {
    var i := 0;
    var left: int := len;  // wraps to the largest size_t where it goes below 0: no string is that long
    while true
      invariant i <= |s1| && i <= |s2| && AgreeUpTo(s1, s2, i)
      invariant left == len - i && (len > 0 ==> left > 0)
      decreases |s1| - i
    {
      var c1, c2 := CharAt(s1, i), CharAt(s2, i);
      FoldEqualIsLower(c1, c2);
      if c1 != c2 {
        var up1 := Or20(c1);
        if 'a' as int <= up1 <= 'z' as int {
          var up2 := Or20(c2);
          if up1 != up2 {
            Differ(s1, s2, i);
            return 1;
          }
        } else {
          Differ(s1, s2, i);
          return 1;
        }
      }
      left := left - 1;
      if left == 0 || c1 == 0 {
        return 0;
      }
      i := i + 1;
    }
  }

  /** A differing byte rules out agreement. */
  lemma Differ(s1: seq<Byte>, s2: seq<Byte>, i: nat)
    requires CString(s1) && CString(s2) && i <= |s1| && i <= |s2|
    requires Lower(CharAt(s1, i)) != Lower(CharAt(s2, i))
    ensures LowerAll(s1) != LowerAll(s2)
    ensures forall n :: i < n <= |s1| ==> !AgreeUpTo(s1, s2, n)
  {
    assert i < |s1| ==> LowerAll(s1)[i] == Lower(s1[i]);
    assert i < |s2| ==> LowerAll(s2)[i] == Lower(s2[i]);
  }

  /** The duplicate test of the resolver: equal names up to case. */
  lemma SameName(s1: seq<Byte>, s2: seq<Byte>, len: nat)
    requires 0 < len <= |s1|
    ensures AgreeUpTo(s1, s2, len) && |s2| == len <==> LowerAll(s1[..len]) == LowerAll(s2)
  {
    if LowerAll(s1[..len]) == LowerAll(s2) {
      assert |s2| == len;
      forall i | 0 <= i < len ensures Lower(s1[i]) == Lower(s2[i]) {
        assert LowerAll(s1[..len])[i] == LowerAll(s2)[i];
      }
    }
  }
}
