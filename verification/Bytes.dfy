/** Bytes and C strings: the memory the codecs read and write. A `char*` is the sequence of
    bytes from its address on. */
module Bytes {

  type Byte = x: int | 0 <= x < 256

  const NUL: Byte := 0
  const SEMICOLON: Byte := 59
  const PLUS: Byte := 43
  const MINUS: Byte := 45
  const DIGIT_0: Byte := 48

  function Zeros(n: nat): (z: seq<Byte>)
    ensures |z| == n && forall k :: 0 <= k < n ==> z[k] == NUL
  {
    seq(n, _ => NUL)
  }

  /** `strlen`, except that a string without a NUL has all of `s`. */
  function Strlen(s: seq<Byte>): (n: nat)
    ensures n <= |s|
  {
    if s == [] || s[0] == NUL then 0 else 1 + Strlen(s[1..])
  }

  /** The C string that starts at the front of `s`: everything before the first NUL. */
  function CString(s: seq<Byte>): (p: seq<Byte>)
    ensures |p| == Strlen(s)
  {
    s[..Strlen(s)]
  }

  /** A NUL comes before the end of `s`. */
  predicate Terminated(s: seq<Byte>) {
    Strlen(s) < |s|
  }

  lemma {:induction false} CStringMeaning(s: seq<Byte>)
    ensures forall k :: 0 <= k < |CString(s)| ==> s[k] == CString(s)[k] != NUL
    ensures Terminated(s) ==> s[|CString(s)|] == NUL
    ensures Terminated(s) <==> exists k :: 0 <= k < |s| && s[k] == NUL
  {
    if s != [] && s[0] != NUL {
      CStringMeaning(s[1..]);
      assert forall k :: 0 < k < |s| ==> s[k] == s[1..][k - 1];
    }
  }

  /** Only one prefix is the C string at the front of `s`. */
  lemma CStringIs(s: seq<Byte>, n: nat)
    requires n <= |s|
    requires forall k :: 0 <= k < n ==> s[k] != NUL
    requires n < |s| ==> s[n] == NUL
    ensures CString(s) == s[..n]
  {
    CStringMeaning(s);
  }

  lemma CStringWhole(a: seq<Byte>)
    requires !Terminated(a)
    ensures CString(a) == a
  {
    CStringMeaning(a);
  }

  /** What follows the first NUL does not matter; what precedes it is copied. */
  lemma CStringAppend(a: seq<Byte>, b: seq<Byte>)
    ensures CString(a + b) == if Terminated(a) then CString(a) else a + CString(b)
  {
    CStringMeaning(a);
    CStringMeaning(b);
    if Terminated(a) {
      CStringIs(a + b, |CString(a)|);
    } else {
      CStringIs(a + b, |a| + |CString(b)|);
    }
  }

  /** `strcpy(dst, src)`: the string, its NUL, and whatever `dst` held beyond. */
  function Strcpy(dst: seq<Byte>, src: seq<Byte>): (r: seq<Byte>)
    requires Terminated(src) && |CString(src)| < |dst|
    ensures |r| == |dst|
  {
    CString(src) + [NUL] + dst[|CString(src)| + 1..]
  }

  /** `memcpy(dst + at, src, |src|)`. */
  function Splice(dst: seq<Byte>, at: nat, src: seq<Byte>): (r: seq<Byte>)
    requires at + |src| <= |dst|
    ensures |r| == |dst|
  {
    dst[..at] + src + dst[at + |src|..]
  }

  /** A NUL before the last byte: one that a C string copy stops at too soon. */
  predicate EarlyNul(data: seq<Byte>) {
    exists k :: 0 <= k < |data| - 1 && data[k] == NUL
  }

  /** `got` is what a C string copy makes of `data`: equal up to and including the first NUL. */
  predicate CarriedFrom(got: seq<Byte>, data: seq<Byte>) {
    && |got| == |data|
    && got[..|CString(data)|] == CString(data)
    && (Terminated(data) ==> got[|CString(data)|] == NUL)
  }

  lemma CarriedExact(got: seq<Byte>, data: seq<Byte>)
    requires CarriedFrom(got, data)
    requires !EarlyNul(data)
    ensures got == data
  {
    CStringMeaning(data);
    var n := |CString(data)|;
    if Terminated(data) {
      assert n == |data| - 1;
      assert got == got[..n] + [got[n]] && data == data[..n] + [data[n]];
    } else {
      CStringWhole(data);
    }
  }

  /** `src` is read as a C string and starts with `data`: the string ends at the first NUL of
      `data`, or not before the end of `data`. */
  predicate StringOf(src: seq<Byte>, data: seq<Byte>) {
    && Terminated(src)
    && if Terminated(data) then CString(src) == CString(data)
       else |data| <= |CString(src)| && CString(src)[..|data|] == data
  }

  lemma StringOfPrefix(data: seq<Byte>, after: seq<Byte>)
    requires Terminated(data + after)
    ensures StringOf(data + after, data)
  {
    CStringAppend(data, after);
    if !Terminated(data) {
      CStringWhole(data);
    }
  }

  /** Whatever the destination held before, the copy is exact up to and including the first NUL. */
  lemma CopyCarries(dst: seq<Byte>, src: seq<Byte>, data: seq<Byte>)
    requires StringOf(src, data) && |CString(src)| < |dst| && |data| <= |dst|
    ensures CarriedFrom(Strcpy(dst, src)[..|data|], data)
  {
    if !Terminated(data) {
      CStringWhole(data);
    }
  }

  /** The copy is exact for every old content of the destination if and only if `data` has no
      early NUL. */
  lemma CopyExactIff(src: seq<Byte>, data: seq<Byte>, capacity: nat)
    requires StringOf(src, data) && |CString(src)| < capacity && |data| <= capacity
    ensures (forall dst: seq<Byte> | |dst| == capacity :: Strcpy(dst, src)[..|data|] == data)
            <==> !EarlyNul(data)
  {
    if EarlyNul(data) {
      CStringMeaning(data);
      var j := |CString(data)| + 1;
      var other: Byte := if data[j] == 1 then 2 else 1;
      var dst := seq(capacity, _ => other);
      assert Strcpy(dst, src)[..|data|][j] == other;
    } else {
      forall dst: seq<Byte> | |dst| == capacity
        ensures Strcpy(dst, src)[..|data|] == data
      {
        CopyCarries(dst, src, data);
        CarriedExact(Strcpy(dst, src)[..|data|], data);
      }
    }
  }
}
