/** Bytes, and the fixed buffers of a request. */
module Bytes {

  newtype Byte = b: int | 0 <= b < 256
  type Text = seq<Byte>

  /** BUFFER_SIZE, CLIENT_STREAM_SIZE and SOCKETBUF_SIZE. */
  const SIZE: nat := 20480

  /** What appending to a sequence leaves as it was. */
  lemma Appended(s: Text, s': Text, data: Text, a: nat, b: nat)
    requires s' == s + data && a <= b <= |s|
    ensures s'[..b] == s[..b] && s'[a..b] == s[a..b] && s'[a..] == s[a..] + data
  {
  }

  lemma SplitSum(a: Text, b: Text, k: nat)
    requires k <= |b|
    ensures a + b == (a + b[..k]) + b[k..]
  {
  }

  lemma CancelRight(a: Text, b: Text, c: Text)
    requires a + c == b + c
    ensures a == b
  {
    assert |a| == |b|;
    assert (a + c)[..|a|] == a && (b + c)[..|b|] == b;
  }

  lemma Slices(s: Text, lo: nat, mid: nat, hi: nat)
    requires lo <= mid <= hi <= |s|
    ensures s[lo..mid] == s[lo..hi][..mid - lo] && s[mid..hi] == s[lo..hi][mid - lo..]
    ensures s[lo..|s|] == s[lo..]
  {
  }

  lemma ArraySlices(a: array<Byte>, lo: nat, mid: nat, hi: nat)
    requires lo <= mid <= hi <= a.Length
    ensures a[lo..mid] == a[lo..hi][..mid - lo] && a[mid..hi] == a[lo..hi][mid - lo..]
  {
  }

  /** memcpy, or what read does to the buffer it is given. */
  method Store(a: array<Byte>, pos: nat, data: Text)
    requires pos + |data| <= a.Length
    modifies a
    ensures forall lo | 0 <= lo <= pos :: a[lo..pos + |data|] == old(a[lo..pos]) + data
    ensures a[pos..pos + |data|] == data
    ensures forall i :: 0 <= i < a.Length && !(pos <= i < pos + |data|) ==> a[i] == old(a[i])
  {
    ghost var was := a[..];
    forall i | 0 <= i < |data| { a[pos + i] := data[i]; }
    forall lo | 0 <= lo <= pos ensures a[lo..pos + |data|] == was[lo..pos] + data {}
  }
}
