/** Go byte slices: a window on a shared array, whose capacity runs to the end of that array. */
module Slices {
  import opened Words

  datatype Slice = Slice(arr: array<byte>, off: nat, len: nat) {
    ghost predicate Valid()
    {
      off + len <= arr.Length
    }

    ghost function Bytes(): (s: seq<byte>)
      requires Valid()
      reads arr
      ensures |s| == len
    {
      arr[off..off + len]
    }

    /** `s[from:to]`: the same array seen through a smaller window. */
    function Sub(from: nat, to: nat): (s: Slice)
      requires Valid() && from <= to <= len
      ensures s.Valid()
    {
      Slice(arr, off + from, to - from)
    }
  }

  /** `copy(arr[start:], more)`. */
  method CopyInto(arr: array<byte>, start: nat, more: seq<byte>)
    requires start + |more| <= arr.Length
    modifies arr
    ensures arr[..] == old(arr[..])[..start] + more + old(arr[..])[start + |more|..]
  {
    ghost var before := arr[..];
    var i := 0;
    while i < |more|
      invariant i <= |more|
      invariant arr[..] == before[..start] + more[..i] + before[start + i..]
    {
      arr[start + i] := more[i];
      i := i + 1;
    }
  }

  /** `append(s, more...)`: written into the shared array when the capacity allows, and only then. */
  method Append(s: Slice, more: seq<byte>) returns (r: Slice)
    requires s.Valid()
    modifies s.arr
    ensures r.Valid() && r.Bytes() == old(s.Bytes()) + more
    ensures s.off + s.len + |more| <= s.arr.Length ==>
              && r == Slice(s.arr, s.off, s.len + |more|)
              && s.arr[..] == old(s.arr[..])[..s.off + s.len] + more + old(s.arr[..])[s.off + s.len + |more|..]
    ensures s.off + s.len + |more| > s.arr.Length ==> fresh(r.arr) && s.arr[..] == old(s.arr[..])
  {
    var start := s.off + s.len;
    if start + |more| <= s.arr.Length {
      ghost var before := s.arr[..];
      CopyInto(s.arr, start, more);
      r := Slice(s.arr, s.off, s.len + |more|);
      assert r.Bytes() == s.arr[..][s.off..s.off + s.len + |more|] == before[s.off..start] + more;
    } else {
      var grown := new byte[s.len + |more|];
      forall i | 0 <= i < grown.Length {
        grown[i] := if i < s.len then s.arr[s.off + i] else more[i - s.len];
      }
      r := Slice(grown, 0, grown.Length);
      assert r.Bytes() == s.Bytes() + more;
    }
  }
}
