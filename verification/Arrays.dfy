module Arrays {
  /** A slice of a slice of an array is a slice of the array. */
  lemma SubSlice<T>(a: array<T>, lo: nat, hi: nat, from: nat, to: nat)
    requires lo <= from <= to <= hi <= a.Length
    ensures a[lo..hi][from - lo..to - lo] == a[from..to]
  {
    var s, t := a[lo..hi][from - lo..to - lo], a[from..to];
    forall k | 0 <= k < to - from ensures s[k] == t[k] {
    }
  }

  /** `memmove` of `a[from..end]` to the front. */
  method MoveToFront<T>(a: array<T>, from: nat, end: nat)
    requires from <= end <= a.Length
    modifies a
    ensures a[..end - from] == old(a[from..end])
  {
    var i := 0;
    while i < end - from
      invariant i <= end - from
      invariant forall k :: 0 <= k < i ==> a[k] == old(a[k + from])
      invariant forall k :: i <= k < a.Length ==> a[k] == old(a[k])
    {
      a[i] := a[i + from];
      i := i + 1;
    }
  }
}
