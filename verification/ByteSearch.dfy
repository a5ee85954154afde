/** Where a literal occurs in a text. */
module ByteSearch {
  import opened Ordering
  import opened Bytes

  predicate OccursAt(p: seq<byte>, d: seq<byte>, i: nat) {
    i + |p| <= |d| && d[i..i + |p|] == p
  }

  /** The first occurrence at or after i. */
  function Find(p: seq<byte>, d: seq<byte>, i: nat): (r: Option<nat>)
    ensures r.Some? ==> i <= r.value && OccursAt(p, d, r.value) && forall j :: i <= j < r.value ==> !OccursAt(p, d, j)
    ensures r.None? ==> forall j :: i <= j ==> !OccursAt(p, d, j)
    decreases |d| - i
  {
    if i + |p| > |d| then None else if OccursAt(p, d, i) then Some(i) else Find(p, d, i + 1)
  }

  lemma FindUnique(p: seq<byte>, d: seq<byte>, i: nat, j: nat)
    requires i <= j && OccursAt(p, d, j) && forall k :: i <= k < j ==> !OccursAt(p, d, k)
    ensures Find(p, d, i) == Some(j)
  {
  }

  lemma OccursInPrefix(p: seq<byte>, d: seq<byte>, e: seq<byte>, i: nat)
    requires i + |p| <= |d|
    ensures OccursAt(p, d + e, i) == OccursAt(p, d, i)
  {
    assert (d + e)[i..i + |p|] == d[i..i + |p|];
  }

  lemma FindInPrefix(p: seq<byte>, d: seq<byte>, e: seq<byte>, i: nat)
    requires Find(p, d, i).Some?
    ensures Find(p, d + e, i) == Find(p, d, i)
  {
    var j := Find(p, d, i).value;
    forall k | i <= k < j ensures !OccursAt(p, d + e, k) {
      OccursInPrefix(p, d, e, k);
    }
    OccursInPrefix(p, d, e, j);
    FindUnique(p, d + e, i, j);
  }

  lemma FoundInside(p: seq<byte>, d: seq<byte>, i: nat)
    requires Find(p, d, i).Some?
    ensures i <= Find(p, d, i).value && Find(p, d, i).value + |p| <= |d| && OccursAt(p, d, Find(p, d, i).value)
  {
  }

  lemma {:induction false} FindSkips(p: seq<byte>, d: seq<byte>, i: nat, j: nat)
    requires i <= j && forall k :: i <= k < j ==> !OccursAt(p, d, k)
    ensures Find(p, d, i) == Find(p, d, j)
    decreases j - i
  {
    if i < j {
      FindSkips(p, d, i + 1, j);
    }
  }
}
