/** The directory fingerprint's membership part: a digest of the visible names that no enumeration order changes. */
module Membership {
  import opened Ordering
  import opened Bytes
  import opened Sorting

  const DIGEST_BYTES := 32
  const WORD := 0x1_0000_0000_0000_0000

  /** One visible name: the length of its frame and the digest of it. */
  datatype Item = Item(size: nat, digest: seq<byte>)
  {
    predicate Valid() { |digest| == DIGEST_BYTES }
  }

  // ---- bytes as numbers -------------------------------------------------------------------------

  /** The number that big-endian bytes stand for. */
  function Value(b: seq<byte>): nat {
    if b == [] then 0 else Value(b[..|b| - 1]) * 256 + b[|b| - 1]
  }

  function Power(n: nat): (p: nat)
    ensures p > 0
  {
    if n == 0 then 1 else 256 * Power(n - 1)
  }

  lemma {:induction false} ValueOfFirst(x: byte, b: seq<byte>)
    ensures Value([x] + b) == x * Power(|b|) + Value(b)
    decreases |b|
  {
    var all := [x] + b;
    if b != [] {
      var n := |b| - 1;
      assert all[..n + 1] == [x] + b[..n] && all[n + 1] == b[n];
      ValueOfFirst(x, b[..n]);
      assert (x * Power(n) + Value(b[..n])) * 256 == x * (256 * Power(n)) + Value(b[..n]) * 256;
    } else {
      assert all[..0] == [];
    }
  }

  lemma {:induction false} ValueBounded(b: seq<byte>)
    ensures Value(b) < Power(|b|)
    decreases |b|
  {
    if b != [] {
      ValueBounded(b[..|b| - 1]);
    }
  }

  lemma LastByte(x: int, a: byte, y: int, b: byte)
    requires x * 256 + a == y * 256 + b
    ensures a == b && x == y
  {
  }

  /** Numbers of one length have one representation. */
  lemma {:induction false} ValueInjective(a: seq<byte>, b: seq<byte>)
    requires |a| == |b| && Value(a) == Value(b)
    ensures a == b
    decreases |a|
  {
    if a != [] {
      var n := |a| - 1;
      LastByte(Value(a[..n]), a[n], Value(b[..n]), b[n]);
      hide Value;
      ValueInjective(a[..n], b[..n]);
      assert a == a[..n] + [a[n]] && b == b[..n] + [b[n]];
    }
  }

  function XorAll(a: seq<bv8>, b: seq<byte>): (x: seq<bv8>)
    requires |a| == |b|
    ensures |x| == |a| && forall i :: 0 <= i < |a| ==> x[i] == a[i] ^ (b[i] as bv8)
  {
    if a == [] then [] else XorAll(a[..|a| - 1], b[..|b| - 1]) + [a[|a| - 1] ^ (b[|b| - 1] as bv8)]
  }

  lemma XorCommutes(x: bv8, y: bv8, z: bv8)
    ensures x ^ y ^ z == x ^ z ^ y
  {
  }

  // ---- what the accumulator stands for ----------------------------------------------------------

  /** Counters wrap at 64 bits, the sum at 256. */
  datatype Total = Total(count: nat, framedSize: nat, xor: seq<bv8>, sum: nat)

  function Wrap(x: nat, m: nat): nat
    requires m > 0
  {
    x % m
  }

  function Added(t: Total, item: Item): Total
    requires |t.xor| == DIGEST_BYTES && item.Valid()
  {
    Total(Wrap(t.count + 1, WORD), Wrap(t.framedSize + item.size, WORD), XorAll(t.xor, item.digest), Wrap(t.sum + Value(item.digest), Power(DIGEST_BYTES)))
  }

  ghost predicate AllValid(items: seq<Item>) {
    forall i :: 0 <= i < |items| ==> items[i].Valid()
  }

  function AddedAll(t: Total, items: seq<Item>): (r: Total)
    requires |t.xor| == DIGEST_BYTES && AllValid(items)
    ensures |r.xor| == DIGEST_BYTES
    decreases |items|
  {
    if items == [] then t else AddedAll(Added(t, items[0]), items[1..])
  }

  // ---- the accumulator --------------------------------------------------------------------------

  class MembershipAccumulator {
    var count: nat
    var framedSize: nat
    var xor: array<bv8>
    var sum: array<byte>

    ghost predicate Valid()
      reads this
    {
      (xor as object) != sum && xor.Length == sum.Length == DIGEST_BYTES
    }

    ghost function Contents(): Total
      reads this, xor, sum
      requires Valid()
    {
      Total(count, framedSize, xor[..], Value(sum[..]))
    }

    constructor ()
      ensures Valid() && fresh(xor) && fresh(sum) && Contents().count == 0 && Contents().framedSize == 0 && Contents().sum == 0
      ensures forall i :: 0 <= i < DIGEST_BYTES ==> xor[i] == 0
    {
      count, framedSize := 0, 0;
      xor, sum := new bv8[DIGEST_BYTES](_ => 0), new byte[DIGEST_BYTES](_ => 0);
      new;
      ZeroValue(sum[..]);
    }

    /** Adds one item: byte by byte with a carry, which is addition modulo 2^256. */
    method Add(item: Item)
      requires Valid() && item.Valid()
      modifies this`count, this`framedSize, xor, sum
      ensures Valid() && xor == old(xor) && sum == old(sum)
      ensures Contents() == Added(old(Contents()), item)
    {
      hide Value, Power, XorAll, Wrap, SumFrom;
      count, framedSize := Wrap(count + 1, WORD), Wrap(framedSize + item.size, WORD);
      ghost var mask, before, digest := xor[..], sum[..], item.digest;
      var carry := 0;
      var i := DIGEST_BYTES;
      NothingSummed(before, before, digest);
      while i > 0
        invariant 0 <= i <= DIGEST_BYTES && AddedFrom(xor[..], sum[..], mask, before, digest, i, carry)
        modifies xor, sum
      {
        i := i - 1;
        ghost var x, s := xor[..], sum[..];
        xor[i] := xor[i] ^ (item.digest[i] as bv8);
        var total := sum[i] as int + item.digest[i] as int + carry;
        sum[i] := total % 256;
        assert xor[..] == x[i := x[i] ^ (digest[i] as bv8)] && sum[..] == s[i := (s[i] as int + digest[i] as int + carry) % 256];
        DigitAdded(x, s, mask, before, digest, i, carry, total);
        carry := total / 256;
      }
      AllAdded(xor[..], sum[..], mask, before, digest, carry);
    }
  }

  /** The digits from i on have been added, with this carry; the ones before are untouched. */
  ghost predicate AddedFrom(xor: seq<bv8>, sum: seq<byte>, mask: seq<bv8>, before: seq<byte>, digest: seq<byte>, i: nat, carry: int) {
    && |xor| == |sum| == |mask| == |before| == |digest| == DIGEST_BYTES && i <= DIGEST_BYTES && 0 <= carry <= 1
    && (forall j :: 0 <= j < i ==> xor[j] == mask[j] && sum[j] == before[j])
    && (forall j :: i <= j < DIGEST_BYTES ==> xor[j] == mask[j] ^ (digest[j] as bv8))
    && SumFrom(sum, before, digest, i, carry)
  }

  ghost predicate SumFrom(sum: seq<byte>, before: seq<byte>, digest: seq<byte>, i: nat, carry: int)
    requires |sum| == |before| == |digest| == DIGEST_BYTES && i <= DIGEST_BYTES
  {
    Value(sum[i..]) + carry * Power(DIGEST_BYTES - i) == Value(before[i..]) + Value(digest[i..])
  }

  lemma SumGrows(sum: seq<byte>, s: seq<byte>, before: seq<byte>, digest: seq<byte>, i: nat, carry: int)
    requires |sum| == |s| == |before| == |digest| == DIGEST_BYTES && i < DIGEST_BYTES && 0 <= carry <= 1
    requires SumFrom(sum, before, digest, i + 1, carry) && s[i + 1..] == sum[i + 1..] && s[i] == (before[i] as int + digest[i] as int + carry) % 256
    ensures SumFrom(s, before, digest, i, (before[i] as int + digest[i] as int + carry) / 256)
  {
    Slices(s, before, digest, i, s[i + 1..]);
    hide Value, Power;
    AddDigit(s[i..], before[i..], digest[i..], carry, (before[i] as int + digest[i] as int + carry) / 256);
  }

  lemma DigitAdded(xor: seq<bv8>, sum: seq<byte>, mask: seq<bv8>, before: seq<byte>, digest: seq<byte>, i: nat, carry: int, total: int)
    requires i < DIGEST_BYTES && AddedFrom(xor, sum, mask, before, digest, i + 1, carry) && total == sum[i] as int + digest[i] as int + carry
    ensures AddedFrom(xor[i := xor[i] ^ (digest[i] as bv8)], sum[i := total % 256], mask, before, digest, i, total / 256)
  {
    hide SumFrom;
    var s := sum[i := total % 256];
    assert s[i + 1..] == sum[i + 1..] && sum[i] == before[i] && xor[i] == mask[i];
    SumGrows(sum, s, before, digest, i, carry);
  }

  lemma NothingSummed(sum: seq<byte>, before: seq<byte>, digest: seq<byte>)
    requires |sum| == |before| == |digest| == DIGEST_BYTES
    ensures SumFrom(sum, before, digest, DIGEST_BYTES, 0)
  {
    NothingAdded(sum[DIGEST_BYTES..], before[DIGEST_BYTES..], digest[DIGEST_BYTES..], 0);
  }

  lemma AllAdded(xor: seq<bv8>, sum: seq<byte>, mask: seq<bv8>, before: seq<byte>, digest: seq<byte>, carry: int)
    requires AddedFrom(xor, sum, mask, before, digest, 0, carry)
    ensures xor == XorAll(mask, digest) && Value(sum) == Wrap(Value(before) + Value(digest), Power(DIGEST_BYTES))
  {
    hide Value, Power, Wrap;
    assert sum[0..] == sum && before[0..] == before && digest[0..] == digest;
    ValueBounded(sum);
    WrapsOnce(Value(sum), carry, Value(before) + Value(digest), Power(DIGEST_BYTES));
    assert xor == XorAll(mask, digest);
  }

  lemma NothingAdded(s: seq<byte>, a: seq<byte>, b: seq<byte>, n: nat)
    requires s == a == b == [] && n == 0
    ensures Value(s) + 0 * Power(n) == Value(a) + Value(b)
  {
  }

  lemma Slices(s: seq<byte>, a: seq<byte>, b: seq<byte>, i: nat, tail: seq<byte>)
    requires |s| == |a| == |b| && i < |s| && s[i + 1..] == tail
    ensures s[i..][1..] == tail && a[i..][1..] == a[i + 1..] && b[i..][1..] == b[i + 1..]
    ensures s[i..][0] == s[i] && a[i..][0] == a[i] && b[i..][0] == b[i]
  {
  }

  lemma {:induction false} ZeroValue(b: seq<byte>)
    requires forall i :: 0 <= i < |b| ==> b[i] == 0
    ensures Value(b) == 0
  {
    if b != [] {
      ZeroValue(b[..|b| - 1]);
    }
  }

  /** One step of the carry loop. */
  lemma AddDigit(s: seq<byte>, a: seq<byte>, b: seq<byte>, carry: int, next: int)
    requires |s| == |a| == |b| > 0 && 0 <= carry <= 1
    requires s[0] == (a[0] as int + b[0] as int + carry) % 256 && next == (a[0] as int + b[0] as int + carry) / 256
    requires Value(s[1..]) + carry * Power(|s| - 1) == Value(a[1..]) + Value(b[1..])
    ensures Value(s) + next * Power(|s|) == Value(a) + Value(b)
  {
    var p := Power(|s| - 1);
    FirstDigit(s);
    FirstDigit(a);
    FirstDigit(b);
    assert Power(|s|) == 256 * p;
    hide Value, Power;
    CarryOver(a[0], b[0], carry, s[0], next, p, Value(s[1..]), Value(a[1..]), Value(b[1..]));
  }

  lemma FirstDigit(s: seq<byte>)
    requires s != []
    ensures Value(s) == s[0] * Power(|s| - 1) + Value(s[1..])
  {
    assert s == [s[0]] + s[1..];
    ValueOfFirst(s[0], s[1..]);
  }

  lemma CarryOver(a: int, b: int, carry: int, digit: int, next: int, p: int, s1: int, a1: int, b1: int)
    requires a + b + carry == 256 * next + digit && s1 + carry * p == a1 + b1
    ensures digit * p + s1 + next * (256 * p) == a * p + a1 + (b * p + b1)
  {
    assert (a + b + carry) * p == a * p + b * p + carry * p;
    assert (256 * next + digit) * p == next * (256 * p) + digit * p;
  }

  lemma WrapsOnce(v: nat, carry: int, total: int, p: nat)
    requires v < p && v + carry * p == total && 0 <= carry <= 1 && 0 <= total
    ensures v == Wrap(total, p)
  {
    RemainderIsUnique(total, carry, v, p);
  }

  /** A remainder below the modulus is the remainder. */
  lemma RemainderIsUnique(x: int, q: int, r: int, m: int)
    requires 0 <= r < m && x == r + q * m
    ensures x % m == r
  {
    var q', r' := x / m, x % m;
    Spread(q, q', m);
    MultipleIsZero(q - q', m);
  }

  lemma Spread(a: int, b: int, m: int)
    ensures (a - b) * m == a * m - b * m
  {
  }

  lemma MultipleIsZero(k: int, m: int)
    requires m > 0 && -m < k * m < m
    ensures k == 0
  {
    if k >= 1 {
      AtLeast(k, m);
    } else if k <= -1 {
      AtLeast(-k, m);
    }
  }

  lemma AtLeast(k: int, m: int)
    requires k >= 1 && m > 0
    ensures k * m >= m
  {
    assert (k - 1) * m >= 0;
  }

  // ---- order does not matter --------------------------------------------------------------------

  lemma AddedCommutes(t: Total, a: Item, b: Item)
    requires |t.xor| == DIGEST_BYTES && a.Valid() && b.Valid()
    ensures Added(Added(t, a), b) == Added(Added(t, b), a)
  {
    hide Value, Power, Wrap;
    XorAllCommutes(t.xor, a.digest, b.digest);
    WrappedSums(t.count, 1, 1, WORD);
    WrappedSums(t.framedSize, a.size, b.size, WORD);
    WrappedSums(t.sum, Value(a.digest), Value(b.digest), Power(DIGEST_BYTES));
  }

  lemma XorAllCommutes(x: seq<bv8>, a: seq<byte>, b: seq<byte>)
    requires |x| == |a| == |b|
    ensures XorAll(XorAll(x, a), b) == XorAll(XorAll(x, b), a)
  {
    var l, r := XorAll(XorAll(x, a), b), XorAll(XorAll(x, b), a);
    forall i | 0 <= i < |x| ensures l[i] == r[i] {
      XorCommutes(x[i], a[i] as bv8, b[i] as bv8);
    }
  }

  lemma WrappedSums(x: nat, a: nat, b: nat, m: nat)
    requires m > 0
    ensures Wrap(Wrap(x + a, m) + b, m) == Wrap(Wrap(x + b, m) + a, m)
  {
    hide Wrap;
    WrapInside(x + a, b, m);
    WrapInside(x + b, a, m);
    assert x + a + b == x + b + a;
  }

  lemma WrapInside(x: nat, y: nat, m: nat)
    requires m > 0
    ensures Wrap(Wrap(x, m) + y, m) == Wrap(x + y, m)
  {
    var s := x % m + y;
    var q, r := s / m, s % m;
    assert s == q * m + r && x == x / m * m + x % m;
    Gather(x / m, q, m);
    RemainderIsUnique(x + y, x / m + q, r, m);
  }

  lemma Gather(a: int, b: int, m: int)
    ensures (a + b) * m == a * m + b * m
  {
  }

  /** An item in the middle may as well be added first. */
  lemma {:induction false} AddedFirst(t: Total, x: seq<Item>, y: Item, z: seq<Item>)
    requires |t.xor| == DIGEST_BYTES && AllValid(x) && y.Valid() && AllValid(z)
    ensures AddedAll(t, x + [y] + z) == AddedAll(Added(t, y), x + z)
    decreases |x|
  {
    if x == [] {
      assert x + [y] + z == [y] + z && ([y] + z)[1..] == z && x + z == z;
    } else {
      assert (x + [y] + z)[1..] == x[1..] + [y] + z && (x + z)[1..] == x[1..] + z;
      AddedFirst(Added(t, x[0]), x[1..], y, z);
      AddedCommutes(t, x[0], y);
    }
  }

  /** The accumulated membership is the same for every order of enumeration. */
  lemma {:induction false} OrderDoesNotMatter(t: Total, a: seq<Item>, b: seq<Item>)
    requires |t.xor| == DIGEST_BYTES && AllValid(a) && AllValid(b) && multiset(a) == multiset(b)
    ensures AddedAll(t, a) == AddedAll(t, b)
    decreases |a|
  {
    if a == [] {
      assert |multiset(b)| == 0;
    } else {
      var y := a[0];
      assert y in multiset(b);
      var x, z := TakeOut(b, y);
      assert a == [] + [y] + a[1..];
      assert multiset(a) == multiset{y} + multiset(a[1..]);
      PartsValid(b, x, y, z);
      AddedFirst(t, x, y, z);
      OrderDoesNotMatter(Added(t, y), a[1..], x + z);
    }
  }

  lemma PartsValid(b: seq<Item>, x: seq<Item>, y: Item, z: seq<Item>)
    requires AllValid(b) && b == x + [y] + z
    ensures AllValid(x) && y.Valid() && AllValid(z)
  {
    forall i | 0 <= i < |x| ensures x[i].Valid() {
      assert b[i] == x[i];
    }
    forall i | 0 <= i < |z| ensures z[i].Valid() {
      assert b[|x| + 1 + i] == z[i];
    }
    assert b[|x|] == y;
  }

  // ---- what a total says ------------------------------------------------------------------------

  function Sizes(items: seq<Item>): nat {
    if items == [] then 0 else items[0].size + Sizes(items[1..])
  }

  function Values(items: seq<Item>): nat {
    if items == [] then 0 else Value(items[0].digest) + Values(items[1..])
  }

  function XorAt(x: bv8, items: seq<Item>, j: nat): bv8
    requires j < DIGEST_BYTES && AllValid(items)
    decreases |items|
  {
    if items == [] then x else XorAt(x ^ (items[0].digest[j] as bv8), items[1..], j)
  }

  lemma {:induction false} XorMeans(t: Total, items: seq<Item>, j: nat)
    requires |t.xor| == DIGEST_BYTES && AllValid(items) && j < DIGEST_BYTES
    ensures AddedAll(t, items).xor[j] == XorAt(t.xor[j], items, j)
    decreases |items|
  {
    hide Value, Power, Wrap;
    if items != [] {
      XorMeans(Added(t, items[0]), items[1..], j);
    }
  }

  /** A total is the number of items, the sum of their sizes and of their digests, and their exclusive or, each modulo its width. */
  lemma {:induction false} TotalMeans(t: Total, items: seq<Item>)
    requires |t.xor| == DIGEST_BYTES && AllValid(items)
    ensures var r := AddedAll(t, items);
            && (items != [] ==> r.count == (t.count + |items|) % 0x1_0000_0000_0000_0000)
            && (items != [] ==> r.framedSize == (t.framedSize + Sizes(items)) % 0x1_0000_0000_0000_0000)
            && (items != [] ==> r.sum == (t.sum + Values(items)) % Power(32))
            && (items == [] ==> r == t)
            && forall j: nat :: j < 32 ==> r.xor[j] == XorAt(t.xor[j], items, j)
    decreases |items|
  {
    hide Value, Power, Wrap, XorAll, XorAt;
    forall j: nat | j < 32 ensures AddedAll(t, items).xor[j] == XorAt(t.xor[j], items, j) {
      XorMeans(t, items, j);
    }
    if items != [] {
      var u, rest := Added(t, items[0]), items[1..];
      TotalMeans(u, rest);
      WrapIs(t.count + 1, |rest|, WORD);
      WrapIs(t.framedSize + items[0].size, Sizes(rest), WORD);
      WrapIs(t.sum + Value(items[0].digest), Values(rest), Power(DIGEST_BYTES));
      assert t.count + 1 + |rest| == t.count + |items|;
    }
  }

  lemma WrapIs(x: nat, y: nat, m: nat)
    requires m > 0
    ensures Wrap(x, m) == x % m && (Wrap(x, m) + y) % m == (x + y) % m
  {
    WrapInside(x, y, m);
  }
}
