/** Strings compared as Go compares them, and the canonical positions the vault walks, lists and pages by. */
module Ordering {

  datatype Option<+T> = None | Some(value: T)

  /** Lower-case hexadecimal digits only. */
  predicate LowerHex(value: string) {
    forall i :: 0 <= i < |value| ==> '0' <= value[i] <= '9' || 'a' <= value[i] <= 'f'
  }

  /** Strict byte order of two strings. */
  predicate Less(a: string, b: string) {
    if b == [] then false
    else if a == [] then true
    else if a[0] != b[0] then a[0] < b[0]
    else Less(a[1..], b[1..])
  }

  lemma {:induction false} LessIrreflexive(a: string)
    ensures !Less(a, a)
  {
    if a != [] {
      LessIrreflexive(a[1..]);
    }
  }

  lemma {:induction false} LessTransitive(a: string, b: string, c: string)
    requires Less(a, b) && Less(b, c)
    ensures Less(a, c)
  {
    if a != [] && a[0] == b[0] == c[0] {
      LessTransitive(a[1..], b[1..], c[1..]);
    }
  }

  lemma {:induction false} LessTotal(a: string, b: string)
    ensures a == b || Less(a, b) || Less(b, a)
  {
    if a != [] && b != [] && a[0] == b[0] {
      LessTotal(a[1..], b[1..]);
      assert a == [a[0]] + a[1..] && b == [b[0]] + b[1..];
    }
  }

  /** One string is less than another if it is a proper beginning of it, or smaller at the first place where they differ. */
  lemma {:induction false} LessIsFirstDifference(a: string, b: string)
    ensures Less(a, b) <==>
              exists k: nat :: k <= |a| && k < |b| && a[..k] == b[..k] && (k == |a| || a[k] < b[k])
  {
    forall k: nat | 0 < k <= |a| && k <= |b| && a[..k] == b[..k] ensures a[0] == b[0] {
      assert a[0] == a[..k][0] && b[0] == b[..k][0];
    }
    assert a[..0] == b[..0];
    if a != [] && b != [] && a[0] == b[0] {
      LessIsFirstDifference(a[1..], b[1..]);
      if k: nat :| k <= |a[1..]| && k < |b[1..]| && a[1..][..k] == b[1..][..k] && (k == |a[1..]| || a[1..][k] < b[1..][k]) {
        assert a[..k + 1] == [a[0]] + a[1..][..k] && b[..k + 1] == [b[0]] + b[1..][..k];
        assert a[..k + 1] == b[..k + 1] && (k + 1 == |a| || a[k + 1] < b[k + 1]);
      }
      if k: nat :| k <= |a| && k < |b| && a[..k] == b[..k] && (k == |a| || a[k] < b[k]) {
        assert k > 0;
        assert a[1..][..k - 1] == a[..k][1..] && b[1..][..k - 1] == b[..k][1..];
      }
    }
  }

  /** A pair of keys: the NFC form of a vault-relative path, and the path as stored. */
  datatype Position = Position(nfc: string, stored: string)

  function ComparePosition(left: Position, right: Position): (order: int)
    ensures order == 0 <==> left == right
  {
    LessTotal(left.nfc, right.nfc);
    LessTotal(left.stored, right.stored);
    LessIrreflexive(left.nfc);
    LessIrreflexive(left.stored);
    if Less(left.nfc, right.nfc) then -1
    else if Less(right.nfc, left.nfc) then 1
    else if Less(left.stored, right.stored) then -1
    else if Less(right.stored, left.stored) then 1
    else 0
  }

  predicate Before(left: Position, right: Position) {
    ComparePosition(left, right) < 0
  }

  /** Positions go by their NFC form, and by the stored form where those agree. */
  lemma BeforeIsByKeys(left: Position, right: Position)
    ensures Before(left, right) <==> Less(left.nfc, right.nfc) || (left.nfc == right.nfc && Less(left.stored, right.stored))
  {
    LessTotal(left.nfc, right.nfc);
    LessIrreflexive(left.nfc);
    LessIrreflexive(left.stored);
    if Less(left.nfc, right.nfc) {
      LessAsymmetric(left.nfc, right.nfc);
    }
    if Less(right.nfc, left.nfc) {
      LessAsymmetric(right.nfc, left.nfc);
    }
  }

  lemma LessAsymmetric(a: string, b: string)
    requires Less(a, b)
    ensures !Less(b, a)
  {
    if Less(b, a) {
      LessTransitive(a, b, a);
      LessIrreflexive(a);
    }
  }

  lemma BeforeAsymmetric(a: Position, b: Position)
    ensures Before(a, b) <==> ComparePosition(b, a) > 0
  {
    LessTotal(a.nfc, b.nfc);
    LessTotal(a.stored, b.stored);
    if Less(a.nfc, b.nfc) { LessAsymmetric(a.nfc, b.nfc); }
    if Less(b.nfc, a.nfc) { LessAsymmetric(b.nfc, a.nfc); }
    if Less(a.stored, b.stored) { LessAsymmetric(a.stored, b.stored); }
    if Less(b.stored, a.stored) { LessAsymmetric(b.stored, a.stored); }
  }

  lemma BeforeTransitive(a: Position, b: Position, c: Position)
    requires Before(a, b) && Before(b, c)
    ensures Before(a, c)
  {
    BeforeAsymmetric(a, b);
    BeforeAsymmetric(b, c);
    LessTotal(a.nfc, b.nfc);
    LessTotal(b.nfc, c.nfc);
    LessTotal(a.nfc, c.nfc);
    if Less(a.nfc, b.nfc) && Less(b.nfc, c.nfc) {
      LessTransitive(a.nfc, b.nfc, c.nfc);
    } else if a.nfc == b.nfc && b.nfc == c.nfc {
      LessIrreflexive(a.nfc);
      LessTransitive(a.stored, b.stored, c.stored);
    }
  }

  /** Positions in strictly increasing canonical order. */
  ghost predicate Ascending(ps: seq<Position>) {
    forall i, j :: 0 <= i < j < |ps| ==> Before(ps[i], ps[j])
  }
}
