/** When one value precedes another, said with `<` on what the values hold. */
module ValueOrders {
  import opened Scalars

  /** The texts agree up to `k`, where the first ends or has the smaller character. */
  predicate DiffersAt(a: string, b: string, k: nat) {
    k <= |a| && k < |b| && a[..k] == b[..k] && (k < |a| ==> a[k] < b[k])
  }

  predicate TextBefore(a: string, b: string) {
    exists k :: 0 <= k <= |a| && DiffersAt(a, b, k)
  }

  /** False before true, numbers of either type by size, texts by their first
      difference, timestamps by instant; NaN neither precedes nor follows. */
  predicate Precedes(l: Scalar, r: Scalar) {
    match (l, r)
    case (Bool(a), Bool(b)) => !a && b
    case (Number(Fin(a)), Number(Fin(b))) => a < b
    case (BigInt(a), BigInt(b)) => a < b
    case (Number(Fin(a)), BigInt(b)) => a < b as real
    case (BigInt(a), Number(Fin(b))) => a as real < b
    case (Str(a), Str(b)) => TextBefore(a, b)
    case (Time(a), Time(b)) => a.nanos < b.nanos
    case _ => false
  }

  lemma {:induction false} LexOrderMeans(a: string, b: string)
    ensures LexOrder(a, b) < 0 <==> TextBefore(a, b)
    ensures LexOrder(a, b) > 0 <==> TextBefore(b, a)
  {
    if a == [] || b == [] || a[0] != b[0] {
      HeadsDiffer(a, b);
      HeadsDiffer(b, a);
    } else {
      LexOrderMeans(a[1..], b[1..]);
      HeadsAgree(a, b);
      HeadsAgree(b, a);
    }
  }

  lemma StartsAgree(a: string, b: string, k: nat)
    requires k > 0 && DiffersAt(a, b, k)
    ensures a != [] && b != [] && a[0] == b[0]
  {
    assert a[..k][0] == b[..k][0];
  }

  lemma HeadsDiffer(a: string, b: string)
    requires a == [] || b == [] || a[0] != b[0]
    ensures TextBefore(a, b) <==> b != [] && (a == [] || a[0] < b[0])
  {
    if b != [] && (a == [] || a[0] < b[0]) {
      assert DiffersAt(a, b, 0);
    }
    if TextBefore(a, b) {
      var k :| 0 <= k <= |a| && DiffersAt(a, b, k);
      if k > 0 {
        StartsAgree(a, b, k);
      }
    }
  }

  lemma HeadsAgree(a: string, b: string)
    requires a != [] && b != [] && a[0] == b[0]
    ensures TextBefore(a, b) <==> TextBefore(a[1..], b[1..])
  {
    if TextBefore(a, b) {
      var k :| 0 <= k <= |a| && DiffersAt(a, b, k);
      assert k > 0 && a[1..][..k - 1] == a[..k][1..] && b[1..][..k - 1] == b[..k][1..];
      assert DiffersAt(a[1..], b[1..], k - 1);
    }
    if TextBefore(a[1..], b[1..]) {
      var k :| 0 <= k <= |a[1..]| && DiffersAt(a[1..], b[1..], k);
      assert a[..k + 1] == [a[0]] + a[1..][..k] && b[..k + 1] == [b[0]] + b[1..][..k];
      assert DiffersAt(a, b, k + 1);
    }
  }

  /** The comparison of two values that are not timestamps. */
  lemma LooseOrderMeans(l: Scalar, r: Scalar)
    requires !l.Time? || !r.Time?
    ensures LooseOrder(l, r) < 0 <==> Precedes(l, r)
    ensures LooseOrder(l, r) > 0 <==> Precedes(r, l)
  {
    if l.Str? && r.Str? {
      LexOrderMeans(l.s, r.s);
    }
  }

  /** Two texts of which neither precedes the other are one text. */
  lemma TextsTie(a: string, b: string)
    ensures !TextBefore(a, b) && !TextBefore(b, a) <==> a == b
  {
    LexOrderMeans(a, b);
    LexAntisymmetric(a, b);
  }

  predicate HoldsInteger(n: Num, i: int) {
    n.Fin? && n.v == i as real
  }

  /** A safe integer is a whole number of at most 53 bits, of either sign. */
  lemma SafeIntegerMeans(n: Num)
    ensures IsSafeInteger(n) <==> exists i :: -9007199254740991 <= i <= 9007199254740991 && HoldsInteger(n, i)
  {
    if n.Fin? && n.v == n.v.Floor as real {
      assert HoldsInteger(n, n.v.Floor);
    }
  }
}
