/** Bytes, byte strings and the handful of operations every other module uses. */
module ByteStrings {
  type Byte = b: int | 0 <= b < 256
  type Bytes = seq<Byte>

  datatype Option<+T> = None | Some(value: T)
  datatype Result<+T> = Failure | Success(value: T)

  const MAX_INT64: int := 0x7FFF_FFFF_FFFF_FFFF
  const TWO_64: int := 0x1_0000_0000_0000_0000

  function Min(a: int, b: int): int {
    if a < b then a else b
  }

  /** Two's-complement wrap-around of a 64-bit signed result. */
  function Wrap64(x: int): int {
    (x + MAX_INT64 + 1) % TWO_64 - MAX_INT64 - 1
  }

  /** Integer division that truncates toward zero. */
  function TruncDiv(a: int, b: int): int
    requires b > 0
  {
    if a >= 0 then a / b else -((-a) / b)
  }

  /** Dividing the wrapped product back detects exactly the products that do not fit. */
  lemma OverflowCheckIsExact(index: int, length: int)
    requires 0 < index <= MAX_INT64 && 0 < length <= MAX_INT64
    ensures TruncDiv(Wrap64(index * length), index) == length <==> index * length <= MAX_INT64
  {
    var product, wrapped := index * length, Wrap64(index * length);
    MulPositive(index, length);
    if product <= MAX_INT64 {
      assert wrapped == product;
      QuotientIs(product, index, length);
    } else {
      assert wrapped < product - index;
      if wrapped < 0 {
        DivideLow(-wrapped, index);
      } else {
        DivideLow(wrapped, index);
        assert index * (wrapped / index) < index * (length - 1);
      }
    }
  }

  lemma MulPositive(a: int, b: int)
    requires a > 0 && b > 0
    ensures a * b > 0
  {
  }

  lemma QuotientIs(n: int, d: int, q: int)
    requires d > 0 && 0 <= n && d * q <= n < d * (q + 1)
    ensures n / d == q
  {
    DivideLow(n, d);
    MulMonotone(d, n / d + 1, q);
    MulMonotone(d, q + 1, n / d);
  }

  lemma MulMonotone(d: int, a: int, b: int)
    requires d > 0
    ensures a <= b ==> d * a <= d * b
  {
  }

  lemma DivideLow(n: int, d: int)
    requires n >= 0 && d > 0
    ensures n / d >= 0 && d * (n / d) <= n < d * (n / d + 1)
  {
  }

  /** s with the bytes from offset on replaced by d. */
  function Overlay(s: Bytes, offset: nat, d: Bytes): (r: Bytes)
    requires offset + |d| <= |s|
    ensures |r| == |s|
    ensures forall i :: 0 <= i < |s| ==> r[i] == if offset <= i < offset + |d| then d[i - offset] else s[i]
  {
    seq(|s|, i requires 0 <= i < |s| => if offset <= i < offset + |d| then d[i - offset] else s[i])
  }

  lemma SliceOfSlice(s: Bytes, lo: nat, hi: nat, a: nat, b: nat)
    requires lo <= hi <= |s| && a <= b <= hi - lo
    ensures s[lo..hi][a..b] == s[lo + a..lo + b]
  {
    var x, y := s[lo..hi][a..b], s[lo + a..lo + b];
    assert forall i :: 0 <= i < |x| ==> x[i] == y[i];
  }

  lemma OverlayNothing(s: Bytes, offset: nat)
    requires offset <= |s|
    ensures Overlay(s, offset, []) == s
  {
  }

  /** Writing a prefix of d and then the next part of it is writing the longer prefix. */
  lemma OverlayExtend(s: Bytes, offset: nat, d: Bytes, w: nat, n: nat)
    requires w + n <= |d| && offset + |d| <= |s|
    ensures Overlay(Overlay(s, offset, d[..w]), offset + w, d[w..w + n]) == Overlay(s, offset, d[..w + n])
  {
  }

  lemma OverlaySlice(s: Bytes, offset: nat, d: Bytes, lo: nat, hi: nat)
    requires offset + |d| <= |s| && lo <= hi <= |s|
    requires hi <= offset || offset + |d| <= lo
    ensures Overlay(s, offset, d)[lo..hi] == s[lo..hi]
  {
  }

  /** Of an overlaid byte string: a part outside the range, and the range itself. */
  lemma OverlayParts(s: Bytes, offset: nat, d: Bytes, lo: nat, hi: nat)
    requires offset + |d| <= |s| && lo <= hi <= |s|
    ensures hi <= offset || offset + |d| <= lo ==> Overlay(s, offset, d)[lo..hi] == s[lo..hi]
    ensures Overlay(s, offset, d)[offset..offset + |d|] == d
  {
  }

  lemma OverlayOfConcat(a: Bytes, b: Bytes, offset: nat, d: Bytes)
    ensures offset + |d| <= |a| ==> Overlay(a + b, offset, d) == Overlay(a, offset, d) + b
    ensures |a| <= offset && offset + |d| <= |a| + |b| ==> Overlay(a + b, offset, d) == a + Overlay(b, offset - |a|, d)
  {
  }

  /** The byte-wise order on strings that the source's `<` and sort.Strings use. */
  predicate Less(a: Bytes, b: Bytes) {
    b != [] && (a == [] || a[0] < b[0] || (a[0] == b[0] && Less(a[1..], b[1..])))
  }

  lemma {:induction false} LessIsAsymmetric(a: Bytes, b: Bytes)
    requires Less(a, b)
    ensures !Less(b, a) && a != b
  {
    if a != [] && a[0] == b[0] {
      LessIsAsymmetric(a[1..], b[1..]);
    }
  }

  lemma {:induction false} LessIsIrreflexive(a: Bytes)
    ensures !Less(a, a)
  {
    if a != [] {
      LessIsIrreflexive(a[1..]);
    }
  }

  lemma {:induction false} LessIsTotal(a: Bytes, b: Bytes)
    ensures a == b || Less(a, b) || Less(b, a)
  {
    if a != [] && b != [] && a[0] == b[0] {
      LessIsTotal(a[1..], b[1..]);
      assert a == [a[0]] + a[1..] && b == [b[0]] + b[1..];
    }
  }

  lemma {:induction false} LessIsTransitive(a: Bytes, b: Bytes, c: Bytes)
    requires Less(a, b) && Less(b, c)
    ensures Less(a, c)
  {
    if a != [] && a[0] == b[0] == c[0] {
      LessIsTransitive(a[1..], b[1..], c[1..]);
    }
  }
}
