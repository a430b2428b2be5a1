/** File paths of a multi-file torrent: the sorted-neighbour conflict check
    (internal/torrent/metadata.go, extractFiles). */
module Paths {
  import opened ByteStrings

  type Components = seq<Bytes>

  const NUL: Byte := 0

  /** A path component as ValidatePathComponent leaves it: non-empty and without NUL. */
  predicate Plain(component: Bytes) {
    component != [] && NUL !in component
  }

  predicate PlainPath(path: Components) {
    path != [] && forall i :: 0 <= i < |path| ==> Plain(path[i])
  }

  /** strings.Join(path, "\x00"). */
  function Join(path: Components): Bytes {
    if path == [] then []
    else if |path| == 1 then path[0]
    else path[0] + [NUL] + Join(path[1..])
  }

  /** strings.HasPrefix(b, a + "\x00"). */
  predicate Nested(a: Bytes, b: Bytes) {
    a + [NUL] <= b
  }

  // ----- Joined keys stand for component lists -----

  /** The first NUL of a + [NUL] + x stands right behind a. */
  lemma NulAt(a: Bytes, x: Bytes)
    requires NUL !in a
    ensures var s := a + [NUL] + x;
      s[|a|] == NUL && (forall i :: 0 <= i < |a| ==> s[i] != NUL) && s[..|a|] == a && s[|a| + 1..] == x
  {
    var s := a + [NUL] + x;
    forall i | 0 <= i < |a| ensures s[i] != NUL {
      assert s[i] == a[i];
    }
    assert s[..|a|] == a && s[|a| + 1..] == x;
  }

  lemma FirstNul(a: Bytes, x: Bytes, b: Bytes, y: Bytes)
    requires NUL !in a && NUL !in b && a + [NUL] + x == b + [NUL] + y
    ensures a == b && x == y
  {
    NulAt(a, x);
    NulAt(b, y);
  }

  lemma PlainTail(path: Components)
    requires PlainPath(path) && |path| > 1
    ensures PlainPath(path[1..])
  {
  }

  /** Only keys of several components hold a NUL. */
  lemma JoinNul(path: Components)
    requires PlainPath(path)
    ensures NUL in Join(path) <==> |path| > 1
  {
    if |path| > 1 {
      assert Join(path)[|path[0]|] == NUL;
    }
  }

  /** Different component lists have different keys. */
  lemma {:induction false} JoinIsInjective(p: Components, q: Components)
    requires PlainPath(p) && PlainPath(q) && Join(p) == Join(q)
    ensures p == q
    decreases |p|
  {
    JoinNul(p);
    JoinNul(q);
    if |p| > 1 {
      FirstNul(p[0], Join(p[1..]), q[0], Join(q[1..]));
      PlainTail(p);
      PlainTail(q);
      JoinIsInjective(p[1..], q[1..]);
      assert p == [p[0]] + p[1..] && q == [q[0]] + q[1..];
    }
  }

  lemma NestedHasNul(a: Bytes, b: Bytes)
    ensures Nested(a, b) ==> NUL in b
  {
    if Nested(a, b) {
      assert b[|a|] == (a + [NUL])[|a|];
    }
  }

  /** One key followed by NUL begins another exactly when its component list is a proper prefix of the other's. */
  lemma {:induction false} NestedMeansPrefix(p: Components, q: Components)
    requires PlainPath(p) && PlainPath(q)
    ensures Nested(Join(p), Join(q)) <==> p < q
    decreases |p|
  {
    NestedHasNul(Join(p), Join(q));
    if |q| > 1 {
      PlainTail(q);
      var rest := Join(q[1..]);
      if |p| == 1 {
        if Nested(p[0], Join(q)) {
          FirstNul(p[0], Join(q)[|p[0]| + 1..], q[0], rest);
        }
        if p < q {
          assert p[0] == q[0];
        }
      } else {
        PlainTail(p);
        NestedMeansPrefix(p[1..], q[1..]);
        NestedStep(p[0], Join(p[1..]), q[0], rest);
        assert p == [p[0]] + p[1..] && q == [q[0]] + q[1..];
      }
    }
  }

  lemma NestedStep(a: Bytes, x: Bytes, b: Bytes, y: Bytes)
    requires NUL !in a && NUL !in b
    ensures Nested(a + [NUL] + x, b + [NUL] + y) <==> a == b && Nested(x, y)
  {
    var left, right := a + [NUL] + x + [NUL], b + [NUL] + y;
    if left <= right {
      assert left == a + [NUL] + (x + [NUL]);
      var tail := right[|left|..];
      assert right == a + [NUL] + (x + [NUL] + tail);
      FirstNul(a, x + [NUL] + tail, b, y);
    }
    if a == b && Nested(x, y) {
      assert right == left + y[|x| + 1..];
    }
  }

  // ----- The neighbour check -----

  predicate Increasing(keys: seq<Bytes>) {
    forall i, j :: 0 <= i < j < |keys| ==> Less(keys[i], keys[j])
  }

  lemma {:induction false} NestedIsLess(a: Bytes, b: Bytes)
    requires Nested(a, b)
    ensures Less(a, b)
  {
    if a != [] {
      assert b[0] == (a + [NUL])[0] && b[1..][..|a|] == b[..|a| + 1][1..];
      NestedIsLess(a[1..], b[1..]);
    }
  }

  /** Because NUL is the least byte, whatever lies between a key and one nested in it is nested in it too. */
  lemma {:induction false} BetweenIsNested(a: Bytes, c: Bytes, b: Bytes)
    requires Nested(a, b) && Less(a, c) && Less(c, b)
    ensures Nested(a, c)
  {
    if a == [] {
      assert b[0] == NUL;
      assert c[0] == NUL && c[..1] == [NUL];
    } else {
      assert b[0] == (a + [NUL])[0] == a[0] && b[1..][..|a|] == b[..|a| + 1][1..];
      assert c[0] == a[0];
      BetweenIsNested(a[1..], c[1..], b[1..]);
      assert a + [NUL] == [a[0]] + (a[1..] + [NUL]) && c == [c[0]] + c[1..];
    }
  }

  predicate SomeNeighbourNested(keys: seq<Bytes>) {
    exists i :: 0 <= i < |keys| - 1 && Nested(keys[i], keys[i + 1])
  }

  predicate SomePairNested(keys: seq<Bytes>) {
    exists i, j :: 0 <= i < |keys| && 0 <= j < |keys| && Nested(keys[i], keys[j])
  }

  /** Looking at adjacent pairs in sorted order finds a conflict whenever any pair has one. */
  lemma NeighbourCheckIsExact(keys: seq<Bytes>)
    requires Increasing(keys)
    ensures SomeNeighbourNested(keys) <==> SomePairNested(keys)
  {
    if SomePairNested(keys) {
      var i, j :| 0 <= i < |keys| && 0 <= j < |keys| && Nested(keys[i], keys[j]);
      NestedIsLess(keys[i], keys[j]);
      if j <= i {
        LessIsAsymmetric(keys[i], keys[j]);
      } else if i + 1 < j {
        BetweenIsNested(keys[i], keys[i + 1], keys[j]);
      }
      assert Nested(keys[i], keys[i + 1]);
    }
  }

  // ----- sort.Strings -----

  function Insert(key: Bytes, sorted: seq<Bytes>): seq<Bytes> {
    if sorted == [] || Less(key, sorted[0]) then [key] + sorted else [sorted[0]] + Insert(key, sorted[1..])
  }

  function Sort(keys: seq<Bytes>): seq<Bytes> {
    if keys == [] then [] else Insert(keys[0], Sort(keys[1..]))
  }

  predicate NoRepeat(keys: seq<Bytes>) {
    forall i, j :: 0 <= i < j < |keys| ==> keys[i] != keys[j]
  }

  lemma {:induction false} InsertSorts(key: Bytes, sorted: seq<Bytes>)
    requires Increasing(sorted) && key !in sorted
    ensures Increasing(Insert(key, sorted))
    ensures forall k :: k in Insert(key, sorted) <==> k == key || k in sorted
    decreases |sorted|
  {
    if sorted == [] {
    } else if Less(key, sorted[0]) {
      forall j | 0 <= j < |sorted| ensures Less(key, sorted[j]) {
        if j > 0 {
          LessIsTransitive(key, sorted[0], sorted[j]);
        }
      }
    } else {
      LessIsTotal(key, sorted[0]);
      var rest := sorted[1..];
      assert sorted == [sorted[0]] + rest;
      InsertSorts(key, rest);
      var r := Insert(key, rest);
      forall j | 0 <= j < |r| ensures Less(sorted[0], r[j]) {
        assert r[j] in r;
      }
    }
  }

  lemma {:induction false} SortSorts(keys: seq<Bytes>)
    requires NoRepeat(keys)
    ensures Increasing(Sort(keys))
    ensures forall k :: k in Sort(keys) <==> k in keys
  {
    if keys != [] {
      assert keys == [keys[0]] + keys[1..];
      SortSorts(keys[1..]);
      assert keys[0] !in keys[1..];
      InsertSorts(keys[0], Sort(keys[1..]));
    }
  }

  lemma SomePairDependsOnElements(a: seq<Bytes>, b: seq<Bytes>)
    requires (forall k :: k in a ==> k in b) && SomePairNested(a)
    ensures SomePairNested(b)
  {
    var i, j :| 0 <= i < |a| && 0 <= j < |a| && Nested(a[i], a[j]);
    assert a[i] in b && a[j] in b;
    var x :| 0 <= x < |b| && b[x] == a[i];
    var y :| 0 <= y < |b| && b[y] == a[j];
    assert Nested(b[x], b[y]);
  }

  /** The whole check: sort the distinct keys and compare neighbours. It reports a
      conflict exactly when some key is nested in some other, in any positions. */
  method PathConflict(pathKeys: seq<Bytes>) returns (conflict: bool)
    requires NoRepeat(pathKeys)
    ensures conflict <==> SomePairNested(pathKeys)
  {
    var sorted := Sort(pathKeys);
    SortSorts(pathKeys);
    NeighbourCheckIsExact(sorted);
    if SomePairNested(sorted) {
      SomePairDependsOnElements(sorted, pathKeys);
    }
    if SomePairNested(pathKeys) {
      SomePairDependsOnElements(pathKeys, sorted);
    }
    var i := 0;
    while i + 1 < |sorted|
      invariant forall j :: 0 <= j < i && j + 1 < |sorted| ==> !Nested(sorted[j], sorted[j + 1])
    {
      if Nested(sorted[i], sorted[i + 1]) {
        return true;
      }
      i := i + 1;
    }
    conflict := false;
  }
}
