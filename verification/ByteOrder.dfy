// Both stores keep their log in a map ordered by the bytes of its keys.  This module
// defines that order, the listing of a key set in that order, and a range scan.
module ByteOrder {
  // memcmp order: the first differing character decides, and a proper prefix comes first.
  predicate Less(a: string, b: string) {
    && |b| > 0
    && (|a| == 0 || a[0] < b[0] || (a[0] == b[0] && Less(a[1..], b[1..])))
  }

  predicate LessEq(a: string, b: string) {
    a == b || Less(a, b)
  }

  lemma {:induction false} LessIrreflexive(a: string)
    ensures !Less(a, a)
  {
    if |a| > 0 {
      LessIrreflexive(a[1..]);
    }
  }

  lemma {:induction false} LessTransitive(a: string, b: string, c: string)
    requires Less(a, b) && Less(b, c)
    ensures Less(a, c)
  {
    if |a| > 0 && a[0] == b[0] == c[0] {
      LessTransitive(a[1..], b[1..], c[1..]);
    }
  }

  lemma {:induction false} LessTotal(a: string, b: string)
    ensures a == b || Less(a, b) || Less(b, a)
    ensures !(Less(a, b) && Less(b, a))
  {
    if |a| > 0 && |b| > 0 && a[0] == b[0] {
      LessTotal(a[1..], b[1..]);
      assert a == [a[0]] + a[1..] && b == [b[0]] + b[1..];
    }
  }

  // Comparing strings of equal length character by character from the right.
  lemma {:induction false} LessSnoc(x: string, c: char, y: string, d: char)
    requires |x| == |y|
    ensures Less(x + [c], y + [d]) <==> Less(x, y) || (x == y && c < d)
  {
    if |x| == 0 {
      assert x + [c] == [c] && y + [d] == [d];
    } else {
      assert (x + [c])[1..] == x[1..] + [c] && (y + [d])[1..] == y[1..] + [d];
      LessSnoc(x[1..], c, y[1..], d);
      assert x == [x[0]] + x[1..] && y == [y[0]] + y[1..];
    }
  }

  // A shorter string against a longer one: only the longer one's prefix matters.
  lemma {:induction false} LessPrefix(x: string, y: string, z: string)
    requires |x| == |y| && |z| > 0
    ensures Less(x, y + z) <==> LessEq(x, y)
  {
    if |x| == 0 {
      assert y + z == z;
    } else {
      assert (y + z)[1..] == y[1..] + z;
      LessPrefix(x[1..], y[1..], z);
      assert x == [x[0]] + x[1..] && y == [y[0]] + y[1..];
    }
  }

  predicate IsFirst(m: string, keys: set<string>) {
    m in keys && forall k | k in keys :: LessEq(m, k)
  }

  lemma {:induction false} FirstExists(keys: set<string>)
    requires keys != {}
    ensures exists m :: IsFirst(m, keys)
  {
    var k :| k in keys;
    if keys == {k} {
      assert IsFirst(k, keys);
    } else {
      FirstExists(keys - {k});
      var m :| IsFirst(m, keys - {k});
      LessTotal(k, m);
      if Less(k, m) {
        forall x | x in keys ensures LessEq(k, x) {
          if x != k && x != m {
            assert LessEq(m, x);
            LessTransitive(k, m, x);
          }
        }
        assert IsFirst(k, keys);
      } else {
        assert IsFirst(m, keys);
      }
    }
  }

  lemma FirstUnique(m: string, n: string, keys: set<string>)
    requires IsFirst(m, keys) && IsFirst(n, keys)
    ensures m == n
  {
    LessTotal(m, n);
  }

  // The key an ordered iterator yields first.
  function FirstKey(keys: set<string>): (m: string)
    requires keys != {}
    ensures IsFirst(m, keys)
  {
    FirstExists(keys);
    assert forall m, n | IsFirst(m, keys) && IsFirst(n, keys) :: m == n by {
      forall m, n | IsFirst(m, keys) && IsFirst(n, keys) ensures m == n {
        FirstUnique(m, n, keys);
      }
    }
    var m :| m in keys && IsFirst(m, keys);
    m
  }

  // The keys in the order an iterator yields them.
  function SortedKeys(keys: set<string>): (ks: seq<string>)
    ensures forall k :: k in ks <==> k in keys
  {
    if keys == {} then []
    else var m := FirstKey(keys); [m] + SortedKeys(keys - {m})
  }

  ghost predicate Ascending(ks: seq<string>) {
    forall i, j | 0 <= i < j < |ks| :: Less(ks[i], ks[j])
  }

  lemma {:induction false} SortedKeysAscending(keys: set<string>)
    ensures Ascending(SortedKeys(keys))
  {
    if keys != {} {
      var m := FirstKey(keys);
      var rest := SortedKeys(keys - {m});
      SortedKeysAscending(keys - {m});
      forall i, j | 0 <= i < j < |rest| + 1 ensures Less(([m] + rest)[i], ([m] + rest)[j]) {
        if i == 0 {
          assert rest[j - 1] in rest;
        }
      }
    }
  }

  // The rest of an ascending listing is everything but its first key.
  lemma AscendingTail(xs: seq<string>)
    requires Ascending(xs) && |xs| > 0
    ensures Ascending(xs[1..])
    ensures forall k :: k in xs[1..] <==> k in xs && k != xs[0]
  {
    LessIrreflexive(xs[0]);
    assert xs == [xs[0]] + xs[1..];
    forall k | k in xs[1..] ensures k != xs[0] {
      var i :| 0 <= i < |xs[1..]| && xs[1..][i] == k;
      assert xs[i + 1] == k && Less(xs[0], xs[i + 1]);
    }
  }

  // An ascending listing is determined by the set it lists.
  lemma {:induction false} AscendingUnique(xs: seq<string>, ys: seq<string>)
    requires Ascending(xs) && Ascending(ys)
    requires forall k :: k in xs <==> k in ys
    ensures xs == ys
  {
    assert |xs| > 0 ==> xs[0] in xs;
    assert |ys| > 0 ==> ys[0] in ys;
    if |xs| > 0 {
      assert xs[0] in ys;
      assert ys[0] in xs;
      LessTotal(xs[0], ys[0]);
      assert xs[0] == ys[0];
      AscendingTail(xs);
      AscendingTail(ys);
      AscendingUnique(xs[1..], ys[1..]);
      assert xs == [xs[0]] + xs[1..] && ys == [ys[0]] + ys[1..];
    }
  }

  // The values of an ordered map under the given keys, in that order.
  function ValuesAt<V>(m: map<string, V>, ks: seq<string>): (vs: seq<V>)
    requires forall k | k in ks :: k in m
    ensures |vs| == |ks| && forall i | 0 <= i < |ks| :: vs[i] == m[ks[i]]
  {
    seq(|ks|, i requires 0 <= i < |ks| => m[ks[i]])
  }

  // Range scan: the values whose keys lie in [low, high), in key order.
  function Scan<V>(m: map<string, V>, low: string, high: string): seq<V> {
    ValuesAt(m, SortedKeys(set k | k in m && LessEq(low, k) && Less(k, high)))
  }

  // Scan from the start of the map up to but excluding a key.
  function ScanBelow<V>(m: map<string, V>, high: string): seq<V> {
    ValuesAt(m, SortedKeys(set k | k in m && Less(k, high)))
  }

  // Scan of the whole map.
  function ScanAll<V>(m: map<string, V>): seq<V> {
    ValuesAt(m, SortedKeys(m.Keys))
  }
}
