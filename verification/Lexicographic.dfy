/** Lexicographic order on keys, ordered iteration over a table, and scans of one prefix. */
module Lexicographic {

  predicate LexLe(a: string, b: string) {
    a == "" || (b != "" && (a[0] < b[0] || (a[0] == b[0] && LexLe(a[1..], b[1..]))))
  }

  lemma {:induction false} LexReflexive(a: string)
    ensures LexLe(a, a)
  {
    if a != "" {
      LexReflexive(a[1..]);
    }
  }

  lemma {:induction false} LexAntisymmetric(a: string, b: string)
    requires LexLe(a, b) && LexLe(b, a)
    ensures a == b
  {
    if a != "" {
      LexAntisymmetric(a[1..], b[1..]);
      assert a == [a[0]] + a[1..] && b == [b[0]] + b[1..];
    }
  }

  lemma {:induction false} LexTransitive(a: string, b: string, c: string)
    requires LexLe(a, b) && LexLe(b, c)
    ensures LexLe(a, c)
  {
    if a != "" && a[0] == b[0] == c[0] {
      LexTransitive(a[1..], b[1..], c[1..]);
    }
  }

  lemma {:induction false} LexTotal(a: string, b: string)
    ensures LexLe(a, b) || LexLe(b, a)
  {
    if a != "" && b != "" {
      LexTotal(a[1..], b[1..]);
    }
  }

  /** A common prefix does not affect the order. */
  lemma {:induction false} LexPrefix(p: string, a: string, b: string)
    ensures LexLe(p + a, p + b) <==> LexLe(a, b)
  {
    if p == "" {
      assert p + a == a && p + b == b;
    } else {
      assert (p + a)[1..] == p[1..] + a && (p + b)[1..] == p[1..] + b;
      LexPrefix(p[1..], a, b);
    }
  }

  /** Keys with a given prefix are contiguous: what lies between two of them has the prefix too. */
  lemma {:induction false} LexBlock(p: string, a: string, x: string, b: string)
    requires p <= a && p <= b && LexLe(a, x) && LexLe(x, b)
    ensures p <= x
  {
    if p != "" {
      assert a[0] == p[0] == b[0] && x[0] == p[0];
      LexBlock(p[1..], a[1..], x[1..], b[1..]);
      assert x == [x[0]] + x[1..] && p == [p[0]] + p[1..];
    }
  }

  /** Order of equally long strings is decided by all but the last character, then by the last. */
  lemma {:induction false} LexLast(a: string, c: char, b: string, d: char)
    requires |a| == |b|
    ensures LexLe(a + [c], b + [d]) <==> if a == b then c <= d else LexLe(a, b)
  {
    if a == "" {
      assert a + [c] == [c] && b + [d] == [d];
      assert LexLe([c][1..], [d][1..]);
    } else {
      assert (a + [c])[1..] == a[1..] + [c] && (b + [d])[1..] == b[1..] + [d];
      LexLast(a[1..], c, b[1..], d);
      assert a == [a[0]] + a[1..] && b == [b[0]] + b[1..];
    }
  }

  // ---- Ordered iteration ----

  predicate IsFirst(keys: set<string>, k: string) {
    k in keys && forall x :: x in keys ==> LexLe(k, x)
  }

  lemma {:induction false} FirstExists(keys: set<string>)
    requires keys != {}
    ensures exists k :: IsFirst(keys, k)
    decreases keys
  {
    var y :| y in keys;
    var rest := keys - {y};
    if rest == {} {
      LexReflexive(y);
      assert keys == {y} && IsFirst(keys, y);
    } else {
      FirstExists(rest);
      var z :| IsFirst(rest, z);
      LexTotal(y, z);
      LexReflexive(y);
      var k := if LexLe(y, z) then y else z;
      forall x | x in keys ensures LexLe(k, x) {
        if x != y {
          assert x in rest;
          if k == y {
            LexTransitive(y, z, x);
          }
        }
      }
      assert IsFirst(keys, k);
    }
  }

  /** Two positions of a key sequence are in strict order. */
  predicate Ordered(keys: seq<string>, i: nat, j: nat)
    requires i < |keys| && j < |keys|
  {
    LexLe(keys[i], keys[j]) && keys[i] != keys[j]
  }

  ghost predicate Sorted(keys: seq<string>) {
    forall i: nat, j: nat {:trigger Ordered(keys, i, j)} :: i < j < |keys| ==> Ordered(keys, i, j)
  }

  predicate InRange(keys: set<string>, start: string, k: string) {
    k in keys && LexLe(start, k)
  }

  /** The scan visits the keys from `start` on, in order. */
  ghost predicate Scans(keys: set<string>, start: string, scan: seq<string>) {
    && Sorted(scan)
    && (forall k {:trigger InRange(keys, start, k)} :: InRange(keys, start, k) ==> k in scan)
    && (forall i {:trigger scan[i]} :: 0 <= i < |scan| ==> scan[i] in keys)
    && (forall i: nat {:trigger FromStart(start, scan, i)} :: i < |scan| ==> FromStart(start, scan, i))
  }

  predicate FromStart(start: string, scan: seq<string>, i: nat)
    requires i < |scan|
  {
    LexLe(start, scan[i])
  }

  /** `table.range(start..)`: selection of the least key left, until none is. */
  method Range(keys: set<string>, start: string) returns (scan: seq<string>)
    ensures Scans(keys, start, scan)
  {
    var rest := set k | k in keys && LexLe(start, k);
    ghost var all := rest;
    scan := [];
    while rest != {}
      invariant rest <= all
      invariant forall k :: k in all ==> k in rest || k in scan
      invariant forall i ::
                0 <= i < |scan| ==> scan[i] in all && scan[i] !in rest && forall k :: k in rest ==> LexLe(scan[i], k)
      invariant Sorted(scan)
      decreases rest
    {
      FirstExists(rest);
      var first :| IsFirst(rest, first);
      SortedSnoc(scan, first);
      scan := scan + [first];
      rest := rest - {first};
    }
  }

  lemma SortedSnoc(scan: seq<string>, k: string)
    requires Sorted(scan) && forall i :: 0 <= i < |scan| ==> LexLe(scan[i], k) && scan[i] != k
    ensures Sorted(scan + [k])
  {
    forall i: nat, j: nat | i < j < |scan + [k]| ensures Ordered(scan + [k], i, j) {
      if j < |scan| {
        assert Ordered(scan, i, j);
      }
    }
  }

  lemma {:induction false} SortedUnique(a: seq<string>, b: seq<string>)
    requires Sorted(a) && Sorted(b) && forall k :: k in a <==> k in b
    ensures a == b
    decreases |a|
  {
    if b != [] {
      assert b[0] in a;
    }
    if a != [] {
      assert a[0] in b;
      if a[0] != b[0] {
        var i :| 0 <= i < |b| && b[i] == a[0];
        var j :| 0 <= j < |a| && a[j] == b[0];
        assert Ordered(b, 0, i) && Ordered(a, 0, j);
        LexAntisymmetric(a[0], b[0]);
      }
      SortedTail(a, b);
      SortedUnique(a[1..], b[1..]);
      assert a == [a[0]] + a[1..] && b == [b[0]] + b[1..];
    }
  }

  lemma TailSorted(a: seq<string>)
    requires Sorted(a) && a != []
    ensures Sorted(a[1..]) && a[0] !in a[1..]
  {
    forall i: nat, j: nat | i < j < |a[1..]| ensures Ordered(a[1..], i, j) {
      assert Ordered(a, i + 1, j + 1);
    }
    forall i | 0 <= i < |a[1..]| ensures a[1..][i] != a[0] {
      assert Ordered(a, 0, i + 1);
    }
  }

  lemma SortedTail(a: seq<string>, b: seq<string>)
    requires Sorted(a) && Sorted(b) && a != [] && b != [] && a[0] == b[0] && forall k :: k in a <==> k in b
    ensures Sorted(a[1..]) && Sorted(b[1..]) && forall k :: k in a[1..] <==> k in b[1..]
  {
    TailSorted(a);
    TailSorted(b);
    assert forall k :: k in a <==> k == a[0] || k in a[1..];
    assert forall k :: k in b <==> k == b[0] || k in b[1..];
  }

  /**
   * A scan that starts inside a prefix block and stops at the first key without the prefix yields
   * exactly the block from the start on: `block` lists the keys of the table with the prefix that are
   * not before `start`.
   */
  lemma ScanBlock(keys: set<string>, start: string, prefix: string, scan: seq<string>, block: seq<string>)
    requires prefix <= start && Sorted(block) && Scans(keys, start, scan)
    requires forall k :: k in block <==> k in keys && LexLe(start, k) && prefix <= k
    ensures |block| <= |scan| && scan[..|block|] == block
    ensures |block| < |scan| ==> !(prefix <= scan[|block|])
  {
    var n := LeadingBlock(scan, prefix);
    assert n < |scan| ==> FromStart(start, scan, n);
    AfterBlock(start, prefix, scan, n);
    var lead := scan[..n];
    forall k | k in lead ensures k in block {
      var i :| 0 <= i < n && lead[i] == k;
      assert FromStart(start, scan, i);
    }
    forall k | k in block ensures k in lead {
      assert InRange(keys, start, k);
      var i :| 0 <= i < |scan| && scan[i] == k;
      assert lead[i] == k;
    }
    assert Sorted(lead) by {
      forall i: nat, j: nat | i < j < n ensures Ordered(lead, i, j) {
        assert Ordered(scan, i, j);
      }
    }
    SortedUnique(lead, block);
  }

  /** Once a key without the prefix is met, no later key has it. */
  lemma AfterBlock(start: string, prefix: string, scan: seq<string>, n: nat)
    requires Sorted(scan) && n <= |scan| && prefix <= start && (n < |scan| ==> !(prefix <= scan[n]))
    requires n < |scan| ==> FromStart(start, scan, n)
    ensures forall i :: n <= i < |scan| ==> !(prefix <= scan[i])
  {
    forall i: nat | n < i < |scan| ensures !(prefix <= scan[i]) {
      assert Ordered(scan, n, i);
      if prefix <= scan[i] {
        LexBlock(prefix, start, scan[n], scan[i]);
      }
    }
  }

  /** The number of keys before the first one without the prefix. */
  function LeadingBlock(keys: seq<string>, prefix: string): (n: nat)
    ensures n <= |keys| && (forall i :: 0 <= i < n ==> prefix <= keys[i]) && (n < |keys| ==> !(prefix <= keys[n]))
  {
    if keys == [] || !(prefix <= keys[0]) then 0 else 1 + LeadingBlock(keys[1..], prefix)
  }
}
