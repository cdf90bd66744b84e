/** A string-keyed table as the image of a map under an injective key encoding. */
module KeyedTable {
  import opened Lexicographic

  ghost predicate Injective<K(!new)>(key: K -> string) {
    forall a, b {:trigger key(a), key(b)} :: key(a) == key(b) ==> a == b
  }

  ghost predicate Holds<K, V>(table: map<string, V>, key: K -> string, k: K, v: V) {
    key(k) in table && table[key(k)] == v
  }

  ghost predicate Named<K(!new), V>(content: map<K, V>, key: K -> string, s: string) {
    exists k :: k in content && key(k) == s
  }

  /** The table holds exactly the entries of `content`, each under its key. */
  ghost predicate Rep<K(!new), V>(table: map<string, V>, content: map<K, V>, key: K -> string) {
    && (forall k {:trigger Holds(table, key, k, content[k])} :: k in content ==> Holds(table, key, k, content[k]))
    && (forall s {:trigger Named(content, key, s)} :: s in table ==> Named(content, key, s))
  }

  lemma Lookup<K(!new), V>(table: map<string, V>, content: map<K, V>, key: K -> string, k: K)
    requires Rep(table, content, key) && Injective(key)
    ensures key(k) in table <==> k in content
    ensures k in content ==> table[key(k)] == content[k]
  {
    if k in content {
      assert Holds(table, key, k, content[k]);
    }
    if key(k) in table {
      assert Named(content, key, key(k));
    }
  }

  lemma Insert<K(!new), V>(table: map<string, V>, content: map<K, V>, key: K -> string, k: K, v: V)
    requires Rep(table, content, key) && Injective(key)
    ensures Rep(table[key(k) := v], content[k := v], key)
  {
    var table', content' := table[key(k) := v], content[k := v];
    forall x | x in content' ensures Holds(table', key, x, content'[x]) {
      if x != k {
        assert Holds(table, key, x, content[x]);
      }
    }
    forall s | s in table' ensures Named(content', key, s) {
      if s == key(k) {
        assert k in content';
      } else {
        assert Named(content, key, s);
        var x :| x in content && key(x) == s;
        assert x in content';
      }
    }
  }

  lemma Remove<K(!new), V>(table: map<string, V>, content: map<K, V>, key: K -> string, k: K)
    requires Rep(table, content, key) && Injective(key)
    ensures Rep(table - {key(k)}, content - {k}, key)
  {
    var table', content' := table - {key(k)}, content - {k};
    forall x | x in content' ensures Holds(table', key, x, content'[x]) {
      assert Holds(table, key, x, content[x]);
    }
    forall s | s in table' ensures Named(content', key, s) {
      assert Named(content, key, s);
      var x :| x in content && key(x) == s;
      assert x in content';
    }
  }

  ghost predicate OrderedAt<K>(entries: seq<K>, key: K -> string, i: nat, j: nat)
    requires i < |entries| && j < |entries|
  {
    LexLe(key(entries[i]), key(entries[j])) && key(entries[i]) != key(entries[j])
  }

  /** The entries come in strict key order. */
  ghost predicate InOrder<K>(entries: seq<K>, key: K -> string) {
    forall i: nat, j: nat {:trigger OrderedAt(entries, key, i, j)} ::
      i < j < |entries| ==> OrderedAt(entries, key, i, j)
  }

  ghost predicate InBlock<K>(key: K -> string, start: string, prefix: string, k: K) {
    LexLe(start, key(k)) && prefix <= key(k)
  }

  /** `entries` are exactly the ones whose keys have the prefix and do not come before `start`. */
  ghost predicate IsBlock<K(!new), V>(content: map<K, V>, key: K -> string, start: string, prefix: string,
      entries: seq<K>) {
    && (forall i :: 0 <= i < |entries| ==> entries[i] in content && InBlock(key, start, prefix, entries[i]))
    && (forall k {:trigger InBlock(key, start, prefix, k)} ::
      k in content && InBlock(key, start, prefix, k) ==> k in entries)
  }

  /** The scan starts with the keys of `entries` and goes on, if at all, with a key without the prefix. */
  ghost predicate LeadsWith<K>(scan: seq<string>, key: K -> string, prefix: string, entries: seq<K>) {
    && |entries| <= |scan|
    && (forall i :: 0 <= i < |entries| ==> scan[i] == key(entries[i]) && prefix <= scan[i])
    && (|entries| < |scan| ==> !(prefix <= scan[|entries|]))
  }

  /**
   * A scan from `start` meets first exactly the entries of the block, in order, and then a key
   * without the prefix, if any key is left.
   */
  lemma ScanLeadsWith<K(!new), V>(table: map<string, V>, content: map<K, V>, key: K -> string, start: string,
      prefix: string, scan: seq<string>, entries: seq<K>)
    requires Rep(table, content, key) && prefix <= start && Scans(table.Keys, start, scan)
    requires InOrder(entries, key) && IsBlock(content, key, start, prefix, entries)
    ensures LeadsWith(scan, key, prefix, entries)
  {
    var block := seq(|entries|, i requires 0 <= i < |entries| => key(entries[i]));
    forall s | s in block ensures s in table.Keys && LexLe(start, s) && prefix <= s {
      var i :| 0 <= i < |block| && block[i] == s;
      assert entries[i] in content && InBlock(key, start, prefix, entries[i]);
      assert Holds(table, key, entries[i], content[entries[i]]);
    }
    forall s | s in table.Keys && LexLe(start, s) && prefix <= s ensures s in block {
      assert Named(content, key, s);
      var k :| k in content && key(k) == s;
      assert InBlock(key, start, prefix, k);
      var i :| 0 <= i < |entries| && entries[i] == k;
      assert block[i] == s;
    }
    assert Sorted(block) by {
      forall i: nat, j: nat | i < j < |block| ensures Ordered(block, i, j) {
        assert OrderedAt(entries, key, i, j);
      }
    }
    ScanBlock(table.Keys, start, prefix, scan, block);
    forall i | 0 <= i < |entries| ensures scan[i] == key(entries[i]) && prefix <= scan[i] {
      assert scan[i] == scan[..|entries|][i] == block[i];
    }
  }

  lemma EmptyIsLeast(prefix: string, k: string)
    requires prefix <= k
    ensures LexLe(prefix, k)
  {
    LexPrefix(prefix, "", k[|prefix|..]);
    assert prefix + "" == prefix && prefix + k[|prefix|..] == k;
  }

  /** A scan from a prefix meets first all entries whose keys have it, each once. */
  lemma PrefixScan<K(!new), V>(table: map<string, V>, content: map<K, V>, key: K -> string, prefix: string,
      scan: seq<string>) returns (entries: seq<K>)
    requires Rep(table, content, key) && Injective(key) && Scans(table.Keys, prefix, scan)
    ensures LeadsWith(scan, key, prefix, entries) && InOrder(entries, key)
    ensures forall i :: 0 <= i < |entries| ==> entries[i] in content
    ensures forall k :: k in content && prefix <= key(k) ==> k in entries
  {
    var n := LeadingBlock(scan, prefix);
    entries := [];
    while |entries| < n
      invariant |entries| <= n
      invariant forall i :: 0 <= i < |entries| ==> entries[i] in content && key(entries[i]) == scan[i]
    {
      assert scan[|entries|] in table && Named(content, key, scan[|entries|]);
      var k :| k in content && key(k) == scan[|entries|];
      entries := entries + [k];
    }
    assert n < |scan| ==> FromStart(prefix, scan, n);
    AfterBlock(prefix, prefix, scan, n);
    forall k | k in content && prefix <= key(k) ensures k in entries {
      EmptyIsLeast(prefix, key(k));
      assert Holds(table, key, k, content[k]);
      assert InRange(table.Keys, prefix, key(k));
      var i :| 0 <= i < |scan| && scan[i] == key(k);
      assert entries[i] == k;
    }
    forall i: nat, j: nat | i < j < n ensures OrderedAt(entries, key, i, j) {
      assert Ordered(scan, i, j);
    }
  }
}
