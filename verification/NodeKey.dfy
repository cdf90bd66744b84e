/** Node keys `tenant/bl/device`, peer specifications `endpoint=key`, and the text checks they share. */
module NodeKey {
  import opened Domain

  /** The characters with the Unicode property White_Space, which `trim` removes. */
  predicate IsWhitespace(c: char) {
    var n := c as int;
    || 9 <= n <= 13 || n == 32 || n == 0x85 || n == 0xA0 || n == 0x1680
    || 0x2000 <= n <= 0x200A || n == 0x2028 || n == 0x2029 || n == 0x202F || n == 0x205F || n == 0x3000
  }

  /** `value.trim().is_empty()` */
  predicate Blank(s: string) {
    forall i :: 0 <= i < |s| ==> IsWhitespace(s[i])
  }

  /** `validate_part`: neither blank nor holding a NUL. */
  predicate ValidPart(s: string) {
    !Blank(s) && '\0' !in s
  }

  predicate ValidNode(n: NodeId) {
    ValidPart(n.tenantId) && ValidPart(n.blName) && ValidPart(n.deviceId)
  }

  predicate SlashFree(n: NodeId) {
    '/' !in n.tenantId && '/' !in n.blName && '/' !in n.deviceId
  }

  /** The code points that count as white space. */
  const BLANKS: set<int> := {
    0x9, 0xA, 0xB, 0xC, 0xD, 0x20, 0x85, 0xA0, 0x1680, 0x2000, 0x2001, 0x2002, 0x2003, 0x2004, 0x2005, 0x2006, 0x2007,
    0x2008, 0x2009, 0x200A, 0x2028, 0x2029, 0x202F, 0x205F, 0x3000
  }

  /** A topic or a part of a node is refused exactly if it holds a NUL or nothing but white space. */
  lemma RefusedPartIff(s: string)
    ensures !ValidPart(s) <==> '\0' in s || forall i :: 0 <= i < |s| ==> s[i] as int in BLANKS
  {
    forall c: char ensures IsWhitespace(c) <==> c as int in BLANKS {
    }
  }

  /** `value.split(c)`: the pieces between the separators, at least one. */
  function Split(s: string, c: char): (parts: seq<string>)
    ensures |parts| >= 1
    ensures forall i :: 0 <= i < |parts| ==> c !in parts[i]
  {
    if s == "" then
      [""]
    else
      var rest := Split(s[1..], c);
      if s[0] == c then [""] + rest else [[s[0]] + rest[0]] + rest[1..]
  }

  function Join(parts: seq<string>, c: char): string
    requires |parts| >= 1
  {
    if |parts| == 1 then parts[0] else parts[0] + [c] + Join(parts[1..], c)
  }

  function FromKey(s: string): Outcome<NodeId> {
    var parts := Split(s, '/');
    if |parts| != 3 then
      Err(InvalidArgument)
    else
      var n := NodeId(parts[0], parts[1], parts[2]);
      if ValidNode(n) then Ok(n) else Err(InvalidArgument)
  }

  datatype PeerSpec = PeerSpec(endpoint: string, expected: NodeOption)
  datatype NodeOption = NoNode | SomeNode(node: NodeId)

  /** The index of the last occurrence of a character, or -1. */
  function LastIndexOf(s: string, c: char): (at: int)
    ensures -1 <= at < |s|
    ensures at >= 0 ==> s[at] == c
    ensures forall i :: at < i < |s| ==> s[i] != c
  {
    if s == "" then -1 else if s[|s| - 1] == c then |s| - 1 else LastIndexOf(s[..|s| - 1], c)
  }

  function ParsePeer(s: string): Outcome<PeerSpec> {
    var at := LastIndexOf(s, '=');
    if Blank(s) then
      Err(InvalidArgument)
    else if at < 0 then
      Ok(PeerSpec(s, NoNode))
    else if Blank(s[..at]) then
      Err(InvalidArgument)
    else
      var node := FromKey(s[at + 1..]);
      if node.Ok? then Ok(PeerSpec(s[..at], SomeNode(node.value))) else Err(node.error)
  }

  /**
   * A peer is refused exactly if it is blank, or has an `=` and nothing but white space before the last one, or after
   * it something that is not a node key. Otherwise it is an endpoint, with the node it is expected to be after the last
   * `=`, if there is one.
   */
  lemma PeerIsParsed(s: string, endpoint: string, key: string)
    ensures '=' !in s ==> ParsePeer(s) == if Blank(s) then Err(InvalidArgument) else Ok(PeerSpec(s, NoNode))
    ensures s == endpoint + "=" + key && '=' !in key ==>
              if Blank(endpoint) then ParsePeer(s) == Err(InvalidArgument)
              else if FromKey(key).Ok? then ParsePeer(s) == Ok(PeerSpec(endpoint, SomeNode(FromKey(key).value)))
              else ParsePeer(s) == Err(InvalidArgument)
  {
    if s == endpoint + "=" + key && '=' !in key {
      assert s[|endpoint|] == '=' && !IsWhitespace('=');
      assert forall i :: 0 <= i < |key| ==> s[|endpoint| + 1 + i] == key[i];
      assert s[..|endpoint|] == endpoint && s[|endpoint| + 1..] == key;
      assert LastIndexOf(s, '=') == |endpoint|;
    }
  }

  // ---- Printing and parsing undo each other ----

  lemma {:induction false} JoinSplit(s: string, c: char)
    ensures Join(Split(s, c), c) == s
  {
    if s != "" {
      JoinSplit(s[1..], c);
      var rest := Split(s[1..], c);
      if s[0] == c {
        assert ([""] + rest)[1..] == rest;
      } else {
        var parts := [[s[0]] + rest[0]] + rest[1..];
        assert parts[1..] == rest[1..];
        assert s == [s[0]] + s[1..];
      }
    }
  }

  lemma {:induction false} SplitPiece(a: string, s: string, c: char)
    requires c !in a
    ensures Split(a + [c] + s, c) == [a] + Split(s, c)
  {
    if a == "" {
      assert (a + [c] + s)[1..] == s;
    } else {
      assert (a + [c] + s)[1..] == a[1..] + [c] + s;
      SplitPiece(a[1..], s, c);
      assert [a[0]] + a[1..] == a;
      assert ([a[1..]] + Split(s, c))[1..] == Split(s, c);
    }
  }

  lemma {:induction false} SplitWhole(a: string, c: char)
    requires c !in a
    ensures Split(a, c) == [a]
  {
    if a != "" {
      SplitWhole(a[1..], c);
      assert [a[0]] + a[1..] == a;
    }
  }

  lemma SplitKey(n: NodeId)
    requires SlashFree(n)
    ensures Split(n.Key(), '/') == [n.tenantId, n.blName, n.deviceId]
  {
    SplitPiece(n.blName, n.deviceId, '/');
    SplitWhole(n.deviceId, '/');
    SplitPiece(n.tenantId, n.blName + "/" + n.deviceId, '/');
    assert n.Key() == n.tenantId + ['/'] + (n.blName + "/" + n.deviceId);
    assert n.blName + ['/'] + n.deviceId == n.blName + "/" + n.deviceId;
  }

  /** A key that parses prints back to itself, and the node it yields is valid and slash-free. */
  lemma ParsedKeyPrintsBack(s: string)
    requires FromKey(s).Ok?
    ensures FromKey(s).value.Key() == s && ValidNode(FromKey(s).value) && SlashFree(FromKey(s).value)
  {
    var parts := Split(s, '/');
    JoinSplit(s, '/');
    var tail := parts[1..];
    assert |tail| == 2 && tail[0] == parts[1] && tail[1..] == [parts[2]];
    assert Join(tail, '/') == parts[1] + ['/'] + parts[2];
    assert Join(parts, '/') == parts[0] + ['/'] + (parts[1] + ['/'] + parts[2]);
    assert parts[0] + ['/'] + (parts[1] + ['/'] + parts[2]) == parts[0] + "/" + parts[1] + "/" + parts[2];
  }

  /**
   * A node's key parses back to the node exactly when the node is valid and no part holds a slash;
   * the validation itself lets slashes through.
   */
  lemma PrintedKeyParsesBackIff(n: NodeId)
    ensures FromKey(n.Key()) == Ok(n) <==> ValidNode(n) && SlashFree(n)
  {
    if FromKey(n.Key()) == Ok(n) {
      ParsedKeyPrintsBack(n.Key());
    }
    if SlashFree(n) {
      SplitKey(n);
    }
  }

  function Slashes(s: string): nat {
    if s == "" then 0 else (if s[0] == '/' then 1 else 0) + Slashes(s[1..])
  }

  lemma {:induction false} SlashesAdd(a: string, b: string)
    ensures Slashes(a + b) == Slashes(a) + Slashes(b)
  {
    if a == "" {
      assert a + b == b;
    } else {
      assert (a + b)[1..] == a[1..] + b;
      SlashesAdd(a[1..], b);
    }
  }

  lemma {:induction false} SlashesIn(s: string)
    ensures Slashes(s) == 0 <==> '/' !in s
  {
    if s != "" {
      SlashesIn(s[1..]);
      assert s == [s[0]] + s[1..];
    }
  }

  /** A key has two slashes more than the parts of its node have. */
  lemma SlashesCount(n: NodeId)
    ensures Slashes(n.Key()) == Slashes(n.tenantId) + Slashes(n.blName) + Slashes(n.deviceId) + 2
    ensures SlashFree(n) <==> Slashes(n.Key()) == 2
  {
    SlashesAdd(n.tenantId + "/" + n.blName + "/", n.deviceId);
    SlashesAdd(n.tenantId + "/" + n.blName, "/");
    SlashesAdd(n.tenantId + "/", n.blName);
    SlashesAdd(n.tenantId, "/");
    assert "/"[1..] == "";
    assert Slashes("/") == 1;
    SlashesIn(n.tenantId);
    SlashesIn(n.blName);
    SlashesIn(n.deviceId);
  }

  /** Two valid nodes whose parts hold slashes can share a key. */
  lemma KeysCollideWithSlashes()
    ensures exists a: NodeId, b: NodeId :: a != b && ValidNode(a) && ValidNode(b) && a.Key() == b.Key()
  {
    var a, b := NodeId("a/b", "c", "d"), NodeId("a", "b/c", "d");
    assert a.tenantId[0] ==
           'a' == b.tenantId[0] && !IsWhitespace('a') && !IsWhitespace('b') && !IsWhitespace('c') && !IsWhitespace('d');
    assert a.blName[0] == 'c' && b.blName[0] == 'b' && a.deviceId[0] == 'd' == b.deviceId[0];
    assert a.Key() == "a/b/c/d" == b.Key();
    assert a.tenantId != b.tenantId by { assert |a.tenantId| != |b.tenantId|; }
    assert ValidNode(a) && ValidNode(b);
  }

  /** A slash-free node shares its key with no other node, slashes or not. */
  lemma KeyInjective(a: NodeId, b: NodeId)
    requires SlashFree(a) && a.Key() == b.Key()
    ensures a == b
  {
    SlashesCount(a);
    SlashesCount(b);
    SplitKey(a);
    SplitKey(b);
    assert [a.tenantId, a.blName, a.deviceId][0] == [b.tenantId, b.blName, b.deviceId][0];
    assert [a.tenantId, a.blName, a.deviceId][1] == [b.tenantId, b.blName, b.deviceId][1];
    assert [a.tenantId, a.blName, a.deviceId][2] == [b.tenantId, b.blName, b.deviceId][2];
  }

  /** A node that shares its key with another can be found for each node with a slash in some part. */
  function Regroup(n: NodeId): NodeId
    requires !SlashFree(n)
  {
    if '/' in n.deviceId then NodeId(n.tenantId + "/" + n.blName, Before(n.deviceId), After(n.deviceId))
    else if '/' in n.blName then NodeId(n.tenantId + "/" + Before(n.blName), After(n.blName), n.deviceId)
    else NodeId(Before(n.tenantId), After(n.tenantId) + "/" + n.blName, n.deviceId)
  }

  /** What comes before and after the last slash. */
  function Before(s: string): string
    requires '/' in s
  {
    var at := LastIndexOf(s, '/');
    assert at >= 0;
    s[..at]
  }

  function After(s: string): string
    requires '/' in s
  {
    s[LastIndexOf(s, '/') + 1..]
  }

  lemma BeforeAfter(s: string)
    requires '/' in s
    ensures Before(s) + "/" + After(s) == s && |Before(s)| < |s|
  {
    assert LastIndexOf(s, '/') >= 0;
  }

  lemma RegroupSharesKey(n: NodeId)
    requires !SlashFree(n)
    ensures Regroup(n) != n && Regroup(n).Key() == n.Key()
  {
    var other := Regroup(n);
    if '/' in n.deviceId {
      BeforeAfter(n.deviceId);
      assert |other.deviceId| != |n.deviceId|;
    } else if '/' in n.blName {
      BeforeAfter(n.blName);
      assert |other.blName| != |n.blName|;
    } else {
      BeforeAfter(n.tenantId);
      assert |other.tenantId| != |n.tenantId|;
    }
  }

  /** A node has its key to itself, among all triples of strings, exactly when none of its parts holds a slash. */
  lemma KeyIsOwnIff(n: NodeId)
    ensures (forall b: NodeId {:trigger b.Key()} :: b.Key() == n.Key() ==> b == n) <==> SlashFree(n)
  {
    if SlashFree(n) {
      forall b: NodeId | b.Key() == n.Key() ensures b == n {
        KeyInjective(n, b);
      }
    } else {
      RegroupSharesKey(n);
    }
  }

  /** Some slash of the string has something before it, or after it, that is not blank. */
  predicate FilledBefore(s: string) {
    exists i :: 0 <= i < |s| && s[i] == '/' && !Blank(s[..i])
  }

  predicate FilledAfter(s: string) {
    exists i :: 0 <= i < |s| && s[i] == '/' && !Blank(s[i + 1..])
  }

  /** Where a valid node's parts can be divided differently. */
  predicate Divisible(n: NodeId) {
    FilledBefore(n.tenantId) || FilledBefore(n.blName) || FilledAfter(n.blName) || FilledAfter(n.deviceId)
  }

  /** Two strings around a slash make a valid part, even if they are blank. */
  lemma JoinIsValid(a: string, b: string)
    requires '\0' !in a && '\0' !in b
    ensures ValidPart(a + "/" + b)
  {
    assert (a + "/" + b)[|a|] == '/' && !IsWhitespace('/');
  }

  lemma CutAt(s: string, i: nat)
    requires i < |s| && s[i] == '/' && '\0' !in s
    ensures s == s[..i] + "/" + s[i + 1..] && '\0' !in s[..i] && '\0' !in s[i + 1..]
  {
  }

  /** A slash between parts and one inside a part look the same in the key. */
  lemma SameKeys(a: string, b: string, c: string, d: string)
    ensures NodeId(a + "/" + b, c, d).Key() == NodeId(a, b + "/" + c, d).Key() == NodeId(a, b, c + "/" + d).Key()
  {
    assert a + "/" + b + "/" + c + "/" + d == a + "/" + (b + "/" + c) + "/" + d;
    assert a + "/" + b + "/" + c + "/" + d == a + "/" + b + "/" + (c + "/" + d);
  }

  /** The key of a divisible valid node is also another valid node's. */
  lemma OtherDivision(n: NodeId) returns (b: NodeId)
    requires ValidNode(n) && Divisible(n)
    ensures ValidNode(b) && b != n && b.Key() == n.Key()
  {
    var x, y, z := n.tenantId, n.blName, n.deviceId;
    if i :| 0 <= i < |x| && x[i] == '/' && !Blank(x[..i]) {
      CutAt(x, i);
      JoinIsValid(x[i + 1..], y);
      SameKeys(x[..i], x[i + 1..], y, z);
      b := NodeId(x[..i], x[i + 1..] + "/" + y, z);
      assert |b.tenantId| != |x|;
    } else if i :| 0 <= i < |y| && y[i] == '/' && !Blank(y[..i]) {
      CutAt(y, i);
      JoinIsValid(y[i + 1..], z);
      SameKeys(x, y[..i], y[i + 1..], z);
      b := NodeId(x, y[..i], y[i + 1..] + "/" + z);
      assert |b.blName| != |y|;
    } else if i :| 0 <= i < |y| && y[i] == '/' && !Blank(y[i + 1..]) {
      CutAt(y, i);
      JoinIsValid(x, y[..i]);
      SameKeys(x, y[..i], y[i + 1..], z);
      b := NodeId(x + "/" + y[..i], y[i + 1..], z);
      assert |b.blName| != |y|;
    } else {
      var i :| 0 <= i < |z| && z[i] == '/' && !Blank(z[i + 1..]);
      CutAt(z, i);
      JoinIsValid(y, z[..i]);
      SameKeys(x, y, z[..i], z[i + 1..]);
      b := NodeId(x, y + "/" + z[..i], z[i + 1..]);
      assert |b.deviceId| != |z|;
    }
  }

  /** A key with the places of the two slashes between its parts. */
  ghost predicate CutFrom(n: NodeId, k: string, p: nat, q: nat) {
    && p < q < |k| && k[p] == '/' == k[q]
    && n.tenantId == k[..p] && n.blName == k[p + 1..q] && n.deviceId == k[q + 1..]
  }

  lemma CutsOfKey(n: NodeId) returns (p: nat, q: nat)
    ensures CutFrom(n, n.Key(), p, q)
  {
    p, q := |n.tenantId|, |n.tenantId| + 1 + |n.blName|;
  }

  /** A slash of a stretch of the key, with something before it that is not blank. */
  lemma FilledBeforeIn(k: string, lo: nat, hi: nat, at: nat)
    requires lo <= at < hi <= |k| && k[at] == '/' && !Blank(k[lo..at])
    ensures FilledBefore(k[lo..hi])
  {
    var s := k[lo..hi];
    assert s[at - lo] == '/' && s[..at - lo] == k[lo..at];
  }

  /** And one with something after it, up to `end`, that is not blank. */
  lemma FilledAfterIn(k: string, lo: nat, hi: nat, at: nat, end: nat)
    requires lo <= at < end <= hi <= |k| && k[at] == '/' && !Blank(k[at + 1..end])
    ensures FilledAfter(k[lo..hi])
  {
    var s := k[lo..hi];
    var i :| 0 <= i < |k[at + 1..end]| && !IsWhitespace(k[at + 1..end][i]);
    assert s[at - lo + 1..][i] == k[at + 1 + i];
    assert s[at - lo] == '/';
  }

  /** Another valid node with the same key divides it elsewhere, so this one is divisible. */
  lemma SharedKeyIsDivisible(n: NodeId, b: NodeId)
    requires ValidNode(b) && b.Key() == n.Key() && b != n
    ensures Divisible(n)
  {
    var p, q := CutsOfKey(n);
    var p', q' := CutsOfKey(b);
    OtherCuts(n, b, n.Key(), p, q, p', q');
  }

  lemma OtherCuts(n: NodeId, b: NodeId, k: string, p: nat, q: nat, p': nat, q': nat)
    requires CutFrom(n, k, p, q) && CutFrom(b, k, p', q') && ValidNode(b) && b != n
    ensures Divisible(n)
  {
    if p' < p {
      assert k[..p'] == k[0..p'] && k[..p] == k[0..p];
      FilledBeforeIn(k, 0, p, p');
    } else if q < q' {
      assert k[q' + 1..] == k[q' + 1..|k|] && k[q + 1..] == k[q + 1..|k|];
      FilledAfterIn(k, q + 1, |k|, q', |k|);
    } else if p < p' {
      FilledAfterIn(k, p + 1, q, p', q');
    } else {
      FilledBeforeIn(k, p + 1, q, q');
    }
  }

  /**
   * Among valid nodes, the ones a daemon admits, a node has its key to itself exactly when its parts cannot be divided
   * differently: no slash of the first has anything before it that is not blank, none of the last anything after it,
   * and none of the middle one either.
   */
  lemma KeyIsOwnAmongValidIff(n: NodeId)
    requires ValidNode(n)
    ensures (forall b: NodeId {:trigger b.Key()} :: ValidNode(b) && b.Key() == n.Key() ==> b == n) <==> !Divisible(n)
  {
    if Divisible(n) {
      var b := OtherDivision(n);
    } else {
      forall b: NodeId | ValidNode(b) && b.Key() == n.Key() ensures b == n {
        if b != n {
          SharedKeyIsDivisible(n, b);
        }
      }
    }
  }

  /**
   * `endpoint=key` parses to its two halves exactly when the endpoint is not blank, the node is valid
   * and slash-free, and the key holds no `=` (the split is at the last one).
   */
  lemma PinnedPeerParsesBackIff(endpoint: string, n: NodeId)
    ensures ParsePeer(endpoint + "=" + n.Key()) == Ok(PeerSpec(endpoint, SomeNode(n))) <==>
            !Blank(endpoint) && ValidNode(n) && SlashFree(n) && '=' !in n.Key()
  {
    var s := endpoint + "=" + n.Key();
    var at := LastIndexOf(s, '=');
    assert s[|endpoint|] == '=' && !IsWhitespace('=');
    PrintedKeyParsesBackIff(n);
    if at == |endpoint| {
      assert s[..at] == endpoint && s[at + 1..] == n.Key();
      assert forall i :: 0 <= i < |n.Key()| ==> n.Key()[i] == s[at + 1 + i];
    } else {
      assert |s[..at]| != |endpoint|;
      assert n.Key()[at - |endpoint| - 1] == '=';
    }
  }
}
