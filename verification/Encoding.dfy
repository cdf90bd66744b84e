/**
 * The text encodings behind the table keys: UTF-8 (RFC 3629), unpadded base64url (sections 3.2 and 5
 * of RFC 4648) and zero-padded decimal head ids.
 */
module Encoding {
  import opened Domain
  import opened Lexicographic

  // ---- UTF-8 ----

  function Utf8Char(c: char): (r: seq<byte>)
    ensures 1 <= |r| <= 4
  {
    var n := c as int;
    if n < 0x80 then [n]
    else if n < 0x800 then [0xC0 + n / 64, 0x80 + n % 64]
    else if n < 0x10000 then [0xE0 + n / 4096, 0x80 + n / 64 % 64, 0x80 + n % 64]
    else [0xF0 + n / 262144, 0x80 + n / 4096 % 64, 0x80 + n / 64 % 64, 0x80 + n % 64]
  }

  function Utf8(s: string): seq<byte> {
    if s == "" then [] else Utf8Char(s[0]) + Utf8(s[1..])
  }

  /** The code point a sequence of one to four bytes stands for. */
  function Utf8Value(r: seq<byte>): int
    requires 1 <= |r| <= 4
  {
    var at := (i: int) requires 0 <= i < |r| => r[i] as int;
    if |r| == 1 then at(0)
    else if |r| == 2 then (at(0) - 0xC0) * 64 + (at(1) - 0x80)
    else if |r| == 3 then (at(0) - 0xE0) * 4096 + (at(1) - 0x80) * 64 + (at(2) - 0x80)
    else (at(0) - 0xF0) * 262144 + (at(1) - 0x80) * 4096 + (at(2) - 0x80) * 64 + (at(3) - 0x80)
  }

  lemma BaseSixtyFour(n: nat)
    ensures n == n / 64 * 64 + n % 64
    ensures n == n / 4096 * 4096 + n / 64 % 64 * 64 + n % 64
    ensures n == n / 262144 * 262144 + n / 4096 % 64 * 4096 + n / 64 % 64 * 64 + n % 64
  {
    var q := n / 64;
    var p := q / 64;
    assert n / 4096 == p;
    assert n / 262144 == p / 64;
  }

  /** The lead byte fixes the length, and the bytes fix the character. */
  lemma Utf8CharDecodes(c: char)
    ensures Utf8Value(Utf8Char(c)) == c as int
    ensures |Utf8Char(c)| == (var b := Utf8Char(c)[0]; if b < 0x80 then 1 else if b < 0xE0 then 2
        else if b < 0xF0 then 3 else 4)
  {
    BaseSixtyFour(c as int);
  }

  lemma Utf8CharPrefixFree(c: char, r: seq<byte>, d: char, s: seq<byte>)
    requires Utf8Char(c) + r == Utf8Char(d) + s
    ensures c == d && r == s
  {
    Utf8CharDecodes(c);
    Utf8CharDecodes(d);
    assert (Utf8Char(c) + r)[0] == Utf8Char(c)[0] && (Utf8Char(d) + s)[0] == Utf8Char(d)[0];
    var k := |Utf8Char(c)|;
    assert Utf8Char(c) == (Utf8Char(c) + r)[..k] == (Utf8Char(d) + s)[..k] == Utf8Char(d);
    assert c as int == d as int;
    assert r == (Utf8Char(c) + r)[k..] && s == (Utf8Char(d) + s)[k..];
  }

  lemma {:induction false} Utf8Injective(a: string, b: string)
    requires Utf8(a) == Utf8(b)
    ensures a == b
  {
    if a != "" && b != "" {
      Utf8CharPrefixFree(a[0], Utf8(a[1..]), b[0], Utf8(b[1..]));
      Utf8Injective(a[1..], b[1..]);
      assert a == [a[0]] + a[1..] && b == [b[0]] + b[1..];
    }
  }

  // ---- Base64url without padding ----

  function Letter(n: nat): (c: char)
    requires n < 64
    ensures c != '/'
  {
    if n < 26 then 'A' + n as char
    else if n < 52 then 'a' + (n - 26) as char
    else if n < 62 then '0' + (n - 52) as char
    else if n == 62 then '-'
    else '_'
  }

  /** The number a letter of the URL-safe alphabet stands for. */
  function Sextet(c: char): int {
    if 'A' <= c <= 'Z' then c as int - 'A' as int
    else if 'a' <= c <= 'z' then 26 + (c as int - 'a' as int)
    else if '0' <= c <= '9' then 52 + (c as int - '0' as int)
    else if c == '-' then 62
    else if c == '_' then 63
    else -1
  }

  lemma LetterDecodes(n: nat)
    requires n < 64
    ensures Sextet(Letter(n)) == n
  {
  }

  lemma LetterInjective(m: nat, n: nat)
    requires m < 64 && n < 64 && Letter(m) == Letter(n)
    ensures m == n
  {
  }

  function Group1(x: byte): (r: string)
    ensures |r| == 2 && '/' !in r
  {
    [Letter(x / 4), Letter(x % 4 * 16)]
  }

  function Group2(x: byte, y: byte): (r: string)
    ensures |r| == 3 && '/' !in r
  {
    [Letter(x / 4), Letter(x % 4 * 16 + y / 16), Letter(y % 16 * 4)]
  }

  function Group3(x: byte, y: byte, z: byte): (r: string)
    ensures |r| == 4 && '/' !in r
  {
    [Letter(x / 4), Letter(x % 4 * 16 + y / 16), Letter(y % 16 * 4 + z / 64), Letter(z % 64)]
  }

  /** The number a group of letters stands for, six bits each. */
  function GroupValue(r: string): int {
    if r == "" then 0 else 64 * GroupValue(r[..|r| - 1]) + Sextet(r[|r| - 1])
  }

  lemma GroupValueOf(a: nat, b: nat, c: nat, d: nat)
    requires a < 64 && b < 64 && c < 64 && d < 64
    ensures GroupValue([Letter(a), Letter(b)]) == a * 64 + b
    ensures GroupValue([Letter(a), Letter(b), Letter(c)]) == a * 4096 + b * 64 + c
    ensures GroupValue([Letter(a), Letter(b), Letter(c), Letter(d)]) == a * 262144 + b * 4096 + c * 64 + d
  {
    var two, three, four := [Letter(a), Letter(b)], [Letter(a), Letter(b), Letter(c)],
        [Letter(a), Letter(b), Letter(c), Letter(d)];
    assert two[..1] == [Letter(a)] && [Letter(a)][..0] == "";
    assert three[..2] == two && four[..3] == three;
    assert GroupValue([Letter(a)]) == a;
  }

  /** Three bytes are written as four letters that stand for them; two and one with zero bits added. */
  lemma GroupsDecode(x: byte, y: byte, z: byte)
    ensures GroupValue(Group3(x, y, z)) == x * 65536 + y * 256 + z
    ensures GroupValue(Group2(x, y)) == (x * 256 + y) * 4
    ensures GroupValue(Group1(x)) == x * 16
  {
    GroupValueOf(x / 4, x % 4 * 16, 0, 0);
    GroupValueOf(x / 4, x % 4 * 16 + y / 16, y % 16 * 4, 0);
    GroupValueOf(x / 4, x % 4 * 16 + y / 16, y % 16 * 4 + z / 64, z % 64);
  }

  lemma Group1Injective(x: byte, x': byte)
    requires Group1(x) == Group1(x')
    ensures x == x'
  {
    assert Group1(x)[0] == Group1(x')[0] && Group1(x)[1] == Group1(x')[1];
    LetterInjective(x / 4, x' / 4);
    LetterInjective(x % 4 * 16, x' % 4 * 16);
  }

  lemma Group2Injective(x: byte, y: byte, x': byte, y': byte)
    requires Group2(x, y) == Group2(x', y')
    ensures x == x' && y == y'
  {
    var g, g' := Group2(x, y), Group2(x', y');
    assert g[0] == g'[0] && g[1] == g'[1] && g[2] == g'[2];
    LetterInjective(x / 4, x' / 4);
    LetterInjective(x % 4 * 16 + y / 16, x' % 4 * 16 + y' / 16);
    LetterInjective(y % 16 * 4, y' % 16 * 4);
  }

  lemma Group3Injective(x: byte, y: byte, z: byte, x': byte, y': byte, z': byte)
    requires Group3(x, y, z) == Group3(x', y', z')
    ensures x == x' && y == y' && z == z'
  {
    var g, g' := Group3(x, y, z), Group3(x', y', z');
    assert g[0] == g'[0] && g[1] == g'[1] && g[2] == g'[2] && g[3] == g'[3];
    LetterInjective(x / 4, x' / 4);
    LetterInjective(x % 4 * 16 + y / 16, x' % 4 * 16 + y' / 16);
    LetterInjective(y % 16 * 4 + z / 64, y' % 16 * 4 + z' / 64);
    LetterInjective(z % 64, z' % 64);
  }

  function Base64(b: seq<byte>): (r: string)
    ensures '/' !in r
  {
    if |b| == 0 then ""
    else if |b| == 1 then Group1(b[0])
    else if |b| == 2 then Group2(b[0], b[1])
    else Group3(b[0], b[1], b[2]) + Base64(b[3..])
  }

  lemma {:induction false} Base64Length(b: seq<byte>)
    ensures |Base64(b)| == 4 * (|b| / 3) + (if |b| % 3 == 0 then 0 else |b| % 3 + 1)
  {
    if |b| >= 3 {
      Base64Length(b[3..]);
    }
  }

  lemma {:induction false} Base64Injective(a: seq<byte>, b: seq<byte>)
    requires Base64(a) == Base64(b)
    ensures a == b
    decreases |a|
  {
    Base64Length(a);
    Base64Length(b);
    if |a| == 1 {
      Group1Injective(a[0], b[0]);
    } else if |a| == 2 {
      Group2Injective(a[0], a[1], b[0], b[1]);
    } else if |a| >= 3 {
      assert Base64(a)[..4] == Group3(a[0], a[1], a[2]) && Base64(b)[..4] == Group3(b[0], b[1], b[2]);
      Group3Injective(a[0], a[1], a[2], b[0], b[1], b[2]);
      assert Base64(a)[4..] == Base64(a[3..]) && Base64(b)[4..] == Base64(b[3..]);
      Base64Injective(a[3..], b[3..]);
      assert a == [a[0], a[1], a[2]] + a[3..] && b == [b[0], b[1], b[2]] + b[3..];
    }
  }

  /** `enc`: the text as base64url of its UTF-8 bytes. */
  function Enc(s: string): (r: string)
    ensures '/' !in r
  {
    Base64(Utf8(s))
  }

  lemma EncInjective(a: string, b: string)
    requires Enc(a) == Enc(b)
    ensures a == b
  {
    Base64Injective(Utf8(a), Utf8(b));
    Utf8Injective(a, b);
  }

  // ---- Zero-padded decimals ----

  function Pow10(w: nat): (p: nat)
    ensures p >= 1
  {
    if w == 0 then 1 else 10 * Pow10(w - 1)
  }

  function Padded(n: nat, w: nat): (r: string)
    ensures |r| == w
  {
    if w == 0 then "" else Padded(n / 10, w - 1) + ['0' + (n % 10) as char]
  }

  /** Padding to a common width that fits both numbers keeps their order. */
  lemma {:induction false} PaddedOrder(m: nat, n: nat, w: nat)
    requires m < Pow10(w) && n < Pow10(w)
    ensures LexLe(Padded(m, w), Padded(n, w)) <==> m <= n
    ensures Padded(m, w) == Padded(n, w) <==> m == n
    decreases w
  {
    if w > 0 {
      PaddedOrder(m / 10, n / 10, w - 1);
      LexLast(Padded(m / 10, w - 1), '0' + (m % 10) as char, Padded(n / 10, w - 1), '0' + (n % 10) as char);
      assert Padded(m, w)[w - 1] == '0' + (m % 10) as char && Padded(n, w)[w - 1] == '0' + (n % 10) as char;
      assert Padded(m, w)[..w - 1] == Padded(m / 10, w - 1) && Padded(n, w)[..w - 1] == Padded(n / 10, w - 1);
    }
  }

  /** The number a string of decimal digits stands for. */
  function Value(s: string): int {
    if s == "" then 0 else 10 * Value(s[..|s| - 1]) + (s[|s| - 1] as int - '0' as int)
  }

  lemma {:induction false} PaddedValue(n: nat, w: nat)
    requires n < Pow10(w)
    ensures Value(Padded(n, w)) == n && forall i :: 0 <= i < w ==> '0' <= Padded(n, w)[i] <= '9'
    decreases w
  {
    if w > 0 {
      PaddedValue(n / 10, w - 1);
      assert Padded(n, w)[..w - 1] == Padded(n / 10, w - 1);
    }
  }

  lemma TwentyDigitsFit()
    ensures U64_MAX < Pow10(20)
  {
    assert Pow10(5) == 100_000;
    assert Pow10(10) == 10_000_000_000;
    assert Pow10(15) == 1_000_000_000_000_000;
  }

  /** `{:020}` */
  function Digits(n: u64): (r: string)
    ensures |r| == 20
  {
    Padded(n, 20)
  }

  /** Twenty decimal digits that stand for the number. */
  lemma DigitsValue(n: u64)
    ensures |Digits(n)| == 20 && Value(Digits(n)) == n && forall i :: 0 <= i < 20 ==> '0' <= Digits(n)[i] <= '9'
  {
    TwentyDigitsFit();
    PaddedValue(n, 20);
  }

  /** Twenty digits keep the order of all 64-bit values. */
  lemma DigitsOrder(m: u64, n: u64)
    ensures LexLe(Digits(m), Digits(n)) <==> m <= n
    ensures Digits(m) == Digits(n) <==> m == n
  {
    TwentyDigitsFit();
    PaddedOrder(m, n, 20);
  }
}
