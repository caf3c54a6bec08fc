/** Dotted quads: what an address is as a number, and what a prefix contains, octet by octet. */
module Octets {
  import opened Options
  import opened Text
  import opened Arithmetic
  import opened Addresses

  // ---------- text

  lemma JoinHead(part: string, rest: seq<string>, sep: char)
    requires rest != []
    ensures Join([part] + rest, sep) == part + [sep] + Join(rest, sep)
  {
    assert ([part] + rest)[1..] == rest;
  }

  lemma FourParts(a: string, b: string, c: string, d: string, s: string)
    requires '.' !in a && '.' !in b && '.' !in c && '.' !in d
    requires s == a + ['.'] + (b + ['.'] + (c + ['.'] + d))
    ensures Split(s, '.') == [a] + ([b] + ([c] + [d]))
  {
    var parts := [a] + ([b] + ([c] + [d]));
    JoinHead(a, [b] + ([c] + [d]), '.');
    JoinHead(b, [c] + [d], '.');
    JoinHead(c, [d], '.');
    SplitJoin(parts, '.');
  }

  lemma NoDot(s: string)
    requires IsOctet(s)
    ensures '.' !in s
  {
  }

  lemma FourOctets(a: string, b: string, c: string, d: string, s: string)
    requires IsOctet(a) && IsOctet(b) && IsOctet(c) && IsOctet(d)
    requires s == a + ['.'] + (b + ['.'] + (c + ['.'] + d))
    ensures IsIPv4(s)
    ensures var parts := Split(s, '.'); parts[0] == a && parts[1] == b && parts[2] == c && parts[3] == d
  {
    NoDot(a);
    NoDot(b);
    NoDot(c);
    NoDot(d);
    FourParts(a, b, c, d, s);
  }

  lemma OneMoreDigit(front: string, digit: char)
    requires (forall i | 0 <= i < |front| :: IsDigit(front[i])) && IsDigit(digit)
    ensures Value(front + [digit]) == 10 * Value(front) + (digit as nat - '0' as nat)
  {
    var s := front + [digit];
    assert s[..|s| - 1] == front;
  }

  lemma {:induction false} DecimalValue(v: nat)
    ensures Value(Decimal(v)) == v && (v > 0 ==> Decimal(v)[0] != '0')
  {
    var digit := '0' + (v % 10) as char;
    if v < 10 {
      OneMoreDigit("", digit);
      assert "" + [digit] == [digit];
    } else {
      DecimalValue(v / 10);
      OneMoreDigit(Decimal(v / 10), digit);
    }
  }

  lemma DecimalOctet(v: nat)
    requires v < 256
    ensures IsOctet(Decimal(v))
  {
    DecimalValue(v);
    if v >= 10 {
      assert |Decimal(v)| == |Decimal(v / 10)| + 1;
      if v >= 100 {
        assert |Decimal(v / 10)| == |Decimal(v / 100)| + 1;
      }
    }
  }

  // ---------- addresses

  function Dotted(a: nat, b: nat, c: nat, d: nat): string {
    Decimal(a) + ['.'] + (Decimal(b) + ['.'] + (Decimal(c) + ['.'] + Decimal(d)))
  }

  /** A dotted quad is an address if all four numbers are octets, and then has them as its digits to base 256. */
  lemma DottedAddress(a: nat, b: nat, c: nat, d: nat)
    ensures IsIPv4(Dotted(a, b, c, d)) <==> a < 256 && b < 256 && c < 256 && d < 256
    ensures a < 256 && b < 256 && c < 256 && d < 256 ==>
              Address(Dotted(a, b, c, d)) == 16777216 * a + 65536 * b + 256 * c + d
  {
    FourParts(Decimal(a), Decimal(b), Decimal(c), Decimal(d), Dotted(a, b, c, d));
    DecimalValue(a);
    DecimalValue(b);
    DecimalValue(c);
    DecimalValue(d);
    if a < 256 && b < 256 && c < 256 && d < 256 {
      DecimalOctet(a);
      DecimalOctet(b);
      DecimalOctet(c);
      DecimalOctet(d);
      FourOctets(Decimal(a), Decimal(b), Decimal(c), Decimal(d), Dotted(a, b, c, d));
    } else {
      var parts := Split(Dotted(a, b, c, d), '.');
      assert parts[0] == Decimal(a) && parts[1] == Decimal(b) && parts[2] == Decimal(c) && parts[3] == Decimal(d);
      assert !IsOctet(parts[0]) || !IsOctet(parts[1]) || !IsOctet(parts[2]) || !IsOctet(parts[3]);
    }
  }

  /** A prefix is an address, a slash and a length of at most 32; its network is the masked address. */
  lemma PrefixParts(addr: string, length: nat)
    requires IsIPv4(addr)
    ensures ParseCIDR(addr + ['/'] + Decimal(length)) ==
            if length <= 32 then Some(Network(Mask(Address(addr), length), length)) else None
  {
    var len := Decimal(length);
    IPv4Chars(addr);
    JoinHead(addr, [len], '/');
    assert forall part | part in [addr] + [len] :: '/' !in part;
    SplitJoin([addr] + [len], '/');
    DecimalValue(length);
  }

  // ---------- prefixes

  /** A network contains an address if and only if both lie in the same block of its size. */
  lemma SameBlock(x: nat, y: nat, length: nat)
    requires length <= 32
    ensures Contains(Network(Mask(x, length), length), y) <==> x / BlockSize(length) == y / BlockSize(length)
  {
    var b := BlockSize(length);
    DivMod(x, b);
    DivMod(y, b);
    assert Mask(x, length) == b * (x / b) && Mask(y, length) == b * (y / b);
    if Mask(x, length) == Mask(y, length) {
      Division(b, x / b, 0, y / b, 0);
    }
  }

  lemma OctetBlocks()
    ensures BlockSize(32) == 1 && BlockSize(24) == 256 && BlockSize(16) == 65536 && BlockSize(8) == 16777216
  {
    assert BlockSize(30) == 4;
    assert BlockSize(28) == 16;
    assert BlockSize(26) == 64;
    assert BlockSize(22) == 1024;
    assert BlockSize(20) == 4096;
    assert BlockSize(18) == 16384;
    assert BlockSize(14) == 262144;
    assert BlockSize(12) == 1048576;
    assert BlockSize(10) == 4194304;
  }

  /**
   * A written prefix of length 8, 16, 24 or 32 contains a written address if and only if the first one, two, three
   * or four octets agree, whatever host octets were written in the prefix.
   */
  lemma ContainsByOctets(a: nat, b: nat, c: nat, d: nat, a': nat, b': nat, c': nat, d': nat, length: nat)
    requires a < 256 && b < 256 && c < 256 && d < 256 && a' < 256 && b' < 256 && c' < 256 && d' < 256
    requires length in {8, 16, 24, 32}
    ensures var net := ParseCIDR(Dotted(a, b, c, d) + ['/'] + Decimal(length));
            && IsIPv4(Dotted(a', b', c', d')) && net.Some?
            && (Contains(net.value, Address(Dotted(a', b', c', d'))) <==>
                  && a == a' && (length >= 16 ==> b == b') && (length >= 24 ==> c == c') && (length == 32 ==> d == d'))
  {
    DottedAddress(a, b, c, d);
    DottedAddress(a', b', c', d');
    PrefixParts(Dotted(a, b, c, d), length);
    var x, y := Address(Dotted(a, b, c, d)), Address(Dotted(a', b', c', d'));
    SameBlock(x, y, length);
    BlocksByOctets(a, b, c, d, a', b', c', d', x, y, length);
  }

  lemma BlocksByOctets(a: nat, b: nat, c: nat, d: nat, a': nat, b': nat, c': nat, d': nat, x: nat, y: nat, length: nat)
    requires a < 256 && b < 256 && c < 256 && d < 256 && a' < 256 && b' < 256 && c' < 256 && d' < 256
    requires x == 16777216 * a + 65536 * b + 256 * c + d && y == 16777216 * a' + 65536 * b' + 256 * c' + d'
    requires length in {8, 16, 24, 32}
    ensures x / BlockSize(length) == y / BlockSize(length) <==>
              && a == a' && (length >= 16 ==> b == b') && (length >= 24 ==> c == c') && (length == 32 ==> d == d')
  {
    OctetBlocks();
    BlockOf(a, b, c, d, x);
    BlockOf(a', b', c', d', y);
  }

  lemma BlockOf(a: nat, b: nat, c: nat, d: nat, x: nat)
    requires b < 256 && c < 256 && d < 256 && x == 16777216 * a + 65536 * b + 256 * c + d
    ensures x / 16777216 == a && x / 65536 == 256 * a + b && x / 256 == 65536 * a + 256 * b + c && x / 1 == x
  {
  }
}
