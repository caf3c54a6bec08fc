/** IPv4 addresses and prefixes as text, following net.ParseIP and net.ParseCIDR. */
module Addresses {
  import opened Options
  import opened Text

  // ---------- decimal numbers

  predicate IsDecimal(s: string) {
    s != "" && forall i | 0 <= i < |s| :: IsDigit(s[i])
  }

  /** Decimal without a leading zero. */
  predicate IsCanonical(s: string) {
    IsDecimal(s) && (|s| > 1 ==> s[0] != '0')
  }

  function Value(s: string): (v: nat)
    requires forall i | 0 <= i < |s| :: IsDigit(s[i])
  {
    if s == "" then 0 else
      assert IsDigit(s[|s| - 1]);
      10 * Value(s[..|s| - 1]) + (s[|s| - 1] as nat - '0' as nat)
  }

  function Decimal(v: nat): (s: string)
    ensures IsDecimal(s)
  {
    var last := ['0' + (v % 10) as char];
    if v < 10 then last else Decimal(v / 10) + last
  }

  lemma {:induction false} CanonicalRoundTrip(s: string)
    requires IsCanonical(s)
    ensures Decimal(Value(s)) == s
    ensures s != "0" ==> Value(s) > 0
  {
    var front := s[..|s| - 1];
    if |s| == 1 {
      assert s == [s[0]];
    } else {
      CanonicalRoundTrip(front);
      assert front != "0";
      assert s == front + [s[|s| - 1]];
    }
  }

  lemma CanonicalInjective(s: string, t: string)
    requires IsCanonical(s) && IsCanonical(t) && Value(s) == Value(t)
    ensures s == t
  {
    CanonicalRoundTrip(s);
    CanonicalRoundTrip(t);
  }

  // ---------- addresses

  predicate IsOctet(s: string) {
    IsCanonical(s) && |s| <= 3 && Value(s) <= 255
  }

  predicate Octets(parts: seq<string>) {
    |parts| == 4 && forall i | 0 <= i < 4 :: IsOctet(parts[i])
  }

  /** What net.ParseIP accepts as IPv4: four octets, no leading zeros. */
  predicate IsIPv4(s: string) {
    Octets(Split(s, '.'))
  }

  function Quad(a: nat, b: nat, c: nat, d: nat): nat {
    ((a * 256 + b) * 256 + c) * 256 + d
  }

  function QuadOf(parts: seq<string>): nat
    requires Octets(parts)
  {
    Quad(Value(parts[0]), Value(parts[1]), Value(parts[2]), Value(parts[3]))
  }

  function Address(s: string): nat
    requires IsIPv4(s)
  {
    QuadOf(Split(s, '.'))
  }

  lemma QuadInjective(a: nat, b: nat, c: nat, d: nat, a': nat, b': nat, c': nat, d': nat)
    requires b < 256 && c < 256 && d < 256 && b' < 256 && c' < 256 && d' < 256
    requires Quad(a, b, c, d) == Quad(a', b', c', d')
    ensures a == a' && b == b' && c == c' && d == d'
  {
  }

  lemma OctetsInjective(a: seq<string>, b: seq<string>)
    requires Octets(a) && Octets(b) && QuadOf(a) == QuadOf(b)
    ensures a == b
  {
    QuadInjective(Value(a[0]), Value(a[1]), Value(a[2]), Value(a[3]),
                  Value(b[0]), Value(b[1]), Value(b[2]), Value(b[3]));
    CanonicalInjective(a[0], b[0]);
    CanonicalInjective(a[1], b[1]);
    CanonicalInjective(a[2], b[2]);
    CanonicalInjective(a[3], b[3]);
  }

  lemma SplitInjective(s: string, t: string, sep: char)
    requires Split(s, sep) == Split(t, sep)
    ensures s == t
  {
    JoinSplit(s, sep);
    JoinSplit(t, sep);
  }

  lemma AddressInjective(s: string, t: string)
    requires IsIPv4(s) && IsIPv4(t) && Address(s) == Address(t)
    ensures s == t
  {
    OctetsInjective(Split(s, '.'), Split(t, '.'));
    SplitInjective(s, t, '.');
  }

  // ---------- prefixes

  /** A network: the masked address and the prefix length. */
  datatype Network = Network(base: nat, length: nat)

  /** 2^(32 - length): the number of addresses a prefix of this length covers. */
  function BlockSize(length: nat): (n: nat)
    requires length <= 32
    ensures n > 0
    decreases 32 - length
  {
    if length == 32 then 1 else 2 * BlockSize(length + 1)
  }

  function RoundDown(a: nat, block: nat): nat
    requires block > 0
  {
    a - a % block
  }

  /** The address with its host bits cleared. */
  function Mask(a: nat, length: nat): nat
    requires length <= 32
  {
    RoundDown(a, BlockSize(length))
  }

  /** IPNet.Contains */
  predicate Contains(net: Network, a: nat)
    requires net.length <= 32
  {
    Mask(a, net.length) == net.base
  }

  predicate CidrParts(parts: seq<string>) {
    |parts| == 2 && IsIPv4(parts[0]) && IsDecimal(parts[1]) && Value(parts[1]) <= 32
  }

  function NetworkOf(parts: seq<string>): (net: Network)
    requires CidrParts(parts)
    ensures net.length <= 32
  {
    var length := Value(parts[1]);
    Network(Mask(Address(parts[0]), length), length)
  }

  /** net.ParseCIDR on IPv4 text; anything else is its error. */
  function ParseCIDR(s: string): (r: Option<Network>)
    ensures r.Some? ==> r.value.length <= 32
  {
    var parts := Split(s, '/');
    if CidrParts(parts) then Some(NetworkOf(parts)) else None
  }

  /** No host bits set and no leading zero in the length. */
  predicate CanonicalParts(parts: seq<string>) {
    CidrParts(parts) && IsCanonical(parts[1]) && NetworkOf(parts).base == Address(parts[0])
  }

  /** A prefix as FRR prints it. */
  predicate IsCidr(s: string) {
    CanonicalParts(Split(s, '/'))
  }

  lemma PartsInjective(a: seq<string>, b: seq<string>)
    requires CanonicalParts(a) && CanonicalParts(b) && NetworkOf(a) == NetworkOf(b)
    ensures a == b
  {
    NetworkFields(a);
    NetworkFields(b);
    FieldsInjective(a[0], b[0], a[1], b[1]);
    assert a == [a[0], a[1]] && b == [b[0], b[1]];
  }

  lemma FieldsInjective(x: string, y: string, l: string, m: string)
    requires IsIPv4(x) && IsIPv4(y) && IsCanonical(l) && IsCanonical(m)
    requires Network(Address(x), Value(l)) == Network(Address(y), Value(m))
    ensures x == y && l == m
  {
    AddressInjective(x, y);
    CanonicalInjective(l, m);
  }

  lemma NetworkFields(parts: seq<string>)
    requires CanonicalParts(parts)
    ensures NetworkOf(parts) == Network(Address(parts[0]), Value(parts[1]))
  {
  }

  /** Two canonical prefixes that denote the same network are the same text. */
  lemma CidrInjective(s: string, t: string)
    requires IsCidr(s) && IsCidr(t) && ParseCIDR(s) == ParseCIDR(t)
    ensures s == t
  {
    PartsInjective(Split(s, '/'), Split(t, '/'));
    SplitInjective(s, t, '/');
  }

  // ---------- the characters that occur

  lemma {:induction false} JoinChars(parts: seq<string>, sep: char)
    requires parts != [] && forall part | part in parts :: IsDecimal(part)
    ensures forall c | c in Join(parts, sep) :: c == sep || IsDigit(c)
  {
    assert parts[0] in parts;
    if |parts| <= 1 {
    } else {
      JoinChars(parts[1..], sep);
    }
  }

  lemma IPv4Chars(s: string)
    requires IsIPv4(s)
    ensures forall c | c in s :: c == '.' || IsDigit(c)
  {
    JoinSplit(s, '.');
    JoinChars(Split(s, '.'), '.');
  }
}
