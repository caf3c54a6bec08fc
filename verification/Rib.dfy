/** Longest match and scope over the keys of the RIB (internal/bgp/rib.go). */
module Rib {
  import opened Options
  import opened Arithmetic
  import opened Addresses

  // ---------- longest match

  /** A key of the RIB that parses and contains the address. */
  predicate Matches(prefix: string, a: nat) {
    ParseCIDR(prefix).Some? && Contains(ParseCIDR(prefix).value, a)
  }

  function LengthOf(prefix: string): nat
    requires ParseCIDR(prefix).Some?
  {
    ParseCIDR(prefix).value.length
  }

  /** The answer "" stands for no match; no key that parses is empty. */
  ghost predicate IsLongest(keys: set<string>, a: nat, best: string) {
    if best == "" then forall p | p in keys :: !Matches(p, a)
    else
      && best in keys && Matches(best, a)
      && forall p | p in keys && Matches(p, a) :: LengthOf(p) <= LengthOf(best)
  }

  method PrefixForSubnet<V>(rib: map<string, V>, subnetIP: string) returns (best: string)
    ensures !IsIPv4(subnetIP) ==> best == ""
    ensures IsIPv4(subnetIP) ==> IsLongest(rib.Keys, Address(subnetIP), best)
    ensures best != "" ==>
              && best in rib && ParseCIDR(best).Some? && Contains(ParseCIDR(best).value, Address(subnetIP))
              && forall p | p in rib && ParseCIDR(p).Some? && Contains(ParseCIDR(p).value, Address(subnetIP)) ::
                   ParseCIDR(p).value.length <= ParseCIDR(best).value.length
    ensures IsIPv4(subnetIP) && best == "" ==>
              forall p | p in rib && ParseCIDR(p).Some? :: !Contains(ParseCIDR(p).value, Address(subnetIP))
  {
    best := "";
    if !IsIPv4(subnetIP) {
      return;
    }
    var ip := Address(subnetIP);
    var bestLen: int := -1;
    var pending := rib.Keys;
    ghost var done: set<string> := {};
    while pending != {}
      invariant forall p :: p in rib.Keys <==> p in done || p in pending
      invariant IsLongest(done, ip, best)
      invariant bestLen == if best == "" then -1 else LengthOf(best)
      decreases |pending|
    {
      var prefix :| prefix in pending;
      pending, done := pending - {prefix}, done + {prefix};
      var ipNet := ParseCIDR(prefix);
      if ipNet.Some? && Contains(ipNet.value, ip) {
        EmptyDoesNotParse();
        if ipNet.value.length > bestLen {
          best, bestLen := prefix, ipNet.value.length;
        }
      }
    }
    assert done == rib.Keys;
  }

  lemma EmptyDoesNotParse()
    ensures ParseCIDR("").None?
  {
  }

  ghost predicate CanonicalKeys(keys: set<string>) {
    forall p | p in keys :: IsCidr(p)
  }

  /** With keys as FRR prints them the longest match is one key, so the order of the map does not matter. */
  lemma LongestUnique(keys: set<string>, a: nat, p: string, q: string)
    requires CanonicalKeys(keys) && IsLongest(keys, a, p) && IsLongest(keys, a, q)
    ensures p == q
  {
    if p != "" && q != "" {
      CidrInjective(p, q);
    }
  }

  // ---------- scope

  /** A scope entry that does not parse admits nothing. */
  ghost predicate Admits(scope: seq<string>, net: Network) {
    exists i | 0 <= i < |scope| :: ParseCIDR(scope[i]).Some? && Contains(ParseCIDR(scope[i]).value, net.base)
  }

  ghost predicate Admitted(prefix: string, scope: seq<string>) {
    scope == [] || (ParseCIDR(prefix).Some? && Admits(scope, ParseCIDR(prefix).value))
  }

  /** The scope networks, without the entries that do not parse. */
  ghost predicate Parses(nets: seq<Network>, scope: seq<string>) {
    && (forall n | n in nets :: exists j | 0 <= j < |scope| :: ParseCIDR(scope[j]) == Some(n))
    && (forall j | 0 <= j < |scope| && ParseCIDR(scope[j]).Some? :: ParseCIDR(scope[j]).value in nets)
  }

  method ScopeNets(scope: seq<string>) returns (nets: seq<Network>)
    ensures Parses(nets, scope)
  {
    nets := [];
    for i := 0 to |scope|
      invariant forall n | n in nets :: exists j | 0 <= j < i :: ParseCIDR(scope[j]) == Some(n)
      invariant forall j | 0 <= j < i && ParseCIDR(scope[j]).Some? :: ParseCIDR(scope[j]).value in nets
    {
      var n := ParseCIDR(scope[i]);
      if n.Some? {
        nets := nets + [n.value];
      }
    }
  }

  method AdmittedBy(scopeNets: seq<Network>, ipNet: Network, ghost scope: seq<string>) returns (admitted: bool)
    requires Parses(scopeNets, scope)
    ensures admitted == Admits(scope, ipNet)
  {
    for i := 0 to |scopeNets|
      invariant forall j | 0 <= j < i :: scopeNets[j].length <= 32 && !Contains(scopeNets[j], ipNet.base)
    {
      assert scopeNets[i] in scopeNets;
      if Contains(scopeNets[i], ipNet.base) {
        return true;
      }
    }
    return false;
  }

  /** The keys whose network address lies in some scope network, with their paths; all of them for no scope. */
  method InScope<V>(rib: map<string, V>, scope: seq<string>) returns (result: map<string, V>)
    ensures forall p :: p in result <==> p in rib && Admitted(p, scope)
    ensures forall p | p in rib ::
              p in result <==>
                || scope == []
                || (ParseCIDR(p).Some? && exists i :: 0 <= i < |scope| && ParseCIDR(scope[i]).Some?
                                                      && Contains(ParseCIDR(scope[i]).value, ParseCIDR(p).value.base))
    ensures forall p | p in result :: result[p] == rib[p]
  {
    if scope == [] {
      return rib;
    }
    var scopeNets := ScopeNets(scope);
    result := map[];
    var pending := rib.Keys;
    while pending != {}
      invariant pending <= rib.Keys
      invariant forall p :: p in result <==> p in rib && p !in pending && Admitted(p, scope)
      invariant forall p | p in result :: result[p] == rib[p]
      decreases |pending|
    {
      var prefix :| prefix in pending;
      pending := pending - {prefix};
      var ipNet := ParseCIDR(prefix);
      if ipNet.Some? {
        var admitted := AdmittedBy(scopeNets, ipNet.value, scope);
        if admitted {
          result := result[prefix := rib[prefix]];
        }
      }
    }
  }

  /** Filtering before the lookup changes the answer exactly when the unfiltered answer is filtered away. */
  lemma FilterFirst(keys: set<string>, kept: set<string>, a: nat, best: string, filtered: string)
    requires CanonicalKeys(keys) && kept <= keys
    requires IsLongest(keys, a, best) && IsLongest(kept, a, filtered)
    ensures filtered == best <==> best == "" || best in kept
  {
    if best in kept {
      LongestUnique(kept, a, best, filtered);
    }
  }

  // ---------- what being in scope means

  lemma RoundDownAt(a: nat, block: nat, q: int, r: nat)
    requires r < block && a == block * q + r
    ensures RoundDown(a, block) == block * q
  {
    Division(block, q, r, a / block, a % block);
  }

  /** Clearing fewer bits first makes no difference. */
  lemma RoundDownNested(a: nat, block: nat, wide: nat)
    requires block > 0 && wide == 2 * block
    ensures RoundDown(RoundDown(a, block), wide) == RoundDown(a, wide)
  {
    DivMod(a, wide);
    RoundDownNestedAt(a, block, wide, a / wide, a % wide);
  }

  lemma RoundDownNestedAt(a: nat, block: nat, wide: nat, q: int, r: nat)
    requires wide == 2 * block && r < wide && a == wide * q + r
    ensures RoundDown(RoundDown(a, block), wide) == RoundDown(a, wide)
  {
    assert wide * q == block * (2 * q);
    RoundDownAt(a, wide, q, r);
    if r < block {
      RoundDownAt(a, block, 2 * q, r);
      RoundDownAt(wide * q, wide, q, 0);
    } else {
      assert block * (2 * q + 1) == wide * q + block;
      RoundDownAt(a, block, 2 * q + 1, r - block);
      RoundDownAt(wide * q + block, wide, q, block);
    }
  }

  lemma {:induction false} MaskNested(a: nat, outer: nat, inner: nat)
    requires outer <= inner <= 32
    ensures Mask(Mask(a, inner), outer) == Mask(a, outer)
    decreases inner - outer
  {
    if outer == inner {
      MaskIdempotent(a, BlockSize(outer));
    } else {
      MaskNested(a, outer + 1, inner);
      RoundDownNested(Mask(a, inner), BlockSize(outer + 1), BlockSize(outer));
      RoundDownNested(a, BlockSize(outer + 1), BlockSize(outer));
    }
  }

  lemma MaskIdempotent(a: nat, block: nat)
    requires block > 0
    ensures RoundDown(RoundDown(a, block), block) == RoundDown(a, block)
  {
    var t := RoundDown(a, block);
    assert t == block * (a / block);
    Division(block, a / block, 0, t / block, t % block);
  }

  lemma {:induction false} BlockShrinks(outer: nat, inner: nat)
    requires outer < inner <= 32
    ensures BlockSize(inner) < BlockSize(outer)
    decreases inner - outer
  {
    if outer + 1 == inner {
    } else {
      BlockShrinks(outer + 1, inner);
    }
  }

  /** The highest address of a network. */
  function Last(net: Network): nat
    requires net.length <= 32
  {
    net.base + BlockSize(net.length) - 1
  }

  lemma LastMasks(net: Network)
    requires net.length <= 32 && Mask(net.base, net.length) == net.base
    ensures Contains(net, Last(net))
  {
    var b := BlockSize(net.length);
    assert net.base == b * (net.base / b);
    Division(b, net.base / b, b - 1, Last(net) / b, Last(net) % b);
  }

  /**
   * A prefix whose network address is in scope lies in scope entirely exactly when it is no shorter than the
   * scope network; a shorter one reaches beyond it and is let through all the same.
   */
  lemma ScopeReach(scopeNet: Network, net: Network)
    requires scopeNet.length <= 32 && net.length <= 32
    requires Mask(net.base, net.length) == net.base && Contains(scopeNet, net.base)
    ensures (forall a: nat | Contains(net, a) :: Contains(scopeNet, a)) <==> net.length >= scopeNet.length
  {
    if net.length >= scopeNet.length {
      forall a: nat | Contains(net, a) ensures Contains(scopeNet, a) {
        MaskNested(a, scopeNet.length, net.length);
      }
    } else {
      LastMasks(net);
      BlockShrinks(net.length, scopeNet.length);
      var s := BlockSize(scopeNet.length);
      assert scopeNet.base <= net.base;
      assert Last(net) - Mask(Last(net), scopeNet.length) < s;
      MaskNested(net.base, net.length, scopeNet.length);
      assert Mask(scopeNet.base, net.length) == net.base;
      assert scopeNet.base == net.base;
      assert !Contains(scopeNet, Last(net));
    }
  }
}
