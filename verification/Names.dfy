/** Names of the route-maps and prefix-lists that the daemon owns (internal/actuate/actuate.go). */
module Names {
  import opened Text
  import opened Addresses

  const NEVER_LIST := "PATHPROFILER-NEVER"
  const NEVER_CIDR := "192.0.2.1/32"
  const MAP_PREFIX := "PATHPROFILER-"
  const SCOPE_PREFIX := "PATHPROFILER-SCOPE-"

  function Slug(c: char): char {
    if c == '.' || c == '/' then '-' else c
  }

  function Sanitize(s: string): (t: string)
    ensures |t| == |s| && forall i | 0 <= i < |s| :: t[i] == Slug(s[i])
  {
    if s == "" then "" else Sanitize(s[..|s| - 1]) + [Slug(s[|s| - 1])]
  }

  method SanitizeRouteMapName(s: string) returns (out: string)
    ensures out == Sanitize(s)
  {
    out := "";
    for i := 0 to |s|
      invariant out == Sanitize(s[..i])
    {
      assert s[..i + 1][..i] == s[..i];
      match s[i]
      case '.' => out := out + "-";
      case '/' => out := out + "-";
      case c => out := out + [c];
    }
    assert s[..|s|] == s;
  }

  function MapName(neighbor: string): string {
    MAP_PREFIX + Sanitize(neighbor)
  }

  function ScopeList(prefix: string): string {
    SCOPE_PREFIX + Sanitize(prefix)
  }

  /** The route-maps that the startup normalization claims as the daemon's. */
  predicate OwnedMap(name: string) {
    HasPrefix(name, MAP_PREFIX)
  }

  /** The prefix-lists that the startup normalization claims as the daemon's. */
  predicate OwnedList(name: string) {
    name == NEVER_LIST || HasPrefix(name, SCOPE_PREFIX)
  }

  lemma Ownership(neighbor: string, prefix: string)
    ensures OwnedMap(MapName(neighbor))
    ensures OwnedList(ScopeList(prefix)) && OwnedList(NEVER_LIST)
    ensures ScopeList(prefix) != NEVER_LIST
  {
    assert ScopeList(prefix)[..|SCOPE_PREFIX|] == SCOPE_PREFIX;
    assert MapName(neighbor)[..|MAP_PREFIX|] == MAP_PREFIX;
    assert SCOPE_PREFIX[13] == 'S' && NEVER_LIST[13] == 'N';
    assert ScopeList(prefix)[13] == 'S';
  }

  // ---------- when two names collide

  predicate IsSeparator(c: char) {
    c == '.' || c == '/' || c == '-'
  }

  /** The two texts are equal once every separator is read as the same character. */
  predicate SameShape(s: string, t: string) {
    |s| == |t| && forall i | 0 <= i < |s| :: s[i] == t[i] || (IsSeparator(s[i]) && IsSeparator(t[i]))
  }

  /** Exactly which texts share a name. So the naming is not injective in general. */
  lemma SanitizeKernel(s: string, t: string)
    ensures Sanitize(s) == Sanitize(t) <==> SameShape(s, t)
  {
    if Sanitize(s) == Sanitize(t) {
      forall i | 0 <= i < |s| ensures s[i] == t[i] || (IsSeparator(s[i]) && IsSeparator(t[i])) {
        assert Sanitize(s)[i] == Slug(s[i]) && Sanitize(t)[i] == Slug(t[i]);
      }
    }
    if SameShape(s, t) {
      assert forall i | 0 <= i < |s| :: Sanitize(s)[i] == Sanitize(t)[i];
    }
  }

  lemma NamesCollideInGeneral()
    ensures Sanitize("10.0.0.1") == Sanitize("10.0.0/1") && "10.0.0.1" != "10.0.0/1"
  {
    SanitizeKernel("10.0.0.1", "10.0.0/1");
  }

  lemma {:induction false} PrefixInjective(p: string, a: string, b: string)
    requires p + a == p + b
    ensures a == b
  {
    assert (p + a)[|p|..] == a && (p + b)[|p|..] == b;
  }

  /** Distinct IPv4 neighbours have distinct route-maps. */
  lemma MapNameInjective(a: string, b: string)
    requires IsIPv4(a) && IsIPv4(b) && MapName(a) == MapName(b)
    ensures a == b
  {
    PrefixInjective(MAP_PREFIX, Sanitize(a), Sanitize(b));
    SanitizeKernel(a, b);
    IPv4Chars(a);
    IPv4Chars(b);
    forall i | 0 <= i < |a| ensures a[i] == b[i] {
      assert a[i] in a && b[i] in b;
    }
  }

  /** A prefix is an address, a slash, and digits. */
  lemma CidrShape(s: string) returns (addr: string, len: string)
    requires IsCidr(s)
    ensures s == addr + "/" + len
    ensures forall i | 0 <= i < |addr| :: addr[i] == '.' || IsDigit(addr[i])
    ensures forall i | 0 <= i < |len| :: IsDigit(len[i])
  {
    var parts := Split(s, '/');
    JoinSplit(s, '/');
    addr, len := parts[0], parts[1];
    IPv4Chars(addr);
    assert forall i | 0 <= i < |addr| :: addr[i] in addr;
    assert Join(parts, '/') == addr + "/" + Join(parts[1..], '/');
  }

  /** Distinct IPv4 prefixes have distinct prefix-lists. */
  lemma ScopeListInjective(p: string, q: string)
    requires IsCidr(p) && IsCidr(q) && ScopeList(p) == ScopeList(q)
    ensures p == q
  {
    PrefixInjective(SCOPE_PREFIX, Sanitize(p), Sanitize(q));
    SanitizeKernel(p, q);
    var pa, pl := CidrShape(p);
    var qa, ql := CidrShape(q);
    // The slash is the last separator in both, so it stands at the same place.
    assert forall j | |pa| < j < |p| :: !IsSeparator(p[j]);
    assert forall j | |qa| < j < |q| :: !IsSeparator(q[j]);
    assert IsSeparator(p[|pa|]) && IsSeparator(q[|qa|]);
    assert |pa| == |qa|;
    forall i | 0 <= i < |p| ensures p[i] == q[i] {
      if i < |pa| {
        assert p[i] == pa[i] && q[i] == qa[i];
      } else if i > |pa| {
        assert p[i] == pl[i - |pa| - 1] && q[i] == ql[i - |pa| - 1];
      }
    }
  }
}
