/** Literal text: what the program writes to vtysh and what it recognises in a running configuration. */
module Literal {
  import opened Options
  import opened Text
  import opened Addresses
  import opened Octets
  import opened Names
  import opened Router
  import opened Actuate
  import opened RunningConfig

  // ---------- names

  lemma {:induction false} SanitizeJoin(a: string, b: string)
    ensures Sanitize(a + b) == Sanitize(a) + Sanitize(b)
  {
  }

  lemma DigitsStay(s: string)
    requires IsDecimal(s)
    ensures Sanitize(s) == s
  {
  }

  /** The route-map of neighbour a.b.c.d is PATHPROFILER-a-b-c-d. */
  lemma QuadMapName(a: nat, b: nat, c: nat, d: nat)
    ensures MapName(Dotted(a, b, c, d)) ==
            "PATHPROFILER-" + (Decimal(a) + "-" + (Decimal(b) + "-" + (Decimal(c) + "-" + Decimal(d))))
  {
    Slugged(a, b, c, d);
  }

  lemma Slugged(a: nat, b: nat, c: nat, d: nat)
    ensures Sanitize(Dotted(a, b, c, d)) == Decimal(a) + "-" + (Decimal(b) + "-" + (Decimal(c) + "-" + Decimal(d)))
  {
    DigitsStay(Decimal(d));
    DottedPart(c, Decimal(d));
    DottedPart(b, Decimal(c) + ['.'] + Decimal(d));
    DottedPart(a, Decimal(b) + ['.'] + (Decimal(c) + ['.'] + Decimal(d)));
  }

  lemma DottedPart(v: nat, rest: string)
    ensures Sanitize(Decimal(v) + ['.'] + rest) == Decimal(v) + "-" + Sanitize(rest)
  {
    DigitsStay(Decimal(v));
    SanitizeJoin(Decimal(v) + ['.'], rest);
    SanitizeJoin(Decimal(v), ['.']);
  }

  /** The prefix-list of a.b.c.d/l is PATHPROFILER-SCOPE-a-b-c-d-l. */
  lemma PrefixListName(a: nat, b: nat, c: nat, d: nat, l: nat)
    ensures ScopeList(Dotted(a, b, c, d) + ['/'] + Decimal(l)) ==
            "PATHPROFILER-SCOPE-" +
            (Decimal(a) + "-" + (Decimal(b) + "-" + (Decimal(c) + "-" + Decimal(d))) + "-" + Decimal(l))
  {
    Slugged(a, b, c, d);
    DigitsStay(Decimal(l));
    SanitizeJoin(Dotted(a, b, c, d) + ['/'], Decimal(l));
    SanitizeJoin(Dotted(a, b, c, d), ['/']);
  }

  // ---------- the script of a first update

  /**
   * The script for one prefix, in order: the prefix's list and the one that never matches, each at sequence 5; slot 0
   * at sequence 10, with match and set; slot k, inert, at sequence 10 (k + 1); the catch-all at 65535; the binding.
   */
  lemma OnePrefixScript(nb: string, p: string, v: int, slots: nat)
    requires slots >= 1
    ensures var s := TierScript(NeighborTierUpdate(nb, [PrefixPref(p, v)]), slots);
            && |s| == 3 + 4 + 3 * (slots - 1) + 6
            && s[..7] == [Configure, DeclareList(ScopeList(p), 5, p), DeclareList("PATHPROFILER-NEVER", 5, "192.0.2.1/32"),
                          EnterMap(MapName(nb), 10), MatchList(ScopeList(p)), SetPref(v), Exit]
            && (forall k | 1 <= k < slots ::
                  && s[3 * k + 4] == EnterMap(MapName(nb), 10 * (k + 1))
                  && s[3 * k + 5] == MatchList("PATHPROFILER-NEVER") && s[3 * k + 6] == Exit)
            && s[|s| - 6..] == [EnterMap(MapName(nb), 65535), Exit, RouterBgp, Bind(nb, MapName(nb)), Exit, Exit]
  {
    var prefs := [PrefixPref(p, v)];
    var head, tail := TierHead(prefs), TierTail(nb);
    assert ListDecls(prefs, 1) == ListDecls(prefs, 0) + ListDecl(prefs[0]);
    InertSlots(MapName(nb), prefs, slots);
    var s := TierScript(NeighborTierUpdate(nb, prefs), slots);
    assert s == head + SlotBlocks(MapName(nb), prefs, slots) + tail;
  }

  lemma {:induction false} InertSlots(name: string, prefs: seq<PrefixPref>, slots: nat)
    requires slots >= 1 && |prefs| == 1
    ensures var b := SlotBlocks(name, prefs, slots);
            && |b| == 4 + 3 * (slots - 1)
            && b[..4] == [EnterMap(name, 10), MatchList(ScopeList(prefs[0].prefix)), SetPref(prefs[0].localPref), Exit]
            && forall k | 1 <= k < slots ::
                 && b[3 * k + 1] == EnterMap(name, 10 * (k + 1))
                 && b[3 * k + 2] == MatchList("PATHPROFILER-NEVER") && b[3 * k + 3] == Exit
  {
    if slots == 1 {
      assert SlotBlocks(name, prefs, 0) == [];
    } else {
      InertSlots(name, prefs, slots - 1);
      var front, last := SlotBlocks(name, prefs, slots - 1), SlotBlock(name, prefs, slots - 1);
      assert last == [EnterMap(name, 10 * slots), MatchList("PATHPROFILER-NEVER"), Exit];
      assert SlotBlocks(name, prefs, slots) == front + last;
    }
  }

  /** A route-map gets 32 slots at first; 33 preferences make them 33, and fewer later leave them so. */
  lemma SlotCount(name: string)
    ensures Slots(map[], name, 1) == 32 && Slots(map[name := 32], name, 33) == 33 && Slots(map[name := 33], name, 1) == 33
  {
  }

  // ---------- what is recognised

  lemma JoinWords(first: string, rest: seq<string>)
    requires rest != []
    ensures Join([first] + rest, ' ') == first + " " + Join(rest, ' ')
  {
    JoinHead(first, rest, ' ');
  }

  lemma ThreeWords(a: string, b: string, c: string)
    ensures Join([a] + ([b] + [c]), ' ') == a + " " + (b + " " + c)
  {
    JoinWords(a, [b] + [c]);
    JoinWords(b, [c]);
  }

  lemma FourWords(a: string, b: string, c: string, d: string)
    ensures Join([a] + ([b] + ([c] + [d])), ' ') == a + " " + (b + " " + (c + " " + d))
  {
    JoinWords(a, [b] + ([c] + [d]));
    ThreeWords(b, c, d);
  }

  /** An indented binding line is read as one, if its map is the daemon's and its neighbour an address. */
  lemma ReadsBinding(nb: string, slug: string, isIP: string -> bool)
    requires IsToken(nb) && IsToken(slug) && isIP(nb)
    ensures BindingOf("  " + ("neighbor" + " " + (nb + " " + ("route-map" + " " + ("PATHPROFILER-" + slug + " " + "in")))), isIP)
            == Some(AppliedBinding(nb, "PATHPROFILER-" + slug))
  {
    var name := "PATHPROFILER-" + slug;
    LiteralWords();
    PrefixedToken("PATHPROFILER-", slug);
    JoinWords("neighbor", [nb] + (["route-map"] + ([name] + ["in"])));
    FourWords(nb, "route-map", name, "in");
    assert Spaces(2) == "  ";
    PrintedLine(Line(2, ["neighbor"] + ([nb] + (["route-map"] + ([name] + ["in"])))), isIP);
  }

  /** So is the line that opens a map. */
  lemma ReadsMap(slug: string)
    requires IsToken(slug)
    ensures MapOf("route-map" + " " + ("PATHPROFILER-" + slug + " " + ("permit" + " " + "65535")))
            == Some("PATHPROFILER-" + slug)
  {
    LiteralWords();
    PrefixedToken("PATHPROFILER-", slug);
    FourWords("route-map", "PATHPROFILER-" + slug, "permit", "65535");
    Unindented(["route-map"] + (["PATHPROFILER-" + slug] + (["permit"] + ["65535"])));
  }

  /** And the line that declares a list. */
  lemma ReadsList(slug: string, prefix: string)
    requires IsToken(slug) && IsToken(prefix)
    ensures ListOf("ip" + " " + ("prefix-list" + " " + ("PATHPROFILER-SCOPE-" + slug + " " + prefix)))
            == Some("PATHPROFILER-SCOPE-" + slug)
  {
    LiteralWords();
    PrefixedToken("PATHPROFILER-SCOPE-", slug);
    FourWords("ip", "prefix-list", "PATHPROFILER-SCOPE-" + slug, prefix);
    Unindented(["ip"] + (["prefix-list"] + (["PATHPROFILER-SCOPE-" + slug] + [prefix])));
  }

  lemma Unindented(words: seq<string>)
    requires words != [] && forall w | w in words :: IsToken(w)
    ensures MapOf(Join(words, ' ')) == if MapShape(words) && OwnedMap(words[1]) then Some(words[1]) else None
    ensures ListOf(Join(words, ' ')) == if ListShape(words) && OwnedList(words[2]) then Some(words[2]) else None
  {
    PrintedLine(Line(0, words), x => false);
    assert Spaces(0) + Join(words, ' ') == Join(words, ' ');
  }

  lemma PrefixedToken(prefix: string, slug: string)
    requires IsToken(prefix) && IsToken(slug)
    ensures IsToken(prefix + slug) && HasPrefix(prefix + slug, prefix)
  {
    assert (prefix + slug)[..|prefix|] == prefix;
  }
}
