/** `show running-config` as text, and the three parsers that read it back. */
module RunningConfig {
  import opened Options
  import opened Text
  import opened Names
  import opened Router
  import opened Sorting

  datatype AppliedBinding = AppliedBinding(neighbor: string, routeMap: string)

  // ---------- what each parser takes from one line

  function BindingOf(line: string, isIP: string -> bool): Option<AppliedBinding> {
    var trimmed := TrimSpace(line);
    var fields := Fields(trimmed);
    if !HasPrefix(trimmed, "neighbor ") then None
    else if |fields| < 5 || fields[2] != "route-map" || fields[4] != "in" then None
    else if !OwnedMap(fields[3]) || !isIP(fields[1]) then None
    else Some(AppliedBinding(fields[1], fields[3]))
  }

  function BindingParser(isIP: string -> bool): string -> Option<AppliedBinding> {
    line => BindingOf(line, isIP)
  }

  function MapOf(line: string): Option<string> {
    var fields := Fields(TrimSpace(line));
    if |fields| >= 4 && fields[0] == "route-map" && OwnedMap(fields[1]) then Some(fields[1]) else None
  }

  function ListOf(line: string): Option<string> {
    var fields := Fields(TrimSpace(line));
    if |fields| >= 3 && fields[0] == "ip" && fields[1] == "prefix-list" && OwnedList(fields[2]) then Some(fields[2])
    else None
  }

  /** All results of a line parser, in line order. */
  function Collect<T>(lines: seq<string>, parse: string -> Option<T>): seq<T> {
    if lines == [] then [] else
      var front := Collect(lines[..|lines| - 1], parse);
      match parse(lines[|lines| - 1])
      case None => front
      case Some(x) => front + [x]
  }

  lemma {:induction false} CollectMembers<T>(lines: seq<string>, parse: string -> Option<T>, x: T)
    ensures x in Collect(lines, parse) <==> exists i :: 0 <= i < |lines| && parse(lines[i]) == Some(x)
  {
    if lines == [] {
    } else {
      var n := |lines| - 1;
      CollectMembers(lines[..n], parse, x);
      assert lines == lines[..n] + [lines[n]];
      if i :| 0 <= i < |lines| && parse(lines[i]) == Some(x) {
        if i < n {
          assert lines[..n][i] == lines[i];
        }
      }
      if i :| 0 <= i < n && parse(lines[..n][i]) == Some(x) {
        assert lines[i] == lines[..n][i];
      }
    }
  }

  predicate Distinct<T(==)>(s: seq<T>) {
    forall i, j | 0 <= i < j < |s| :: s[i] != s[j]
  }

  lemma {:induction false} CollectDistinct<T>(lines: seq<string>, parse: string -> Option<T>)
    requires forall i, j | 0 <= i < j < |lines| :: parse(lines[i]).Some? ==> parse(lines[i]) != parse(lines[j])
    ensures Distinct(Collect(lines, parse))
  {
    if lines == [] {
    } else {
      var n := |lines| - 1;
      CollectDistinct(lines[..n], parse);
      if parse(lines[n]).Some? {
        CollectMembers(lines[..n], parse, parse(lines[n]).value);
      }
    }
  }

  predicate BindingLe(a: AppliedBinding, b: AppliedBinding) {
    StringLe(a.routeMap, b.routeMap)
  }

  method ParseAppliedBindings(config: string, isIP: string -> bool) returns (out: seq<AppliedBinding>)
    ensures SortOf(out, Collect(Split(config, '\n'), BindingParser(isIP)), BindingLe)
  {
    out := [];
    var lines := Split(config, '\n');
    var parse := BindingParser(isIP);
    for i := 0 to |lines|
      invariant out == Collect(lines[..i], parse)
    {
      assert lines[..i + 1][..i] == lines[..i];
      var line := TrimSpace(lines[i]);
      if !HasPrefix(line, "neighbor ") {
        continue;
      }
      var fields := Fields(line);
      if |fields| < 5 || fields[2] != "route-map" || fields[4] != "in" {
        continue;
      }
      if !HasPrefix(fields[3], MAP_PREFIX) {
        continue;
      }
      if !isIP(fields[1]) {
        continue;
      }
      out := out + [AppliedBinding(fields[1], fields[3])];
    }
    assert lines[..|lines|] == lines;
    BindingLePreorder();
    out := Sort(out, BindingLe);
  }

  lemma BindingLePreorder()
    ensures TotalPreorder(BindingLe)
  {
    StringLePreorder();
  }

  /** The sorted, duplicate-free rendering of a set of names: there is only one. */
  ghost predicate SortedNames(out: seq<string>, names: seq<string>) {
    Distinct(out) && Sorted(out, StringLe) && forall n :: n in out <==> n in names
  }

  lemma SortedNamesUnique(a: seq<string>, b: seq<string>, names: seq<string>)
    requires SortedNames(a, names) && SortedNames(b, names)
    ensures a == b
  {
    StringLePreorder();
    forall n ensures multiset(a)[n] == multiset(b)[n] {
      CountDistinct(a, n);
      CountDistinct(b, n);
    }
    assert multiset(a) == multiset(b);
    forall x, y | StringLe(x, y) && StringLe(y, x) ensures x == y {
      StringLeTotal(x, y);
    }
    SortUnique(a, b, StringLe);
  }

  lemma {:induction false} CountDistinct<T>(s: seq<T>, x: T)
    requires Distinct(s)
    ensures multiset(s)[x] == if x in s then 1 else 0
  {
    if s == [] {
    } else {
      CountDistinct(s[1..], x);
      TailMultiset(s);
      assert s == [s[0]] + s[1..];
      assert forall i | 0 <= i < |s| - 1 :: s[1..][i] == s[i + 1];
    }
  }

  lemma DistinctCount<T>(s: seq<T>)
    ensures !Distinct(s) ==> exists x :: multiset(s)[x] >= 2
  {
    if !Distinct(s) {
      var i, j :| 0 <= i < j < |s| && s[i] == s[j];
      CountTwice(s, i, j);
    }
  }

  lemma PermutationDistinct<T>(s: seq<T>, t: seq<T>)
    requires Distinct(s) && multiset(s) == multiset(t)
    ensures Distinct(t) && forall x :: x in t <==> x in s
  {
    forall x ensures multiset(t)[x] == (if x in s then 1 else 0) && (x in t <==> x in multiset(t)) {
      CountDistinct(s, x);
    }
    DistinctCount(t);
  }

  /** Deduplicates through a set and sorts, as `seen` and sort.Strings do. */
  method SortedSet(names: seq<string>) returns (out: seq<string>)
    ensures SortedNames(out, names)
  {
    var seen := set n | n in names;
    var pending := seen;
    out := [];
    while pending != {}
      invariant pending <= seen && Distinct(out)
      invariant forall n :: n in out <==> n in seen && n !in pending
      decreases |pending|
    {
      var n :| n in pending;  // map iteration order
      pending := pending - {n};
      out := out + [n];
    }
    StringLePreorder();
    ghost var unsorted := out;
    out := Sort(out, StringLe);
    PermutationDistinct(unsorted, out);
  }

  method ParseAppliedRouteMaps(config: string) returns (out: seq<string>)
    ensures SortedNames(out, Collect(Split(config, '\n'), MapOf))
  {
    var seen: seq<string> := [];
    var lines := Split(config, '\n');
    for i := 0 to |lines|
      invariant seen == Collect(lines[..i], MapOf)
    {
      assert lines[..i + 1][..i] == lines[..i];
      var fields := Fields(TrimSpace(lines[i]));
      if |fields| < 4 || fields[0] != "route-map" {
        continue;
      }
      if HasPrefix(fields[1], MAP_PREFIX) {
        seen := seen + [fields[1]];
      }
    }
    assert lines[..|lines|] == lines;
    out := SortedSet(seen);
  }

  method ParseAppliedPrefixLists(config: string) returns (out: seq<string>)
    ensures SortedNames(out, Collect(Split(config, '\n'), ListOf))
  {
    var seen: seq<string> := [];
    var lines := Split(config, '\n');
    for i := 0 to |lines|
      invariant seen == Collect(lines[..i], ListOf)
    {
      assert lines[..i + 1][..i] == lines[..i];
      var fields := Fields(TrimSpace(lines[i]));
      if |fields| < 3 || fields[0] != "ip" || fields[1] != "prefix-list" {
        continue;
      }
      if fields[2] == NEVER_LIST || HasPrefix(fields[2], SCOPE_PREFIX) {
        seen := seen + [fields[2]];
      }
    }
    assert lines[..|lines|] == lines;
    out := SortedSet(seen);
  }

  // ---------- printing

  /** One printed line: its indentation and its words. */
  datatype Line = Line(indent: nat, words: seq<string>)

  predicate Printable(line: Line) {
    forall w | w in line.words :: IsToken(w)
  }

  function PrintLine(line: Line): string {
    Spaces(line.indent) + if line.words == [] then "" else Join(line.words, ' ')
  }

  function PrintLines(lines: seq<Line>): seq<string> {
    seq(|lines|, i requires 0 <= i < |lines| => PrintLine(lines[i]))
  }

  function Print(lines: seq<Line>): string
    requires lines != []
  {
    Join(PrintLines(lines), '\n')
  }

  predicate BindingShape(words: seq<string>) {
    |words| >= 5 && words[0] == "neighbor" && words[2] == "route-map" && words[4] == "in"
  }

  predicate MapShape(words: seq<string>) {
    |words| >= 4 && words[0] == "route-map"
  }

  predicate ListShape(words: seq<string>) {
    |words| >= 3 && words[0] == "ip" && words[1] == "prefix-list"
  }

  /**
   * The lines show the configuration: each inbound binding on exactly one line, each route-map and
   * each prefix-list on some line, and no other line of these three shapes. Order, indentation and
   * every other line are free.
   */
  ghost predicate Shows(lines: seq<Line>, config: Config) {
    lines != [] && LinesFit(lines, config) && NamesShown(lines, config)
  }

  /** Every line of the three shapes is about something in the configuration, and no binding comes twice. */
  ghost predicate LinesFit(lines: seq<Line>, config: Config) {
    && (forall line | line in lines :: Printable(line))
    && (forall i | 0 <= i < |lines| && BindingShape(lines[i].words) ::
          lines[i].words[1] in config.inbound && config.inbound[lines[i].words[1]] == lines[i].words[3])
    && (forall i, j | 0 <= i < j < |lines| && BindingShape(lines[i].words) && BindingShape(lines[j].words) ::
          lines[i].words[1] != lines[j].words[1])
    && (forall i | 0 <= i < |lines| && MapShape(lines[i].words) :: lines[i].words[1] in config.maps)
    && (forall i | 0 <= i < |lines| && ListShape(lines[i].words) :: lines[i].words[2] in config.lists)
  }

  /** Everything in the configuration is on some line. */
  ghost predicate NamesShown(lines: seq<Line>, config: Config) {
    && (forall nb | nb in config.inbound ::
          exists i :: 0 <= i < |lines| && BindingShape(lines[i].words) && lines[i].words[1] == nb)
    && (forall name | name in config.maps ::
          exists i :: 0 <= i < |lines| && MapShape(lines[i].words) && lines[i].words[1] == name)
    && (forall list | list in config.lists ::
          exists i :: 0 <= i < |lines| && ListShape(lines[i].words) && lines[i].words[2] == list)
  }

  /** Names, as FRR reads them, are words. */
  ghost predicate WordNames(config: Config) {
    && (forall nb | nb in config.inbound :: IsToken(nb) && IsToken(config.inbound[nb]))
    && (forall name | name in config.maps :: IsToken(name))
    && (forall list | list in config.lists :: IsToken(list))
  }

  lemma {:induction false} Enumerated(names: set<string>) returns (s: seq<string>)
    ensures Distinct(s) && forall n :: n in s <==> n in names
    decreases |names|
  {
    if names == {} {
      s := [];
    } else {
      var n :| n in names;
      var rest := Enumerated(names - {n});
      s := rest + [n];
    }
  }

  function BindingLine(nb: string, name: string): Line {
    Line(2, ["neighbor", nb, "route-map", name, "in"])
  }

  function MapLine(name: string): Line {
    Line(0, ["route-map", name, "permit", "65535"])
  }

  function ListLine(list: string): Line {
    Line(0, ["ip", "prefix-list", list, "seq"])
  }

  /** Line i of a listing of these neighbours, route-maps and prefix-lists, in this order. */
  function LineAt(i: nat, nbs: seq<AppliedBinding>, names: seq<string>, lists: seq<string>): Line {
    if i < |nbs| then BindingLine(nbs[i].neighbor, nbs[i].routeMap)
    else if i - |nbs| < |names| then MapLine(names[i - |nbs|])
    else if i - |nbs| - |names| < |lists| then ListLine(lists[i - |nbs| - |names|])
    else Line(0, ["!"])
  }

  /** Line i has the shape of its place in the listing, and names what stands there. */
  ghost predicate InPlace(line: Line, i: nat, nbs: seq<AppliedBinding>, names: seq<string>, lists: seq<string>) {
    && Printable(line)
    && (BindingShape(line.words) <==> i < |nbs|)
    && (MapShape(line.words) <==> |nbs| <= i < |nbs| + |names|)
    && (ListShape(line.words) <==> |nbs| + |names| <= i < |nbs| + |names| + |lists|)
    && (i < |nbs| ==> line.words[1] == nbs[i].neighbor && line.words[3] == nbs[i].routeMap)
    && (|nbs| <= i < |nbs| + |names| ==> line.words[1] == names[i - |nbs|])
    && (|nbs| + |names| <= i < |nbs| + |names| + |lists| ==> line.words[2] == lists[i - |nbs| - |names|])
  }

  lemma LineAtShape(i: nat, nbs: seq<AppliedBinding>, names: seq<string>, lists: seq<string>)
    requires forall b | b in nbs :: IsToken(b.neighbor) && IsToken(b.routeMap)
    requires forall n | n in names + lists :: IsToken(n)
    ensures InPlace(LineAt(i, nbs, names, lists), i, nbs, names, lists)
  {
    LiteralWords();
    assert forall j | 0 <= j < |names| :: names[j] in names + lists;
    assert forall j | 0 <= j < |lists| :: lists[j] in names + lists;
    if i < |nbs| {
      assert nbs[i] in nbs;
    }
  }

  /** Every configuration whose names are words can be shown. */
  lemma Showable(config: Config) returns (lines: seq<Line>)
    requires WordNames(config)
    ensures Shows(lines, config)
  {
    var keys := Enumerated(config.inbound.Keys);
    var names := Enumerated(config.maps.Keys);
    var lists := Enumerated(config.lists.Keys);
    var inbound := config.inbound;
    assert forall i | 0 <= i < |keys| :: keys[i] in inbound;
    var nbs := seq(|keys|, i requires 0 <= i < |keys| =>
      AppliedBinding(keys[i], if keys[i] in inbound then inbound[keys[i]] else ""));
    lines := seq(|nbs| + |names| + |lists| + 1, i requires 0 <= i => LineAt(i, nbs, names, lists));
    forall i | 0 <= i < |lines| ensures lines[i] == LineAt(i, nbs, names, lists) {
    }
    ListingShows(config, keys, nbs, names, lists, lines);
  }

  lemma ListingShows(config: Config, keys: seq<string>, nbs: seq<AppliedBinding>, names: seq<string>,
                     lists: seq<string>, lines: seq<Line>)
    requires WordNames(config) && |nbs| == |keys| && Distinct(keys)
    requires (forall n :: n in keys <==> n in config.inbound)
    requires forall n :: n in names <==> n in config.maps
    requires forall n :: n in lists <==> n in config.lists
    requires forall i | 0 <= i < |keys| ::
               keys[i] in config.inbound && nbs[i] == AppliedBinding(keys[i], config.inbound[keys[i]])
    requires |lines| == |nbs| + |names| + |lists| + 1
    requires forall i | 0 <= i < |lines| :: lines[i] == LineAt(i, nbs, names, lists)
    ensures Shows(lines, config)
  {
    forall i | 0 <= i < |lines| ensures InPlace(lines[i], i, nbs, names, lists) {
      LineAtShape(i, nbs, names, lists);
    }
    PlacedLines(config, keys, nbs, names, lists, lines);
    PlacedNames(config, keys, nbs, names, lists, lines);
  }

  lemma PlacedLines(config: Config, keys: seq<string>, nbs: seq<AppliedBinding>, names: seq<string>,
                    lists: seq<string>, lines: seq<Line>)
    requires |nbs| == |keys| && Distinct(keys)
    requires forall n :: n in names <==> n in config.maps
    requires forall n :: n in lists <==> n in config.lists
    requires forall i | 0 <= i < |keys| ::
               keys[i] in config.inbound && nbs[i] == AppliedBinding(keys[i], config.inbound[keys[i]])
    requires forall i | 0 <= i < |lines| :: InPlace(lines[i], i, nbs, names, lists)
    ensures LinesFit(lines, config)
  {
  }

  lemma PlacedNames(config: Config, keys: seq<string>, nbs: seq<AppliedBinding>, names: seq<string>,
                    lists: seq<string>, lines: seq<Line>)
    requires |nbs| == |keys| && |lines| == |nbs| + |names| + |lists| + 1
    requires (forall n :: n in keys <==> n in config.inbound)
    requires forall n :: n in names <==> n in config.maps
    requires forall n :: n in lists <==> n in config.lists
    requires forall i | 0 <= i < |keys| :: nbs[i].neighbor == keys[i]
    requires forall i | 0 <= i < |lines| :: InPlace(lines[i], i, nbs, names, lists)
    ensures NamesShown(lines, config)
  {
    forall nb | nb in config.inbound
      ensures exists i :: 0 <= i < |lines| && BindingShape(lines[i].words) && lines[i].words[1] == nb {
      var i :| 0 <= i < |keys| && keys[i] == nb;
      assert InPlace(lines[i], i, nbs, names, lists);
    }
    forall name | name in config.maps
      ensures exists i :: 0 <= i < |lines| && MapShape(lines[i].words) && lines[i].words[1] == name {
      var i :| 0 <= i < |names| && names[i] == name;
      assert InPlace(lines[|nbs| + i], |nbs| + i, nbs, names, lists);
    }
    forall list | list in config.lists
      ensures exists i :: 0 <= i < |lines| && ListShape(lines[i].words) && lines[i].words[2] == list {
      var i :| 0 <= i < |lists| && lists[i] == list;
      assert InPlace(lines[|nbs| + |names| + i], |nbs| + |names| + i, nbs, names, lists);
    }
  }

  lemma LiteralWords()
    ensures IsToken("!") && IsToken("neighbor") && IsToken("route-map") && IsToken("in")
    ensures IsToken("permit") && IsToken("65535") && IsToken("ip") && IsToken("prefix-list") && IsToken("seq")
  {
  }

  // ---------- parsing what was printed

  lemma PrintSplit(lines: seq<Line>)
    requires lines != [] && forall line | line in lines :: Printable(line)
    ensures Split(Print(lines), '\n') == PrintLines(lines)
  {
    forall text | text in PrintLines(lines) ensures '\n' !in text {
      var i :| 0 <= i < |lines| && PrintLines(lines)[i] == text;
      NoNewline(lines[i]);
    }
    SplitJoin(PrintLines(lines), '\n');
  }

  lemma NoNewline(line: Line)
    requires Printable(line)
    ensures '\n' !in PrintLine(line)
  {
    if line.words != [] {
      JoinNoNewline(line.words);
    }
  }

  lemma {:induction false} JoinNoNewline(words: seq<string>)
    requires words != [] && forall w | w in words :: IsToken(w)
    ensures '\n' !in Join(words, ' ')
  {
    assert IsToken(words[0]);
    assert IsSpace('\n');
    if |words| <= 1 {
    } else {
      JoinNoNewline(words[1..]);
    }
  }

  lemma {:induction false} TrimSpaces(n: nat)
    ensures TrimSpace(Spaces(n)) == "" && Fields("") == []
  {
    if n == 0 {
    } else {
      TrimSpaces(n - 1);
      assert Spaces(n)[1..] == Spaces(n - 1);
    }
  }

  lemma PrintedFields(line: Line)
    requires Printable(line)
    ensures Fields(TrimSpace(PrintLine(line))) == line.words
    ensures |line.words| >= 2 ==> (HasPrefix(TrimSpace(PrintLine(line)), "neighbor ") <==> line.words[0] == "neighbor")
  {
    if line.words == [] {
      TrimSpaces(line.indent);
      assert Spaces(line.indent) + "" == Spaces(line.indent);
    } else {
      ReadLine(line.indent, line.words);
      if |line.words| >= 2 {
        FirstWord(line.words[0], Join(line.words[1..], ' '), "neighbor");
        assert Join(line.words, ' ') == line.words[0] + " " + Join(line.words[1..], ' ');
      }
    }
  }

  lemma FirstWord(first: string, rest: string, word: string)
    requires IsToken(first) && IsToken(word)
    ensures HasPrefix(first + " " + rest, word + " ") <==> first == word
  {
    var s := first + " " + rest;
    assert IsSpace(' ') && s[|first|] == ' ';
    assert forall i | 0 <= i < |first| :: s[i] == first[i] && s[i] != ' ';
    assert forall i | 0 <= i < |word| :: (word + " ")[i] == word[i] && word[i] != ' ';
    if HasPrefix(s, word + " ") {
      assert forall i | 0 <= i <= |word| :: s[i] == s[..|word| + 1][i] == (word + " ")[i];
      assert s[|word|] == ' ';
      assert |word| == |first|;
      assert first == s[..|first|] && word == (word + " ")[..|word|];
    }
    if first == word {
      assert s[..|word| + 1] == word + " ";
    }
  }

  /** Each parser sees in a printed line exactly what the shape of its words says. */
  lemma PrintedLine(line: Line, isIP: string -> bool)
    requires Printable(line)
    ensures BindingOf(PrintLine(line), isIP) ==
              if BindingShape(line.words) && OwnedMap(line.words[3]) && isIP(line.words[1])
              then Some(AppliedBinding(line.words[1], line.words[3])) else None
    ensures MapOf(PrintLine(line)) ==
              if MapShape(line.words) && OwnedMap(line.words[1]) then Some(line.words[1]) else None
    ensures ListOf(PrintLine(line)) ==
              if ListShape(line.words) && OwnedList(line.words[2]) then Some(line.words[2]) else None
  {
    PrintedFields(line);
  }
}
