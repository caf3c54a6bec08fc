/** The few functions of Go's `strings` package that the running-config parsers use. */
module Text {

  predicate IsSpace(c: char) {
    c in {' ', '\t', '\n', '\r', '\U{000B}', '\U{000C}', '\U{0085}', '\U{00A0}'}
  }

  predicate IsDigit(c: char) {
    '0' <= c <= '9'
  }

  predicate HasPrefix(s: string, prefix: string) {
    |prefix| <= |s| && s[..|prefix|] == prefix
  }

  /** A field: a non-empty string without white space. */
  predicate IsToken(t: string) {
    t != "" && forall i | 0 <= i < |t| :: !IsSpace(t[i])
  }

  // ---------- splitting on a separator

  /** strings.Split with a one-character separator. */
  function Split(s: string, sep: char): (parts: seq<string>)
    ensures parts != []
  {
    if s == "" then [""] else
      var rest := Split(s[1..], sep);
      if s[0] == sep then [""] + rest else [[s[0]] + rest[0]] + rest[1..]
  }

  function Join(parts: seq<string>, sep: char): string
    requires parts != []
  {
    if |parts| == 1 then parts[0] else parts[0] + [sep] + Join(parts[1..], sep)
  }

  lemma {:induction false} SplitHead(head: string, sep: char, tail: string)
    requires sep !in head
    ensures Split(head, sep) == [head]
    ensures Split(head + [sep] + tail, sep) == [head] + Split(tail, sep)
  {
    var whole := head + [sep] + tail;
    if head == "" {
      assert whole[1..] == tail;
    } else {
      SplitHead(head[1..], sep, tail);
      assert whole[1..] == head[1..] + [sep] + tail;
      assert [head[0]] + head[1..] == head;
    }
  }

  /** Splitting undoes joining when no part contains the separator. */
  lemma {:induction false} SplitJoin(parts: seq<string>, sep: char)
    requires parts != [] && forall part | part in parts :: sep !in part
    ensures Split(Join(parts, sep), sep) == parts
  {
    if |parts| == 1 {
      SplitHead(parts[0], sep, "");
    } else {
      SplitJoin(parts[1..], sep);
      SplitHead(parts[0], sep, Join(parts[1..], sep));
    }
  }

  /** Joining undoes splitting, and no part of a split contains the separator. */
  lemma {:induction false} JoinSplit(s: string, sep: char)
    ensures Join(Split(s, sep), sep) == s
    ensures forall part | part in Split(s, sep) :: sep !in part
  {
    if s == "" {
    } else {
      JoinSplit(s[1..], sep);
      var rest := Split(s[1..], sep);
      if s[0] == sep {
        assert ([""] + rest)[1..] == rest;
        assert s == [sep] + s[1..];
      } else {
        var parts := [[s[0]] + rest[0]] + rest[1..];
        assert parts[1..] == rest[1..];
        assert s == [s[0]] + s[1..];
      }
    }
  }

  // ---------- splitting into fields

  function TrimLeft(s: string): string {
    if s != "" && IsSpace(s[0]) then TrimLeft(s[1..]) else s
  }

  function TrimRight(s: string): string {
    if s != "" && IsSpace(s[|s| - 1]) then TrimRight(s[..|s| - 1]) else s
  }

  /** strings.TrimSpace */
  function TrimSpace(s: string): string {
    TrimRight(TrimLeft(s))
  }

  /** The length of the leading run of non-space characters. */
  function TokenLength(s: string): (n: nat)
    ensures n <= |s|
    ensures s != "" && !IsSpace(s[0]) ==> n > 0
  {
    if s == "" || IsSpace(s[0]) then 0 else 1 + TokenLength(s[1..])
  }

  /** strings.Fields */
  function Fields(s: string): seq<string>
    decreases |s|
  {
    if s == "" then []
    else if IsSpace(s[0]) then Fields(s[1..])
    else [s[..TokenLength(s)]] + Fields(s[TokenLength(s)..])
  }

  function Spaces(n: nat): string {
    seq(n, _ => ' ')
  }

  lemma {:induction false} FieldsHead(t: string, rest: string)
    requires IsToken(t) && (rest == "" || IsSpace(rest[0]))
    ensures Fields(t + rest) == [t] + Fields(rest)
  {
    TokenLengthIs(t, rest);
    assert (t + rest)[..|t|] == t && (t + rest)[|t|..] == rest;
  }

  lemma {:induction false} TokenLengthIs(t: string, rest: string)
    requires (forall i | 0 <= i < |t| :: !IsSpace(t[i])) && (rest == "" || IsSpace(rest[0]))
    ensures TokenLength(t + rest) == |t|
  {
    if t == "" {
      assert t + rest == rest;
    } else {
      TokenLengthIs(t[1..], rest);
      assert (t + rest)[1..] == t[1..] + rest;
    }
  }

  lemma {:induction false} FieldsJoin(tokens: seq<string>)
    requires tokens != [] && forall t | t in tokens :: IsToken(t)
    ensures Fields(Join(tokens, ' ')) == tokens
  {
    var first := tokens[0];
    if |tokens| == 1 {
      FieldsHead(first, "");
      assert first + "" == first;
    } else {
      var rest := [' '] + Join(tokens[1..], ' ');
      FieldsHead(first, rest);
      FieldsJoin(tokens[1..]);
      assert rest[1..] == Join(tokens[1..], ' ');
      assert Join(tokens, ' ') == first + rest;
    }
  }

  lemma {:induction false} JoinEnds(tokens: seq<string>)
    requires tokens != [] && forall t | t in tokens :: IsToken(t)
    ensures var s := Join(tokens, ' '); s != "" && !IsSpace(s[0]) && !IsSpace(s[|s| - 1])
  {
    assert IsToken(tokens[0]);
    if |tokens| <= 1 {
    } else {
      JoinEnds(tokens[1..]);
    }
  }

  lemma {:induction false} TrimIndent(n: nat, s: string)
    requires s != "" && !IsSpace(s[0]) && !IsSpace(s[|s| - 1])
    ensures TrimSpace(Spaces(n) + s) == s
  {
    if n == 0 {
      assert Spaces(0) + s == s;
    } else {
      TrimIndent(n - 1, s);
      assert (Spaces(n) + s)[1..] == Spaces(n - 1) + s;
    }
  }

  /** An indented line of tokens reads back as those tokens, however deep the indentation. */
  lemma ReadLine(n: nat, tokens: seq<string>)
    requires tokens != [] && forall t | t in tokens :: IsToken(t)
    ensures TrimSpace(Spaces(n) + Join(tokens, ' ')) == Join(tokens, ' ')
    ensures Fields(TrimSpace(Spaces(n) + Join(tokens, ' '))) == tokens
  {
    JoinEnds(tokens);
    TrimIndent(n, Join(tokens, ' '));
    FieldsJoin(tokens);
  }
}
