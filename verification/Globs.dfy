/** Glob matching with backslash escapes, shared by the `wildcard` queries of
    Elasticsearch (`*`, `?`, `\`) and SQL's LIKE (`%`, `_`, `\`). */
module Globs {
  import opened Text

  datatype Syntax = Syntax(many: char, one: char, escape: char) {
    predicate Valid() {
      many != one && many != escape && one != escape
    }
  }

  const WILDCARD := Syntax('*', '?', '\\')
  const LIKE := Syntax('%', '_', '\\')

  datatype Token = Many | One | Literal(c: char)

  /** How the engine reads a pattern; a trailing escape stands for itself. */
  function Read(y: Syntax, p: string): seq<Token> {
    if p == [] then []
    else if p[0] == y.escape && |p| >= 2 then [Literal(p[1])] + Read(y, p[2..])
    else if p[0] == y.many then [Many] + Read(y, p[1..])
    else if p[0] == y.one then [One] + Read(y, p[1..])
    else [Literal(p[0])] + Read(y, p[1..])
  }

  predicate SameChar(foldCase: bool, a: char, b: char) {
    if foldCase then LowerChar(a) == LowerChar(b) else a == b
  }

  /** The backtracking matcher. */
  predicate Matches(foldCase: bool, ts: seq<Token>, s: string)
    decreases |ts| + |s|
  {
    if ts == [] then s == []
    else match ts[0]
      case Many => Matches(foldCase, ts[1..], s) || (s != [] && Matches(foldCase, ts, s[1..]))
      case One => s != [] && Matches(foldCase, ts[1..], s[1..])
      case Literal(c) => s != [] && SameChar(foldCase, c, s[0]) && Matches(foldCase, ts[1..], s[1..])
  }

  function Fold(foldCase: bool, s: string): (r: string)
    ensures |r| == |s|
  {
    if foldCase then Lower(s) else s
  }

  function Literals(t: string): seq<Token> {
    seq(|t|, i requires 0 <= i < |t| => Literal(t[i]))
  }

  /** The three replacements of `_escape_wildcard` and `_escape_likeWildcards`, in their order. */
  function Escape(y: Syntax, t: string): string {
    Replace(Replace(Replace(t, [y.escape], [y.escape, y.escape]),
                    [y.many], [y.escape, y.many]),
            [y.one], [y.escape, y.one])
  }

  function EscapeChar(y: Syntax, c: char): string {
    if c == y.escape || c == y.many || c == y.one then [y.escape, c] else [c]
  }

  /** One pass over the characters: the reference form of `Escape`. */
  function EscapeEach(y: Syntax, t: string): string {
    if t == [] then [] else EscapeChar(y, t[0]) + EscapeEach(y, t[1..])
  }

  lemma EscapeOne(y: Syntax, c: char)
    requires y.Valid()
    ensures Escape(y, [c]) == EscapeChar(y, c)
  {
    var a := Replace([c], [y.escape], [y.escape, y.escape]);
    ReplaceCharStep([c], y.escape, [y.escape, y.escape]);
    assert a == if c == y.escape then [c, c] else [c];
    var b := Replace(a, [y.many], [y.escape, y.many]);
    ReplaceCharStep(a, y.many, [y.escape, y.many]);
    ReplaceCharStep(a[1..], y.many, [y.escape, y.many]);
    assert b == if c == y.escape then [c, c] else if c == y.many then [y.escape, c] else [c];
    ReplaceCharStep(b, y.one, [y.escape, y.one]);
    ReplaceCharStep(b[1..], y.one, [y.escape, y.one]);
  }

  lemma EscapeConcat(y: Syntax, a: string, b: string)
    ensures Escape(y, a + b) == Escape(y, a) + Escape(y, b)
  {
    var e, m, o := [y.escape, y.escape], [y.escape, y.many], [y.escape, y.one];
    ReplaceCharConcat(a, b, y.escape, e);
    var a1, b1 := Replace(a, [y.escape], e), Replace(b, [y.escape], e);
    ReplaceCharConcat(a1, b1, y.many, m);
    ReplaceCharConcat(Replace(a1, [y.many], m), Replace(b1, [y.many], m), y.one, o);
  }

  /** The three sequential replacements equal one per-character map. */
  lemma {:induction false} EscapeIsPerCharacter(y: Syntax, t: string)
    requires y.Valid()
    ensures Escape(y, t) == EscapeEach(y, t)
  {
    if t != [] {
      assert t == [t[0]] + t[1..];
      EscapeConcat(y, [t[0]], t[1..]);
      EscapeOne(y, t[0]);
      EscapeIsPerCharacter(y, t[1..]);
    }
  }

  lemma ReadEscapedChar(y: Syntax, c: char, tail: string)
    requires y.Valid()
    ensures Read(y, EscapeChar(y, c) + tail) == [Literal(c)] + Read(y, tail)
  {
    var p := EscapeChar(y, c) + tail;
    if c == y.escape || c == y.many || c == y.one {
      assert p[0] == y.escape && p[1] == c && p[2..] == tail;
    } else {
      assert p[0] == c && p[1..] == tail;
    }
  }

  /** An escaped text is read back as its own characters, whatever follows. */
  lemma {:induction false} ReadEscaped(y: Syntax, t: string, rest: string)
    requires y.Valid()
    ensures Read(y, EscapeEach(y, t) + rest) == Literals(t) + Read(y, rest)
  {
    if t == [] {
      assert EscapeEach(y, t) + rest == rest;
    } else {
      var p := EscapeEach(y, t) + rest;
      var tail := EscapeEach(y, t[1..]) + rest;
      assert p == EscapeChar(y, t[0]) + tail;
      ReadEscapedChar(y, t[0], tail);
      ReadEscaped(y, t[1..], rest);
      assert Literals(t) == [Literal(t[0])] + Literals(t[1..]);
    }
  }

  /** Literals followed by `ts` consume exactly their own length. */
  lemma {:induction false} MatchLiterals(foldCase: bool, t: string, ts: seq<Token>, s: string)
    ensures Matches(foldCase, Literals(t) + ts, s) <==>
              |t| <= |s| && Fold(foldCase, s[..|t|]) == Fold(foldCase, t) && Matches(foldCase, ts, s[|t|..])
  {
    var all := Literals(t) + ts;
    if t == [] {
      assert all == ts;
    } else {
      assert all[0] == Literal(t[0]);
      assert all[1..] == Literals(t[1..]) + ts;
      if s != [] {
        MatchLiterals(foldCase, t[1..], ts, s[1..]);
        if |t| <= |s| {
          assert s[1..][|t| - 1..] == s[|t|..];
          assert s[1..][..|t| - 1] == s[..|t|][1..];
          FoldSplit(foldCase, s[..|t|], t);
        }
      }
    }
  }

  lemma FoldSplit(foldCase: bool, a: string, b: string)
    requires |a| == |b| > 0
    ensures Fold(foldCase, a) == Fold(foldCase, b) <==>
              SameChar(foldCase, b[0], a[0]) && Fold(foldCase, a[1..]) == Fold(foldCase, b[1..])
  {
    var x, y := Fold(foldCase, a), Fold(foldCase, b);
    assert Fold(foldCase, a[1..]) == x[1..];
    assert Fold(foldCase, b[1..]) == y[1..];
    assert x == [x[0]] + x[1..] && y == [y[0]] + y[1..];
  }

  /** `Many` may swallow any prefix. */
  lemma {:induction false} MatchMany(foldCase: bool, ts: seq<Token>, s: string)
    ensures Matches(foldCase, [Many] + ts, s) <==>
              exists k :: 0 <= k <= |s| && Matches(foldCase, ts, s[k..])
  {
    assert ([Many] + ts)[1..] == ts;
    assert s[0..] == s;
    if s != [] {
      MatchMany(foldCase, ts, s[1..]);
      if k :| 0 <= k <= |s[1..]| && Matches(foldCase, ts, s[1..][k..]) {
        assert s[1..][k..] == s[k + 1..];
      }
      if k :| 1 <= k <= |s| && Matches(foldCase, ts, s[k..]) {
        assert s[1..][k - 1..] == s[k..];
      }
    }
  }

  /** `many + escape(t)` accepts exactly the texts ending with `t`. */
  lemma EndsWithPattern(y: Syntax, foldCase: bool, t: string, s: string)
    requires y.Valid()
    ensures Matches(foldCase, Read(y, [y.many] + Escape(y, t)), s) <==>
              EndsWith(Fold(foldCase, s), Fold(foldCase, t))
  {
    EscapeIsPerCharacter(y, t);
    ReadEscaped(y, t, []);
    assert EscapeEach(y, t) + [] == EscapeEach(y, t);
    var p := [y.many] + Escape(y, t);
    assert p[1..] == EscapeEach(y, t);
    assert Read(y, p) == [Many] + (Literals(t) + []);
    MatchMany(foldCase, Literals(t) + [], s);
    forall k | 0 <= k <= |s|
      ensures Matches(foldCase, Literals(t) + [], s[k..]) <==>
                k == |s| - |t| && Fold(foldCase, s[k..]) == Fold(foldCase, t)
    {
      MatchLiterals(foldCase, t, [], s[k..]);
      if |t| <= |s[k..]| {
        if k == |s| - |t| {
          assert s[k..][..|t|] == s[k..];
        }
      }
    }
    if |t| <= |s| {
      var k := |s| - |t|;
      assert Fold(foldCase, s)[k..] == Fold(foldCase, s[k..]);
    }
  }

  /** `escape(t) + many` accepts exactly the texts starting with `t`. */
  lemma StartsWithPattern(y: Syntax, foldCase: bool, t: string, s: string)
    requires y.Valid()
    ensures Matches(foldCase, Read(y, Escape(y, t) + [y.many]), s) <==>
              StartsWith(Fold(foldCase, s), Fold(foldCase, t))
  {
    EscapeIsPerCharacter(y, t);
    ReadEscaped(y, t, [y.many]);
    assert Read(y, [y.many]) == [Many] by {
      assert Read(y, [y.many]) == [Many] + Read(y, []);
    }
    MatchLiterals(foldCase, t, [Many], s);
    if |t| <= |s| {
      ManyMatchesAll(foldCase, s[|t|..]);
      assert Fold(foldCase, s)[..|t|] == Fold(foldCase, s[..|t|]);
    }
  }

  lemma ManyMatchesAll(foldCase: bool, s: string)
    ensures Matches(foldCase, [Many], s)
  {
    MatchMany(foldCase, [], s);
    assert [Many] + [] == [Many];
    assert Matches(foldCase, [], s[|s|..]);
  }

  lemma LiteralsThenMany(foldCase: bool, t: string, s: string, k: nat)
    requires k <= |s|
    ensures Matches(foldCase, Literals(t) + [Many], s[k..]) <==> OccursAt(Fold(foldCase, t), Fold(foldCase, s), k)
  {
    MatchLiterals(foldCase, t, [Many], s[k..]);
    if k + |t| <= |s| {
      ManyMatchesAll(foldCase, s[k..][|t|..]);
      assert s[k..][..|t|] == s[k..k + |t|];
      assert Fold(foldCase, s)[k..k + |t|] == Fold(foldCase, s[k..k + |t|]);
    }
  }

  lemma ReadContains(y: Syntax, t: string)
    requires y.Valid()
    ensures Read(y, [y.many] + Escape(y, t) + [y.many]) == [Many] + (Literals(t) + [Many])
  {
    EscapeIsPerCharacter(y, t);
    ReadEscaped(y, t, [y.many]);
    var p := [y.many] + Escape(y, t) + [y.many];
    assert p[1..] == EscapeEach(y, t) + [y.many];
    assert Read(y, [y.many]) == [Many] + Read(y, []);
  }

  /** `many + escape(t) + many` accepts exactly the texts containing `t`. */
  lemma ContainsPattern(y: Syntax, foldCase: bool, t: string, s: string)
    requires y.Valid()
    ensures Matches(foldCase, Read(y, [y.many] + Escape(y, t) + [y.many]), s) <==>
              Occurs(Fold(foldCase, t), Fold(foldCase, s))
  {
    ReadContains(y, t);
    MatchMany(foldCase, Literals(t) + [Many], s);
    forall k | 0 <= k <= |s|
      ensures Matches(foldCase, Literals(t) + [Many], s[k..]) <==>
                OccursAt(Fold(foldCase, t), Fold(foldCase, s), k)
    {
      LiteralsThenMany(foldCase, t, s, k);
    }
  }
}
