/** Python's `str` operations, as far as the filters, the migration and the
    variable references use them. Characters fold one by one, as in ASCII. */
module Text {

  /** What `str.strip` and `\s` take for blanks, among the ASCII characters. */
  const WHITESPACE: set<char> :=
    {' ', '\t', '\n', '\U{0B}', '\U{0C}', '\r', '\U{1C}', '\U{1D}', '\U{1E}', '\U{1F}'}

  function LowerChar(c: char): char {
    if 'A' <= c <= 'Z' then (c as int + 32) as char else c
  }

  /** `str.lower` */
  function Lower(s: string): (r: string)
    ensures |r| == |s|
    ensures forall i :: 0 <= i < |s| ==> r[i] == LowerChar(s[i])
  {
    seq(|s|, i requires 0 <= i < |s| => LowerChar(s[i]))
  }

  lemma LowerIdempotent(s: string)
    ensures Lower(Lower(s)) == Lower(s)
  {
  }

  function StripLeft(s: string, cs: set<char>): (r: string)
    ensures |r| <= |s|
    ensures r == [] || r[0] !in cs
  {
    if s != [] && s[0] in cs then StripLeft(s[1..], cs) else s
  }

  function StripRight(s: string, cs: set<char>): (r: string)
    ensures r <= s
    ensures r == [] || r[|r| - 1] !in cs
    ensures s != [] && s[0] !in cs ==> r != [] && r[0] == s[0]
  {
    if s != [] && s[|s| - 1] in cs then StripRight(s[..|s| - 1], cs) else s
  }

  lemma {:induction false} StripLeftIsSuffix(s: string, cs: set<char>)
    ensures EndsWith(s, StripLeft(s, cs))
  {
    if s != [] && s[0] in cs {
      StripLeftIsSuffix(s[1..], cs);
    }
  }

  /** `str.strip(chars)` */
  function StripChars(s: string, cs: set<char>): string {
    StripRight(StripLeft(s, cs), cs)
  }

  /** `str.strip()` */
  function Strip(s: string): (r: string)
    ensures r == [] || (r[0] !in WHITESPACE && r[|r| - 1] !in WHITESPACE)
  {
    StripChars(s, WHITESPACE)
  }

  predicate Trimmed(s: string) {
    s == [] || (s[0] !in WHITESPACE && s[|s| - 1] !in WHITESPACE)
  }

  lemma TrimmedIsFixed(s: string)
    ensures Trimmed(s) <==> Strip(s) == s
  {
    if s != [] && s[0] !in WHITESPACE {
      assert StripLeft(s, WHITESPACE) == s;
    }
  }

  lemma LowerKeepsWhitespace(c: char)
    ensures LowerChar(c) in WHITESPACE <==> c in WHITESPACE
  {
  }

  lemma {:induction false} StripLeftLower(s: string)
    ensures StripLeft(Lower(s), WHITESPACE) == Lower(StripLeft(s, WHITESPACE))
  {
    if s == [] {
    } else {
      LowerKeepsWhitespace(s[0]);
      if s[0] in WHITESPACE {
        StripLeftLower(s[1..]);
        assert Lower(s)[1..] == Lower(s[1..]);
      } else {
        assert StripLeft(s, WHITESPACE) == s;
      }
    }
  }

  lemma {:induction false} StripRightLower(s: string)
    ensures StripRight(Lower(s), WHITESPACE) == Lower(StripRight(s, WHITESPACE))
  {
    if s == [] {
    } else {
      LowerKeepsWhitespace(s[|s| - 1]);
      if s[|s| - 1] in WHITESPACE {
        StripRightLower(s[..|s| - 1]);
        assert Lower(s)[..|s| - 1] == Lower(s[..|s| - 1]);
      } else {
        assert StripRight(s, WHITESPACE) == s;
      }
    }
  }

  lemma StripLower(s: string)
    ensures Strip(Lower(s)) == Lower(Strip(s))
  {
    StripLeftLower(s);
    StripRightLower(StripLeft(s, WHITESPACE));
  }

  predicate StartsWith(s: string, t: string) {
    t <= s
  }

  predicate EndsWith(s: string, t: string) {
    |t| <= |s| && s[|s| - |t|..] == t
  }

  predicate OccursAt(t: string, s: string, i: nat) {
    i + |t| <= |s| && s[i..i + |t|] == t
  }

  /** `t in s`, which is `s.find(t) >= 0` */
  predicate Occurs(t: string, s: string) {
    exists i :: 0 <= i <= |s| - |t| && OccursAt(t, s, i)
  }

  lemma StripOccurs(s: string)
    ensures Occurs(Strip(s), s)
  {
    var l := StripLeft(s, WHITESPACE);
    var r := Strip(s);
    StripLeftIsSuffix(s, WHITESPACE);
    assert OccursAt(r, s, |s| - |l|);
  }

  lemma OccursTransitive(a: string, b: string, c: string)
    requires Occurs(a, b) && Occurs(b, c)
    ensures Occurs(a, c)
  {
    var i :| 0 <= i <= |b| - |a| && OccursAt(a, b, i);
    var j :| 0 <= j <= |c| - |b| && OccursAt(b, c, j);
    assert c[j..j + |b|] == b;
    forall k | 0 <= k < |a|
      ensures c[j + i + k] == a[k]
    {
      assert a[k] == b[i..i + |a|][k] == b[i + k] == c[j..j + |b|][i + k];
    }
    assert c[j + i..j + i + |a|] == a;
    assert OccursAt(a, c, j + i);
  }

  lemma LowerOccurs(a: string, b: string)
    requires Occurs(a, b)
    ensures Occurs(Lower(a), Lower(b))
  {
    var i :| 0 <= i <= |b| - |a| && OccursAt(a, b, i);
    assert Lower(b)[i..i + |a|] == Lower(b[i..i + |a|]);
    assert OccursAt(Lower(a), Lower(b), i);
  }

  function Interleave(s: string, t: string): string {
    if s == [] then t else t + [s[0]] + Interleave(s[1..], t)
  }

  /** `str.replace(old, new)`: leftmost, non-overlapping */
  function Replace(s: string, old_: string, new_: string): string
    decreases |s|
  {
    if old_ == [] then Interleave(s, new_)
    else if |s| < |old_| then s
    else if old_ <= s then new_ + Replace(s[|old_|..], old_, new_)
    else [s[0]] + Replace(s[1..], old_, new_)
  }

  lemma {:induction false} ReplaceBySelf(s: string, t: string)
    ensures Replace(s, t, t) == s
    decreases |s|
  {
    if t == [] {
      InterleaveNothing(s);
    } else if |s| >= |t| {
      if t <= s {
        ReplaceBySelf(s[|t|..], t);
      } else {
        ReplaceBySelf(s[1..], t);
      }
    }
  }

  lemma {:induction false} InterleaveNothing(s: string)
    ensures Interleave(s, []) == s
  {
    if s != [] {
      InterleaveNothing(s[1..]);
    }
  }

  /** Replacing a single character works character by character. */
  lemma ReplaceCharStep(s: string, c: char, new_: string)
    ensures Replace([], [c], new_) == []
    ensures s != [] ==>
              Replace(s, [c], new_) == (if s[0] == c then new_ else [s[0]]) + Replace(s[1..], [c], new_)
  {
    if s != [] {
      assert [c] <= s <==> s[0] == c;
    }
  }

  /** Extending both sides of a split by the same front. */
  lemma Chain<T>(whole: seq<T>, front: seq<T>, wholeRest: seq<T>, left: seq<T>, leftRest: seq<T>, right: seq<T>)
    requires whole == front + wholeRest && wholeRest == leftRest + right && left == front + leftRest
    ensures whole == left + right
  {
  }

  lemma ReplaceCharHead(a: string, b: string, c: char, new_: string)
    requires a != []
    ensures Replace(a + b, [c], new_) == (if a[0] == c then new_ else [a[0]]) + Replace(a[1..] + b, [c], new_)
  {
    ReplaceCharStep(a + b, c, new_);
    assert (a + b)[0] == a[0] && (a + b)[1..] == a[1..] + b;
  }

  lemma {:induction false} ReplaceCharConcat(a: string, b: string, c: char, new_: string)
    ensures Replace(a + b, [c], new_) == Replace(a, [c], new_) + Replace(b, [c], new_)
  {
    if a == [] {
      ReplaceCharStep(a, c, new_);
      assert a + b == b;
    } else {
      ReplaceCharHead(a, b, c, new_);
      ReplaceCharStep(a, c, new_);
      ReplaceCharConcat(a[1..], b, c, new_);
      Chain(Replace(a + b, [c], new_), if a[0] == c then new_ else [a[0]], Replace(a[1..] + b, [c], new_),
            Replace(a, [c], new_), Replace(a[1..], [c], new_), Replace(b, [c], new_));
    }
  }

  /** `sep.join(parts)` */
  function Join(parts: seq<string>, sep: string): string {
    if parts == [] then ""
    else if |parts| == 1 then parts[0]
    else parts[0] + sep + Join(parts[1..], sep)
  }

  /** `s.split(sep)` for a one-character separator: never empty */
  function Split(s: string, sep: char): (r: seq<string>)
    ensures |r| >= 1
  {
    if s == [] then [""]
    else
      var rest := Split(s[1..], sep);
      if s[0] == sep then [""] + rest else [[s[0]] + rest[0]] + rest[1..]
  }

  /** Capital letters become the small letters in the same place of the alphabet, everything else stays. */
  lemma LowerInFull(c: char)
    ensures 'A' <= c <= 'Z' ==> 'a' <= LowerChar(c) <= 'z' && LowerChar(c) as int - 'a' as int == c as int - 'A' as int
    ensures !('A' <= c <= 'Z') ==> LowerChar(c) == c
  {
  }

  predicate Only(s: string, cs: set<char>) {
    forall i :: 0 <= i < |s| ==> s[i] in cs
  }

  lemma {:induction false} StripLeftIsExact(s: string, cs: set<char>) returns (a: string)
    ensures Only(a, cs) && s == a + StripLeft(s, cs)
  {
    a := [];
    if s != [] && s[0] in cs {
      var b := StripLeftIsExact(s[1..], cs);
      a := [s[0]] + b;
      assert s == [s[0]] + s[1..];
    }
  }

  lemma {:induction false} StripRightIsExact(s: string, cs: set<char>) returns (b: string)
    ensures Only(b, cs) && s == StripRight(s, cs) + b
  {
    b := [];
    if s != [] && s[|s| - 1] in cs {
      var a := StripRightIsExact(s[..|s| - 1], cs);
      b := a + [s[|s| - 1]];
      assert s == s[..|s| - 1] + [s[|s| - 1]];
    }
  }

  /** Stripping takes characters of the set off both ends, and nothing else. */
  lemma StripIsExact(s: string, cs: set<char>) returns (a: string, b: string)
    ensures Only(a, cs) && Only(b, cs) && s == a + StripChars(s, cs) + b
  {
    a := StripLeftIsExact(s, cs);
    b := StripRightIsExact(StripLeft(s, cs), cs);
    assert a + (StripChars(s, cs) + b) == a + StripChars(s, cs) + b;
  }

  lemma {:induction false} LeftOff(a: string, m: string, cs: set<char>)
    requires Only(a, cs) && m != [] && m[0] !in cs
    ensures StripLeft(a + m, cs) == m
  {
    if a == [] {
      assert a + m == m;
    } else {
      assert (a + m)[1..] == a[1..] + m;
      LeftOff(a[1..], m, cs);
    }
  }

  lemma {:induction false} RightOff(m: string, b: string, cs: set<char>)
    requires Only(b, cs) && m != [] && m[|m| - 1] !in cs
    ensures StripRight(m + b, cs) == m
  {
    if b == [] {
      assert m + b == m;
    } else {
      assert (m + b)[..|m + b| - 1] == m + b[..|b| - 1];
      RightOff(m, b[..|b| - 1], cs);
    }
  }

  /** And it takes off all of them. */
  lemma StripsOff(s: string, a: string, m: string, b: string, cs: set<char>)
    requires s == a + (m + b) && Only(a, cs) && Only(b, cs) && m != [] && m[0] !in cs && m[|m| - 1] !in cs
    ensures StripChars(s, cs) == m
  {
    LeftOff(a, m + b, cs);
    RightOff(m, b, cs);
  }

  /** The parts hold no separator, and joined by it they are the text. */
  lemma {:induction false} SplitIsExact(s: string, sep: char)
    ensures Join(Split(s, sep), [sep]) == s
    ensures forall p :: p in Split(s, sep) ==> sep !in p
  {
    if s != [] {
      var rest, parts := Split(s[1..], sep), Split(s, sep);
      SplitIsExact(s[1..], sep);
      if s[0] == sep {
        assert parts[1..] == rest;
      } else {
        JoinFirst([s[0]] + rest[0], rest[1..], [sep]);
        JoinFirst(rest[0], rest[1..], [sep]);
        assert [rest[0]] + rest[1..] == rest;
      }
    }
  }

  lemma JoinFirst(p: string, more: seq<string>, sep: string)
    ensures Join([p] + more, sep) == if more == [] then p else p + (sep + Join(more, sep))
  {
    assert ([p] + more)[1..] == more;
  }

  /** Python's `a < b` on strings: character by character. */
  predicate Less(a: string, b: string) {
    b != [] && (a == [] || a[0] < b[0] || (a[0] == b[0] && Less(a[1..], b[1..])))
  }

  /** The order is total. */
  lemma {:induction false} LessIsTotal(a: string, b: string)
    ensures Less(a, b) || a == b || Less(b, a)
    ensures !(Less(a, b) && Less(b, a)) && !Less(a, a)
  {
    if a != [] {
      LessIsTotal(a[1..], a[1..]);
    }
    if a != [] && b != [] {
      LessIsTotal(a[1..], b[1..]);
      assert a == [a[0]] + a[1..] && b == [b[0]] + b[1..];
    }
  }
}
