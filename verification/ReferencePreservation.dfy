/** Migrating a template together with the canvas it refers to keeps its value, exactly
    when the migration renames nothing that the runtime does not take for a reference. */
module ReferencePreservation {
  import opened PyValues
  import opened Text
  import opened References
  import opened ReferenceScan
  import opened Templates

  /** What the renamings of the migration keep of an id. */
  ghost predicate IdRenaming(f: string -> string) {
    && IdPreserving(f)
    && forall x :: x != [] && All(x, IdChar) ==>
         && (All(f(x), RuntimeIdChar) <==> All(x, RuntimeIdChar))
         && (f(x) != x ==> f(x)[0] != x[0])
  }

  /** The runtime pattern matches this reference, too: no gaps, no hyphen in the id. */
  ghost predicate RuntimeShaped(r: Ref) {
    r.gap == [] && r.tailGap == [] && All(r.id, RuntimeIdChar)
  }

  /** Every reference the migration renames is one the runtime resolves. */
  ghost predicate Canonical(f: string -> string, ps: seq<Piece>) {
    forall i :: 0 <= i < |ps| && ps[i].Reference? ==> f(ps[i].ref.id) == ps[i].ref.id || RuntimeShaped(ps[i].ref)
  }

  /** `st2` holds the outputs of `st` under the renamed ids. */
  ghost predicate ImageStore(f: string -> string, st: Store, st2: Store) {
    && st2.globals == st.globals
    && forall id :: id in st.outputs ==> f(id) in st2.outputs && st2.outputs[f(id)] == st.outputs[id]
  }

  // ---- Scanning and brace-free text ----

  function Chars(a: string): seq<Piece> {
    seq(|a|, i requires 0 <= i < |a| => Char(a[i]))
  }

  lemma ScanStep(t: string)
    requires t != [] && MatchRef(t).NoMatch?
    ensures Scan(t) == [Char(t[0])] + Scan(t[1..])
  {
  }

  lemma CharsStep(a: string)
    requires a != []
    ensures Chars(a) == [Char(a[0])] + Chars(a[1..])
  {
  }

  lemma NoChars(ps: seq<Piece>)
    ensures Chars([]) + ps == ps
  {
  }

  lemma ScanPlainHead(a: string, z: string)
    requires a != [] && NotOpen(a[0])
    ensures Scan(a + z) == [Char(a[0])] + Scan(a[1..] + z)
  {
    var t := a + z;
    assert t[0] == a[0] && t[1..] == a[1..] + z;
    NoMatchWithoutBrace(t);
    ScanStep(t);
  }

  lemma {:induction false} ScanPlain(a: string, z: string)
    requires All(a, NotOpen)
    ensures Scan(a + z) == Chars(a) + Scan(z)
  {
    if a == [] {
      assert a + z == z;
      NoChars(Scan(z));
    } else {
      ScanPlainHead(a, z);
      ScanPlain(a[1..], z);
      CharsStep(a);
      Chain(Scan(a + z), [Char(a[0])], Scan(a[1..] + z), Chars(a), Chars(a[1..]), Scan(z));
    }
  }

  lemma Behead(a: string, rest: string)
    requires a != []
    ensures (a + rest)[0] == a[0] && (a + rest)[1..] == a[1..] + rest && [a[0]] + a[1..] == a
  {
  }

  lemma ScanBraceHead(b: string, w: string)
    requires b != [] && MatchRef(b + w).NoMatch?
    ensures Scan(b + w) == [Char(b[0])] + Scan(b[1..] + w)
  {
    Behead(b, w);
    ScanStep(b + w);
  }

  lemma {:induction false} ScanBraces(b: string, w: string)
    requires All(b, Open) && Stops(w, Open) && (b == [] || MatchRef(b + w).NoMatch?)
    ensures Scan(b + w) == Chars(b) + Scan(w)
  {
    if b == [] {
      assert b + w == w;
      NoChars(Scan(w));
    } else {
      ScanBraceHead(b, w);
      FewerBracesFail(b, w);
      ScanBraces(b[1..], w);
      CharsStep(b);
      Chain(Scan(b + w), [Char(b[0])], Scan(b[1..] + w), Chars(b), Chars(b[1..]), Scan(w));
    }
  }

  lemma CanonicalSkips(f: string -> string, a: string, ps: seq<Piece>)
    ensures Canonical(f, Chars(a) + ps) <==> Canonical(f, ps)
  {
    var all := Chars(a) + ps;
    assert forall i :: |a| <= i < |all| ==> all[i] == ps[i - |a|];
    assert forall i :: 0 <= i < |ps| ==> ps[i] == all[i + |a|];
  }

  lemma CanonicalHead(f: string -> string, p: Piece, ps: seq<Piece>)
    ensures Canonical(f, [p] + ps) <==>
              (p.Reference? ==> f(p.ref.id) == p.ref.id || RuntimeShaped(p.ref)) && Canonical(f, ps)
  {
    var all := [p] + ps;
    assert all[0] == p;
    assert forall i :: 1 <= i < |all| ==> all[i] == ps[i - 1];
    assert forall i :: 0 <= i < |ps| ==> ps[i] == all[i + 1];
  }

  // ---- What follows a reference ----

  /** The text left behind a runtime reference closed by `closing`. */
  function After(closing: string, rest: string): string {
    if |closing| == 1 then SkipTrail(rest) else rest
  }

  lemma SkipTrailSplits(t: string) returns (a: string)
    ensures t == a + SkipTrail(t) && All(a, NotOpen)
  {
    var s := Take(t, Blank);
    var c := Take(s.tail, Close);
    a := s.head + c.head;
    assert t == a + c.tail;
  }

  /** Blanks and braces behind a reference are copied by the migration. */
  lemma SkipTrailSubstituted(f: string -> string, t: string)
    requires IdPreserving(f)
    ensures SkipTrail(Substitute(f, t)) == Substitute(f, SkipTrail(t))
    ensures Canonical(f, Scan(SkipTrail(t))) <==> Canonical(f, Scan(t))
  {
    var s := Take(t, Blank);
    var c := Take(s.tail, Close);
    SubstitutePlain(f, s.head, s.tail);
    SubstituteStops(f, s.tail, Blank);
    TakeConcat(s.head, Substitute(f, s.tail), Blank);
    SubstitutePlain(f, c.head, c.tail);
    SubstituteStops(f, c.tail, Close);
    TakeConcat(c.head, Substitute(f, c.tail), Close);
    var a := SkipTrailSplits(t);
    ScanPlain(a, SkipTrail(t));
    CanonicalSkips(f, a, Scan(SkipTrail(t)));
  }

  lemma AfterSubstituted(f: string -> string, closing: string, rest: string)
    requires IdPreserving(f)
    ensures After(closing, Substitute(f, rest)) == Substitute(f, After(closing, rest))
    ensures Canonical(f, Scan(After(closing, rest))) <==> Canonical(f, Scan(rest))
  {
    SkipTrailSubstituted(f, rest);
  }

  lemma SkipAfterBrace(closing: string, rest: string)
    requires closing != [] && All(closing, Close) && Stops(rest, Close)
    ensures SkipTrail((closing + rest)[1..]) == After(closing, rest)
  {
    var t := (closing + rest)[1..];
    assert t == closing[1..] + rest;
    if |closing| == 1 {
      assert t == rest;
    } else {
      assert t[0] == '}';
      TakeConcat([], t, Blank);
      assert [] + t == t;
      TakeConcat(closing[1..], rest, Close);
    }
  }

  // ---- A reference the migration matches, seen by the runtime ----

  /** Read behind its braces, such a reference is a runtime match exactly when it is runtime-shaped. */
  lemma BodyOfWritten(r: Ref, rest: string)
    requires WellFormed(r) && Stops(rest, Close)
    ensures RefBody(r.gap + (r.id + WriteTail(r, rest))) ==
              if RuntimeShaped(r) then OutputVar(r.id, r.variable, After(r.closing, rest)) else NoVar
  {
    var tail := WriteTail(r, rest);
    var x := r.gap + (r.id + tail);
    if r.gap != [] {
      assert x[0] == r.gap[0];
      NoBodyAtSpace(x);
    } else {
      assert x == r.id + tail;
      NoGlobalBeforeAt(r.id, tail);
      if All(r.id, RuntimeIdChar) {
        TakeConcat(r.id, tail, RuntimeIdChar);
        OutputOfWritten(r, rest);
      } else {
        HyphenStops(r.id, tail);
      }
    }
  }

  lemma NoBodyAtSpace(x: string)
    requires x != [] && Space(x[0])
    ensures RefBody(x).NoVar?
  {
    TakeConcat([], x, RuntimeIdChar);
    assert [] + x == x;
    if |x| >= 4 {
      assert Lower(x[..4])[0] == LowerChar(x[0]);
    }
  }

  /** `sys.` and `env.` have a dot where an id has none. */
  lemma NoGlobalBeforeAt(id: string, tail: string)
    requires id != [] && All(id, IdChar) && tail != [] && tail[0] == '@'
    ensures GlobalRef(id + tail).NoVar?
  {
    var x := id + tail;
    if |x| >= 4 {
      var head := Lower(x[..4]);
      assert head[0] == LowerChar(x[0]) && head[1] == LowerChar(x[1]);
      assert head[2] == LowerChar(x[2]) && head[3] == LowerChar(x[3]);
      if |id| >= 4 {
        assert x[3] == id[3] && IdChar(id[3]);
      } else {
        assert x[|id|] == '@';
        assert LowerChar('@') == '@';
      }
    }
  }

  lemma TakeEverything(t: string, p: char -> bool)
    ensures Take(t, p).tail == [] ==> All(t, p)
  {
    assert Take(t, p).head + [] == Take(t, p).head;
  }

  lemma HyphenStops(id: string, tail: string)
    requires id != [] && All(id, IdChar) && !All(id, RuntimeIdChar)
    ensures OutputRef(id + tail).NoVar?
  {
    var c := Take(id, RuntimeIdChar);
    TakeEverything(id, RuntimeIdChar);
    assert id[|c.head|] == c.tail[0];
    assert c.tail[0] == '-';
    assert id + tail == c.head + (c.tail + tail);
    TakeConcat(c.head, c.tail + tail, RuntimeIdChar);
  }

  lemma OutputOfWritten(r: Ref, rest: string)
    requires WellFormed(r) && Stops(rest, Close) && All(r.id, RuntimeIdChar)
    ensures OutputRef(r.id + WriteTail(r, rest)) ==
              if r.tailGap == [] then OutputVar(r.id, r.variable, After(r.closing, rest)) else NoVar
  {
    var tail := WriteTail(r, rest);
    TakeConcat(r.id, tail, RuntimeIdChar);
    var end := r.tailGap + (r.closing + rest);
    assert tail[1..] == r.variable + end;
    VariableStops(r, rest);
    TakeConcat(r.variable, end, VarChar);
    if r.tailGap == [] {
      assert end == r.closing + rest;
      assert end[0] == r.closing[0];
      SkipAfterBrace(r.closing, rest);
    } else {
      assert end[0] == r.tailGap[0];
    }
  }

  lemma MatchVarOfWritten(r: Ref, rest: string)
    requires WellFormed(r) && Stops(rest, Close)
    ensures MatchVar(Write(r, rest)) ==
              if RuntimeShaped(r) then OutputVar(r.id, r.variable, After(r.closing, rest)) else NoVar
  {
    var w := r.gap + (r.id + WriteTail(r, rest));
    BracesStop(r, WriteTail(r, rest));
    TakeConcat(r.braces, w, Open);
    BodyOfWritten(r, rest);
    NoBlankBrace(r, rest);
  }

  /** Behind the blanks of a gap there is no second brace. */
  lemma NoBlankBrace(r: Ref, rest: string)
    requires WellFormed(r)
    ensures var p := Take(r.gap + (r.id + WriteTail(r, rest)), Blank);
            && (p.head == [] || (r.gap != [] && p.tail != [] && p.tail[0] != '{'))
  {
    var w := r.gap + (r.id + WriteTail(r, rest));
    WriteIsBody(r, rest);
    BodyIsPlain(r);
    var p := Take(w, Blank);
    var g := Take(r.gap, Blank);
    var more := g.tail + (r.id + WriteTail(r, rest));
    assert w == g.head + more;
    assert more[0] == if g.tail != [] then g.tail[0] else r.id[0];
    if g.tail != [] {
      assert r.gap[|g.head|] == g.tail[0];
    }
    TakeConcat(g.head, more, Blank);
  }

  /** Conversely, an output reference behind a brace is a match of the migration. */
  lemma OutputRefIsMatched(b: string, x: string) returns (r: Ref, rest: string)
    requires b != [] && All(b, Open) && OutputRef(x).OutputVar?
    ensures WellFormed(r) && Stops(rest, Close) && r.braces == b && RuntimeShaped(r)
    ensures b + x == Write(r, rest) && MatchRef(b + x) == Match(r, rest)
    ensures OutputRef(x) == OutputVar(r.id, r.variable, After(r.closing, rest))
  {
    var i := Take(x, RuntimeIdChar);
    var v := Take(i.tail[1..], VarChar);
    var c := Take(v.tail, Close);
    r := Ref(b, [], i.head, v.head, [], c.head);
    rest := c.tail;
    assert forall k :: 0 <= k < |i.head| ==> RuntimeIdChar(i.head[k]) ==> IdChar(i.head[k]);
    assert v.tail == c.head + rest;
    assert c.head != [];
    assert i.tail == ['@'] + i.tail[1..];
    assert WriteTail(r, rest) == i.tail by {
      assert r.tailGap + (r.closing + rest) == v.tail;
    }
    assert [] + (r.id + i.tail) == x;
    assert b + x == Write(r, rest);
    WrittenIsMatched(r, rest);
    SkipAfterBrace(c.head, rest);
  }

  // ---- Global references ----

  predicate GlobalKey(key: string) {
    |key| > 4 && (Lower(key[..4]) == "sys." || Lower(key[..4]) == "env.") && All(key[4..], GlobalChar)
  }

  lemma GlobalOfWritten(key: string, tl: string)
    requires GlobalKey(key)
    ensures GlobalRef(key + (['}'] + tl)) == GlobalVar(key, SkipTrail(tl))
  {
    var x, end := key + (['}'] + tl), ['}'] + tl;
    assert x[..4] == key[..4];
    assert x[4..] == key[4..] + end;
    TakeConcat(key[4..], end, GlobalChar);
    assert end[1..] == tl && key[..4] + key[4..] == key;
  }

  lemma GlobalIsWritten(x: string) returns (key: string, tl: string)
    requires GlobalRef(x).GlobalVar?
    ensures GlobalKey(key) && x == key + (['}'] + tl) && GlobalRef(x) == GlobalVar(key, SkipTrail(tl))
  {
    var s := Take(x[4..], GlobalChar);
    key, tl := x[..4] + s.head, s.tail[1..];
    GlobalPieces(x, s.head, s.tail);
  }

  lemma GlobalPieces(x: string, head: string, tail: string)
    requires |x| >= 4 && x[4..] == head + tail && tail != [] && tail[0] == '}'
    ensures var key := x[..4] + head; key[..4] == x[..4] && key[4..] == head && x == key + (['}'] + tail[1..])
  {
    assert tail == ['}'] + tail[1..];
    assert x == x[..4] + x[4..];
  }

  lemma GlobalKeyIsPlain(key: string)
    requires GlobalKey(key)
    ensures All(key + ['}'], NotOpen)
  {
    var head := Lower(key[..4]);
    forall i | 0 <= i < |key|
      ensures NotOpen(key[i])
    {
      if i < 4 {
        assert head[i] == LowerChar(key[i]);
        assert LowerChar('{') == '{';
      } else {
        assert key[i] == key[4..][i - 4];
      }
    }
  }

  /** What the migration makes of a runtime match. */
  function MapVar(f: string -> string, v: VarMatch): VarMatch {
    match v
    case NoVar => NoVar
    case OutputVar(id, name, rest) => OutputVar(f(id), name, Substitute(f, rest))
    case GlobalVar(key, rest) => GlobalVar(key, Substitute(f, rest))
  }

  lemma Closed(key: string, tl: string)
    ensures key + (['}'] + tl) == (key + ['}']) + tl
  {
  }

  /** The migration copies a global reference. */
  lemma GlobalIsCopied(f: string -> string, key: string, tl: string)
    requires IdPreserving(f) && GlobalKey(key)
    ensures Substitute(f, key + (['}'] + tl)) == key + (['}'] + Substitute(f, tl))
    ensures Canonical(f, Scan(key + (['}'] + tl))) <==> Canonical(f, Scan(tl))
  {
    var k := key + ['}'];
    GlobalKeyIsPlain(key);
    Closed(key, tl);
    Closed(key, Substitute(f, tl));
    SubstitutePlain(f, k, tl);
    ScanPlain(k, tl);
    CanonicalSkips(f, k, Scan(tl));
  }

  lemma GlobalWasWritten(f: string -> string, x: string, key: string, tl: string) returns (y: string)
    requires IdPreserving(f) && GlobalKey(key) && Substitute(f, x) == key + (['}'] + tl)
    ensures x == key + (['}'] + y)
  {
    GlobalKeyIsPlain(key);
    Closed(key, tl);
    y := PlainWasThere(f, x, key + ['}'], tl);
    Closed(key, y);
  }

  lemma GlobalStays(f: string -> string, x: string)
    requires IdPreserving(f) && GlobalRef(x).GlobalVar?
    ensures GlobalRef(Substitute(f, x)) == MapVar(f, GlobalRef(x))
    ensures Canonical(f, Scan(x)) <==> Canonical(f, Scan(GlobalRef(x).rest))
  {
    var key, tl := GlobalIsWritten(x);
    GlobalIsCopied(f, key, tl);
    GlobalOfWritten(key, Substitute(f, tl));
    SkipTrailSubstituted(f, tl);
  }

  lemma GlobalWasThere(f: string -> string, x: string)
    requires IdPreserving(f) && GlobalRef(Substitute(f, x)).GlobalVar?
    ensures GlobalRef(x).GlobalVar?
  {
    var key, tl := GlobalIsWritten(Substitute(f, x));
    var y := GlobalWasWritten(f, x, key, tl);
    GlobalOfWritten(key, y);
  }

  lemma GlobalSubstituted(f: string -> string, x: string)
    requires IdPreserving(f)
    ensures GlobalRef(Substitute(f, x)) == MapVar(f, GlobalRef(x))
    ensures GlobalRef(x).GlobalVar? ==> (Canonical(f, Scan(x)) <==> Canonical(f, Scan(GlobalRef(x).rest)))
  {
    if GlobalRef(x).GlobalVar? {
      GlobalStays(f, x);
    } else if GlobalRef(Substitute(f, x)).GlobalVar? {
      GlobalWasThere(f, x);
    }
  }

  // ---- Unmatched heads ----

  lemma OutputNeedsId(x: string)
    requires x == [] || !RuntimeIdChar(x[0])
    ensures OutputRef(x).NoVar?
  {
    TakeConcat([], x, RuntimeIdChar);
    assert [] + x == x;
  }

  /** Behind braces the migration does not match, the runtime finds no output reference. */
  lemma NoOutputBehind(b: string, x: string)
    requires b != [] && All(b, Open) && MatchRef(b + x).NoMatch?
    ensures OutputRef(x).NoVar?
  {
    if OutputRef(x).OutputVar? {
      var r, rest := OutputRefIsMatched(b, x);
      assert false;
    }
  }

  lemma BracesStayUnmatched(f: string -> string, b: string, x: string)
    requires IdPreserving(f) && All(b, Open) && MatchRef(b + x).NoMatch? && Stops(x, Open)
    ensures MatchRef(b + Substitute(f, x)).NoMatch?
  {
    SubstituteBraces(f, b, x);
    NoMatchIsKept(f, b + x);
  }

  /** Nor does it find one behind them once the migration has rewritten the text. */
  lemma NoOutputAfter(f: string -> string, b: string, x: string)
    requires IdPreserving(f) && b != [] && All(b, Open) && MatchRef(b + x).NoMatch?
    ensures OutputRef(Substitute(f, x)).NoVar?
  {
    if Stops(x, Open) {
      BracesStayUnmatched(f, b, x);
      NoOutputBehind(b, Substitute(f, x));
    } else {
      SubstituteHead(f, x);
      OutputNeedsId(Substitute(f, x));
    }
  }

  lemma BodySubstituted(f: string -> string, b: string, x: string)
    requires IdPreserving(f) && b != [] && All(b, Open) && MatchRef(b + x).NoMatch?
    ensures RefBody(Substitute(f, x)) == MapVar(f, RefBody(x))
    ensures !RefBody(x).NoVar? ==> (Canonical(f, Scan(x)) <==> Canonical(f, Scan(RefBody(x).rest)))
  {
    NoOutputBehind(b, x);
    NoOutputAfter(f, b, x);
    GlobalSubstituted(f, x);
  }

  lemma UnmatchedBrace(f: string -> string, x: string)
    requires IdRenaming(f) && x != [] && x[0] == '{' && MatchRef(x).NoMatch?
    ensures Substitute(f, x) == [x[0]] + Substitute(f, x[1..])
    ensures RefBody(Substitute(f, x[1..])) == MapVar(f, RefBody(x[1..]))
    ensures !RefBody(x[1..]).NoVar? ==> (Canonical(f, Scan(x)) <==> Canonical(f, Scan(RefBody(x[1..]).rest)))
  {
    SubstitutePlainStep(f, x);
    HeadTail(x);
    BodySubstituted(f, [x[0]], x[1..]);
    ScanStep(x);
    CanonicalHead(f, Char(x[0]), Scan(x[1..]));
  }

  lemma MatchedBrace(f: string -> string, x: string)
    requires IdRenaming(f) && x != [] && MatchRef(x).Match?
    ensures Substitute(f, x) != []
    ensures RefBody(Substitute(f, x)[1..]) == MapVar(f, RefBody(x[1..]))
    ensures !RefBody(x[1..]).NoVar? ==> (Canonical(f, Scan(x)) <==> Canonical(f, Scan(RefBody(x[1..]).rest)))
  {
    var m := MatchRef(x);
    MatchIsWritten(x);
    MatchShrinks(x);
    RenamedIsWellFormed(f, m.ref);
    SubstituteStops(f, m.rest, Close);
    WriteHead(Renamed(f, m.ref), Substitute(f, m.rest));
    BehindFirstBrace(m.ref, m.rest);
    BehindFirstBrace(Renamed(f, m.ref), Substitute(f, m.rest));
    AfterSubstituted(f, m.ref.closing, m.rest);
    CanonicalHead(f, Reference(m.ref), Scan(m.rest));
  }

  /** Behind one brace, matched by the migration or not. */
  lemma BraceSubstituted(f: string -> string, x: string)
    requires IdRenaming(f) && x != [] && x[0] == '{'
    ensures Substitute(f, x) != []
    ensures RefBody(Substitute(f, x)[1..]) == MapVar(f, RefBody(x[1..]))
    ensures !RefBody(x[1..]).NoVar? ==> (Canonical(f, Scan(x)) <==> Canonical(f, Scan(RefBody(x[1..]).rest)))
  {
    if MatchRef(x).NoMatch? {
      UnmatchedBrace(f, x);
      HeadTail(Substitute(f, x));
    } else {
      MatchedBrace(f, x);
    }
  }

  lemma BehindFirstBrace(r: Ref, rest: string)
    requires WellFormed(r) && Stops(rest, Close)
    ensures RefBody(Write(r, rest)[1..]) ==
              if |r.braces| == 1 && RuntimeShaped(r) then OutputVar(r.id, r.variable, After(r.closing, rest)) else NoVar
  {
    var w := r.gap + (r.id + WriteTail(r, rest));
    var x := Write(r, rest)[1..];
    assert x == r.braces[1..] + w;
    if |r.braces| == 1 {
      assert x == w;
      BodyOfWritten(r, rest);
    } else {
      BraceIsNoBody(x);
    }
  }

  lemma BraceIsNoBody(x: string)
    requires x != [] && x[0] == '{'
    ensures RefBody(x) == NoVar
  {
    OutputNeedsId(x);
    if |x| >= 4 {
      assert Lower(x[..4])[0] == LowerChar(x[0]);
    }
  }

  /** The runtime matches at the head of the migrated text what it matches in the original. */
  lemma MatchVarSubstituted(f: string -> string, t: string)
    requires IdRenaming(f) && MatchRef(t).NoMatch?
    ensures MatchVar(Substitute(f, t)) == MapVar(f, MatchVar(t))
    ensures !MatchVar(t).NoVar? ==> (Canonical(f, Scan(t)) <==> Canonical(f, Scan(MatchVar(t).rest)))
  {
    var b := Take(t, Open);
    var p := Take(b.tail, Blank);
    SubstituteBraces(f, b.head, b.tail);
    SubstituteStops(f, b.tail, Open);
    TakeConcat(b.head, Substitute(f, b.tail), Open);
    SubstitutePlain(f, p.head, p.tail);
    SubstituteStops(f, p.tail, Blank);
    TakeConcat(p.head, Substitute(f, p.tail), Blank);
    ScanBraces(b.head, b.tail);
    CanonicalSkips(f, b.head, Scan(b.tail));
    if p.head == [] {
      assert p.tail == b.tail;
      if b.head != [] {
        BodySubstituted(f, b.head, b.tail);
      }
    } else {
      ScanPlain(p.head, p.tail);
      CanonicalSkips(f, p.head, Scan(p.tail));
      SubstituteHead(f, p.tail);
      if p.tail != [] && p.tail[0] == '{' {
        BraceSubstituted(f, p.tail);
      }
    }
  }

  // ---- References the runtime does not see ----

  function RefText(r: Ref): string {
    r.braces + Body(r)
  }

  lemma EvaluateChar(st: Store, t: string)
    requires t != [] && MatchVar(t).NoVar?
    ensures Evaluate(st, t) == Prepend([t[0]], Evaluate(st, t[1..]))
  {
  }

  lemma EvaluateVar(st: Store, t: string)
    requires t != [] && !MatchVar(t).NoVar?
    ensures |MatchVar(t).rest| < |t|
    ensures Evaluate(st, t) ==
              if Lookup(st, MatchVar(t)).None? then None
              else Prepend(Lookup(st, MatchVar(t)).value, Evaluate(st, MatchVar(t).rest))
  {
    MatchVarShrinks(t);
  }

  lemma PrependNothing(x: Option<string>)
    ensures Prepend([], x) == x
  {
    if x.Some? {
      assert [] + x.value == x.value;
    }
  }

  lemma PrependConcat(a: string, b: string, x: Option<string>)
    ensures Prepend(a, Prepend(b, x)) == Prepend(a + b, x)
  {
    if x.Some? {
      assert a + (b + x.value) == (a + b) + x.value;
    }
  }

  /** Brace-free text not ending in a blank is copied. */
  lemma {:induction false} EvaluateCopies(st: Store, a: string, rest: string)
    requires All(a, NotOpen) && (a == [] || !Blank(a[|a| - 1]))
    ensures Evaluate(st, a + rest) == Prepend(a, Evaluate(st, rest))
  {
    if a == [] {
      assert a + rest == rest;
      PrependNothing(Evaluate(st, rest));
    } else {
      NoVarAtPlain(a, rest);
      EvaluateChar(st, a + rest);
      Behead(a, rest);
      EvaluateCopies(st, a[1..], rest);
      PrependConcat([a[0]], a[1..], Evaluate(st, rest));
    }
  }

  lemma NoVarAtPlain(a: string, rest: string)
    requires a != [] && All(a, NotOpen) && !Blank(a[|a| - 1])
    ensures MatchVar(a + rest).NoVar?
  {
    var t := a + rest;
    assert t[0] == a[0] && NotOpen(a[0]);
    TakeConcat([], t, Open);
    assert [] + t == t;
    var c := Take(a, Blank);
    TakeEverything(a, Blank);
    assert a[|c.head|] == c.tail[0];
    assert t == c.head + (c.tail + rest);
    TakeConcat(c.head, c.tail + rest, Blank);
  }

  /** A reference that is not runtime-shaped is copied whole. */
  lemma {:induction false} EvaluateCopiesReference(st: Store, r: Ref, rest: string)
    requires WellFormed(r) && Stops(rest, Close) && !RuntimeShaped(r)
    ensures Evaluate(st, Write(r, rest)) == Prepend(RefText(r), Evaluate(st, rest))
    decreases |r.braces|
  {
    var t := Write(r, rest);
    MatchVarOfWritten(r, rest);
    WriteIsBody(r, rest);
    FirstBrace(r, rest);
    EvaluateChar(st, t);
    if |r.braces| == 1 {
      BodyIsPlain(r);
      assert Body(r)[|Body(r)| - 1] == r.closing[|r.closing| - 1];
      EvaluateCopies(st, Body(r), rest);
      PrependConcat(['{'], Body(r), Evaluate(st, rest));
    } else {
      var s := r.(braces := r.braces[1..]);
      EvaluateCopiesReference(st, s, rest);
      PrependConcat(['{'], RefText(s), Evaluate(st, rest));
    }
  }

  lemma FirstBrace(r: Ref, rest: string)
    requires WellFormed(r)
    ensures Write(r, rest) != [] && Write(r, rest)[0] == '{'
    ensures |r.braces| == 1 ==> Write(r, rest)[1..] == Body(r) + rest && RefText(r) == ['{'] + Body(r)
    ensures |r.braces| > 1 ==> var s := r.(braces := r.braces[1..]);
                               && WellFormed(s)
                               && Write(r, rest)[1..] == Write(s, rest)
                               && RefText(r) == ['{'] + RefText(s)
  {
    WriteIsBody(r, rest);
    var s := r.(braces := r.braces[1..]);
    WriteIsBody(s, rest);
    assert Body(s) == Body(r);
    assert r.braces == ['{'] + r.braces[1..];
    assert r.braces + (Body(r) + rest) == ['{'] + (r.braces[1..] + (Body(r) + rest));
    if |r.braces| == 1 {
      assert r.braces[1..] + (Body(r) + rest) == Body(r) + rest;
    }
  }

  /** Two references that differ in the first character of their ids differ as texts. */
  lemma RenamedTextDiffers(r: Ref, id: string, a: string, b: string)
    requires r.id != [] && id != [] && id[0] != r.id[0]
    ensures RefText(r) + a != RefText(r.(id := id)) + b
  {
    var k := |r.braces| + |r.gap|;
    var x, y := RefText(r) + a, RefText(r.(id := id)) + b;
    assert x[k] == r.id[0] && y[k] == id[0];
  }

  // ---- The theorem ----

  lemma PrependSame(a: string, x: Option<string>, y: Option<string>)
    requires x.Some?
    ensures Prepend(a, x) == Prepend(a, y) <==> x == y
  {
    if y.Some? && a + x.value == a + y.value {
      assert (a + x.value)[|a|..] == x.value && (a + y.value)[|a|..] == y.value;
    }
  }

  /** Where all references resolve, evaluating the migrated text in the migrated store gives
      the text of the original, exactly when the migration renames runtime references only. */
  lemma {:induction false} EvaluationIsPreserved(f: string -> string, st: Store, st2: Store, t: string)
    requires IdRenaming(f) && ImageStore(f, st, st2)
    requires Evaluate(st, t).Some?
    ensures Evaluate(st2, Substitute(f, t)) == Evaluate(st, t) <==> Canonical(f, Scan(t))
    decreases |t|
  {
    if t != [] {
      var m := MatchRef(t);
      if m.Match? {
        MatchIsWritten(t);
        MatchShrinks(t);
        CanonicalHead(f, Reference(m.ref), Scan(m.rest));
        RenamedIsWellFormed(f, m.ref);
        SubstituteStops(f, m.rest, Close);
        WriteHead(Renamed(f, m.ref), Substitute(f, m.rest));
        if RuntimeShaped(m.ref) {
          RuntimeReference(f, st, st2, t, m.ref, m.rest);
        } else {
          CopiedReference(f, st, st2, t, m.ref, m.rest);
        }
      } else {
        UnmatchedHead(f, st, st2, t);
      }
    }
  }

  lemma RuntimeReference(f: string -> string, st: Store, st2: Store, t: string, r: Ref, rest: string)
    requires IdRenaming(f) && ImageStore(f, st, st2) && Evaluate(st, t).Some?
    requires WellFormed(r) && Stops(rest, Close) && RuntimeShaped(r) && t == Write(r, rest) && |rest| < |t|
    requires WellFormed(Renamed(f, r)) && Stops(Substitute(f, rest), Close)
    requires Write(Renamed(f, r), Substitute(f, rest)) != []
    requires Substitute(f, t) == Write(Renamed(f, r), Substitute(f, rest))
    ensures Evaluate(st2, Substitute(f, t)) == Evaluate(st, t) <==> Canonical(f, Scan(rest))
    decreases |t|, 0
  {
    MatchVarOfWritten(r, rest);
    MatchVarOfWritten(Renamed(f, r), Substitute(f, rest));
    MatchVarShrinks(t);
    MatchVarShrinks(Substitute(f, t));
    AfterSubstituted(f, r.closing, rest);
    var u := After(r.closing, rest);
    EvaluationIsPreserved(f, st, st2, u);
    PrependSame(st.outputs[r.id](r.variable), Evaluate(st, u), Evaluate(st2, Substitute(f, u)));
  }

  lemma CopiedReference(f: string -> string, st: Store, st2: Store, t: string, r: Ref, rest: string)
    requires IdRenaming(f) && ImageStore(f, st, st2) && Evaluate(st, t).Some?
    requires WellFormed(r) && Stops(rest, Close) && !RuntimeShaped(r) && t == Write(r, rest) && |rest| < |t|
    requires WellFormed(Renamed(f, r)) && Stops(Substitute(f, rest), Close)
    requires Substitute(f, t) == Write(Renamed(f, r), Substitute(f, rest))
    ensures Evaluate(st2, Substitute(f, t)) == Evaluate(st, t) <==> f(r.id) == r.id && Canonical(f, Scan(rest))
    decreases |t|, 0
  {
    var q := Renamed(f, r);
    EvaluateCopiesReference(st, r, rest);
    EvaluateCopiesReference(st2, q, Substitute(f, rest));
    EvaluationIsPreserved(f, st, st2, rest);
    var x, y := Evaluate(st, rest), Evaluate(st2, Substitute(f, rest));
    PrependSame(RefText(r), x, y);
    if f(r.id) == r.id {
      assert q == r;
    } else if y.Some? {
      RenamedTextDiffers(r, f(r.id), x.value, y.value);
    }
  }

  lemma UnmatchedHead(f: string -> string, st: Store, st2: Store, t: string)
    requires IdRenaming(f) && ImageStore(f, st, st2) && Evaluate(st, t).Some?
    requires t != [] && MatchRef(t).NoMatch?
    ensures Evaluate(st2, Substitute(f, t)) == Evaluate(st, t) <==> Canonical(f, Scan(t))
    decreases |t|, 0
  {
    var v, s := MatchVar(t), Substitute(f, t);
    SubstitutePlainStep(f, t);
    MatchVarSubstituted(f, t);
    if v.NoVar? {
      ScanStep(t);
      CanonicalHead(f, Char(t[0]), Scan(t[1..]));
      assert s[1..] == Substitute(f, t[1..]);
      EvaluateChar(st, t);
      EvaluateChar(st2, s);
      EvaluationIsPreserved(f, st, st2, t[1..]);
      PrependSame([t[0]], Evaluate(st, t[1..]), Evaluate(st2, Substitute(f, t[1..])));
    } else {
      EvaluateVar(st, t);
      EvaluateVar(st2, s);
      EvaluationIsPreserved(f, st, st2, v.rest);
      PrependSame(Lookup(st, v).value, Evaluate(st, v.rest), Evaluate(st2, Substitute(f, v.rest)));
    }
  }
}
