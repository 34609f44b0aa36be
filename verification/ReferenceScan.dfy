/** The migrated text scans to the same references, ids mapped, all other characters unchanged. */
module ReferenceScan {
  import opened References
  import Text

  predicate NotOpen(c: char) {
    !Open(c)
  }

  /** Renamings send ids to ids. */
  ghost predicate IdPreserving(f: string -> string) {
    forall x :: x != [] && All(x, IdChar) ==> f(x) != [] && All(f(x), IdChar)
  }

  lemma RenamedIsWellFormed(f: string -> string, r: Ref)
    requires IdPreserving(f) && WellFormed(r)
    ensures WellFormed(Renamed(f, r))
  {
  }

  lemma NoMatchWithoutBrace(t: string)
    requires Stops(t, Open)
    ensures MatchRef(t).NoMatch?
  {
    TakeConcat([], t, Open);
    assert [] + t == t;
  }

  lemma WriteHead(r: Ref, rest: string)
    requires WellFormed(r)
    ensures Write(r, rest) != [] && Write(r, rest)[0] == '{'
  {
  }

  /** Substitution keeps the first character. */
  lemma SubstituteHead(f: string -> string, t: string)
    requires IdPreserving(f)
    ensures Substitute(f, t) == [] <==> t == []
    ensures t != [] ==> Substitute(f, t)[0] == t[0]
  {
    if t != [] && MatchRef(t).Match? {
      MatchShrinks(t);
      MatchIsWritten(t);
      var m := MatchRef(t);
      RenamedIsWellFormed(f, m.ref);
      WriteHead(m.ref, m.rest);
      WriteHead(Renamed(f, m.ref), Substitute(f, m.rest));
    }
  }

  lemma SubstituteStops(f: string -> string, t: string, p: char -> bool)
    requires IdPreserving(f)
    ensures Stops(Substitute(f, t), p) <==> Stops(t, p)
  {
    SubstituteHead(f, t);
  }

  lemma SubstitutePlainStep(f: string -> string, t: string)
    requires t != [] && MatchRef(t).NoMatch?
    ensures Substitute(f, t) == [t[0]] + Substitute(f, t[1..])
  {
  }

  lemma SubstitutePlainHead(f: string -> string, a: string, z: string)
    requires a != [] && NotOpen(a[0])
    ensures Substitute(f, a + z) == [a[0]] + Substitute(f, a[1..] + z)
  {
    var t := a + z;
    assert t[0] == a[0] && t[1..] == a[1..] + z;
    NoMatchWithoutBrace(t);
    SubstitutePlainStep(f, t);
  }

  lemma HeadTail(a: string)
    requires a != []
    ensures a == [a[0]] + a[1..]
  {
  }

  /** Text without an opening brace is copied. */
  lemma {:induction false} SubstitutePlain(f: string -> string, a: string, z: string)
    requires All(a, NotOpen)
    ensures Substitute(f, a + z) == a + Substitute(f, z)
  {
    if a == [] {
      assert a + z == z;
    } else {
      SubstitutePlainHead(f, a, z);
      SubstitutePlain(f, a[1..], z);
      HeadTail(a);
      Text.Chain(Substitute(f, a + z), [a[0]], Substitute(f, a[1..] + z), a, a[1..], Substitute(f, z));
    }
  }

  lemma PlainWasThereStep(f: string -> string, x: string, c: char, w: string)
    requires IdPreserving(f) && NotOpen(c) && Substitute(f, x) == [c] + w
    ensures x != [] && x[0] == c && Substitute(f, x[1..]) == w
  {
    SubstituteHead(f, x);
    NoMatchWithoutBrace(x);
    SubstitutePlainStep(f, x);
    assert Substitute(f, x)[1..] == w;
  }

  /** Conversely, brace-free text at the head of a substituted text was there before. */
  lemma {:induction false} PlainWasThere(f: string -> string, x: string, k: string, w: string) returns (y: string)
    requires IdPreserving(f) && All(k, NotOpen)
    requires Substitute(f, x) == k + w
    ensures x == k + y && Substitute(f, y) == w
  {
    if k == [] {
      y := x;
      assert k + w == w && k + y == y;
    } else {
      var c, rest := k[0], k[1..];
      PlainTail(k, w);
      PlainWasThereStep(f, x, c, rest + w);
      y := PlainWasThere(f, x[1..], rest, w);
      Reattach(x, k, y);
    }
  }

  lemma PlainTail(k: string, w: string)
    requires k != [] && All(k, NotOpen)
    ensures All(k[1..], NotOpen) && NotOpen(k[0]) && k + w == [k[0]] + (k[1..] + w)
  {
  }

  lemma Reattach(x: string, k: string, y: string)
    requires x != [] && k != [] && x[0] == k[0] && x[1..] == k[1..] + y
    ensures x == k + y
  {
    assert x == [x[0]] + x[1..] && k == [k[0]] + k[1..];
  }

  /** More braces in front of a match still match. */
  lemma MoreBracesMatch(b: string, w: string)
    requires b != [] && All(b, Open) && Stops(w, Open) && MatchRef(b[1..] + w).Match?
    ensures MatchRef(b + w).Match?
  {
    var m := MatchRef(b[1..] + w);
    MatchIsWritten(b[1..] + w);
    TakeConcat(b[1..], w, Open);
    BracesStop(m.ref, WriteTail(m.ref, m.rest));
    TakeConcat(m.ref.braces, m.ref.gap + (m.ref.id + WriteTail(m.ref, m.rest)), Open);
    assert m.ref.braces == b[1..] && w == m.ref.gap + (m.ref.id + WriteTail(m.ref, m.rest));
    var r := m.ref.(braces := b);
    assert b + w == Write(r, m.rest);
    WrittenIsMatched(r, m.rest);
  }

  lemma FewerBracesFail(b: string, w: string)
    requires b != [] && All(b, Open) && Stops(w, Open) && MatchRef(b + w).NoMatch?
    ensures b[1..] == [] || MatchRef(b[1..] + w).NoMatch?
  {
    if b[1..] != [] && MatchRef(b[1..] + w).Match? {
      MoreBracesMatch(b, w);
    }
  }

  lemma SubstituteBraceHead(f: string -> string, b: string, w: string)
    requires b != [] && MatchRef(b + w).NoMatch?
    ensures Substitute(f, b + w) == [b[0]] + Substitute(f, b[1..] + w)
  {
    var t := b + w;
    assert t[0] == b[0] && t[1..] == b[1..] + w;
    SubstitutePlainStep(f, t);
  }

  /** An unmatched run of braces is copied. */
  lemma {:induction false} SubstituteBraces(f: string -> string, b: string, w: string)
    requires All(b, Open) && Stops(w, Open) && (b == [] || MatchRef(b + w).NoMatch?)
    ensures Substitute(f, b + w) == b + Substitute(f, w)
  {
    if b == [] {
      assert b + w == w;
    } else {
      SubstituteBraceHead(f, b, w);
      FewerBracesFail(b, w);
      SubstituteBraces(f, b[1..], w);
      HeadTail(b);
      Text.Chain(Substitute(f, b + w), [b[0]], Substitute(f, b[1..] + w), b, b[1..], Substitute(f, w));
    }
  }

  /** Everything of a reference behind its braces. */
  function Body(r: Ref): string {
    r.gap + (r.id + (['@'] + (r.variable + (r.tailGap + r.closing))))
  }

  lemma BodyIsPlain(r: Ref)
    requires WellFormed(r)
    ensures All(Body(r), NotOpen)
  {
    PlainConcat(r.tailGap, r.closing);
    PlainConcat(r.variable, r.tailGap + r.closing);
    PlainConcat(['@'], r.variable + (r.tailGap + r.closing));
    PlainConcat(r.id, ['@'] + (r.variable + (r.tailGap + r.closing)));
    PlainConcat(r.gap, r.id + (['@'] + (r.variable + (r.tailGap + r.closing))));
  }

  lemma PlainConcat(a: string, b: string)
    requires All(a, NotOpen) && All(b, NotOpen)
    ensures All(a + b, NotOpen)
  {
  }

  lemma WriteIsBody(r: Ref, rest: string)
    ensures Write(r, rest) == r.braces + (Body(r) + rest)
  {
    var b1 := r.tailGap + r.closing;
    var b2 := r.variable + b1;
    var b3 := ['@'] + b2;
    assert r.tailGap + (r.closing + rest) == b1 + rest;
    assert r.variable + (b1 + rest) == b2 + rest;
    assert ['@'] + (b2 + rest) == b3 + rest;
    assert r.id + (b3 + rest) == (r.id + b3) + rest;
    assert r.gap + ((r.id + b3) + rest) == Body(r) + rest;
  }

  /** Where nothing matched, nothing matches after the substitution. */
  lemma NoMatchIsKept(f: string -> string, t: string)
    requires IdPreserving(f) && MatchRef(t).NoMatch?
    ensures MatchRef(Substitute(f, t)).NoMatch?
  {
    var c := Take(t, Open);
    var b, w := c.head, c.tail;
    var s := Substitute(f, t);
    SubstituteBraces(f, b, w);
    SubstituteStops(f, w, Open);
    if MatchRef(s).Match? {
      var m := MatchRef(s);
      MatchIsWritten(s);
      WriteIsBody(m.ref, m.rest);
      BracesStop(m.ref, WriteTail(m.ref, m.rest));
      TakeConcat(m.ref.braces, m.ref.gap + (m.ref.id + WriteTail(m.ref, m.rest)), Open);
      TakeConcat(b, Substitute(f, w), Open);
      assert Body(m.ref) + m.rest == Substitute(f, w) by {
        assert s[|b|..] == Substitute(f, w) && s[|b|..] == Body(m.ref) + m.rest;
      }
      BodyIsPlain(m.ref);
      var y := PlainWasThere(f, w, Body(m.ref), m.rest);
      SubstituteStops(f, y, Close);
      WriteIsBody(m.ref, y);
      assert t == Write(m.ref, y);
      WrittenIsMatched(m.ref, y);
      assert false;
    }
  }

  datatype Piece = Char(c: char) | Reference(ref: Ref)

  /** The text as the migration reads it. */
  function Scan(t: string): seq<Piece>
    decreases |t|
  {
    if t == [] then []
    else
      var m := MatchRef(t);
      if m.Match? then
        MatchShrinks(t);
        [Reference(m.ref)] + Scan(m.rest)
      else [Char(t[0])] + Scan(t[1..])
  }

  function MapPieces(f: string -> string, ps: seq<Piece>): seq<Piece> {
    if ps == [] then []
    else [if ps[0].Reference? then Reference(Renamed(f, ps[0].ref)) else ps[0]] + MapPieces(f, ps[1..])
  }

  /** The rewritten text scans to the same pieces, with only the ids of references mapped. */
  lemma {:induction false} ScanOfSubstituted(f: string -> string, t: string)
    requires IdPreserving(f)
    ensures Scan(Substitute(f, t)) == MapPieces(f, Scan(t))
    decreases |t|
  {
    if t != [] {
      var m := MatchRef(t);
      if m.Match? {
        MatchShrinks(t);
        MatchIsWritten(t);
        RenamedIsWellFormed(f, m.ref);
        SubstituteStops(f, m.rest, Close);
        WrittenIsMatched(Renamed(f, m.ref), Substitute(f, m.rest));
        WriteHead(Renamed(f, m.ref), Substitute(f, m.rest));
        ScanOfSubstituted(f, m.rest);
        MapHead(f, Reference(m.ref), Scan(m.rest));
      } else {
        SubstitutePlainStep(f, t);
        NoMatchIsKept(f, t);
        assert Substitute(f, t)[1..] == Substitute(f, t[1..]);
        ScanOfSubstituted(f, t[1..]);
        MapHead(f, Char(t[0]), Scan(t[1..]));
      }
    }
  }

  lemma MapHead(f: string -> string, p: Piece, ps: seq<Piece>)
    ensures MapPieces(f, [p] + ps) == [if p.Reference? then Reference(Renamed(f, p.ref)) else p] + MapPieces(f, ps)
  {
    assert ([p] + ps)[1..] == ps;
  }
}
