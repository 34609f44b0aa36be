/** The `{id@variable}` references the migration rewrites inside texts. */
module References {
  import opened PyValues

  predicate Letter(c: char) {
    'a' <= c <= 'z' || 'A' <= c <= 'Z'
  }

  predicate IdChar(c: char) {
    Letter(c) || Digit(c) || c == ':' || c == '_' || c == '-'
  }

  predicate VarChar(c: char) {
    Letter(c) || Digit(c) || c == '_' || c == '.' || c == '-'
  }

  predicate Space(c: char) {
    c == ' ' || '\t' <= c <= '\r' || '\U{1C}' <= c <= '\U{1F}'
  }

  predicate Open(c: char) {
    c == '{'
  }

  predicate Close(c: char) {
    c == '}'
  }

  predicate All(s: string, p: char -> bool) {
    forall i :: 0 <= i < |s| ==> p(s[i])
  }

  predicate Stops(s: string, p: char -> bool) {
    s == [] || !p(s[0])
  }

  datatype Cut = Cut(head: string, tail: string)

  lemma Cons(t: string, p: char -> bool, c: Cut)
    requires t != [] && p(t[0]) && t[1..] == c.head + c.tail && All(c.head, p)
    ensures t == ([t[0]] + c.head) + c.tail && All([t[0]] + c.head, p)
  {
    var h := [t[0]] + c.head;
    assert t == [t[0]] + t[1..];
    assert h + c.tail == [t[0]] + (c.head + c.tail);
    assert forall i :: 0 < i < |h| ==> h[i] == c.head[i - 1];
  }

  /** A greedy class repetition: the longest prefix whose characters all satisfy `p`, and the rest. */
  function Take(t: string, p: char -> bool): (c: Cut)
    ensures t == c.head + c.tail && All(c.head, p) && Stops(c.tail, p)
  {
    if t != [] && p(t[0]) then
      var c := Take(t[1..], p);
      Cons(t, p, c);
      Cut([t[0]] + c.head, c.tail)
    else Cut([], t)
  }

  /** The repetition ends where its class ends. */
  lemma {:induction false} TakeConcat(a: string, b: string, p: char -> bool)
    requires All(a, p) && Stops(b, p)
    ensures Take(a + b, p) == Cut(a, b)
  {
    if a == [] {
      assert a + b == b;
    } else {
      assert (a + b)[1..] == a[1..] + b;
      TakeConcat(a[1..], b, p);
      assert a == [a[0]] + a[1..];
    }
  }

  /** What VARIABLE_REF_PATTERN matches: its first group is `braces + gap`, then the id,
      then `@variable`, then `tailGap + closing`. */
  datatype Ref = Ref(braces: string, gap: string, id: string, variable: string, tailGap: string, closing: string)

  ghost predicate WellFormed(r: Ref) {
    && r.braces != [] && All(r.braces, Open)
    && All(r.gap, Space)
    && r.id != [] && All(r.id, IdChar)
    && r.variable != [] && All(r.variable, VarChar)
    && All(r.tailGap, Space)
    && r.closing != [] && All(r.closing, Close)
  }

  /** The text of a reference, followed by `rest`. */
  function Write(r: Ref, rest: string): string {
    r.braces + (r.gap + (r.id + WriteTail(r, rest)))
  }

  function WriteTail(r: Ref, rest: string): string {
    ['@'] + (r.variable + (r.tailGap + (r.closing + rest)))
  }

  datatype Match = NoMatch | Match(ref: Ref, rest: string)

  /** From the `@` on. */
  function MatchTail(braces: string, gap: string, id: string, t: string): Match {
    if t == [] || t[0] != '@' then NoMatch
    else
      var v := Take(t[1..], VarChar);
      var w := Take(v.tail, Space);
      var c := Take(w.tail, Close);
      if v.head == [] || c.head == [] then NoMatch
      else Match(Ref(braces, gap, id, v.head, w.head, c.head), c.tail)
  }

  /** The match of VARIABLE_REF_PATTERN at the head of `t`. Neighbouring classes are
      disjoint, so the greedy repetitions never have to give characters back. */
  function MatchRef(t: string): Match {
    var o := Take(t, Open);
    var w := Take(o.tail, Space);
    var d := Take(w.tail, IdChar);
    if o.head == [] || d.head == [] then NoMatch else MatchTail(o.head, w.head, d.head, d.tail)
  }

  lemma MatchTailIsWritten(braces: string, gap: string, id: string, t: string)
    requires MatchTail(braces, gap, id, t).Match?
    ensures var m := MatchTail(braces, gap, id, t);
            && t == WriteTail(m.ref, m.rest)
            && m.ref.braces == braces && m.ref.gap == gap && m.ref.id == id
            && m.ref.variable != [] && All(m.ref.variable, VarChar)
            && All(m.ref.tailGap, Space)
            && m.ref.closing != [] && All(m.ref.closing, Close)
            && Stops(m.rest, Close)
  {
    assert t == ['@'] + t[1..];
  }

  /** A match is written at the head of the text, made of well-formed groups, and takes every closing brace. */
  lemma MatchIsWritten(t: string)
    requires MatchRef(t).Match?
    ensures t == Write(MatchRef(t).ref, MatchRef(t).rest)
    ensures WellFormed(MatchRef(t).ref)
    ensures Stops(MatchRef(t).rest, Close)
  {
    var o := Take(t, Open);
    var w := Take(o.tail, Space);
    var d := Take(w.tail, IdChar);
    MatchTailIsWritten(o.head, w.head, d.head, d.tail);
  }

  lemma TailIsMatched(r: Ref, rest: string)
    requires WellFormed(r) && Stops(rest, Close)
    ensures MatchTail(r.braces, r.gap, r.id, WriteTail(r, rest)) == Match(r, rest)
  {
    var t := WriteTail(r, rest);
    assert t[1..] == r.variable + (r.tailGap + (r.closing + rest));
    TakeConcat(r.closing, rest, Close);
    TakeConcat(r.tailGap, r.closing + rest, Space);
    VariableStops(r, rest);
    TakeConcat(r.variable, r.tailGap + (r.closing + rest), VarChar);
  }

  lemma VariableStops(r: Ref, rest: string)
    requires WellFormed(r)
    ensures Stops(r.tailGap + (r.closing + rest), VarChar)
  {
    var s := r.tailGap + (r.closing + rest);
    assert s[0] == if r.tailGap != [] then r.tailGap[0] else r.closing[0];
  }

  /** Conversely, well-formed groups are matched again wherever they are written. */
  lemma WrittenIsMatched(r: Ref, rest: string)
    requires WellFormed(r) && Stops(rest, Close)
    ensures MatchRef(Write(r, rest)) == Match(r, rest)
  {
    var t3 := WriteTail(r, rest);
    assert t3[0] == '@';
    TakeConcat(r.id, t3, IdChar);
    TakeConcat(r.gap, r.id + t3, Space);
    BracesStop(r, t3);
    TakeConcat(r.braces, r.gap + (r.id + t3), Open);
    TailIsMatched(r, rest);
  }

  lemma BracesStop(r: Ref, t: string)
    requires WellFormed(r)
    ensures Stops(r.gap + (r.id + t), Open)
  {
    var s := r.gap + (r.id + t);
    assert s[0] == if r.gap != [] then r.gap[0] else r.id[0];
  }

  function Renamed(f: string -> string, r: Ref): Ref {
    r.(id := f(r.id))
  }

  lemma MatchShrinks(t: string)
    requires MatchRef(t).Match?
    ensures |MatchRef(t).rest| < |t|
  {
    MatchIsWritten(t);
  }

  /** `VARIABLE_REF_PATTERN.sub` with the id replaced by `f(id)`. */
  function Substitute(f: string -> string, t: string): string
    decreases |t|
  {
    if t == [] then []
    else
      var m := MatchRef(t);
      if m.Match? then
        MatchShrinks(t);
        Write(Renamed(f, m.ref), Substitute(f, m.rest))
      else [t[0]] + Substitute(f, t[1..])
  }

  lemma RenamedIdentity(f: string -> string, r: Ref)
    requires f(r.id) == r.id
    ensures Renamed(f, r) == r
  {
  }

  /** A renaming that renames nothing leaves every text alone. */
  lemma {:induction false} SubstituteIdentity(f: string -> string, t: string)
    requires forall x :: f(x) == x
    ensures Substitute(f, t) == t
    decreases |t|
  {
    if t != [] {
      var m := MatchRef(t);
      if m.Match? {
        MatchShrinks(t);
        MatchIsWritten(t);
        RenamedIdentity(f, m.ref);
        SubstituteIdentity(f, m.rest);
      } else {
        SubstituteIdentity(f, t[1..]);
      }
    }
  }
}
