/** What replacements of ids can and cannot mend, when each exchanges a prefix of the id for another one whose
    first letter starts no prefix. */
module PrefixReplacement {
  import opened Text

  // ---- Where a replacement acts ----

  /** The positions, counted from `k`, at which the scan of `replace` finds `x`. */
  function Hits(t: string, x: string, k: nat): set<nat>
    decreases |t|
  {
    if x == [] || t == [] then {}
    else if x <= t then {k} + Hits(t[|x|..], x, k + |x|)
    else Hits(t[1..], x, k + 1)
  }

  lemma {:induction false} HitsAreAhead(t: string, x: string, k: nat)
    ensures forall h :: h in Hits(t, x, k) ==> k <= h < k + |t|
    decreases |t|
  {
    if x != [] && t != [] {
      HitsAreAhead(if x <= t then t[|x|..] else t[1..], x, if x <= t then k + |x| else k + 1);
    }
  }

  lemma HitsAtHit(t: string, x: string, k: nat)
    requires x != [] && x <= t
    ensures Hits(t, x, k) == {k} + Hits(t[|x|..], x, k + |x|)
  {
  }

  lemma NoHitHere(t: string, x: string, k: nat)
    requires x != [] && (t == [] || !(x <= t))
    ensures k !in Hits(t, x, k)
  {
    if t != [] {
      HitsAreAhead(t[1..], x, k + 1);
    }
  }

  lemma ReplaceStep(t: string, x: string, y: string)
    requires x != [] && t != []
    ensures Replace(t, x, y) == if x <= t then y + Replace(t[|x|..], x, y) else [t[0]] + Replace(t[1..], x, y)
  {
  }

  lemma Regroup(a: string, b: string, c: string)
    ensures a + (b + c) == a + b + c
  {
  }

  lemma HeadHasNoHit(t: string, x: string, k: nat)
    requires x != [] && t != [] && k !in Hits(t, x, k)
    ensures !(x <= t) && Hits(t, x, k) == Hits(t[1..], x, k + 1)
  {
    if x <= t {
      HitsAtHit(t, x, k);
      assert false;
    }
  }

  /** Text in which the scan finds nothing is kept. */
  lemma {:induction false} ReplaceSkips(u: string, w: string, x: string, y: string, k: nat)
    requires x != [] && forall h :: h in Hits(u + w, x, k) ==> h >= k + |u|
    ensures Replace(u + w, x, y) == u + Replace(w, x, y)
    ensures Hits(u + w, x, k) == Hits(w, x, k + |u|)
  {
    if u == [] {
      assert u + w == w;
    } else {
      var t := u + w;
      assert t[0] == u[0] && t[1..] == u[1..] + w;
      HeadHasNoHit(t, x, k);
      ReplaceSkips(u[1..], w, x, y, k + 1);
      ReplaceStep(t, x, y);
      assert u == [u[0]] + u[1..];
      Chain(Replace(t, x, y), [u[0]], Replace(u[1..] + w, x, y), u, u[1..], Replace(w, x, y));
    }
  }

  lemma FrontIsKept(pre: string, m: string, n: string, x: string, y: string)
    requires x != [] && forall h :: h in Hits(pre + m + n, x, 0) ==> h >= |pre|
    ensures Replace(pre + m + n, x, y) == pre + Replace(m + n, x, y)
    ensures Hits(pre + m + n, x, 0) == Hits(m + n, x, |pre|)
  {
    Regroup(pre, m, n);
    ReplaceSkips(pre, m + n, x, y, 0);
  }

  lemma ReplaceNowhere(w: string, x: string, y: string, k: nat)
    requires x != [] && Hits(w, x, k) == {}
    ensures Replace(w, x, y) == w
  {
    assert w + [] == w;
    ReplaceSkips(w, [], x, y, k);
  }

  lemma {:induction false} HitsIffOccurs(t: string, x: string, k: nat)
    requires x != []
    ensures Hits(t, x, k) == {} <==> !Occurs(x, t)
  {
    if t == [] {
    } else if x <= t {
      assert OccursAt(x, t, 0);
    } else {
      HitsIffOccurs(t[1..], x, k + 1);
      OccursInTail(x, t);
    }
  }

  lemma OccursInTail(x: string, t: string)
    requires t != [] && x != [] && !(x <= t)
    ensures Occurs(x, t) <==> Occurs(x, t[1..])
  {
    if Occurs(x, t) {
      var i :| 0 <= i <= |t| - |x| && OccursAt(x, t, i);
      assert i > 0 && t[1..][i - 1..i - 1 + |x|] == t[i..i + |x|];
      assert OccursAt(x, t[1..], i - 1);
    }
    if Occurs(x, t[1..]) {
      var i :| 0 <= i <= |t[1..]| - |x| && OccursAt(x, t[1..], i);
      assert t[i + 1..i + 1 + |x|] == t[1..][i..i + |x|];
      assert OccursAt(x, t, i + 1);
    }
  }

  // ---- Prefixes that turn ----

  /** An old prefix and the new one that stands in for it. */
  datatype Row = Row(old_: string, new_: string)

  predicate OldLetter(c: char) {
    c in {'S', 'H', 'P'}
  }

  predicate NewLetter(c: char) {
    c in {'T', 'D'}
  }

  /** An old prefix has its only old letter in front; a new one starts with a new letter. */
  predicate GoodRow(row: Row) {
    && row.old_ != [] && OldLetter(row.old_[0]) && NoOldLetter(row.old_[1..])
    && row.new_ != [] && NewLetter(row.new_[0])
  }

  predicate NoOldLetter(p: string) {
    forall j :: 0 <= j < |p| ==> !OldLetter(p[j])
  }

  ghost predicate GoodTable(table: set<Row>) {
    && (forall row :: row in table ==> GoodRow(row))
    && (forall a, b :: a in table && b in table && a.old_[..1] == b.old_[..1] ==> a == b)
  }

  /** `y` is `x` with its prefix exchanged. */
  predicate Exchanges(row: Row, x: string, y: string) {
    GoodRow(row) && row.old_ <= x && y == row.new_ + x[|row.old_|..]
  }

  /** No id that starts with an old letter is found in a piece without one. */
  lemma {:induction false} SkipsPiece(x: string, y: string, p: string, v: string, k: nat)
    requires x != [] && OldLetter(x[0]) && NoOldLetter(p)
    ensures Replace(p + v, x, y) == p + Replace(v, x, y)
    ensures Hits(p + v, x, k) == Hits(v, x, k + |p|)
  {
    PieceHasNoHit(x, p, v, k);
    ReplaceSkips(p, v, x, y, k);
  }

  lemma {:induction false} PieceHasNoHit(x: string, p: string, v: string, k: nat)
    requires x != [] && OldLetter(x[0]) && NoOldLetter(p)
    ensures forall h :: h in Hits(p + v, x, k) ==> h >= k + |p|
  {
    if p == [] {
      assert p + v == v;
      HitsAreAhead(v, x, k);
    } else {
      var t := p + v;
      assert t[0] == p[0] && t[1..] == p[1..] + v;
      PieceHasNoHit(x, p[1..], v, k + 1);
    }
  }

  // ---- A step from one text towards another ----

  /** How `u` goes on beside `g`: they part for good, or share a letter, or a prefix can still turn. */
  datatype Way = Part | Agree | Turn(row: Row)

  predicate Goes(rows: set<Row>, way: Way, u: string, g: string) {
    && u != [] && g != []
    && match way
       case Part => NewLetter(u[0]) && OldLetter(g[0])
       case Agree => u[0] == g[0]
       case Turn(row) => row in rows && GoodRow(row) && row.old_ <= u && row.new_ <= g
  }

  /** How far the step goes in `u`, and in `g`. */
  function Step(way: Way): nat {
    if way.Turn? then |way.row.old_| else 1
  }

  function Goal(way: Way): nat {
    if way.Turn? then |way.row.new_| else 1
  }

  lemma GoesBounds(rows: set<Row>, way: Way, u: string, g: string)
    requires Goes(rows, way, u, g)
    ensures 0 < Step(way) <= |u| && 0 < Goal(way) <= |g|
  {
  }

  /** A step that ends in `r` can be taken whatever stands behind it. */
  lemma GoesInFront(rows: set<Row>, way: Way, r: string, v: string, w: string, g: string)
    requires Goes(rows, way, r + v, g) && Step(way) <= |r|
    ensures Goes(rows, way, r + w, g)
    ensures (r + w)[Step(way)..] == r[Step(way)..] + w && (r + v)[Step(way)..] == r[Step(way)..] + v
  {
    assert (r + w)[..Step(way)] == r[..Step(way)] == (r + v)[..Step(way)];
  }

  /** Up to prefixes that can still turn, `u` agrees with `g` to where it has a new letter and `g` an old one. */
  ghost predicate Spoilt(rows: set<Row>, u: string, g: string)
    decreases |u|
  {
    exists way :: SpoiltBy(rows, way, u, g)
  }

  ghost predicate SpoiltBy(rows: set<Row>, way: Way, u: string, g: string)
    decreases |u|, 0
  {
    && Goes(rows, way, u, g) && 0 < Step(way) <= |u| && Goal(way) <= |g|
    && (way.Part? || Spoilt(rows, u[Step(way)..], g[Goal(way)..]))
  }

  lemma SpoiltIntro(rows: set<Row>, way: Way, u: string, g: string)
    requires Goes(rows, way, u, g)
    requires way.Part? || (Step(way) <= |u| && Goal(way) <= |g| && Spoilt(rows, u[Step(way)..], g[Goal(way)..]))
    ensures Spoilt(rows, u, g)
  {
    GoesBounds(rows, way, u, g);
    assert SpoiltBy(rows, way, u, g);
  }

  lemma {:induction false} SpoiltDiffers(rows: set<Row>, u: string, g: string)
    requires Spoilt(rows, u, g)
    ensures u != g
    decreases |u|
  {
    var way :| SpoiltBy(rows, way, u, g);
    if way.Agree? {
      SpoiltDiffers(rows, u[1..], g[1..]);
    }
  }

  /** Equal text in front changes nothing. */
  lemma {:induction false} SpoiltBehind(rows: set<Row>, p: string, u: string, g: string)
    requires Spoilt(rows, u, g)
    ensures Spoilt(rows, p + u, p + g)
  {
    if p == [] {
      assert p + u == u && p + g == g;
    } else {
      SpoiltBehind(rows, p[1..], u, g);
      assert (p + u)[1..] == p[1..] + u && (p + g)[1..] == p[1..] + g;
      SpoiltIntro(rows, Agree, p + u, p + g);
    }
  }

  /** `g` is `u` with the prefixes at `places`, counted from `k`, turned. */
  ghost predicate Ahead(rows: set<Row>, u: string, g: string, k: nat, places: set<nat>)
    decreases |u|
  {
    if u == [] then g == [] else exists way :: AheadBy(rows, way, u, g, k, places)
  }

  ghost predicate AheadBy(rows: set<Row>, way: Way, u: string, g: string, k: nat, places: set<nat>)
    decreases |u|, 0
  {
    && Goes(rows, way, u, g) && !way.Part? && (way.Turn? <==> k in places)
    && 0 < Step(way) <= |u| && Goal(way) <= |g|
    && Ahead(rows, u[Step(way)..], g[Goal(way)..], k + Step(way), places)
  }

  lemma AheadIntro(rows: set<Row>, way: Way, u: string, g: string, k: nat, places: set<nat>)
    requires Goes(rows, way, u, g) && !way.Part? && (way.Turn? <==> k in places)
    requires Step(way) <= |u| && Goal(way) <= |g|
    requires Ahead(rows, u[Step(way)..], g[Goal(way)..], k + Step(way), places)
    ensures Ahead(rows, u, g, k, places)
  {
    GoesBounds(rows, way, u, g);
    assert AheadBy(rows, way, u, g, k, places);
  }

  lemma {:induction false} AheadBehind(rows: set<Row>, p: string, u: string, g: string, k: nat, places: set<nat>)
    requires Ahead(rows, u, g, k + |p|, places) && forall h :: h in places ==> !(k <= h < k + |p|)
    ensures Ahead(rows, p + u, p + g, k, places)
  {
    if p == [] {
      assert p + u == u && p + g == g;
    } else {
      AheadBehind(rows, p[1..], u, g, k + 1, places);
      assert (p + u)[1..] == p[1..] + u && (p + g)[1..] == p[1..] + g;
      AheadIntro(rows, Agree, p + u, p + g, k, places);
    }
  }

  /** A prefix that turns, with the rest of its id and whatever follows. */
  lemma TurnAhead(
    rows: set<Row>, row: Row, m: string, y: string, u: string, g: string, k: nat, places: set<nat>)
    requires row in rows && Exchanges(row, m, y) && k in places
    requires Ahead(rows, u, g, k + |m|, places) && forall h :: h in places ==> !(k < h < k + |m|)
    ensures Ahead(rows, m + u, y + g, k, places)
  {
    var rest := m[|row.old_|..];
    assert m == row.old_ + rest;
    RestAhead(rows, row, rest, u, g, k, places);
    Regroup(row.old_, rest, u);
    Regroup(row.new_, rest, g);
  }

  lemma RestAhead(
    rows: set<Row>, row: Row, rest: string, u: string, g: string, k: nat, places: set<nat>)
    requires row in rows && GoodRow(row) && k in places
    requires Ahead(rows, u, g, k + |row.old_| + |rest|, places)
    requires forall h :: h in places ==> !(k < h < k + |row.old_| + |rest|)
    ensures Ahead(rows, row.old_ + (rest + u), row.new_ + (rest + g), k, places)
  {
    AheadBehind(rows, rest, u, g, k + |row.old_|, places);
    RowAhead(rows, row, rest + u, rest + g, k, places);
  }

  lemma RowAhead(rows: set<Row>, row: Row, u: string, g: string, k: nat, places: set<nat>)
    requires row in rows && GoodRow(row) && k in places && Ahead(rows, u, g, k + |row.old_|, places)
    ensures Ahead(rows, row.old_ + u, row.new_ + g, k, places)
  {
    assert (row.old_ + u)[|row.old_|..] == u && (row.new_ + g)[|row.new_|..] == g;
    AheadIntro(rows, Turn(row), row.old_ + u, row.new_ + g, k, places);
  }

  // ---- One replacement ----

  /** `u` is spoilt, or the scan behind it will act where `u` and `g` agree. */
  ghost predicate Off(rows: set<Row>, u: string, g: string, k: nat, places: set<nat>, misses: bool) {
    Spoilt(rows, u, g) || (misses && Ahead(rows, u, g, k, places))
  }

  /** The scan of `v` acts elsewhere than at the places. */
  predicate Misses(v: string, x: string, k: nat, places: set<nat>) {
    !(Hits(v, x, k) <= places)
  }

  /** A step with a text behind it that is off again. */
  ghost predicate OffBy(rows: set<Row>, way: Way, u: string, g: string, k: nat, places: set<nat>, misses: bool) {
    && Goes(rows, way, u, g) && Step(way) <= |u| && Goal(way) <= |g|
    && (way.Part?
        || (if way.Turn? then
              Off(rows, u[Step(way)..], g[Goal(way)..], k + Step(way), places, misses && k in places)
            else Off(rows, u[1..], g[1..], k + 1, places, misses)))
  }

  lemma SpoiltWay(rows: set<Row>, u: string, g: string) returns (way: Way)
    requires Spoilt(rows, u, g)
    ensures SpoiltBy(rows, way, u, g)
  {
    way :| SpoiltBy(rows, way, u, g);
  }

  lemma AheadWay(rows: set<Row>, u: string, g: string, k: nat, places: set<nat>) returns (way: Way)
    requires u != [] && Ahead(rows, u, g, k, places)
    ensures AheadBy(rows, way, u, g, k, places)
  {
    way :| AheadBy(rows, way, u, g, k, places);
  }

  lemma OffWay(rows: set<Row>, u: string, g: string, k: nat, places: set<nat>, misses: bool) returns (way: Way)
    requires Off(rows, u, g, k, places, misses) && (misses ==> u != [])
    ensures OffBy(rows, way, u, g, k, places, misses)
  {
    if Spoilt(rows, u, g) {
      way := SpoiltWay(rows, u, g);
    } else {
      way := AheadWay(rows, u, g, k, places);
    }
  }

  lemma OffWeaker(rows: set<Row>, u: string, g: string, k: nat, places: set<nat>, misses: bool, more: bool)
    requires Off(rows, u, g, k, places, misses) && (misses ==> more)
    ensures Off(rows, u, g, k, places, more)
  {
  }

  /** A text that is off before a replacement, or because of it, is spoilt after it. */
  lemma {:induction false} OffStaysOff(
    rows: set<Row>, row: Row, x: string, y: string, r: string, v: string, g: string, k: nat, places: set<nat>)
    requires GoodTable(rows) && row in rows && Exchanges(row, x, y)
    requires Off(rows, r + v, g, k, places, Misses(v, x, k + |r|, places))
    ensures Spoilt(rows, r + Replace(v, x, y), g)
    decreases |r| + |v|, 1
  {
    var misses := Misses(v, x, k + |r|, places);
    var way := OffWay(rows, r + v, g, k, places, misses);
    if way.Part? {
      PartStays(rows, row, x, y, r, v, g);
    } else if Step(way) <= |r| {
      GoesBounds(rows, way, r + v, g);
      GoesInFront(rows, way, r, v, Replace(v, x, y), g);
      OffWeaker(rows, r[Step(way)..] + v, g[Goal(way)..], k + Step(way), places,
                if way.Turn? then misses && k in places else misses, misses);
      OffStaysOff(rows, row, x, y, r[Step(way)..], v, g[Goal(way)..], k + Step(way), places);
      SpoiltIntro(rows, way, r + Replace(v, x, y), g);
    } else if r == [] && v != [] && x <= v {
      assert [] + v == v && [] + Replace(v, x, y) == Replace(v, x, y);
      OffAtHit(rows, row, x, y, way, v, g, k, places);
    } else {
      OffAcross(rows, row, x, y, way, r, v, g, k, places);
    }
  }

  lemma PartStays(rows: set<Row>, row: Row, x: string, y: string, r: string, v: string, g: string)
    requires Exchanges(row, x, y) && Goes(rows, Part, r + v, g)
    ensures Spoilt(rows, r + Replace(v, x, y), g)
  {
    if r == [] {
      ReplaceStep(v, x, y);
    }
    SpoiltIntro(rows, Part, r + Replace(v, x, y), g);
  }

  lemma {:induction false} OffAtHit(
    rows: set<Row>, row: Row, x: string, y: string, way: Way, v: string, g: string, k: nat, places: set<nat>)
    requires GoodTable(rows) && row in rows && Exchanges(row, x, y)
    requires x <= v && OffBy(rows, way, v, g, k, places, Misses(v, x, k, places)) && !way.Part?
    ensures Spoilt(rows, Replace(v, x, y), g)
    decreases |v|, 0
  {
    if way.Turn? {
      SameRow(rows, row, way.row, v);
      var r, w, c := x[|row.old_|..], v[|x|..], g[|row.new_|..];
      HitParts(row.old_, x, v);
      HitsAtHit(v, x, k);
      OffWeaker(rows, r + w, c, k + |row.old_|, places, Misses(v, x, k, places) && k in places,
                Misses(w, x, k + |x|, places));
      OffStaysOff(rows, row, x, y, r, w, c, k + |row.old_|, places);
      TurnedAtHit(rows, row, x, y, v, g);
    } else {
      ReplaceStep(v, x, y);
      SpoiltIntro(rows, Part, Replace(v, x, y), g);
    }
  }

  lemma HitParts(p: string, x: string, v: string)
    requires p <= x <= v
    ensures v[|p|..] == x[|p|..] + v[|x|..]
  {
  }

  lemma SameRow(rows: set<Row>, a: Row, b: Row, v: string)
    requires GoodTable(rows) && a in rows && b in rows && a.old_ <= v && b.old_ <= v
    ensures a == b
  {
    assert GoodRow(a) && GoodRow(b);
    assert a.old_[..1] == v[..1] == b.old_[..1];
  }

  lemma TurnedAtHit(rows: set<Row>, row: Row, x: string, y: string, v: string, g: string)
    requires Exchanges(row, x, y) && x <= v && row.new_ <= g
    requires Spoilt(rows, x[|row.old_|..] + Replace(v[|x|..], x, y), g[|row.new_|..])
    ensures Spoilt(rows, Replace(v, x, y), g)
  {
    var c, r, rest := row.new_, x[|row.old_|..], Replace(v[|x|..], x, y);
    ReplaceStep(v, x, y);
    assert g == c + g[|c|..];
    SpoiltBehind(rows, c, r + rest, g[|c|..]);
    Regroup(c, r, rest);
  }

  /** The step starts in `r`, or where nothing is found, and ends in `v`. */
  lemma {:induction false} OffAcross(
    rows: set<Row>, row: Row, x: string, y: string, way: Way, r: string, v: string, g: string, k: nat,
    places: set<nat>)
    requires GoodTable(rows) && row in rows && Exchanges(row, x, y)
    requires OffBy(rows, way, r + v, g, k, places, Misses(v, x, k + |r|, places)) && !way.Part?
    requires |r| < Step(way) && (r == [] ==> !(x <= v))
    ensures Spoilt(rows, r + Replace(v, x, y), g)
    decreases |r| + |v|, 0
  {
    var d := Step(way) - |r|;
    var l, w := v[..d], v[d..];
    var c, at, misses := g[Goal(way)..], k + Step(way), Misses(v, x, k + |r|, places);
    assert v == l + w;
    AcrossSkips(rows, row, x, y, way, r, l, w, g, k + |r|);
    AcrossRest(way, r, l, w);
    OffWeaker(rows, w, c, at, places, if way.Turn? then misses && k in places else misses, Misses(w, x, at, places));
    OffAlone(rows, row, x, y, w, c, at, places);
    AcrossSpoilt(rows, way, r + l, w, Replace(w, x, y), g);
    Regroup(r, l, Replace(w, x, y));
  }

  lemma AcrossRest(way: Way, r: string, l: string, w: string)
    requires |r| + |l| == Step(way)
    ensures r + (l + w) == r + l + w && (r + (l + w))[Step(way)..] == w
  {
  }

  lemma {:induction false} OffAlone(
    rows: set<Row>, row: Row, x: string, y: string, v: string, g: string, k: nat, places: set<nat>)
    requires GoodTable(rows) && row in rows && Exchanges(row, x, y)
    requires Off(rows, v, g, k, places, Misses(v, x, k, places))
    ensures Spoilt(rows, Replace(v, x, y), g)
    decreases |v|, 2
  {
    assert [] + v == v && [] + Replace(v, x, y) == Replace(v, x, y);
    OffStaysOff(rows, row, x, y, [], v, g, k, places);
  }

  lemma AcrossSpoilt(rows: set<Row>, way: Way, p: string, w: string, out: string, g: string)
    requires Goes(rows, way, p + w, g) && !way.Part? && Step(way) == |p| && Goal(way) <= |g|
    requires Spoilt(rows, out, g[Goal(way)..])
    ensures Spoilt(rows, p + out, g)
  {
    GoesInFront(rows, way, p, w, out, g);
    assert p[|p|..] == [] && [] + out == out;
    SpoiltIntro(rows, way, p + out, g);
  }

  /** The rest of a step holds nothing to be found. */
  lemma AcrossSkips(
    rows: set<Row>, row: Row, x: string, y: string, way: Way, r: string, l: string, w: string, g: string, k: nat)
    requires Exchanges(row, x, y) && Goes(rows, way, r + (l + w), g) && !way.Part?
    requires |r| + |l| == Step(way) && l != [] && (r == [] ==> !(x <= l + w))
    ensures Replace(l + w, x, y) == l + Replace(w, x, y)
    ensures Hits(l + w, x, k) == Hits(w, x, k + |l|)
  {
    if r != [] {
      assert way.row.old_ == (r + (l + w))[..|way.row.old_|] == r + l;
      assert forall j :: 0 <= j < |l| ==> l[j] == way.row.old_[1..][|r| + j - 1];
      SkipsPiece(x, y, l, w, k);
    } else {
      assert r + (l + w) == l + w;
      assert way.Turn? ==> l == way.row.old_;
      HeadSkips(x, y, l, w, k);
    }
  }

  lemma HeadSkips(x: string, y: string, l: string, w: string, k: nat)
    requires x != [] && OldLetter(x[0]) && l != [] && NoOldLetter(l[1..]) && !(x <= l + w)
    ensures Replace(l + w, x, y) == l + Replace(w, x, y)
    ensures Hits(l + w, x, k) == Hits(w, x, k + |l|)
  {
    var t := l + w;
    assert t[1..] == l[1..] + w && t[0] == l[0] && l == [l[0]] + l[1..];
    ReplaceStep(t, x, y);
    SkipsPiece(x, y, l[1..], w, k + 1);
    Chain(Replace(t, x, y), [l[0]], Replace(t[1..], x, y), l, l[1..], Replace(w, x, y));
  }

  // ---- A renaming and its replacements ----

  /** A table and the renaming of ids it stands for. */
  datatype Renaming = Renaming(rows: set<Row>, f: string -> string)

  /** The renaming changes the id. */
  predicate Old(z: Renaming, x: string) {
    z.f(x) != x
  }

  ghost predicate RenamesAt(z: Renaming, x: string) {
    if exists row :: row in z.rows && row.old_ <= x then exists row :: row in z.rows && Exchanges(row, x, z.f(x))
    else !Old(z, x)
  }

  ghost predicate Valid(z: Renaming) {
    GoodTable(z.rows) && forall x: string :: RenamesAt(z, x)
  }

  lemma RowOf(z: Renaming, x: string) returns (row: Row)
    requires Valid(z) && Old(z, x)
    ensures row in z.rows && Exchanges(row, x, z.f(x)) && x != []
  {
    assert RenamesAt(z, x);
    row :| row in z.rows && Exchanges(row, x, z.f(x));
  }

  lemma OldNotEmpty(z: Renaming, x: string)
    requires Valid(z)
    ensures Old(z, x) ==> x != []
  {
    if Old(z, x) {
      var row := RowOf(z, x);
    }
  }

  /** The replacements of some ids by their new spellings, one after the other. */
  function ReplaceAll(z: Renaming, order: seq<string>, t: string): string {
    if order == [] then t else ReplaceAll(z, order[1..], Replace(t, order[0], z.f(order[0])))
  }

  // ---- A text with two ends ----

  /** The ends that still stand in their legacy spelling: one where `m` starts, at `k`, and one behind it. */
  function Standing(k: nat, m: string, atM: bool, atN: bool): set<nat> {
    (if atM then {k} else {}) + (if atN then {k + |m|} else {})
  }

  function Image(z: Renaming, m: string, at: bool): string {
    if at then z.f(m) else m
  }

  /** The replacements in their order act at the ends that still stand, and at nothing else, until none stands. */
  predicate Lands(z: Renaming, order: seq<string>, pre: string, m: string, n: string, atM: bool, atN: bool) {
    if order == [] then !atM && !atN
    else
      var hits := if Old(z, order[0]) then Hits(pre + m + n, order[0], 0) else {};
      var turnM, turnN := atM && |pre| in hits, atN && |pre| + |m| in hits;
      && hits <= Standing(|pre|, m, atM, atN)
      && Lands(z, order[1..], pre, Image(z, m, turnM), Image(z, n, turnN), atM && !turnM, atN && !turnN)
  }

  /** Whichever old id is found at an end, only the prefix there changes. */
  lemma TurnedIsRenamed(z: Renaming, x: string, m: string)
    requires Valid(z) && Old(z, x) && x <= m
    ensures z.f(x) + m[|x|..] == z.f(m) && Old(z, m)
  {
    var a := RowOf(z, x);
    var r, w := x[|a.old_|..], m[|x|..];
    assert x == a.old_ + r && m == x + w && a.old_ <= m;
    Regroup(a.old_, r, w);
    Regroup(a.new_, r, w);
    assert m[|a.old_|..] == r + w;
    RenamedBy(z, a, m);
  }

  lemma RenamedBy(z: Renaming, row: Row, m: string)
    requires Valid(z) && row in z.rows && row.old_ <= m
    ensures Exchanges(row, m, z.f(m)) && Old(z, m)
  {
    assert RenamesAt(z, m) && GoodRow(row);
    if r :| r in z.rows && Exchanges(r, m, z.f(m)) {
      SameRow(z.rows, row, r, m);
    }
    FirstLetterTurns(row, m, z.f(m));
  }

  lemma FirstLetterTurns(row: Row, x: string, y: string)
    requires Exchanges(row, x, y)
    ensures x != [] && y != [] && OldLetter(x[0]) && NewLetter(y[0]) && x != y
  {
    assert x[0] == row.old_[0] && y[0] == row.new_[0];
  }

  /** The scan of the second end. */
  lemma SecondEnd(z: Renaming, n: string, k: nat, atN: bool, x: string)
    requires Valid(z) && Old(z, x) && Hits(n, x, k) <= (if atN then {k} else {})
    ensures Replace(n, x, z.f(x)) == Image(z, n, atN && k in Hits(n, x, k))
  {
    var y := z.f(x);
    OldNotEmpty(z, x);
    if n != [] && x <= n {
      HitsAtHit(n, x, k);
      HitsAreAhead(n[|x|..], x, k + |x|);
      ReplaceStep(n, x, y);
      ReplaceNowhere(n[|x|..], x, y, k + |x|);
      TurnedIsRenamed(z, x, n);
    } else {
      NoHitHere(n, x, k);
      ReplaceNowhere(n, x, y, k);
    }
  }

  /** The scan of both ends where the first is not found. */
  lemma PastFirstEnd(z: Renaming, m: string, n: string, k: nat, atM: bool, atN: bool, x: string)
    requires Valid(z) && Old(z, x) && (m == [] || !(x <= m + n)) && (atM ==> m != [])
    requires Hits(m + n, x, k) <= Standing(k, m, atM, atN)
    ensures k !in Hits(m + n, x, k) || !atM
    ensures Replace(m + n, x, z.f(x)) == m + Image(z, n, atN && k + |m| in Hits(m + n, x, k))
  {
    OldNotEmpty(z, x);
    if m != [] {
      NoHitHere(m + n, x, k);
    } else {
      HitsAreAhead(m + n, x, k);
    }
    ReplaceSkips(m, n, x, z.f(x), k);
    SecondEnd(z, n, k + |m|, atN, x);
  }

  /** The scan of both ends where the first is found, by an id that ends in `m`. */
  lemma AtFirstEnd(z: Renaming, m: string, n: string, k: nat, atM: bool, atN: bool, x: string)
    requires Valid(z) && Old(z, x) && x <= m
    requires Hits(m + n, x, k) <= Standing(k, m, atM, atN)
    ensures atM && k in Hits(m + n, x, k)
    ensures Replace(m + n, x, z.f(x)) == z.f(m) + Image(z, n, atN && k + |m| in Hits(m + n, x, k))
  {
    var y, rest := z.f(x), m[|x|..];
    OldNotEmpty(z, x);
    assert (m + n)[|x|..] == rest + n;
    HitsAtHit(m + n, x, k);
    HitsAreAhead(rest + n, x, k + |x|);
    ReplaceStep(m + n, x, y);
    ReplaceSkips(rest, n, x, y, k + |x|);
    SecondEnd(z, n, k + |m|, atN, x);
    TurnedIsRenamed(z, x, m);
    Regroup(y, rest, Replace(n, x, y));
  }

  /** The same by an id that reaches into the second end, which the scan then passes over. */
  lemma OverFirstEnd(z: Renaming, m: string, n: string, k: nat, atM: bool, atN: bool, x: string)
    requires Valid(z) && Old(z, x) && m != [] && x <= m + n && |m| < |x| && (atM ==> Old(z, m))
    requires Hits(m + n, x, k) <= Standing(k, m, atM, atN)
    ensures atM && k in Hits(m + n, x, k) && k + |m| !in Hits(m + n, x, k)
    ensures Replace(m + n, x, z.f(x)) == z.f(m) + n
  {
    var y, rest := z.f(x), (m + n)[|x|..];
    OldNotEmpty(z, x);
    HitsAtHit(m + n, x, k);
    HitsAreAhead(rest, x, k + |x|);
    ReplaceStep(m + n, x, y);
    ReplaceNowhere(rest, x, y, k + |x|);
    TurnedIsRenamed(z, x, m + n);
    TurnedIsRenamed(z, m, m + n);
    assert (m + n)[|m|..] == n;
  }

  lemma BothEnds(z: Renaming, m: string, n: string, k: nat, atM: bool, atN: bool, x: string)
    requires Valid(z) && Old(z, x) && (atM ==> Old(z, m)) && (atN ==> Old(z, n))
    requires Hits(m + n, x, k) <= Standing(k, m, atM, atN)
    ensures var hits := Hits(m + n, x, k);
            Replace(m + n, x, z.f(x)) == Image(z, m, atM && k in hits) + Image(z, n, atN && k + |m| in hits)
  {
    OldNotEmpty(z, m);
    if m == [] || !(x <= m + n) {
      PastFirstEnd(z, m, n, k, atM, atN, x);
    } else if |x| <= |m| {
      assert x <= m;
      AtFirstEnd(z, m, n, k, atM, atN, x);
    } else {
      OverFirstEnd(z, m, n, k, atM, atN, x);
    }
  }

  /** One replacement that acts at standing ends only turns these. */
  lemma PassLands(z: Renaming, pre: string, m: string, n: string, atM: bool, atN: bool, x: string, hits: set<nat>)
    requires Valid(z) && Old(z, x) && (atM ==> Old(z, m)) && (atN ==> Old(z, n))
    requires hits == Hits(pre + m + n, x, 0) && hits <= Standing(|pre|, m, atM, atN)
    ensures Replace(pre + m + n, x, z.f(x))
            == pre + Image(z, m, atM && |pre| in hits) + Image(z, n, atN && |pre| + |m| in hits)
  {
    var v, w := Image(z, m, atM && |pre| in hits), Image(z, n, atN && |pre| + |m| in hits);
    OldNotEmpty(z, x);
    StandingIsAhead(|pre|, m, atM, atN);
    FrontIsKept(pre, m, n, x, z.f(x));
    BothEnds(z, m, n, |pre|, atM, atN, x);
    Regroup(pre, v, w);
  }

  lemma StandingIsAhead(k: nat, m: string, atM: bool, atN: bool)
    ensures forall h :: h in Standing(k, m, atM, atN) ==> h >= k
  {
  }

  // ---- The goal ahead ----

  /** An end, standing or not, with whatever follows it. */
  lemma AheadAtEnd(z: Renaming, m: string, at: bool, u: string, g: string, k: nat, places: set<nat>)
    requires Valid(z) && (at ==> Old(z, m)) && (m != [] ==> (k in places <==> at))
    requires Ahead(z.rows, u, g, k + |m|, places) && forall h :: h in places ==> !(k < h < k + |m|)
    ensures Ahead(z.rows, m + u, Image(z, m, at) + g, k, places)
  {
    if at {
      var row := RowOf(z, m);
      TurnAhead(z.rows, row, m, z.f(m), u, g, k, places);
    } else {
      AheadBehind(z.rows, m, u, g, k, places);
    }
  }

  lemma LastEndAhead(z: Renaming, n: string, at: bool, k: nat, places: set<nat>)
    requires Valid(z) && (at ==> Old(z, n)) && (n != [] ==> (k in places <==> at)) && forall h :: h in places ==> h <= k
    ensures Ahead(z.rows, n, Image(z, n, at), k, places)
  {
    assert n + [] == n && Image(z, n, at) + [] == Image(z, n, at);
    AheadAtEnd(z, n, at, [], [], k, places);
  }

  lemma EndsAhead(z: Renaming, m: string, n: string, k: nat, atM: bool, atN: bool)
    requires Valid(z) && (atM ==> Old(z, m)) && (atN ==> Old(z, n))
    ensures Ahead(z.rows, m + n, Image(z, m, atM) + Image(z, n, atN), k, Standing(k, m, atM, atN))
  {
    var places := Standing(k, m, atM, atN);
    OldNotEmpty(z, m);
    OldNotEmpty(z, n);
    LastEndAhead(z, n, atN, k + |m|, places);
    AheadAtEnd(z, m, atM, n, Image(z, n, atN), k, places);
  }

  lemma GoalAhead(z: Renaming, pre: string, m: string, n: string, atM: bool, atN: bool)
    requires Valid(z) && (atM ==> Old(z, m)) && (atN ==> Old(z, n))
    ensures Ahead(z.rows, pre + m + n, pre + Image(z, m, atM) + Image(z, n, atN), 0, Standing(|pre|, m, atM, atN))
  {
    EndsAhead(z, m, n, |pre|, atM, atN);
    InFront(z.rows, pre, m, n, Image(z, m, atM), Image(z, n, atN), Standing(|pre|, m, atM, atN));
  }

  lemma InFront(rows: set<Row>, pre: string, m: string, n: string, v: string, w: string, places: set<nat>)
    requires Ahead(rows, m + n, v + w, |pre|, places) && forall h :: h in places ==> h >= |pre|
    ensures Ahead(rows, pre + m + n, pre + v + w, 0, places)
  {
    AheadBehind(rows, pre, m + n, v + w, 0, places);
    Regroup(pre, m, n);
    Regroup(pre, v, w);
  }

  /** While an end stands, the goal is not reached. */
  lemma StandingDiffers(z: Renaming, pre: string, m: string, n: string, atM: bool, atN: bool)
    requires Valid(z) && (atM ==> Old(z, m)) && (atN ==> Old(z, n)) && (atM || atN)
    ensures pre + m + n != pre + Image(z, m, atM) + Image(z, n, atN)
  {
    var u, g := pre + m + n, pre + Image(z, m, atM) + Image(z, n, atN);
    if atM {
      var row := RowOf(z, m);
      FirstLetterTurns(row, m, z.f(m));
      assert u[|pre|] == m[0] && g[|pre|] == z.f(m)[0];
    } else {
      var row := RowOf(z, n);
      FirstLetterTurns(row, n, z.f(n));
      assert u[|pre + m|] == n[0] && g[|pre + m|] == z.f(n)[0];
    }
  }

  // ---- All replacements ----

  /** Once a text is spoilt, no later replacement mends it. */
  lemma {:induction false} SpoiltForGood(z: Renaming, order: seq<string>, u: string, g: string)
    requires Valid(z) && Spoilt(z.rows, u, g)
    ensures ReplaceAll(z, order, u) != g
  {
    if order == [] {
      SpoiltDiffers(z.rows, u, g);
    } else {
      var x := order[0];
      if Old(z, x) {
        var row := RowOf(z, x);
        OffAlone(z.rows, row, x, z.f(x), u, g, 0, {});
      } else {
        ReplaceBySelf(u, x);
      }
      SpoiltForGood(z, order[1..], Replace(u, x, z.f(x)), g);
    }
  }

  lemma {:induction false} ReachesGoalIff(
    z: Renaming, order: seq<string>, pre: string, m: string, n: string, atM: bool, atN: bool)
    requires Valid(z) && (atM ==> Old(z, m)) && (atN ==> Old(z, n))
    ensures ReplaceAll(z, order, pre + m + n) == pre + Image(z, m, atM) + Image(z, n, atN)
            <==> Lands(z, order, pre, m, n, atM, atN)
    decreases order, 1
  {
    if order == [] {
      if atM || atN {
        StandingDiffers(z, pre, m, n, atM, atN);
      }
    } else if !Old(z, order[0]) {
      ReplaceBySelf(pre + m + n, order[0]);
      ReachesGoalIff(z, order[1..], pre, m, n, atM, atN);
    } else {
      OldTurnIff(z, order, pre, m, n, atM, atN);
    }
  }

  lemma {:induction false} OldTurnIff(
    z: Renaming, order: seq<string>, pre: string, m: string, n: string, atM: bool, atN: bool)
    requires Valid(z) && (atM ==> Old(z, m)) && (atN ==> Old(z, n)) && order != [] && Old(z, order[0])
    ensures ReplaceAll(z, order, pre + m + n) == pre + Image(z, m, atM) + Image(z, n, atN)
            <==> Lands(z, order, pre, m, n, atM, atN)
    decreases order, 0
  {
    var x, hits := order[0], Hits(pre + m + n, order[0], 0);
    if hits <= Standing(|pre|, m, atM, atN) {
      PassLands(z, pre, m, n, atM, atN, x, hits);
      var turnM, turnN := atM && |pre| in hits, atN && |pre| + |m| in hits;
      ReachesGoalIff(z, order[1..], pre, Image(z, m, turnM), Image(z, n, turnN), atM && !turnM, atN && !turnN);
    } else {
      var g, places := pre + Image(z, m, atM) + Image(z, n, atN), Standing(|pre|, m, atM, atN);
      GoalAhead(z, pre, m, n, atM, atN);
      assert Misses(pre + m + n, x, 0, places);
      var row := RowOf(z, x);
      OffAlone(z.rows, row, x, z.f(x), pre + m + n, g, 0, places);
      SpoiltForGood(z, order[1..], Replace(pre + m + n, x, z.f(x)), g);
    }
  }

  lemma ImageOfEnd(z: Renaming, a: string, tail: string)
    requires Valid(z)
    ensures Image(z, a + tail, Old(z, a)) == z.f(a) + tail && (Old(z, a) ==> Old(z, a + tail))
  {
    if Old(z, a) {
      assert (a + tail)[|a|..] == tail;
      TurnedIsRenamed(z, a, a + tail);
    }
  }

  lemma {:induction false} LandsNowhere(z: Renaming, order: seq<string>, t: string)
    requires Valid(z)
    ensures Lands(z, order, t, [], [], false, false) <==> forall x :: x in order && Old(z, x) ==> !Occurs(x, t)
  {
    if order != [] {
      var x, rest := order[0], order[1..];
      assert t + [] + [] == t;
      LandsNowhere(z, rest, t);
      assert forall z :: z in order <==> z == x || z in rest;
      if Old(z, x) {
        OldNotEmpty(z, x);
        HitsIffOccurs(t, x, 0);
      }
    }
  }
}
