/** What a template evaluates to: the texts between its references, and the values of the references. */
module TemplateValues {
  import opened PyValues
  import opened Text
  import opened References
  import opened ReferenceScan
  import opened Templates
  import opened ReferencePreservation

  /** What a reference names: an output of a component, or a global of the canvas. */
  datatype Named = OfComponent(id: string, name: string) | OfCanvas(key: string)

  /** A piece of a template. Around the braces that hold the name of a variable more braces and blanks may stand:
      `lead` and `gap` in front of them, `trail` and `closing` behind them. */
  datatype Part =
    | Plain(text: string)
    | Variable(lead: string, gap: string, named: Named, trail: string, closing: string)

  function NameText(n: Named): string {
    match n
    case OfComponent(id, name) => id + ("@" + name)
    case OfCanvas(key) => key
  }

  /** The text of a template that begins with `p` and goes on with `rest`. */
  function Spelled(p: Part, rest: string): string {
    match p
    case Plain(text) => text + rest
    case Variable(lead, gap, named, trail, closing) =>
      lead + (gap + (['{'] + (NameText(named) + (['}'] + (trail + (closing + rest))))))
  }

  function TemplateText(parts: seq<Part>): string {
    if parts == [] then [] else Spelled(parts[0], TemplateText(parts[1..]))
  }

  predicate NameShaped(n: Named) {
    match n
    case OfComponent(id, name) => id != [] && All(id, RuntimeIdChar) && name != [] && All(name, VarChar)
    case OfCanvas(key) => GlobalKey(key)
  }

  /** A plain text holds no opening brace, and blanks at its end belong to the reference behind it; the blanks and
      braces behind a reference belong to it. */
  predicate Fits(p: Part, rest: string) {
    match p
    case Plain(text) => text != [] && All(text, NotOpen) && (rest == [] || !Blank(text[|text| - 1]))
    case Variable(lead, gap, named, trail, closing) =>
      && All(lead, Open) && All(gap, Blank) && NameShaped(named) && All(trail, Blank) && All(closing, Close)
      && Stops(rest, Close) && (closing == [] ==> Stops(rest, Blank))
  }

  ghost predicate Proper(parts: seq<Part>) {
    forall i :: 0 <= i < |parts| ==> Fits(parts[i], TemplateText(parts[i + 1..]))
  }

  /** The value of a part; None where the component or the global is unknown. */
  function PartValue(st: Store, p: Part): Option<string> {
    match p
    case Plain(text) => Some(text)
    case Variable(_, _, OfComponent(id, name), _, _) =>
      if id in st.outputs then Some(st.outputs[id](name)) else None
    case Variable(_, _, OfCanvas(key), _, _) => if key in st.globals then Some(st.globals[key]) else None
  }

  function Values(st: Store, parts: seq<Part>): string
    requires forall i :: 0 <= i < |parts| ==> PartValue(st, parts[i]).Some?
  {
    if parts == [] then [] else PartValue(st, parts[0]).value + Values(st, parts[1..])
  }

  // ---- One reference ----

  function VarOf(n: Named, rest: string): VarMatch {
    match n
    case OfComponent(id, name) => OutputVar(id, name, rest)
    case OfCanvas(key) => GlobalVar(key, rest)
  }

  lemma TrailSkipped(trail: string, closing: string, rest: string)
    requires All(trail, Blank) && All(closing, Close) && Stops(rest, Close) && (closing == [] ==> Stops(rest, Blank))
    ensures SkipTrail(trail + (closing + rest)) == rest
  {
    TakeConcat(closing, rest, Close);
    if closing == [] {
      assert closing + rest == rest;
    }
    TakeConcat(trail, closing + rest, Blank);
  }

  /** The first three characters of `sys.` and `env.` are letters, so no `@` follows the id they would be. */
  lemma GlobalIsNoOutput(key: string, end: string)
    requires GlobalKey(key)
    ensures OutputRef(key + end).NoVar?
  {
    var head := Lower(key[..4]);
    assert head[0] == LowerChar(key[0]) && head[1] == LowerChar(key[1]);
    assert head[2] == LowerChar(key[2]) && head[3] == LowerChar(key[3]) == '.';
    var more := key[3..] + end;
    assert key + end == key[..3] + more && more[0] == key[3];
    TakeConcat(key[..3], more, RuntimeIdChar);
  }

  lemma BodyOfNamed(n: Named, tl: string)
    requires NameShaped(n)
    ensures RefBody(NameText(n) + (['}'] + tl)) == VarOf(n, SkipTrail(tl))
  {
    var end := ['}'] + tl;
    match n {
      case OfComponent(id, name) =>
        assert NameText(n) + end == id + (['@'] + (name + end));
        TakeConcat(id, ['@'] + (name + end), RuntimeIdChar);
        TakeConcat(name, end, VarChar);
        assert (['@'] + (name + end))[1..] == name + end && end[1..] == tl;
      case OfCanvas(key) =>
        GlobalIsNoOutput(key, end);
        GlobalOfWritten(key, tl);
    }
  }

  lemma NamedIsNoBrace(n: Named, end: string)
    requires NameShaped(n)
    ensures var x := NameText(n) + end; x != [] && !Open(x[0]) && !Blank(x[0])
  {
    var x := NameText(n) + end;
    match n {
      case OfComponent(id, _) => assert x[0] == id[0];
      case OfCanvas(key) =>
        assert x[0] == key[0] && Lower(key[..4])[0] == LowerChar(key[0]);
    }
  }

  lemma BracesTaken(lead: string, gap: string, x: string)
    requires All(lead, Open) && All(gap, Blank) && x != [] && !Open(x[0]) && !Blank(x[0])
    ensures MatchVar(lead + (gap + (['{'] + x))) == RefBody(x)
  {
    var t := lead + (gap + (['{'] + x));
    if gap == [] {
      assert t == (lead + ['{']) + x;
      TakeConcat(lead + ['{'], x, Open);
      TakeConcat([], x, Blank);
      assert [] + x == x;
    } else {
      TakeConcat(lead, gap + (['{'] + x), Open);
      TakeConcat(gap, ['{'] + x, Blank);
      assert (['{'] + x)[1..] == x;
    }
  }

  lemma VariableIsMatched(p: Part, rest: string)
    requires p.Variable? && Fits(p, rest)
    ensures MatchVar(Spelled(p, rest)) == VarOf(p.named, rest)
  {
    var tl := p.trail + (p.closing + rest);
    var x := NameText(p.named) + (['}'] + tl);
    NamedIsNoBrace(p.named, ['}'] + tl);
    BracesTaken(p.lead, p.gap, x);
    BodyOfNamed(p.named, tl);
    TrailSkipped(p.trail, p.closing, rest);
  }

  /** Text without an opening brace is copied. */
  lemma {:induction false} PlainIsCopied(st: Store, a: string)
    requires All(a, NotOpen)
    ensures Evaluate(st, a) == Some(a)
  {
    if a != [] {
      TakeConcat([], a, Open);
      assert [] + a == a;
      var p := Take(a, Blank);
      if p.tail != [] {
        assert a[|p.head|] == p.tail[0];
      }
      PlainIsCopied(st, a[1..]);
      assert a == [a[0]] + a[1..];
    }
  }

  lemma PartIsRendered(st: Store, p: Part, rest: string)
    requires Fits(p, rest)
    ensures Evaluate(st, Spelled(p, rest))
            == if PartValue(st, p).None? then None else Prepend(PartValue(st, p).value, Evaluate(st, rest))
  {
    if p.Variable? {
      VariableIsMatched(p, rest);
      assert Spelled(p, rest) != [];
      EvaluateVar(st, Spelled(p, rest));
    } else if rest == [] {
      assert p.text + rest == p.text;
      PlainIsCopied(st, p.text);
    } else {
      EvaluateCopies(st, p.text, rest);
    }
  }

  /** A template is rendered part by part: its texts are copied, each reference is replaced by the value of what it
      names, and a reference to nothing known makes the whole evaluation raise. */
  lemma {:induction false} TemplateIsRendered(st: Store, parts: seq<Part>)
    requires Proper(parts)
    ensures Evaluate(st, TemplateText(parts))
            == if forall i :: 0 <= i < |parts| ==> PartValue(st, parts[i]).Some? then Some(Values(st, parts)) else None
  {
    if parts != [] {
      var p, more := parts[0], parts[1..];
      assert forall i :: 0 <= i < |more| ==> more[i] == parts[i + 1] && more[i + 1..] == parts[i + 2..];
      TemplateIsRendered(st, more);
      PartIsRendered(st, p, TemplateText(more));
    }
  }
}
