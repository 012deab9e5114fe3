/** The shell's characters and tokens: lexing, rendering a tree as text, and the strings nulterminate leaves. */
module ShLex {
  import opened ShModel

  const WHITESPACE: string := [' ', '\t', '\r', '\n', '\U{0B}']
  const SYMBOLS: string := "<|>&;()"

  predicate Space(c: char) { c in WHITESPACE }

  predicate Symbol(c: char) { c in SYMBOLS }

  predicate WordChar(c: char) { !Space(c) && !Symbol(c) }

  function Skip(s: string, p: nat): (q: nat)
    requires p <= |s|
    ensures p <= q <= |s| && (q < |s| ==> !Space(s[q]))
    decreases |s| - p
  {
    if p < |s| && Space(s[p]) then Skip(s, p + 1) else p
  }

  function WordEnd(s: string, p: nat): (e: nat)
    requires p <= |s|
    ensures p <= e <= |s| && (e < |s| ==> !WordChar(s[e])) && forall i :: p <= i < e ==> WordChar(s[i])
    decreases |s| - p
  {
    if p < |s| && WordChar(s[p]) then WordEnd(s, p + 1) else p
  }

  /** The token at p and where it ends. */
  function TokAt(s: string, p: nat): (r: (Tok, nat))
    requires p < |s| && !Space(s[p])
    ensures p < r.1 <= |s|
  {
    if s[p] == '>' && p + 1 < |s| && s[p + 1] == '>' then (Tok('+', ">>", 0), p + 2)
    else if Symbol(s[p]) then (Sym(s[p]), p + 1)
    else (Tok('a', s[p..WordEnd(s, p)], p), WordEnd(s, p))
  }

  /** The tokens of s from p on. */
  function Lex(s: string, p: nat): (ts: seq<Tok>)
    requires p <= |s|
    decreases |s| - p
  {
    var q := Skip(s, p);
    if q == |s| then [] else [TokAt(s, q).0] + Lex(s, TokAt(s, q).1)
  }

  lemma {:induction false} SkipSkip(s: string, p: nat)
    requires p <= |s|
    ensures Skip(s, Skip(s, p)) == Skip(s, p) && Lex(s, Skip(s, p)) == Lex(s, p)
    decreases |s| - p
  {
    if p < |s| && Space(s[p]) { SkipSkip(s, p + 1); }
  }

  // ------------------------------------------------------------- rendering

  function Text(t: Tok): (r: string) { if t.kind == 'a' then " " + t.text else t.text }

  function Render(ts: seq<Tok>): (r: string) { if ts == [] then "" else Text(ts[0]) + Render(ts[1..]) }

  /** Where the words of a rendered token list begin. */
  function Locate(ts: seq<Tok>, pos: nat): (r: seq<Tok>)
    ensures |r| == |ts|
    decreases |ts|
  {
    if ts == [] then []
    else [if ts[0].kind == 'a' then ts[0].(q := pos + 1) else ts[0]] + Locate(ts[1..], pos + |Text(ts[0])|)
  }

  /** A word that lexes as one, or a symbol. */
  predicate TokOk(t: Tok) {
    if t.kind == 'a' then t.text != "" && forall i :: 0 <= i < |t.text| ==> WordChar(t.text[i])
    else if t.kind == '+' then t == Tok('+', ">>", 0)
    else Symbol(t.kind) && t == Sym(t.kind)
  }

  predicate WordAfter(ts: seq<Tok>, i: nat)
    requires i < |ts|
  {
    ts[i].kind == '>' || ts[i].kind == '+' ==> i + 1 < |ts| && ts[i + 1].kind == 'a'
  }

  /** Tokens that lex back one by one: a '>' or a '>>' is always followed by a word. */
  ghost predicate Renderable(ts: seq<Tok>) {
    (forall i :: 0 <= i < |ts| ==> TokOk(ts[i])) && forall i: nat :: i < |ts| ==> WordAfter(ts, i)
  }

  lemma {:induction false} RenderAppend(a: seq<Tok>, b: seq<Tok>)
    ensures Render(a + b) == Render(a) + Render(b)
    decreases |a|
  {
    if a == [] {
      assert a + b == b;
    } else {
      assert (a + b)[1..] == a[1..] + b;
      RenderAppend(a[1..], b);
    }
  }

  lemma {:induction false} LocateAppend(a: seq<Tok>, b: seq<Tok>, pos: nat)
    ensures Locate(a + b, pos) == Locate(a, pos) + Locate(b, pos + |Render(a)|)
    decreases |a|
  {
    if a == [] {
      assert a + b == b;
    } else {
      var e := pos + |Text(a[0])|;
      assert (a + b)[1..] == a[1..] + b && (a + b)[0] == a[0];
      LocateAppend(a[1..], b, e);
      assert e + |Render(a[1..])| == pos + |Render(a)|;
      LocateHead(a + b, pos, e);
      LocateHead(a, pos, e);
    }
  }

  lemma LocateHead(ts: seq<Tok>, pos: nat, e: nat)
    requires ts != [] && e == pos + |Text(ts[0])|
    ensures Locate(ts, pos) == [Put(ts[0], pos)] + Locate(ts[1..], e)
  {
  }

  lemma RenderableAppend(a: seq<Tok>, b: seq<Tok>)
    requires Renderable(a) && Renderable(b)
    ensures Renderable(a + b)
  {
    forall i: nat | i < |a + b| ensures WordAfter(a + b, i) {
      if i < |a| { assert WordAfter(a, i); } else { assert WordAfter(b, i - |a|); }
    }
  }

  lemma {:induction false} WordEndIs(s: string, p: nat, e: nat)
    requires p <= e <= |s| && (forall i :: p <= i < e ==> WordChar(s[i])) && (e < |s| ==> !WordChar(s[e]))
    ensures WordEnd(s, p) == e
    decreases e - p
  {
    if p < e { WordEndIs(s, p + 1, e); }
  }

  /** What follows a word in rendered text is no word character. */
  lemma RenderHead(ts: seq<Tok>)
    requires Renderable(ts) && ts != []
    ensures Render(ts) != "" && !WordChar(Render(ts)[0])
    ensures ts[0].kind == 'a' <==> Render(ts)[0] == ' '
    ensures ts[0].kind != 'a' ==> Render(ts)[0] == First(ts[0])
  {
    assert TokOk(ts[0]);
  }

  /** The token u stands at p and ends at e. */
  ghost predicate Next(s: string, p: nat, u: Tok, e: nat) {
    p <= |s| && e <= |s| && Lex(s, p) == [u] + Lex(s, e)
  }

  function Put(t: Tok, p: nat): (u: Tok) { if t.kind == 'a' then t.(q := p + 1) else t }

  /** The first token of rendered text, when what follows it is no word character. */
  lemma LexStep(s: string, p: nat, t: Tok, e: nat)
    requires TokOk(t) && e == p + |Text(t)| <= |s| && s[p..e] == Text(t) && (e < |s| ==> !WordChar(s[e]))
    requires t.kind == '>' ==> e < |s| && s[e] == ' '
    ensures Next(s, p, Put(t, p), e)
  {
    assert s[p] == s[p..e][0];
    if t.kind == 'a' {
      assert s[p + 1..e] == s[p..e][1..] == t.text;
      LexWord(s, p, t, e);
    } else if t.kind == '+' {
      assert s[p + 1] == s[p..e][1];
      assert Skip(s, p) == p && TokAt(s, p) == (t, p + 2);
    } else {
      LexSymbol(s, p, t);
    }
  }

  lemma TextFirst(pre: string, ts: seq<Tok>, s: string, p: nat, e: nat)
    requires ts != [] && s == pre + Render(ts) && p == |pre| && e == p + |Text(ts[0])|
    ensures e <= |s| && s[p..e] == Text(ts[0]) && s[e..] == Render(ts[1..])
  {
    Behind(pre, Text(ts[0]), Render(ts[1..]), s, p, e);
  }

  lemma Behind(pre: string, a: string, b: string, s: string, p: nat, e: nat)
    requires s == pre + (a + b) && p == |pre| && e == p + |a|
    ensures s[p..e] == a && s[e..] == b
  {
  }

  /** What follows the first token ends it. */
  lemma AfterFirst(ts: seq<Tok>)
    requires Renderable(ts) && ts != []
    ensures var r := Render(ts[1..]);
      (r != "" ==> !WordChar(r[0])) && (ts[0].kind == '>' ==> r != "" && r[0] == ' ') && TokOk(ts[0])
  {
    assert WordAfter(ts, 0);
    if ts[1..] != [] {
      RenderableTail(ts);
      RenderHead(ts[1..]);
    }
  }

  lemma LexFirst(pre: string, ts: seq<Tok>, s: string, p: nat, e: nat)
    requires Renderable(ts) && ts != [] && s == pre + Render(ts) && p == |pre| && e == p + |Text(ts[0])|
    ensures Next(s, p, Put(ts[0], p), e)
  {
    AfterFirst(ts);
    TextFirst(pre, ts, s, p, e);
    assert e < |s| ==> s[e] == s[e..][0];
    LexStep(s, p, ts[0], e);
  }

  /** Lexing inverts rendering, with every word where it was put. */
  lemma {:induction false} LexRender(pre: string, ts: seq<Tok>, s: string, p: nat)
    requires Renderable(ts) && s == pre + Render(ts) && p == |pre|
    ensures Lex(s, p) == Locate(ts, p)
    decreases |ts|
  {
    if ts == [] {
      assert p == |s|;
    } else {
      var t, us, e := ts[0], ts[1..], p + |Text(ts[0])|;
      RenderableTail(ts);
      var pre' := pre + Text(t);
      assert s == pre' + Render(us);
      LexFirst(pre, ts, s, p, e);
      LexRender(pre', us, s, e);
      LocateHead(ts, p, e);
    }
  }

  lemma RenderableTail(ts: seq<Tok>)
    requires Renderable(ts) && ts != []
    ensures Renderable(ts[1..])
  {
    forall i: nat | i < |ts[1..]| ensures WordAfter(ts[1..], i) { assert WordAfter(ts, i + 1); }
  }

  lemma LexWord(s: string, p: nat, t: Tok, e: nat)
    requires TokOk(t) && t.kind == 'a' && e == p + 1 + |t.text| <= |s| && s[p] == ' ' && s[p + 1..e] == t.text
    requires e < |s| ==> !WordChar(s[e])
    ensures Next(s, p, t.(q := p + 1), e)
  {
    forall i | p + 1 <= i < e ensures WordChar(s[i]) { assert s[i] == t.text[i - p - 1]; }
    WordEndIs(s, p + 1, e);
    assert Skip(s, p) == p + 1;
    assert TokAt(s, p + 1) == (t.(q := p + 1), e);
  }

  lemma LexSymbol(s: string, p: nat, t: Tok)
    requires TokOk(t) && t.kind != 'a' && t.kind != '+' && p < |s| && s[p] == t.kind
    requires t.kind == '>' ==> p + 1 < |s| && s[p + 1] == ' '
    ensures Next(s, p, t, p + 1)
  {
    assert Skip(s, p) == p;
    assert TokAt(s, p) == (t, p + 1);
  }

  // ---------------------------------------------------- placing a tree's words

  /** The words of the tree can be lexed as words. */
  predicate Wordy(t: Cmd) {
    match t
    case Exec(argv) => forall i :: 0 <= i < |argv| ==> TokOk(argv[i]) && argv[i].kind == 'a'
    case Redir(c, file, _) => Wordy(c) && TokOk(file) && file.kind == 'a'
    case Pipe(l, r) => Wordy(l) && Wordy(r)
    case List(l, r) => Wordy(l) && Wordy(r)
    case Back(c) => Wordy(c)
  }

  function Width(t: Cmd, level: nat): (n: nat) { |Render(Print(t, level))| }

  /** The tree with its words where rendering at pos puts them. */
  function Place(t: Cmd, level: nat, pos: nat): (r: Cmd) {
    match t
    case Exec(argv) => Exec(Locate(argv, pos))
    case Redir(c, file, out) => Redir(Place(c, 3, pos), file.(q := pos + Width(c, 3) + 2), out)
    case Pipe(l, r) =>
      var p := if level <= 2 then pos else pos + 1;
      Pipe(Place(l, 3, p), Place(r, 2, p + Width(l, 3) + 1))
    case Back(c) => Back(Place(c, 1, if level <= 1 then pos else pos + 1))
    case List(l, r) =>
      var p := if level <= 0 then pos else pos + 1;
      List(Place(l, 1, p), Place(r, 0, p + Width(l, 1) + 1))
  }

  /** The tree without positions. */
  function Plain(t: Cmd): (r: Cmd) {
    match t
    case Exec(argv) => Exec(seq(|argv|, i requires 0 <= i < |argv| => argv[i].(q := 0)))
    case Redir(c, file, out) => Redir(Plain(c), file.(q := 0), out)
    case Pipe(l, r) => Pipe(Plain(l), Plain(r))
    case List(l, r) => List(Plain(l), Plain(r))
    case Back(c) => Back(Plain(c))
  }

  lemma {:induction false} LocateWord(ts: seq<Tok>, pos: nat, i: nat)
    requires i < |ts|
    ensures Locate(ts, pos)[i].(q := 0) == ts[i].(q := 0) && Locate(ts, pos)[i].kind == ts[i].kind
    decreases |ts|
  {
    if i > 0 { LocateWord(ts[1..], pos + |Text(ts[0])|, i - 1); }
  }

  lemma {:induction false} PlacePlain(t: Cmd, level: nat, pos: nat)
    ensures Plain(Place(t, level, pos)) == Plain(t) && (Proper(t) ==> Proper(Place(t, level, pos)))
    decreases t
  {
    match t
    case Exec(argv) =>
      forall i | 0 <= i < |argv|
        ensures Locate(argv, pos)[i].(q := 0) == argv[i].(q := 0) && Locate(argv, pos)[i].kind == argv[i].kind
      {
        LocateWord(argv, pos, i);
      }
    case Redir(c, _, _) => PlacePlain(c, 3, pos);
    case Pipe(l, r) =>
      var p := if level <= 2 then pos else pos + 1;
      PlacePlain(l, 3, p);
      PlacePlain(r, 2, p + Width(l, 3) + 1);
    case Back(c) => PlacePlain(c, 1, if level <= 1 then pos else pos + 1);
    case List(l, r) =>
      var p := if level <= 0 then pos else pos + 1;
      PlacePlain(l, 1, p);
      PlacePlain(r, 0, p + Width(l, 1) + 1);
  }

  lemma LocateSym(c: char, pos: nat)
    requires c != 'a'
    ensures Locate([Sym(c)], pos) == [Sym(c)] && |Render([Sym(c)])| == 1
  {
    assert [Sym(c)][1..] == [];
  }

  /** Two parts around a symbol. */
  lemma LocateTwo(a: seq<Tok>, c: char, b: seq<Tok>, pos: nat)
    requires c != 'a'
    ensures Locate(a + [Sym(c)] + b, pos) == Locate(a, pos) + [Sym(c)] + Locate(b, pos + |Render(a)| + 1)
  {
    LocateAppend(a + [Sym(c)], b, pos);
    LocateAppend(a, [Sym(c)], pos);
    LocateSym(c, pos + |Render(a)|);
    RenderAppend(a, [Sym(c)]);
  }

  lemma LocateParens(level: nat, most: nat, body: seq<Tok>, pos: nat)
    ensures Locate(Parens(level, most, body), pos) ==
      Parens(level, most, Locate(body, if level <= most then pos else pos + 1))
  {
    if level > most { LocateClosed(body, pos); }
  }

  lemma LocateClosed(body: seq<Tok>, pos: nat)
    ensures Locate([Sym('(')] + body + [Sym(')')], pos) == [Sym('(')] + Locate(body, pos + 1) + [Sym(')')]
  {
    var x := [Sym('(')] + body;
    var q := pos + |Render(x)|;
    calc {
      Locate(x + [Sym(')')], pos);
    ==  { LocateAppend(x, [Sym(')')], pos); }
      Locate(x, pos) + Locate([Sym(')')], q);
    ==  { LocateSym(')', q); }
      Locate(x, pos) + [Sym(')')];
    ==  { LocateOpen(body, pos); }
      [Sym('(')] + Locate(body, pos + 1) + [Sym(')')];
    }
  }

  lemma LocateOpen(body: seq<Tok>, pos: nat)
    ensures Locate([Sym('(')] + body, pos) == [Sym('(')] + Locate(body, pos + 1)
  {
    LocateAppend([Sym('(')], body, pos);
    LocateSym('(', pos);
  }

  /** Two parts with a symbol between them, in parentheses where the level asks for them. */
  lemma LocateJoin(a: seq<Tok>, c: char, b: seq<Tok>, level: nat, most: nat, pos: nat)
    requires c != 'a'
    ensures var p := if level <= most then pos else pos + 1;
      Locate(Parens(level, most, a + [Sym(c)] + b), pos) ==
      Parens(level, most, Locate(a, p) + [Sym(c)] + Locate(b, p + |Render(a)| + 1))
  {
    var p := if level <= most then pos else pos + 1;
    var body := a + [Sym(c)] + b;
    assert Locate(body, p) == Locate(a, p) + [Sym(c)] + Locate(b, p + |Render(a)| + 1) by { LocateTwo(a, c, b, p); }
    assert Locate(Parens(level, most, body), pos) == Parens(level, most, Locate(body, p)) by {
      LocateParens(level, most, body, pos);
    }
  }

  ghost predicate Placed(t: Cmd, level: nat, pos: nat) {
    Print(Place(t, level, pos), level) == Locate(Print(t, level), pos)
  }

  lemma PlaceRedir(c: Cmd, file: Tok, out: bool, level: nat, pos: nat)
    requires Placed(c, 3, pos) && file.kind == 'a'
    ensures Placed(Redir(c, file, out), level, pos)
  {
    var sym := Sym(if out then '>' else '<');
    LocateTwo(Print(c, 3), sym.kind, [file], pos);
    assert [file][1..] == [];
    assert Locate([file], pos + Width(c, 3) + 1) == [file.(q := pos + Width(c, 3) + 2)];
    assert Print(c, 3) + [sym, file] == Print(c, 3) + [sym] + [file];
  }

  lemma PlacePipe(l: Cmd, r: Cmd, level: nat, pos: nat)
    requires var p := if level <= 2 then pos else pos + 1; Placed(l, 3, p) && Placed(r, 2, p + Width(l, 3) + 1)
    ensures Placed(Pipe(l, r), level, pos)
  {
    var p := if level <= 2 then pos else pos + 1;
    var a, b, q := Print(l, 3), Print(r, 2), p + Width(l, 3) + 1;
    var a', b' := Print(Place(l, 3, p), 3), Print(Place(r, 2, q), 2);
    assert Print(Place(Pipe(l, r), level, pos), level) == Parens(level, 2, a' + [Sym('|')] + b');
    assert a' == Locate(a, p) && b' == Locate(b, q);
    LocateJoin(a, '|', b, level, 2, pos);
  }

  lemma PlaceBack(c: Cmd, level: nat, pos: nat)
    requires Placed(c, 1, if level <= 1 then pos else pos + 1)
    ensures Placed(Back(c), level, pos)
  {
    var p := if level <= 1 then pos else pos + 1;
    LocateAppend(Print(c, 1), [Sym('&')], p);
    LocateSym('&', p + Width(c, 1));
    LocateParens(level, 1, Print(c, 1) + [Sym('&')], pos);
  }

  lemma PlaceList(l: Cmd, r: Cmd, level: nat, pos: nat)
    requires var p := if level <= 0 then pos else pos + 1; Placed(l, 1, p) && Placed(r, 0, p + Width(l, 1) + 1)
    ensures Placed(List(l, r), level, pos)
  {
    var p := if level <= 0 then pos else pos + 1;
    var a, b, q := Print(l, 1), Print(r, 0), p + Width(l, 1) + 1;
    var a', b' := Print(Place(l, 1, p), 1), Print(Place(r, 0, q), 0);
    assert Print(Place(List(l, r), level, pos), level) == Parens(level, 0, a' + [Sym(';')] + b');
    assert a' == Locate(a, p) && b' == Locate(b, q);
    LocateJoin(a, ';', b, level, 0, pos);
  }

  /** Printing the placed tree gives the tokens where rendering puts them. */
  lemma {:induction false} PlacePrint(t: Cmd, level: nat, pos: nat)
    requires Wordy(t)
    ensures Placed(t, level, pos)
    decreases t
  {
    match t
    case Exec(argv) =>
    case Redir(c, file, out) =>
      PlacePrint(c, 3, pos);
      PlaceRedir(c, file, out, level, pos);
    case Pipe(l, r) =>
      var p := if level <= 2 then pos else pos + 1;
      PlacePrint(l, 3, p);
      PlacePrint(r, 2, p + Width(l, 3) + 1);
      PlacePipe(l, r, level, pos);
    case Back(c) =>
      PlacePrint(c, 1, if level <= 1 then pos else pos + 1);
      PlaceBack(c, level, pos);
    case List(l, r) =>
      var p := if level <= 0 then pos else pos + 1;
      PlacePrint(l, 1, p);
      PlacePrint(r, 0, p + Width(l, 1) + 1);
      PlaceList(l, r, level, pos);
  }

  lemma RenderableSym(c: char)
    requires Symbol(c) && c != '>'
    ensures Renderable([Sym(c)])
  {
    assert Sym(c).kind != 'a';
  }

  lemma RenderableParens(level: nat, most: nat, body: seq<Tok>)
    requires Renderable(body)
    ensures Renderable(Parens(level, most, body))
  {
    if level > most {
      RenderableSym('(');
      RenderableSym(')');
      RenderableAppend([Sym('(')], body);
      RenderableAppend([Sym('(')] + body, [Sym(')')]);
    }
  }

  lemma {:induction false} PrintRenderable(t: Cmd, level: nat)
    requires Wordy(t)
    ensures Renderable(Print(t, level))
    decreases t
  {
    match t
    case Exec(argv) =>
    case Redir(c, file, out) =>
      PrintRenderable(c, 3);
      var tail := [Sym(if out then '>' else '<'), file];
      assert TokOk(tail[0]) && TokOk(tail[1]) && WordAfter(tail, 0) && WordAfter(tail, 1);
      RenderableAppend(Print(c, 3), tail);
    case Pipe(l, r) =>
      PrintRenderable(l, 3);
      PrintRenderable(r, 2);
      RenderableSym('|');
      RenderableAppend(Print(l, 3), [Sym('|')]);
      RenderableAppend(Print(l, 3) + [Sym('|')], Print(r, 2));
      RenderableParens(level, 2, Print(l, 3) + [Sym('|')] + Print(r, 2));
    case Back(c) =>
      PrintRenderable(c, 1);
      RenderableSym('&');
      RenderableAppend(Print(c, 1), [Sym('&')]);
      RenderableParens(level, 1, Print(c, 1) + [Sym('&')]);
    case List(l, r) =>
      PrintRenderable(l, 1);
      PrintRenderable(r, 0);
      RenderableSym(';');
      RenderableAppend(Print(l, 1), [Sym(';')]);
      RenderableAppend(Print(l, 1) + [Sym(';')], Print(r, 0));
      RenderableParens(level, 0, Print(l, 1) + [Sym(';')] + Print(r, 0));
  }

  /** Printing a tree as text, lexing and parsing it gives the tree back, its words where they were printed. */
  lemma TextRoundTrip(t: Cmd)
    requires Proper(t) && Wordy(t)
    ensures var s := Render(Print(t, 0));
      Parse(Lex(s, 0)) == Ok(Place(t, 0, 0), []) && Plain(Place(t, 0, 0)) == Plain(t)
  {
    PrintRenderable(t, 0);
    LexRender("", Print(t, 0), Render(Print(t, 0)), 0);
    PlacePrint(t, 0, 0);
    PlacePlain(t, 0, 0);
    RoundTrip(Place(t, 0, 0));
  }
}
