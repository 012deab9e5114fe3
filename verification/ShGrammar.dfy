/**
  The shell's grammar as phrases: words and redirections in any order, with
  >> as well as >, blocks, pipelines, '&' and ';'.  The parser accepts exactly
  the phrases, and gives each its meaning.
 */
module ShGrammar {
  import opened ShModel
  import ShLex

  /** A redirection; how is '<', '>' or '+', which stands for >>. */
  datatype Into = Into(how: char, file: Tok)

  /** A word and the redirections behind it. */
  datatype Arg = Arg(word: Tok, into: seq<Into>)

  datatype Phrase =
    | Simple(front: seq<Into>, args: seq<Arg>)
    | Block(line: Phrase, into: seq<Into>)
    | Piped(l: Phrase, r: Phrase)
    | Amp(p: Phrase)
    | Then(l: Phrase, r: Phrase)

  function Mark(how: char): (t: Tok) { if how == '+' then Tok('+', ">>", 0) else Sym(how) }

  function IntoToks(into: seq<Into>): (r: seq<Tok>) {
    if into == [] then [] else [Mark(into[0].how), into[0].file] + IntoToks(into[1..])
  }

  function ArgToks(args: seq<Arg>): (r: seq<Tok>) {
    if args == [] then [] else [args[0].word] + IntoToks(args[0].into) + ArgToks(args[1..])
  }

  /** The redirections in the order they are written; >> is an output like >. */
  function IntoDirs(into: seq<Into>): (r: seq<Dir>)
    ensures |r| == |into|
  {
    if into == [] then [] else [Dir(into[0].file, into[0].how != '<')] + IntoDirs(into[1..])
  }

  function ArgDirs(args: seq<Arg>): (r: seq<Dir>) {
    if args == [] then [] else IntoDirs(args[0].into) + ArgDirs(args[1..])
  }

  function Words(args: seq<Arg>): (r: seq<Tok>)
    ensures |r| == |args|
  {
    if args == [] then [] else [args[0].word] + Words(args[1..])
  }

  predicate IntoOk(into: seq<Into>) {
    forall i :: 0 <= i < |into| ==> into[i].how in "<>+" && into[i].file.kind == 'a'
  }

  predicate ArgsOk(args: seq<Arg>) {
    forall i :: 0 <= i < |args| ==> args[i].word.kind == 'a' && IntoOk(args[i].into)
  }

  /** A single command, of at most nine words, or a block. */
  predicate IsExec(p: Phrase)
    decreases p, 0
  {
    || (p.Simple? && IntoOk(p.front) && ArgsOk(p.args) && |p.args| + 1 <= MAXARGS)
    || (p.Block? && IsLine(p.line) && IntoOk(p.into))
  }

  predicate IsPipe(p: Phrase)
    decreases p, 1
  {
    IsExec(p) || (p.Piped? && IsExec(p.l) && IsPipe(p.r))
  }

  predicate IsBack(p: Phrase)
    decreases p, 2
  {
    IsPipe(p) || (p.Amp? && IsBack(p.p))
  }

  predicate IsLine(p: Phrase)
    decreases p, 3
  {
    IsBack(p) || (p.Then? && IsBack(p.l) && IsLine(p.r))
  }

  function Toks(p: Phrase): (r: seq<Tok>) {
    match p
    case Simple(front, args) => IntoToks(front) + ArgToks(args)
    case Block(line, into) => [Sym('(')] + Toks(line) + [Sym(')')] + IntoToks(into)
    case Piped(l, r) => Toks(l) + [Sym('|')] + Toks(r)
    case Amp(q) => Toks(q) + [Sym('&')]
    case Then(l, r) => Toks(l) + [Sym(';')] + Toks(r)
  }

  function Meaning(p: Phrase): (c: Cmd) {
    match p
    case Simple(front, args) => Wrap(Exec(Words(args)), IntoDirs(front) + ArgDirs(args))
    case Block(line, into) => Wrap(Meaning(line), IntoDirs(into))
    case Piped(l, r) => Pipe(Meaning(l), Meaning(r))
    case Amp(q) => Back(Meaning(q))
    case Then(l, r) => List(Meaning(l), Meaning(r))
  }

  // -------------------------------------------------- phrases are accepted

  lemma {:induction false} RedirsTakes(ds: seq<Dir>, into: seq<Into>, rest: seq<Tok>)
    requires IntoOk(into) && !Peeks(rest, "<>")
    ensures Redirs(ds, IntoToks(into) + rest) == DirOk(ds + IntoDirs(into), rest)
    decreases |into|
  {
    if into == [] {
      assert IntoToks(into) + rest == rest && ds + IntoDirs(into) == ds;
    } else {
      var ts, d := IntoToks(into) + rest, Dir(into[0].file, into[0].how != '<');
      assert ts[0] == Mark(into[0].how) && ts[1] == into[0].file && ts[2..] == IntoToks(into[1..]) + rest;
      RedirsTakes(ds + [d], into[1..], rest);
      assert ds + [d] + IntoDirs(into[1..]) == ds + IntoDirs(into);
    }
  }

  lemma WordNext(args: seq<Arg>, rest: seq<Tok>)
    requires ArgsOk(args) && EndsExec(rest)
    ensures !Peeks(ArgToks(args) + rest, "<>(")
  {
    if args == [] { assert ArgToks(args) + rest == rest; } else { assert args[0].word.kind == 'a'; }
  }

  lemma Assoc<T>(a: seq<T>, b: seq<T>, c: seq<T>)
    ensures a + b + c == a + (b + c)
  {
  }

  lemma Middle(a: seq<Tok>, s: Tok, b: seq<Tok>, rest: seq<Tok>)
    ensures a + [s] + b + rest == a + ([s] + (b + rest)) && ([s] + (b + rest))[1..] == b + rest
  {
  }

  lemma Regroup(w: Tok, a: seq<Tok>, b: seq<Tok>, rest: seq<Tok>)
    ensures ([w] + a + b + rest)[0] == w && ([w] + a + b + rest)[1..] == a + (b + rest)
  {
  }

  /** The first word and what follows it. */
  lemma ArgFirst(args: seq<Arg>, rest: seq<Tok>)
    requires args != []
    ensures var ts := ArgToks(args) + rest;
      ts != [] && ts[0] == args[0].word && ts[1..] == IntoToks(args[0].into) + (ArgToks(args[1..]) + rest)
  {
    Regroup(args[0].word, IntoToks(args[0].into), ArgToks(args[1..]), rest);
  }

  lemma ArgsStep(argv: seq<Tok>, ds: seq<Dir>, ts: seq<Tok>, tail: seq<Tok>, ds': seq<Dir>)
    requires ts != [] && ts[0].kind == 'a' && |argv| + 1 < MAXARGS && Redirs(ds, ts[1..]) == DirOk(ds', tail)
    ensures Args(argv, ds, ts) == Args(argv + [ts[0]], ds', tail)
  {
  }

  /** parseexec's loop takes a word and what is redirected behind it, and goes on. */
  lemma {:induction false} ArgsTakes(argv: seq<Tok>, ds: seq<Dir>, args: seq<Arg>, rest: seq<Tok>)
    requires ArgsOk(args) && EndsExec(rest) && |argv| + |args| + 1 <= MAXARGS
    ensures Args(argv, ds, ArgToks(args) + rest) == Ok(Wrap(Exec(argv + Words(args)), ds + ArgDirs(args)), rest)
    decreases |args|
  {
    if args == [] {
      assert ArgToks(args) + rest == rest && argv + Words(args) == argv && ds + ArgDirs(args) == ds;
    } else {
      var w, into, more := args[0].word, args[0].into, args[1..];
      var ts, tail := ArgToks(args) + rest, ArgToks(more) + rest;
      assert w.kind == 'a' && IntoOk(into);
      ArgFirst(args, rest);
      WordNext(more, rest);
      RedirsTakes(ds, into, tail);
      ArgsStep(argv, ds, ts, tail, ds + IntoDirs(into));
      ArgsTakes(argv + [w], ds + IntoDirs(into), more, rest);
      Assoc(argv, [w], Words(more));
      Assoc(ds, IntoDirs(into), ArgDirs(more));
    }
  }

  lemma SimpleAccepted(front: seq<Into>, args: seq<Arg>, rest: seq<Tok>)
    requires IsExec(Simple(front, args)) && EndsExec(rest)
    ensures ParseExec(Toks(Simple(front, args)) + rest) == Ok(Meaning(Simple(front, args)), rest)
  {
    var tail := ArgToks(args) + rest;
    var ts := IntoToks(front) + tail;
    assert Toks(Simple(front, args)) + rest == ts;
    WordNext(args, rest);
    assert !Peeks(ts, "(") by { if front == [] { assert ts == tail; } else { assert ts[0] == Mark(front[0].how); } }
    RedirsTakes([], front, tail);
    assert [] + IntoDirs(front) == IntoDirs(front) && [] + Words(args) == Words(args);
    ArgsTakes([], IntoDirs(front), args, rest);
  }

  lemma Enclosed(a: seq<Tok>, b: seq<Tok>, rest: seq<Tok>)
    ensures [Sym('(')] + a + [Sym(')')] + b + rest == [Sym('(')] + (a + ([Sym(')')] + (b + rest)))
  {
  }

  lemma BlockAccepted(p: Phrase, rest: seq<Tok>, close: seq<Tok>)
    requires IsExec(p) && p.Block? && EndsExec(rest) && close == [Sym(')')] + (IntoToks(p.into) + rest)
    requires ParseLine(Toks(p.line) + close) == Ok(Meaning(p.line), close)
    ensures ParseExec(Toks(p) + rest) == Ok(Meaning(p), rest)
  {
    var ts := [Sym('(')] + (Toks(p.line) + close);
    assert Toks(p) + rest == ts by { Enclosed(Toks(p.line), IntoToks(p.into), rest); }
    assert ts[1..] == Toks(p.line) + close && close[1..] == IntoToks(p.into) + rest;
    assert Peeks(ts, "(") && Peeks(close, ")");
    RedirsTakes([], p.into, rest);
    assert [] + IntoDirs(p.into) == IntoDirs(p.into);
    assert ParseBlock(ts) == Ok(Meaning(p), rest);
  }

  lemma {:induction false} ExecAccepted(p: Phrase, rest: seq<Tok>)
    requires IsExec(p) && EndsExec(rest)
    ensures ParseExec(Toks(p) + rest) == Ok(Meaning(p), rest)
    decreases p, 0
  {
    if p.Simple? {
      SimpleAccepted(p.front, p.args, rest);
    } else {
      var close := [Sym(')')] + (IntoToks(p.into) + rest);
      LineAccepted(p.line, close);
      BlockAccepted(p, rest, close);
    }
  }

  lemma PipeOfTwo(l: Cmd, r: Cmd, ts: seq<Tok>, tail: seq<Tok>, rest: seq<Tok>)
    requires ParseExec(ts) == Ok(l, tail) && Peeks(tail, "|") && ParsePipe(tail[1..]) == Ok(r, rest)
    ensures ParsePipe(ts) == Ok(Pipe(l, r), rest)
  {
  }

  lemma {:induction false} PipeAccepted(p: Phrase, rest: seq<Tok>)
    requires IsPipe(p) && (rest == [] || Peeks(rest, ")&;"))
    ensures ParsePipe(Toks(p) + rest) == Ok(Meaning(p), rest)
    decreases p, 1
  {
    if p.Piped? {
      assert !IsExec(p);
      var tail := [Sym('|')] + (Toks(p.r) + rest);
      Middle(Toks(p.l), Sym('|'), Toks(p.r), rest);
      ExecAccepted(p.l, tail);
      PipeAccepted(p.r, rest);
      PipeOfTwo(Meaning(p.l), Meaning(p.r), Toks(p.l) + tail, tail, rest);
    } else {
      ExecAccepted(p, rest);
    }
  }

  /** The pipeline under the '&'s, and their number. */
  function Core(p: Phrase): (r: Phrase) { if p.Amp? then Core(p.p) else p }

  function Amped(p: Phrase): (n: nat) { if p.Amp? then Amped(p.p) + 1 else 0 }

  lemma {:induction false} CoreOf(p: Phrase)
    requires IsBack(p)
    ensures IsPipe(Core(p)) && Toks(p) == Toks(Core(p)) + Amps(Amped(p)) && (p.Amp? || Core(p) == p)
    ensures Meaning(p) == Rebacked(Meaning(Core(p)), Amped(p))
  {
    if p.Amp? {
      assert !IsExec(p) && !IsPipe(p);
      CoreOf(p.p);
      AmpsEnd(Amped(p.p));
      RebackedEnd(Meaning(Core(p)), Amped(p.p));
      assert Toks(p) == Toks(Core(p)) + (Amps(Amped(p.p)) + [Sym('&')]);
    } else {
      assert Toks(p) + [] == Toks(p);
    }
  }

  lemma {:induction false} CoreSmaller(p: Phrase)
    ensures p.Amp? ==> Core(p) < p
  {
    if p.Amp? { CoreSmaller(p.p); }
  }

  lemma {:induction false} BackAccepted(p: Phrase, rest: seq<Tok>)
    requires IsBack(p) && (rest == [] || Peeks(rest, ");"))
    ensures var r := ParsePipe(Toks(p) + rest); r.Ok? && Backs(r.c, r.rest) == Ok(Meaning(p), rest)
    decreases p, 2
  {
    CoreOf(p);
    CoreSmaller(p);
    var b, n := Core(p), Amped(p);
    assert Toks(p) + rest == Toks(b) + (Amps(n) + rest);
    PipeAccepted(b, Amps(n) + rest);
    BacksPrint(Meaning(b), n, rest);
  }

  lemma {:induction false} LineAccepted(p: Phrase, rest: seq<Tok>)
    requires IsLine(p) && (rest == [] || Peeks(rest, ")"))
    ensures ParseLine(Toks(p) + rest) == Ok(Meaning(p), rest)
    decreases p, 3
  {
    if p.Then? {
      assert !IsExec(p) && !IsPipe(p) && !IsBack(p);
      var tail := [Sym(';')] + (Toks(p.r) + rest);
      Middle(Toks(p.l), Sym(';'), Toks(p.r), rest);
      BackAccepted(p.l, tail);
      LineAccepted(p.r, rest);
      LineOfTwo(Meaning(p.l), Meaning(p.r), Toks(p.l) + tail, tail, rest);
    } else {
      BackAccepted(p, rest);
      LineOfOne(Meaning(p), Toks(p) + rest, rest);
    }
  }

  /** The parser accepts every phrase, with its meaning. */
  lemma Accepts(p: Phrase)
    requires IsLine(p)
    ensures Parse(Toks(p)) == Ok(Meaning(p), [])
  {
    LineAccepted(p, []);
    assert Toks(p) + [] == Toks(p);
  }

  // ------------------------------------------ and nothing else is accepted

  predicate CleanTok(t: Tok) { t.kind in "<>+|&;()" ==> t == Mark(t.kind) }

  /** Symbols are spelt as gettoken reads them. */
  ghost predicate Clean(ts: seq<Tok>) { forall i :: 0 <= i < |ts| ==> CleanTok(ts[i]) }

  lemma {:induction false} LexClean(s: string, p: nat)
    requires p <= |s|
    ensures Clean(ShLex.Lex(s, p))
    decreases |s| - p
  {
    var q := ShLex.Skip(s, p);
    if q < |s| { LexClean(s, ShLex.TokAt(s, q).1); }
  }

  lemma CleanSuffix(ts: seq<Tok>, n: nat)
    requires Clean(ts) && n <= |ts|
    ensures Clean(ts[n..])
  {
  }

  /** What parseredirs has taken. */
  lemma {:induction false} RedirsTaken(ds: seq<Dir>, ts: seq<Tok>) returns (into: seq<Into>)
    requires Clean(ts) && Redirs(ds, ts).DirOk?
    ensures var r := Redirs(ds, ts);
      && IntoOk(into) && IntoToks(into) + r.rest == ts && r.ds == ds + IntoDirs(into)
      && Clean(r.rest) && !Peeks(r.rest, "<>")
    decreases |ts|
  {
    if Peeks(ts, "<>") {
      var d := Dir(ts[1], ts[0].kind != '<');
      var i := Into(ts[0].kind, ts[1]);
      CleanSuffix(ts, 2);
      var more := RedirsTaken(ds + [d], ts[2..]);
      into := [i] + more;
      assert CleanTok(ts[0]) && into[1..] == more;
      IntoFirst(i, more, ts, Redirs(ds, ts).rest);
      Assoc(ds, [d], IntoDirs(more));
    } else {
      into := [];
      assert IntoToks(into) + ts == ts && ds + IntoDirs(into) == ds;
    }
  }

  lemma IntoFirst(i: Into, more: seq<Into>, ts: seq<Tok>, rest: seq<Tok>)
    requires |ts| >= 2 && ts[0] == Mark(i.how) && ts[1] == i.file && IntoToks(more) + rest == ts[2..]
    ensures IntoToks([i] + more) + rest == ts
  {
    var into := [i] + more;
    assert into[0] == i && into[1..] == more;
    assert ts == [ts[0], ts[1]] + ts[2..];
    Assoc([Mark(i.how), i.file], IntoToks(more), rest);
  }

  lemma ArgRegroup(a: Arg, more: seq<Arg>, ts: seq<Tok>, tail: seq<Tok>, rest: seq<Tok>)
    requires ts != [] && ts[0] == a.word && ts[1..] == IntoToks(a.into) + tail && tail == ArgToks(more) + rest
    ensures ArgToks([a] + more) + rest == ts
  {
    var args := [a] + more;
    assert args[0] == a && args[1..] == more;
    ArgFirst(args, rest);
    assert ts == [ts[0]] + ts[1..];
  }

  ghost predicate ArgSpans(argv: seq<Tok>, ds: seq<Dir>, args: seq<Arg>, ts: seq<Tok>, c: Cmd, rest: seq<Tok>) {
    && ArgsOk(args) && |argv| + |args| + 1 <= MAXARGS && ArgToks(args) + rest == ts
    && c == Wrap(Exec(argv + Words(args)), ds + ArgDirs(args))
  }

  lemma ArgSpansNext(argv: seq<Tok>, ds: seq<Dir>, into: seq<Into>, more: seq<Arg>, ts: seq<Tok>, tail: seq<Tok>,
                     c: Cmd, rest: seq<Tok>)
    requires ts != [] && ts[0].kind == 'a' && IntoOk(into) && ts[1..] == IntoToks(into) + tail
    requires ArgSpans(argv + [ts[0]], ds + IntoDirs(into), more, tail, c, rest)
    ensures ArgSpans(argv, ds, [Arg(ts[0], into)] + more, ts, c, rest)
  {
    var a := Arg(ts[0], into);
    var args := [a] + more;
    assert args[0] == a && args[1..] == more;
    ArgRegroup(a, more, ts, tail, rest);
    Assoc(argv, [ts[0]], Words(more));
    Assoc(ds, IntoDirs(into), ArgDirs(more));
  }

  /** What parseexec's loop has taken. */
  lemma {:induction false} ArgsTaken(argv: seq<Tok>, ds: seq<Dir>, ts: seq<Tok>) returns (args: seq<Arg>)
    requires Clean(ts) && Args(argv, ds, ts).Ok? && |argv| + 1 <= MAXARGS
    ensures var r := Args(argv, ds, ts); ArgSpans(argv, ds, args, ts, r.c, r.rest) && Clean(r.rest) && EndsExec(r.rest)
    decreases |ts|
  {
    if EndsExec(ts) {
      args := [];
      assert ArgToks(args) + ts == ts && argv + Words(args) == argv && ds + ArgDirs(args) == ds;
    } else {
      CleanSuffix(ts, 1);
      var into := RedirsTaken(ds, ts[1..]);
      var tail := Redirs(ds, ts[1..]).rest;
      ArgsStep(argv, ds, ts, tail, ds + IntoDirs(into));
      var more := ArgsTaken(argv + [ts[0]], ds + IntoDirs(into), tail);
      var r := Args(argv, ds, ts);
      args := [Arg(ts[0], into)] + more;
      ArgSpansNext(argv, ds, into, more, ts, tail, r.c, r.rest);
    }
  }

  /** The phrase is what was taken of ts, down to rest, and c its meaning. */
  ghost predicate Spans(p: Phrase, ts: seq<Tok>, c: Cmd, rest: seq<Tok>) {
    Toks(p) + rest == ts && Meaning(p) == c && Clean(rest)
  }

  lemma SimpleTaken(ts: seq<Tok>) returns (p: Phrase)
    requires Clean(ts) && ParseExec(ts).Ok? && !Peeks(ts, "(")
    ensures IsExec(p) && Spans(p, ts, ParseExec(ts).c, ParseExec(ts).rest)
  {
    var front := RedirsTaken([], ts);
    var tail := Redirs([], ts).rest;
    assert [] + IntoDirs(front) == IntoDirs(front);
    var args := ArgsTaken([], IntoDirs(front), tail);
    assert [] + Words(args) == Words(args);
    p := Simple(front, args);
    Assoc(IntoToks(front), ArgToks(args), ParseExec(ts).rest);
  }

  lemma Enclosing(ts: seq<Tok>, a: seq<Tok>, close: seq<Tok>, b: seq<Tok>, rest: seq<Tok>)
    requires ts != [] && ts[0] == Sym('(') && a + close == ts[1..]
    requires close != [] && close[0] == Sym(')') && b + rest == close[1..]
    ensures [Sym('(')] + a + [Sym(')')] + b + rest == ts
  {
    assert close == [Sym(')')] + (b + rest);
    Enclosed(a, b, rest);
    assert ts == [Sym('(')] + (a + close);
  }

  lemma {:induction false} ExecTaken(ts: seq<Tok>) returns (p: Phrase)
    requires Clean(ts) && ParseExec(ts).Ok?
    ensures IsExec(p) && Spans(p, ts, ParseExec(ts).c, ParseExec(ts).rest)
    decreases |ts|, 1
  {
    if Peeks(ts, "(") {
      CleanSuffix(ts, 1);
      var line := LineTaken(ts[1..]);
      var r := ParseLine(ts[1..]);
      CleanSuffix(r.rest, 1);
      var into := RedirsTaken([], r.rest[1..]);
      p := Block(line, into);
      assert [] + IntoDirs(into) == IntoDirs(into);
      assert CleanTok(ts[0]) && CleanTok(r.rest[0]);
      Enclosing(ts, Toks(line), r.rest, IntoToks(into), ParseExec(ts).rest);
    } else {
      p := SimpleTaken(ts);
    }
  }

  lemma Between(a: seq<Tok>, s: Tok, b: seq<Tok>, rest: seq<Tok>, tail: seq<Tok>, ts: seq<Tok>)
    requires a + tail == ts && tail != [] && tail[0] == s && b + rest == tail[1..]
    ensures a + [s] + b + rest == ts && |tail[1..]| < |ts|
  {
    assert tail == [s] + tail[1..];
  }

  lemma PipeSpans(p: Phrase, q: Phrase, ts: seq<Tok>, tail: seq<Tok>, rest: seq<Tok>)
    requires IsExec(p) && IsPipe(q) && Clean(tail) && Peeks(tail, "|")
    requires Spans(p, ts, Meaning(p), tail) && Spans(q, tail[1..], Meaning(q), rest)
    ensures IsPipe(Piped(p, q)) && Spans(Piped(p, q), ts, Pipe(Meaning(p), Meaning(q)), rest)
  {
    assert CleanTok(tail[0]);
    Between(Toks(p), Sym('|'), Toks(q), rest, tail, ts);
  }

  lemma {:induction false} PipeTaken(ts: seq<Tok>) returns (p: Phrase)
    requires Clean(ts) && ParsePipe(ts).Ok?
    ensures IsPipe(p) && Spans(p, ts, ParsePipe(ts).c, ParsePipe(ts).rest)
    decreases |ts|, 2
  {
    p := ExecTaken(ts);
    var tail := ParseExec(ts).rest;
    if Peeks(tail, "|") {
      CleanSuffix(tail, 1);
      ShorterBy(Toks(p), tail, ts);
      var q := PipeTaken(tail[1..]);
      var rest := ParsePipe(tail[1..]).rest;
      PipeOfTwo(Meaning(p), Meaning(q), ts, tail, rest);
      PipeSpans(p, q, ts, tail, rest);
      p := Piped(p, q);
    }
  }

  lemma ShorterBy(a: seq<Tok>, tail: seq<Tok>, ts: seq<Tok>)
    requires a + tail == ts && tail != []
    ensures |tail[1..]| < |ts|
  {
  }

  lemma {:induction false} BacksTaken(p: Phrase, ts: seq<Tok>) returns (q: Phrase)
    requires IsBack(p) && Clean(ts)
    ensures var r := Backs(Meaning(p), ts);
      IsBack(q) && Toks(q) + r.rest == Toks(p) + ts && Meaning(q) == r.c && Clean(r.rest) && |r.rest| <= |ts|
    decreases |ts|
  {
    if Peeks(ts, "&") {
      assert CleanTok(ts[0]);
      CleanSuffix(ts, 1);
      q := BacksTaken(Amp(p), ts[1..]);
      assert ts == [Sym('&')] + ts[1..];
      Assoc(Toks(p), [Sym('&')], ts[1..]);
    } else {
      q := p;
    }
  }

  lemma LineSpans(p: Phrase, q: Phrase, ts: seq<Tok>, tail: seq<Tok>, rest: seq<Tok>)
    requires IsBack(p) && IsLine(q) && Clean(tail) && Peeks(tail, ";")
    requires Spans(p, ts, Meaning(p), tail) && Spans(q, tail[1..], Meaning(q), rest)
    ensures IsLine(Then(p, q)) && Spans(Then(p, q), ts, List(Meaning(p), Meaning(q)), rest)
  {
    assert CleanTok(tail[0]);
    Between(Toks(p), Sym(';'), Toks(q), rest, tail, ts);
  }

  lemma BackTaken(ts: seq<Tok>, a: Phrase) returns (p: Phrase)
    requires Clean(ts) && ParsePipe(ts).Ok? && IsPipe(a) && Spans(a, ts, ParsePipe(ts).c, ParsePipe(ts).rest)
    ensures var r := Backs(ParsePipe(ts).c, ParsePipe(ts).rest); IsBack(p) && Spans(p, ts, r.c, r.rest)
  {
    p := BacksTaken(a, ParsePipe(ts).rest);
  }

  lemma {:induction false} LineTaken(ts: seq<Tok>) returns (p: Phrase)
    requires Clean(ts) && ParseLine(ts).Ok?
    ensures IsLine(p) && Spans(p, ts, ParseLine(ts).c, ParseLine(ts).rest)
    decreases |ts|, 3
  {
    var a := PipeTaken(ts);
    p := BackTaken(ts, a);
    var tail := Backs(ParsePipe(ts).c, ParsePipe(ts).rest).rest;
    if Peeks(tail, ";") {
      CleanSuffix(tail, 1);
      ShorterBy(Toks(p), tail, ts);
      var q := LineTaken(tail[1..]);
      var rest := ParseLine(tail[1..]).rest;
      LineOfTwo(Meaning(p), Meaning(q), ts, tail, rest);
      LineSpans(p, q, ts, tail, rest);
      p := Then(p, q);
    } else {
      LineOfOne(Meaning(p), ts, tail);
    }
  }

  ghost predicate Phrases(p: Phrase, s: string, c: Cmd) {
    IsLine(p) && Toks(p) == ShLex.Lex(s, 0) && Meaning(p) == c
  }

  /** The shell accepts a line exactly when its tokens are a phrase, and understands it so. */
  lemma ParseExact(s: string, c: Cmd)
    ensures Parse(ShLex.Lex(s, 0)) == Ok(c, []) <==> exists p :: Phrases(p, s, c)
  {
    if p :| Phrases(p, s, c) { Accepts(p); }
    if Parse(ShLex.Lex(s, 0)) == Ok(c, []) {
      LexClean(s, 0);
      var p := LineTaken(ShLex.Lex(s, 0));
      assert Toks(p) + [] == Toks(p);
      assert Phrases(p, s, c);
    }
  }
}
