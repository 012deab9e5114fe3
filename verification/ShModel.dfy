/** The shell's grammar (sh.c): its recursive-descent parser on tokens, and a printer that it inverts. */
module ShModel {

  const MAXARGS: nat := 10

  /** kind is gettoken's result: 'a' for a word, '+' for >>, else the symbol; q is where a word begins. */
  datatype Tok = Tok(kind: char, text: string, q: nat)

  datatype Cmd =
    | Exec(argv: seq<Tok>)
    | Redir(c: Cmd, file: Tok, out: bool)
    | Pipe(l: Cmd, r: Cmd)
    | List(l: Cmd, r: Cmd)
    | Back(c: Cmd)

  /** Panic is the parser's exit on a syntax error. */
  datatype Result = Ok(c: Cmd, rest: seq<Tok>) | Panic

  datatype Dir = Dir(file: Tok, out: bool)
  datatype DirResult = DirOk(ds: seq<Dir>, rest: seq<Tok>) | DirPanic

  function First(t: Tok): (c: char) { if t.kind == '+' then '>' else t.kind }

  /** peek(): the next token begins with one of these characters. */
  predicate Peeks(ts: seq<Tok>, toks: string) { ts != [] && First(ts[0]) in toks }

  function Wrap(c: Cmd, ds: seq<Dir>): (r: Cmd)
    decreases |ds|
  {
    if ds == [] then c else Redir(Wrap(c, ds[..|ds| - 1]), ds[|ds| - 1].file, ds[|ds| - 1].out)
  }

  /** parseredirs(), with the redirections met so far. */
  function Redirs(ds: seq<Dir>, ts: seq<Tok>): (r: DirResult)
    ensures r.DirOk? ==> |r.rest| <= |ts|
    decreases |ts|
  {
    if !Peeks(ts, "<>") then DirOk(ds, ts)
    else if |ts| < 2 || ts[1].kind != 'a' then DirPanic
    else Redirs(ds + [Dir(ts[1], ts[0].kind != '<')], ts[2..])
  }

  /** The loop of parseexec. */
  function Args(argv: seq<Tok>, ds: seq<Dir>, ts: seq<Tok>): (r: Result)
    ensures r.Ok? ==> |r.rest| <= |ts|
    decreases |ts|
  {
    if Peeks(ts, "|)&;") || ts == [] then Ok(Wrap(Exec(argv), ds), ts)
    else if ts[0].kind != 'a' || |argv| + 1 >= MAXARGS then Panic
    else
      match Redirs(ds, ts[1..])
      case DirPanic => Panic
      case DirOk(ds', rest) => Args(argv + [ts[0]], ds', rest)
  }

  function ParseExec(ts: seq<Tok>): (r: Result)
    ensures r.Ok? ==> |r.rest| <= |ts|
    decreases |ts|, 1
  {
    if Peeks(ts, "(") then ParseBlock(ts)
    else
      match Redirs([], ts)
      case DirPanic => Panic
      case DirOk(ds, rest) => Args([], ds, rest)
  }

  function ParseBlock(ts: seq<Tok>): (r: Result)
    requires Peeks(ts, "(")
    ensures r.Ok? ==> |r.rest| <= |ts|
    decreases |ts|, 0
  {
    match ParseLine(ts[1..])
    case Panic => Panic
    case Ok(c, rest) =>
      if !Peeks(rest, ")") then Panic
      else
        match Redirs([], rest[1..])
        case DirPanic => Panic
        case DirOk(ds, rest') => Ok(Wrap(c, ds), rest')
  }

  function ParsePipe(ts: seq<Tok>): (r: Result)
    ensures r.Ok? ==> |r.rest| <= |ts|
    decreases |ts|, 2
  {
    match ParseExec(ts)
    case Panic => Panic
    case Ok(c, rest) =>
      if !Peeks(rest, "|") then Ok(c, rest)
      else
        match ParsePipe(rest[1..])
        case Panic => Panic
        case Ok(d, rest') => Ok(Pipe(c, d), rest')
  }

  /** The loop of parseline over '&'. */
  function Backs(c: Cmd, ts: seq<Tok>): (r: Result)
    ensures r.Ok? && |r.rest| <= |ts|
    decreases |ts|
  {
    if Peeks(ts, "&") then Backs(Back(c), ts[1..]) else Ok(c, ts)
  }

  function ParseLine(ts: seq<Tok>): (r: Result)
    ensures r.Ok? ==> |r.rest| <= |ts|
    decreases |ts|, 3
  {
    match ParsePipe(ts)
    case Panic => Panic
    case Ok(c, rest) =>
      var b := Backs(c, rest);
      if !Peeks(b.rest, ";") then b
      else
        match ParseLine(b.rest[1..])
        case Panic => Panic
        case Ok(d, rest') => Ok(List(b.c, d), rest')
  }

  /** parsecmd(): nothing may be left over. */
  function Parse(ts: seq<Tok>): (r: Result) {
    var r := ParseLine(ts);
    if r.Ok? && r.rest != [] then Panic else r
  }

  // -------------------------------------------------------------- printing

  function Sym(c: char): (t: Tok) { Tok(c, [c], 0) }

  function Parens(level: nat, most: nat, body: seq<Tok>): (r: seq<Tok>) {
    if level <= most then body else [Sym('(')] + body + [Sym(')')]
  }

  /** A tree as tokens, in a place for a line (0), a line without ';' (1), a pipeline (2) or a single command (3). */
  function Print(t: Cmd, level: nat): (r: seq<Tok>) {
    match t
    case Exec(argv) => argv
    case Redir(c, file, out) => Print(c, 3) + [Sym(if out then '>' else '<'), file]
    case Pipe(l, r) => Parens(level, 2, Print(l, 3) + [Sym('|')] + Print(r, 2))
    case Back(c) => Parens(level, 1, Print(c, 1) + [Sym('&')])
    case List(l, r) => Parens(level, 0, Print(l, 1) + [Sym(';')] + Print(r, 0))
  }

  /** All words are words, and no command has more than nine. */
  predicate Proper(t: Cmd) {
    match t
    case Exec(argv) => |argv| + 1 <= MAXARGS && forall i :: 0 <= i < |argv| ==> argv[i].kind == 'a'
    case Redir(c, file, _) => Proper(c) && file.kind == 'a'
    case Pipe(l, r) => Proper(l) && Proper(r)
    case List(l, r) => Proper(l) && Proper(r)
    case Back(c) => Proper(c)
  }

  // ------------------------------------------------------------ round trip

  function Base(t: Cmd): (r: Cmd) { if t.Redir? then Base(t.c) else t }

  function Dirs(t: Cmd): (r: seq<Dir>) { if t.Redir? then Dirs(t.c) + [Dir(t.file, t.out)] else [] }

  function PrintDirs(ds: seq<Dir>): (r: seq<Tok>) {
    if ds == [] then [] else [Sym(if ds[0].out then '>' else '<'), ds[0].file] + PrintDirs(ds[1..])
  }

  ghost predicate WordDirs(ds: seq<Dir>) { forall i :: 0 <= i < |ds| ==> ds[i].file.kind == 'a' }

  lemma {:induction false} PrintDirsAppend(a: seq<Dir>, b: seq<Dir>)
    ensures PrintDirs(a + b) == PrintDirs(a) + PrintDirs(b)
    decreases |a|
  {
    if a == [] {
      assert a + b == b;
    } else {
      assert (a + b)[1..] == a[1..] + b;
      PrintDirsAppend(a[1..], b);
    }
  }

  /** A tree is its base with its redirections around it, and prints so. */
  lemma {:induction false} Unwrap(t: Cmd)
    requires Proper(t)
    ensures Wrap(Base(t), Dirs(t)) == t && Proper(Base(t)) && WordDirs(Dirs(t)) && !Base(t).Redir?
    ensures Print(t, 3) == Print(Base(t), 3) + PrintDirs(Dirs(t))
    decreases t
  {
    if t.Redir? {
      Unwrap(t.c);
      var ds := Dirs(t);
      assert ds[..|ds| - 1] == Dirs(t.c);
      PrintDirsAppend(Dirs(t.c), [Dir(t.file, t.out)]);
      assert [Dir(t.file, t.out)][1..] == [];
    } else {
      assert Print(t, 3) + [] == Print(t, 3);
    }
  }

  /** parseredirs takes exactly the redirections printed. */
  lemma {:induction false} RedirsPrint(ds0: seq<Dir>, ds: seq<Dir>, rest: seq<Tok>)
    requires WordDirs(ds) && !Peeks(rest, "<>")
    ensures Redirs(ds0, PrintDirs(ds) + rest) == DirOk(ds0 + ds, rest)
    decreases |ds|
  {
    if ds == [] {
      assert PrintDirs(ds) + rest == rest && ds0 + ds == ds0;
    } else {
      var ts := PrintDirs(ds) + rest;
      assert ts[2..] == PrintDirs(ds[1..]) + rest;
      assert ds0 + [ds[0]] + ds[1..] == ds0 + ds;
      RedirsPrint(ds0 + [ds[0]], ds[1..], rest);
    }
  }

  /** What may follow a single command. */
  predicate EndsExec(rest: seq<Tok>) { rest == [] || Peeks(rest, "|)&;") }

  /** Of the words to come the first moves to the words taken. */
  lemma TakeFirst(argv: seq<Tok>, more: seq<Tok>, ds: seq<Tok>, rest: seq<Tok>)
    requires more != []
    ensures (more + ds + rest)[0] == more[0] && (more + ds + rest)[1..] == more[1..] + ds + rest
    ensures argv + [more[0]] + more[1..] == argv + more
  {
  }

  /** The argument loop takes the remaining words and the redirections behind them. */
  lemma {:induction false} ArgsPrint(argv: seq<Tok>, more: seq<Tok>, ds: seq<Dir>, rest: seq<Tok>)
    requires |argv| + |more| + 1 <= MAXARGS && (forall i :: 0 <= i < |more| ==> more[i].kind == 'a')
    requires WordDirs(ds) && EndsExec(rest) && more != []
    ensures Args(argv, [], more + PrintDirs(ds) + rest) == Ok(Wrap(Exec(argv + more), ds), rest)
    decreases |more|
  {
    var ts := more + PrintDirs(ds) + rest;
    TakeFirst(argv, more, PrintDirs(ds), rest);
    if |more| == 1 {
      assert ts[1..] == PrintDirs(ds) + rest;
      RedirsPrint([], ds, rest);
      assert [] + ds == ds && argv + [more[0]] == argv + more;
    } else {
      assert !Peeks(ts[1..], "<>");
      ArgsPrint(argv + [more[0]], more[1..], ds, rest);
    }
  }

  lemma ExecNone(ds: seq<Dir>, rest: seq<Tok>)
    requires WordDirs(ds) && EndsExec(rest)
    ensures ParseExec(PrintDirs(ds) + rest) == Ok(Wrap(Exec([]), ds), rest)
  {
    RedirsPrint([], ds, rest);
    assert [] + ds == ds;
    assert !Peeks(PrintDirs(ds) + rest, "(");
  }

  lemma ExecSome(argv: seq<Tok>, ds: seq<Dir>, rest: seq<Tok>)
    requires Proper(Exec(argv)) && WordDirs(ds) && EndsExec(rest) && argv != []
    ensures ParseExec(argv + PrintDirs(ds) + rest) == Ok(Wrap(Exec(argv), ds), rest)
  {
    var ts := argv + PrintDirs(ds) + rest;
    assert ts[0] == argv[0] && !Peeks(ts, "(") && !Peeks(ts, "<>");
    ArgsPrint([], argv, ds, rest);
    assert [] + argv == argv;
    assert Redirs([], ts) == DirOk([], ts);
  }

  lemma ExecPrint(argv: seq<Tok>, ds: seq<Dir>, rest: seq<Tok>)
    requires Proper(Exec(argv)) && WordDirs(ds) && EndsExec(rest)
    ensures ParseExec(argv + PrintDirs(ds) + rest) == Ok(Wrap(Exec(argv), ds), rest)
  {
    if argv == [] {
      assert argv + PrintDirs(ds) + rest == PrintDirs(ds) + rest;
      ExecNone(ds, rest);
    } else {
      ExecSome(argv, ds, rest);
    }
  }

  function Deback(t: Cmd): (r: Cmd) { if t.Back? then Deback(t.c) else t }

  function CountBacks(t: Cmd): (n: nat) { if t.Back? then CountBacks(t.c) + 1 else 0 }

  function Amps(n: nat): (r: seq<Tok>)
    ensures |r| == n
  {
    if n == 0 then [] else [Sym('&')] + Amps(n - 1)
  }

  function Rebacked(t: Cmd, n: nat): (r: Cmd)
    decreases n
  {
    if n == 0 then t else Rebacked(Back(t), n - 1)
  }

  lemma {:induction false} AmpsEnd(n: nat)
    ensures Amps(n) + [Sym('&')] == Amps(n + 1)
  {
    if n > 0 {
      AmpsEnd(n - 1);
      assert Amps(n) + [Sym('&')] == [Sym('&')] + (Amps(n - 1) + [Sym('&')]);
    }
  }

  lemma {:induction false} RebackedEnd(t: Cmd, n: nat)
    ensures Rebacked(t, n + 1) == Back(Rebacked(t, n))
    decreases n
  {
    if n > 0 { RebackedEnd(Back(t), n - 1); }
  }

  lemma {:induction false} Unback(t: Cmd)
    requires Proper(t)
    ensures Print(t, 1) == Print(Deback(t), 1) + Amps(CountBacks(t))
    ensures Proper(Deback(t)) && !Deback(t).Back? && Rebacked(Deback(t), CountBacks(t)) == t
    decreases t
  {
    if t.Back? {
      Unback(t.c);
      AmpsEnd(CountBacks(t.c));
      RebackedEnd(Deback(t.c), CountBacks(t.c));
      assert Print(t, 1) == Print(Deback(t), 1) + (Amps(CountBacks(t.c)) + [Sym('&')]);
    } else {
      assert Print(t, 1) + [] == Print(t, 1);
    }
  }

  lemma {:induction false} BacksPrint(c: Cmd, n: nat, rest: seq<Tok>)
    requires !Peeks(rest, "&")
    ensures Backs(c, Amps(n) + rest) == Ok(Rebacked(c, n), rest)
    decreases n
  {
    if n == 0 {
      assert Amps(0) + rest == rest;
    } else {
      assert (Amps(n) + rest)[1..] == Amps(n - 1) + rest;
      BacksPrint(Back(c), n - 1, rest);
    }
  }

  function Size(t: Cmd): (n: nat) {
    match t
    case Exec(_) => 1
    case Redir(c, _, _) => Size(c) + 1
    case Pipe(l, r) => Size(l) + Size(r) + 1
    case List(l, r) => Size(l) + Size(r) + 1
    case Back(c) => Size(c) + 1
  }

  lemma {:induction false} BaseSize(t: Cmd)
    ensures Size(Base(t)) <= Size(t) && Size(Deback(t)) <= Size(t)
    ensures (t.Back? ==> Size(Deback(t)) < Size(t)) && (t.Redir? ==> Size(Base(t)) < Size(t))
  {
    if t.Redir? { BaseSize(t.c); }
    if t.Back? { BaseSize(t.c); }
  }

  /** The order of the four parsing functions (single command, pipeline, up to ';', line) on the same tree. */
  function Order(f: nat, t: Cmd): (n: nat) {
    match t
    case Exec(_) => f
    case Redir(_, _, _) => f
    case Pipe(_, _) => if f == 0 then 3 else f - 1
    case Back(_) => if f <= 1 then f + 2 else f - 2
    case List(_, _) => if f == 3 then 0 else f + 1
  }

  /** A block that parses inside its parentheses. */
  lemma BlockPrint(b: Cmd, ds: seq<Dir>, rest: seq<Tok>, close: seq<Tok>)
    requires WordDirs(ds) && EndsExec(rest) && close == [Sym(')')] + (PrintDirs(ds) + rest)
    requires ParseLine(Print(b, 0) + close) == Ok(b, close)
    ensures ParseExec([Sym('(')] + (Print(b, 0) + close)) == Ok(Wrap(b, ds), rest)
  {
    var ts := [Sym('(')] + (Print(b, 0) + close);
    assert ts[1..] == Print(b, 0) + close && close[1..] == PrintDirs(ds) + rest;
    assert Peeks(ts, "(") && Peeks(close, ")");
    RedirsPrint([], ds, rest);
    assert [] + ds == ds;
    assert ParseBlock(ts) == Ok(Wrap(b, ds), rest);
  }

  /** A tree that is no single command prints in parentheses there. */
  lemma ParensPrint(b: Cmd)
    requires !b.Exec? && !b.Redir?
    ensures Print(b, 3) == [Sym('(')] + Print(b, 0) + [Sym(')')]
  {
  }

  /** A single command, or anything else in parentheses, with its redirections. */
  lemma {:induction false} RoundExec(t: Cmd, rest: seq<Tok>)
    requires Proper(t) && EndsExec(rest)
    ensures ParseExec(Print(t, 3) + rest) == Ok(t, rest)
    decreases Size(t), Order(0, t)
  {
    Unwrap(t);
    BaseSize(t);
    var b, ds := Base(t), Dirs(t);
    if b.Exec? {
      ExecPrint(b.argv, ds, rest);
    } else {
      ParensPrint(b);
      var close := [Sym(')')] + (PrintDirs(ds) + rest);
      assert Print(t, 3) + rest == [Sym('(')] + (Print(b, 0) + close);
      RoundLine(b, close);
      BlockPrint(b, ds, rest, close);
    }
  }

  lemma {:induction false} RoundPipe(t: Cmd, rest: seq<Tok>)
    requires Proper(t) && (rest == [] || Peeks(rest, ")&;"))
    ensures ParsePipe(Print(t, 2) + rest) == Ok(t, rest)
    decreases Size(t), Order(1, t)
  {
    if t.Pipe? {
      var tail := [Sym('|')] + (Print(t.r, 2) + rest);
      assert Print(t, 2) + rest == Print(t.l, 3) + tail;
      RoundExec(t.l, tail);
      assert tail[1..] == Print(t.r, 2) + rest;
      RoundPipe(t.r, rest);
    } else {
      assert Print(t, 2) == Print(t, 3);
      RoundExec(t, rest);
    }
  }

  /** A line up to its ';'. */
  lemma {:induction false} RoundBack(t: Cmd, rest: seq<Tok>)
    requires Proper(t) && (rest == [] || Peeks(rest, ");"))
    ensures var r := ParsePipe(Print(t, 1) + rest); r.Ok? && Backs(r.c, r.rest) == Ok(t, rest)
    decreases Size(t), Order(2, t)
  {
    Unback(t);
    BaseSize(t);
    var b, n := Deback(t), CountBacks(t);
    assert Print(t, 1) + rest == Print(b, 1) + (Amps(n) + rest);
    assert Print(b, 1) == Print(b, 2);
    RoundPipe(b, Amps(n) + rest);
    BacksPrint(b, n, rest);
  }

  /** A line of two parts, each of which parses. */
  lemma LineOfTwo(l: Cmd, r: Cmd, ts: seq<Tok>, tail: seq<Tok>, rest: seq<Tok>)
    requires var p := ParsePipe(ts); p.Ok? && Backs(p.c, p.rest) == Ok(l, tail)
    requires Peeks(tail, ";") && ParseLine(tail[1..]) == Ok(r, rest)
    ensures ParseLine(ts) == Ok(List(l, r), rest)
  {
  }

  lemma LineOfOne(t: Cmd, ts: seq<Tok>, rest: seq<Tok>)
    requires var p := ParsePipe(ts); p.Ok? && Backs(p.c, p.rest) == Ok(t, rest)
    requires !Peeks(rest, ";")
    ensures ParseLine(ts) == Ok(t, rest)
  {
  }

  /** Parsing a printed line gives the tree back and leaves what followed it. */
  lemma {:induction false} RoundLine(t: Cmd, rest: seq<Tok>)
    requires Proper(t) && (rest == [] || Peeks(rest, ")"))
    ensures ParseLine(Print(t, 0) + rest) == Ok(t, rest)
    decreases Size(t), Order(3, t)
  {
    if t.List? {
      var tail := [Sym(';')] + (Print(t.r, 0) + rest);
      assert Print(t, 0) + rest == Print(t.l, 1) + tail;
      RoundBack(t.l, tail);
      assert tail[1..] == Print(t.r, 0) + rest;
      RoundLine(t.r, rest);
      LineOfTwo(t.l, t.r, Print(t.l, 1) + tail, tail, rest);
    } else {
      assert Print(t, 0) == Print(t, 1);
      RoundBack(t, rest);
      LineOfOne(t, Print(t, 1) + rest, rest);
    }
  }

  /** The parser inverts the printer on every proper tree. */
  lemma RoundTrip(t: Cmd)
    requires Proper(t)
    ensures Parse(Print(t, 0)) == Ok(t, [])
  {
    RoundLine(t, []);
    assert Print(t, 0) + [] == Print(t, 0);
  }
}
