/** The shell's parser on its input buffer, and nulterminate writing into that buffer. */
module ShImpl {
  import M = ShModel
  import opened ShLex

  type Tok = M.Tok
  type Cmd = M.Cmd

  // ------------------------------------------------------ words and leaves

  /** A word token is a maximal run of word characters of s. */
  ghost predicate Good(s: string, t: Tok) {
    t.kind == 'a' ==>
      && t.q + |t.text| <= |s| && s[t.q..t.q + |t.text|] == t.text
      && (forall i :: t.q <= i < t.q + |t.text| ==> WordChar(s[i]))
      && (t.q + |t.text| < |s| ==> !WordChar(s[t.q + |t.text|]))
  }

  ghost predicate AllGood(s: string, ts: seq<Tok>) {
    forall i :: 0 <= i < |ts| ==> Good(s, ts[i])
  }

  ghost predicate Leaf(s: string, t: Tok) { t.kind == 'a' && Good(s, t) }

  /** Every word of the tree is a whole word of s. */
  ghost predicate Words(s: string, c: Cmd) {
    match c
    case Exec(argv) => forall i :: 0 <= i < |argv| ==> Leaf(s, argv[i])
    case Redir(d, file, _) => Words(s, d) && Leaf(s, file)
    case Pipe(l, r) => Words(s, l) && Words(s, r)
    case List(l, r) => Words(s, l) && Words(s, r)
    case Back(d) => Words(s, d)
  }

  lemma {:induction false} LexGood(s: string, p: nat)
    requires p <= |s|
    ensures AllGood(s, Lex(s, p))
    decreases |s| - p
  {
    var q := Skip(s, p);
    if q < |s| { LexGood(s, TokAt(s, q).1); }
  }

  ghost predicate DirsGood(s: string, ds: seq<M.Dir>) {
    forall i :: 0 <= i < |ds| ==> Leaf(s, ds[i].file)
  }

  lemma {:induction false} WrapWords(s: string, c: Cmd, ds: seq<M.Dir>)
    requires Words(s, c) && DirsGood(s, ds)
    ensures Words(s, M.Wrap(c, ds))
    decreases |ds|
  {
    if ds != [] { WrapWords(s, c, ds[..|ds| - 1]); }
  }

  lemma {:induction false} RedirsGood(s: string, ds: seq<M.Dir>, ts: seq<Tok>)
    requires DirsGood(s, ds) && AllGood(s, ts)
    ensures var r := M.Redirs(ds, ts); r.DirOk? ==> DirsGood(s, r.ds) && AllGood(s, r.rest)
    decreases |ts|
  {
    if M.Peeks(ts, "<>") && |ts| >= 2 && ts[1].kind == 'a' {
      RedirsGood(s, ds + [M.Dir(ts[1], ts[0].kind != '<')], ts[2..]);
    }
  }

  ghost predicate Fine(s: string, r: M.Result) { r.Ok? ==> Words(s, r.c) && AllGood(s, r.rest) }

  lemma {:induction false} ArgsGood(s: string, argv: seq<Tok>, ds: seq<M.Dir>, ts: seq<Tok>)
    requires Words(s, M.Exec(argv)) && DirsGood(s, ds) && AllGood(s, ts)
    ensures Fine(s, M.Args(argv, ds, ts))
    decreases |ts|
  {
    if M.Peeks(ts, "|)&;") || ts == [] {
      WrapWords(s, M.Exec(argv), ds);
    } else if ts[0].kind == 'a' && |argv| + 1 < M.MAXARGS {
      RedirsGood(s, ds, ts[1..]);
      var r := M.Redirs(ds, ts[1..]);
      if r.DirOk? { ArgsGood(s, argv + [ts[0]], r.ds, r.rest); }
    }
  }

  lemma {:induction false} BacksGood(s: string, c: Cmd, ts: seq<Tok>)
    requires Words(s, c) && AllGood(s, ts)
    ensures Fine(s, M.Backs(c, ts))
    decreases |ts|
  {
    if M.Peeks(ts, "&") { BacksGood(s, M.Back(c), ts[1..]); }
  }

  lemma {:induction false} ExecGood(s: string, ts: seq<Tok>)
    requires AllGood(s, ts)
    ensures Fine(s, M.ParseExec(ts))
    decreases |ts|, 1
  {
    if M.Peeks(ts, "(") {
      BlockGood(s, ts);
    } else {
      RedirsGood(s, [], ts);
      var r := M.Redirs([], ts);
      if r.DirOk? { ArgsGood(s, [], r.ds, r.rest); }
    }
  }

  lemma {:induction false} BlockGood(s: string, ts: seq<Tok>)
    requires AllGood(s, ts) && M.Peeks(ts, "(")
    ensures Fine(s, M.ParseBlock(ts))
    decreases |ts|, 0
  {
    LineGood(s, ts[1..]);
    var r := M.ParseLine(ts[1..]);
    if r.Ok? && M.Peeks(r.rest, ")") {
      RedirsGood(s, [], r.rest[1..]);
      var d := M.Redirs([], r.rest[1..]);
      if d.DirOk? { WrapWords(s, r.c, d.ds); }
    }
  }

  lemma {:induction false} PipeGood(s: string, ts: seq<Tok>)
    requires AllGood(s, ts)
    ensures Fine(s, M.ParsePipe(ts))
    decreases |ts|, 2
  {
    ExecGood(s, ts);
    var r := M.ParseExec(ts);
    if r.Ok? && M.Peeks(r.rest, "|") { PipeGood(s, r.rest[1..]); }
  }

  /** The words of a parsed tree are whole words of the text. */
  lemma {:induction false} LineGood(s: string, ts: seq<Tok>)
    requires AllGood(s, ts)
    ensures Fine(s, M.ParseLine(ts))
    decreases |ts|, 3
  {
    PipeGood(s, ts);
    var r := M.ParsePipe(ts);
    if r.Ok? {
      BacksGood(s, r.c, r.rest);
      var b := M.Backs(r.c, r.rest);
      if M.Peeks(b.rest, ";") { LineGood(s, b.rest[1..]); }
    }
  }

  // ----------------------------------------------------------- nulterminate

  function End(t: Tok): (e: nat) { t.q + |t.text| }

  function EndsOf(ts: seq<Tok>): (r: set<nat>) { if ts == [] then {} else {End(ts[0])} + EndsOf(ts[1..]) }

  /** Where nulterminate writes: right behind every word. */
  function Ends(c: Cmd): (r: set<nat>) {
    match c
    case Exec(argv) => EndsOf(argv)
    case Redir(d, file, _) => Ends(d) + {End(file)}
    case Pipe(l, r) => Ends(l) + Ends(r)
    case List(l, r) => Ends(l) + Ends(r)
    case Back(d) => Ends(d)
  }

  /** A place that is no word character of s: behind its end or a blank or a symbol. */
  ghost predicate Gap(s: string, e: nat) { e <= |s| && (e < |s| ==> !WordChar(s[e])) }

  ghost predicate Below(ends: set<nat>, n: nat) { forall e: nat :: e in ends ==> e < n }

  lemma {:induction false} EndsOfGaps(s: string, ts: seq<Tok>)
    requires forall i :: 0 <= i < |ts| ==> Leaf(s, ts[i])
    ensures forall e :: e in EndsOf(ts) ==> Gap(s, e)
    decreases |ts|
  {
    if ts != [] {
      assert Leaf(s, ts[0]);
      EndsOfGaps(s, ts[1..]);
    }
  }

  lemma {:induction false} EndsGaps(s: string, c: Cmd)
    requires Words(s, c)
    ensures forall e :: e in Ends(c) ==> Gap(s, e)
    decreases c
  {
    match c
    case Exec(argv) => EndsOfGaps(s, argv);
    case Redir(d, _, _) => EndsGaps(s, d);
    case Pipe(l, r) => EndsGaps(s, l); EndsGaps(s, r);
    case List(l, r) => EndsGaps(s, l); EndsGaps(s, r);
    case Back(d) => EndsGaps(s, d);
  }

  /** The C string at q in the buffer is w. */
  ghost predicate Reads(buf: seq<char>, q: nat, w: string) {
    q + |w| < |buf| && buf[q..q + |w|] == w && buf[q + |w|] == '\0' && '\0' !in w
  }

  /** Every argv and file pointer of the tree reads as its word. */
  ghost predicate ReadsAll(buf: seq<char>, c: Cmd) {
    match c
    case Exec(argv) => forall i :: 0 <= i < |argv| ==> Reads(buf, argv[i].q, argv[i].text)
    case Redir(d, file, _) => ReadsAll(buf, d) && Reads(buf, file.q, file.text)
    case Pipe(l, r) => ReadsAll(buf, l) && ReadsAll(buf, r)
    case List(l, r) => ReadsAll(buf, l) && ReadsAll(buf, r)
    case Back(d) => ReadsAll(buf, d)
  }

  /** buf is s with NULs at the places in ends, which are all gaps. */
  ghost predicate Cut(s: string, buf: seq<char>, ends: set<nat>) {
    && |buf| == |s| + 1 && '\0' !in s && (forall e :: e in ends ==> Gap(s, e))
    && forall k :: 0 <= k <= |s| ==> buf[k] == if k in ends || k == |s| then '\0' else s[k]
  }

  /** No NUL lands inside a word. */
  lemma CutReads(s: string, buf: seq<char>, ends: set<nat>, t: Tok)
    requires Cut(s, buf, ends) && Leaf(s, t) && End(t) in ends
    ensures Reads(buf, t.q, t.text)
  {
    forall k | t.q <= k < End(t) ensures buf[k] == s[k] && s[k] == t.text[k - t.q] {
      assert k !in ends by { assert WordChar(s[k]); }
      assert s[t.q..End(t)][k - t.q] == s[k];
    }
    assert buf[t.q..End(t)] == t.text;
    assert forall i :: 0 <= i < |t.text| ==> t.text[i] == s[t.q + i];
  }

  lemma {:induction false} InEndsOf(ts: seq<Tok>, i: nat)
    requires i < |ts|
    ensures End(ts[i]) in EndsOf(ts)
    decreases |ts|
  {
    if i > 0 { InEndsOf(ts[1..], i - 1); }
  }

  /** After nulterminate each argv and file pointer reads as exactly the lexed word. */
  lemma {:induction false} TerminatedReads(s: string, buf: seq<char>, ends: set<nat>, c: Cmd)
    requires Cut(s, buf, ends) && Words(s, c) && Ends(c) <= ends
    ensures ReadsAll(buf, c)
    decreases c
  {
    match c
    case Exec(argv) =>
      forall i | 0 <= i < |argv| ensures Reads(buf, argv[i].q, argv[i].text) {
        InEndsOf(argv, i);
        assert Leaf(s, argv[i]);
        CutReads(s, buf, ends, argv[i]);
      }
    case Redir(d, file, _) =>
      TerminatedReads(s, buf, ends, d);
      CutReads(s, buf, ends, file);
    case Pipe(l, r) => TerminatedReads(s, buf, ends, l); TerminatedReads(s, buf, ends, r);
    case List(l, r) => TerminatedReads(s, buf, ends, l); TerminatedReads(s, buf, ends, r);
    case Back(d) => TerminatedReads(s, buf, ends, d);
  }

  // ---------------------------------------------------------------- parser

  class Shell {
    const buf: array<char>
    const es: nat            // the end of the text, where its NUL is
    var ps: nat              // the cursor

    ghost function S(): (s: string)
      requires buf.Length == es + 1
      reads buf
    {
      buf[..es]
    }

    ghost predicate Valid()
      reads this, buf
    {
      buf.Length == es + 1 && ps <= es && buf[es] == '\0' && forall k :: 0 <= k < es ==> buf[k] != '\0'
    }

    /** The tokens ahead of the cursor. */
    ghost function T(): (ts: seq<Tok>)
      requires Valid()
      reads this, buf
    {
      Lex(S(), ps)
    }

    constructor (s: string)
      requires '\0' !in s
      ensures Valid() && S() == s && ps == 0 && fresh(buf)
    {
      var b := new char[|s| + 1](_ => '\0');
      forall k | 0 <= k < |s| { b[k] := s[k]; }
      buf, es, ps := b, |s|, 0;
    }

    /** Move a cursor over blanks. */
    method Blanks(p: nat) returns (q: nat)
      requires Valid() && p <= es
      ensures q == Skip(S(), p)
    {
      q := p;
      while q < es && buf[q] in WHITESPACE
        invariant p <= q <= es && Skip(S(), q) == Skip(S(), p)
      {
        q := q + 1;
      }
    }

    /** gettoken(): the next token's kind, 0 at the end; a word lies in [q, eq). */
    method Gettoken() returns (ret: char, q: nat, eq: nat)
      requires Valid()
      modifies this`ps
      ensures Valid() && ps >= old(ps)
      ensures old(T()) == [] ==> ret == '\0' && T() == []
      ensures old(T()) != [] ==> ret == old(T())[0].kind && T() == old(T())[1..] && ps > old(ps)
      ensures old(T()) != [] && ret == 'a' ==> q <= eq <= es && old(T())[0] == M.Tok('a', S()[q..eq], q)
    {
      var s := Blanks(ps);
      q := s;
      ret, eq := buf[s], s;
      if s < es { ret, eq := Token(s); }
      ps := Blanks(eq);
      SkipSkip(S(), eq);
    }

    /** gettoken() where a word is wanted, as a token with its text. */
    method Getword() returns (ret: char, w: Tok)
      requires Valid()
      modifies this`ps
      ensures Valid() && ps >= old(ps)
      ensures old(T()) == [] ==> ret == '\0' && T() == []
      ensures old(T()) != [] ==> ret == old(T())[0].kind && T() == old(T())[1..] && ps > old(ps)
      ensures old(T()) != [] && ret == 'a' ==> w == old(T())[0]
    {
      var q, eq;
      ret, q, eq := Gettoken();
      w := if ret == 'a' && q <= eq <= es then M.Tok('a', buf[q..eq], q) else M.Sym(ret);
      if ret == 'a' && q <= eq <= es { assert buf[q..eq] == S()[q..eq]; }
    }

    /** The switch of gettoken, at a character that is no blank. */
    method Token(at: nat) returns (ret: char, s: nat)
      requires Valid() && at < es && !Space(buf[at])
      ensures at < s <= es
      ensures (if ret == 'a' then M.Tok('a', S()[at..s], at) else if ret == '+' then M.Tok('+', ">>", 0)
               else M.Sym(ret), s) == TokAt(S(), at)
    {
      assert S()[at] == buf[at];
      if at + 1 < es { assert S()[at + 1] == buf[at + 1]; }
      s := at;
      ret := buf[s];
      if buf[s] in "|();&<" {
        s := s + 1;
      } else if buf[s] == '>' {
        s := s + 1;
        if buf[s] == '>' {
          ret := '+';
          s := s + 1;
        }
      } else {
        ret := 'a';
        s := WordStop(s);
      }
    }

    /** The end of the word at s. */
    method WordStop(p: nat) returns (s: nat)
      requires Valid() && p <= es
      ensures s == WordEnd(S(), p)
    {
      s := p;
      while s < es && buf[s] !in WHITESPACE && buf[s] !in SYMBOLS
        invariant p <= s <= es && WordEnd(S(), s) == WordEnd(S(), p)
      {
        s := s + 1;
      }
    }

    /** peek(): whether the next token begins with one of the symbols. */
    method Peek(toks: string) returns (r: bool)
      requires Valid() && forall k :: 0 <= k < |toks| ==> toks[k] in SYMBOLS
      modifies this`ps
      ensures Valid() && ps >= old(ps) && T() == old(T()) && Skip(S(), ps) == ps
      ensures r <==> M.Peeks(T(), toks)
    {
      ps := Blanks(ps);
      SkipSkip(S(), old(ps));
      r := buf[ps] != '\0' && buf[ps] in toks;
      if ps < es { assert S()[ps] == buf[ps]; }
    }

    /** parseredirs(), collecting the redirections; !ok is its panic. */
    method Parseredirs(ds0: seq<M.Dir>) returns (ok: bool, ds: seq<M.Dir>)
      requires Valid()
      modifies this`ps
      ensures Valid() && ps >= old(ps)
      ensures var r := M.Redirs(ds0, old(T())); ok == r.DirOk? && (ok ==> ds == r.ds && T() == r.rest)
    {
      ds := ds0;
      while true
        invariant Valid() && ps >= old(ps) && M.Redirs(ds, T()) == M.Redirs(ds0, old(T()))
        decreases |T()|
      {
        var more := Peek("<>");
        if !more { return true, ds; }
        var tok, a, b := Gettoken();
        var kind, file := Getword();
        if kind != 'a' { return false, ds; }
        ds := ds + [M.Dir(file, tok != '<')];
      }
    }

    /** parseexec(); !ok is a panic. */
    method Parseexec() returns (ok: bool, cmd: Cmd)
      requires Valid()
      modifies this`ps
      ensures Valid() && ps >= old(ps)
      ensures var r := M.ParseExec(old(T())); ok == r.Ok? && (ok ==> cmd == r.c && T() == r.rest)
      decreases es - ps, 1
    {
      var block := Peek("(");
      if block {
        ok, cmd := Parseblock();
        return;
      }
      cmd := M.Exec([]);
      var ds;
      ok, ds := Parseredirs([]);
      if !ok { return; }
      ok, cmd := Parseargs(ds);
    }

    /** The loop of parseexec over the words. */
    method Parseargs(ds0: seq<M.Dir>) returns (ok: bool, cmd: Cmd)
      requires Valid()
      modifies this`ps
      ensures Valid() && ps >= old(ps)
      ensures var r := M.Args([], ds0, old(T())); ok == r.Ok? && (ok ==> cmd == r.c && T() == r.rest)
    {
      var argv, ds := [], ds0;
      cmd := M.Exec([]);
      while true
        invariant Valid() && ps >= old(ps) && M.Args(argv, ds, T()) == M.Args([], ds0, old(T()))
        decreases |T()|
      {
        var stop := Peek("|)&;");
        if stop { break; }
        var tok, word := Getword();
        if tok == '\0' { break; }
        if tok != 'a' { return false, cmd; }
        argv := argv + [word];
        if |argv| >= M.MAXARGS { return false, cmd; }
        ok, ds := Parseredirs(ds);
        if !ok { return; }
      }
      return true, M.Wrap(M.Exec(argv), ds);
    }

    /** parseblock(); !ok is a panic. */
    method Parseblock() returns (ok: bool, cmd: Cmd)
      requires Valid() && M.Peeks(T(), "(")
      modifies this`ps
      ensures Valid() && ps >= old(ps)
      ensures var r := M.ParseBlock(old(T())); ok == r.Ok? && (ok ==> cmd == r.c && T() == r.rest)
      decreases es - ps, 0
    {
      var tok, q, eq := Gettoken();
      ok, cmd := Parseline();
      if !ok { return; }
      var close := Peek(")");
      if !close { return false, cmd; }
      tok, q, eq := Gettoken();
      var ds;
      ok, ds := Parseredirs([]);
      if ok { cmd := M.Wrap(cmd, ds); }
    }

    /** parsepipe(); !ok is a panic. */
    method Parsepipe() returns (ok: bool, cmd: Cmd)
      requires Valid()
      modifies this`ps
      ensures Valid() && ps >= old(ps)
      ensures var r := M.ParsePipe(old(T())); ok == r.Ok? && (ok ==> cmd == r.c && T() == r.rest)
      decreases es - ps, 2
    {
      ok, cmd := Parseexec();
      if !ok { return; }
      var more := Peek("|");
      if more {
        var tok, q, eq := Gettoken();
        var right;
        ok, right := Parsepipe();
        if ok { cmd := M.Pipe(cmd, right); }
      }
    }

    /** parseline(); !ok is a panic. */
    method Parseline() returns (ok: bool, cmd: Cmd)
      requires Valid()
      modifies this`ps
      ensures Valid() && ps >= old(ps)
      ensures var r := M.ParseLine(old(T())); ok == r.Ok? && (ok ==> cmd == r.c && T() == r.rest)
      decreases es - ps, 3
    {
      ok, cmd := Parsepipe();
      if !ok { return; }
      cmd := Amps(cmd);
      var more := Peek(";");
      if more {
        var tok, q, eq := Gettoken();
        var right;
        ok, right := Parseline();
        if ok { cmd := M.List(cmd, right); }
      }
    }

    /** The loop of parseline over '&'. */
    method Amps(cmd0: Cmd) returns (cmd: Cmd)
      requires Valid()
      modifies this`ps
      ensures Valid() && ps >= old(ps) && M.Backs(cmd0, old(T())) == M.Ok(cmd, T())
    {
      cmd := cmd0;
      while true
        invariant Valid() && ps >= old(ps) && M.Backs(cmd, T()) == M.Backs(cmd0, old(T()))
        decreases |T()|
      {
        var amp := Peek("&");
        if !amp { return; }
        var tok, q, eq := Gettoken();
        cmd := M.Back(cmd);
      }
    }

    /** nulterminate(): a NUL behind every word of the tree, and nothing else changes. */
    method Nulterminate(cmd: Cmd)
      requires Below(Ends(cmd), buf.Length)
      modifies buf
      ensures forall k :: 0 <= k < buf.Length ==> buf[k] == if k in Ends(cmd) then '\0' else old(buf[k])
      decreases cmd
    {
      match cmd
      case Exec(argv) =>
        var i := 0;
        while i < |argv|
          invariant i <= |argv|
          invariant forall k :: 0 <= k < buf.Length ==> buf[k] == if k in EndsOf(argv[..i]) then '\0' else old(buf[k])
        {
          InEndsOf(argv, i);
          EndsOfNext(argv, i);
          buf[End(argv[i])] := '\0';
          i := i + 1;
        }
        assert argv[..i] == argv;
      case Redir(c, file, _) =>
        assert Ends(cmd) == Ends(c) + {End(file)};
        Nulterminate(c);
        buf[End(file)] := '\0';
      case Pipe(l, r) =>
        assert Ends(cmd) == Ends(l) + Ends(r);
        Nulterminate(l);
        Nulterminate(r);
      case List(l, r) =>
        assert Ends(cmd) == Ends(l) + Ends(r);
        Nulterminate(l);
        Nulterminate(r);
      case Back(c) =>
        assert Ends(cmd) == Ends(c);
        Nulterminate(c);
    }

    /** parsecmd(): the parse of the whole text, with every word of the tree readable as a C string in the buffer. */
    method Parsecmd() returns (ok: bool, cmd: Cmd)
      requires Valid() && ps == 0
      modifies this`ps, buf
      ensures var r := M.Parse(old(T())); ok == r.Ok? && (ok ==> cmd == r.c)
      ensures ok ==> ReadsAll(buf[..], cmd)
    {
      ghost var s := S();
      LexGood(s, 0);
      LineGood(s, T());
      ok, cmd := Parseline();
      if !ok { return; }
      var more := Peek("");
      if ps != es {
        SkipEnd(s, ps);
        return false, cmd;
      }
      EndsGaps(s, cmd);
      Nulterminate(cmd);
      assert Cut(s, buf[..], Ends(cmd));
      TerminatedReads(s, buf[..], Ends(cmd), cmd);
    }
  }

  /** Past the blanks, tokens are left exactly when text is. */
  lemma SkipEnd(s: string, p: nat)
    requires p <= |s| && Skip(s, p) == p
    ensures Lex(s, p) == [] <==> p == |s|
  {
  }

  lemma {:induction false} EndsOfNext(ts: seq<Tok>, i: nat)
    requires i < |ts|
    ensures EndsOf(ts[..i + 1]) == EndsOf(ts[..i]) + {End(ts[i])}
    decreases |ts|
  {
    if i > 0 {
      EndsOfNext(ts[1..], i - 1);
      assert ts[..i + 1][1..] == ts[1..][..i] && ts[..i][1..] == ts[1..][..i - 1];
    } else {
      assert ts[..1][1..] == [] && ts[..0] == [];
    }
  }
}
