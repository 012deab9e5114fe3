/** The regular-expression matcher of grep.c against a denotational meaning of patterns. */
module Grep {

  datatype Regex = Eps | Sym(c: char) | Any | Cat(a: Regex, b: Regex) | Rep(r: Regex) | Eol

  /** A relation between positions of a text: the stretches a pattern matches. */
  type Lang = (nat, nat) -> bool

  ghost predicate StepOf(l: Lang, p: seq<nat>, m: nat)
    requires m + 1 < |p|
  {
    l(p[m], p[m + 1])
  }

  /** The stretch from i to j is cut by the positions p into stretches of l. */
  ghost predicate Cuts(l: Lang, p: seq<nat>, i: nat, j: nat) {
    |p| > 0 && p[0] == i && p[|p| - 1] == j && forall m: nat :: m + 1 < |p| ==> StepOf(l, p, m)
  }

  /** The meaning of an expression: the stretches text[i..j] it matches exactly. */
  ghost function Den(r: Regex, text: string): (l: Lang) {
    match r
    case Eps => (i: nat, j: nat) => i == j <= |text|
    case Sym(c) => (i: nat, j: nat) => i < |text| && j == i + 1 && text[i] == c
    case Any => (i: nat, j: nat) => i < |text| && j == i + 1
    case Cat(a, b) =>
      var la, lb := Den(a, text), Den(b, text);
      (i: nat, j: nat) => exists k: nat :: la(i, k) && lb(k, j)
    case Rep(s) =>
      var ls := Den(s, text);
      (i: nat, j: nat) => j <= |text| && exists p: seq<nat> :: Cuts(ls, p, i, j)
    case Eol => (i: nat, j: nat) => i == j == |text|
  }

  function Atom(c: char): (r: Regex) { if c == '.' then Any else Sym(c) }

  /** The meaning of a pattern after an optional '^': '.' is any character, c* repeats, a final '$' is the end. */
  function Parse(re: string): (r: Regex) {
    if re == [] then Eps
    else if |re| > 1 && re[1] == '*' then Cat(Rep(Atom(re[0])), Parse(re[2..]))
    else if re == "$" then Eol
    else Cat(Atom(re[0]), Parse(re[1..]))
  }

  /** The pattern matches at position i. */
  ghost predicate Here(re: string, text: string, i: nat) {
    var l := Den(Parse(re), text);
    exists j: nat :: l(i, j)
  }

  predicate Fits(c: char, x: char) { c == '.' || c == x }

  ghost predicate Run(c: char, text: string, i: nat, k: nat) {
    i <= k <= |text| && forall m :: i <= m < k ==> Fits(c, text[m])
  }

  lemma AtomDen(c: char, text: string, i: nat, j: nat)
    ensures Den(Atom(c), text)(i, j) <==> i < |text| && j == i + 1 && Fits(c, text[i])
  {
  }

  // ------------------------------------------------------------------ star

  lemma {:induction false} CutsRun(c: char, text: string, p: seq<nat>, i: nat, k: nat)
    requires Cuts(Den(Atom(c), text), p, i, k) && k <= |text|
    ensures Run(c, text, i, k)
    decreases |p|
  {
    if |p| > 1 {
      var l := Den(Atom(c), text);
      assert StepOf(l, p, 0);
      AtomDen(c, text, i, p[1]);
      var q := p[1..];
      forall m: nat | m + 1 < |q| ensures StepOf(l, q, m) { assert StepOf(l, p, m + 1); }
      CutsRun(c, text, q, i + 1, k);
    }
  }

  /** A repeated atom matches exactly the runs of characters that fit it. */
  lemma RepRun(c: char, text: string, i: nat, k: nat)
    ensures Den(Rep(Atom(c)), text)(i, k) <==> Run(c, text, i, k)
  {
    var l := Den(Atom(c), text);
    if Den(Rep(Atom(c)), text)(i, k) {
      var p: seq<nat> :| Cuts(l, p, i, k);
      CutsRun(c, text, p, i, k);
    }
    if Run(c, text, i, k) {
      var p: seq<nat> := seq(k - i + 1, m => i + m);
      forall m: nat | m + 1 < |p| ensures StepOf(l, p, m) { AtomDen(c, text, i + m, i + m + 1); }
      assert Cuts(l, p, i, k);
    }
  }

  /** c* followed by re: skip some run of c, then match re. */
  ghost predicate StarHere(c: char, re: string, text: string, i: nat) {
    exists k: nat :: Run(c, text, i, k) && Here(re, text, k)
  }

  lemma StarParts(re: string, text: string, i: nat)
    requires |re| > 1 && re[1] == '*'
    ensures Here(re, text, i) <==> StarHere(re[0], re[2..], text, i)
  {
    var la, lb, l := Den(Rep(Atom(re[0])), text), Den(Parse(re[2..]), text), Den(Parse(re), text);
    if Here(re, text, i) {
      var j: nat :| l(i, j);
      var k: nat :| la(i, k) && lb(k, j);
      RepRun(re[0], text, i, k);
      assert Here(re[2..], text, k);
    }
    if StarHere(re[0], re[2..], text, i) {
      var k: nat :| Run(re[0], text, i, k) && Here(re[2..], text, k);
      var j: nat :| lb(k, j);
      RepRun(re[0], text, i, k);
      assert l(i, j);
    }
  }

  /** One character, then the rest. */
  lemma AtomParts(re: string, text: string, i: nat)
    requires re != [] && !(|re| > 1 && re[1] == '*') && re != "$"
    ensures Here(re, text, i) <==> i < |text| && Fits(re[0], text[i]) && Here(re[1..], text, i + 1)
  {
    var la, lb, l := Den(Atom(re[0]), text), Den(Parse(re[1..]), text), Den(Parse(re), text);
    if Here(re, text, i) {
      var j: nat :| l(i, j);
      var k: nat :| la(i, k) && lb(k, j);
      AtomDen(re[0], text, i, k);
    }
    if i < |text| && Fits(re[0], text[i]) && Here(re[1..], text, i + 1) {
      var j: nat :| lb(i + 1, j);
      AtomDen(re[0], text, i, i + 1);
      assert l(i, j);
    }
  }

  lemma EpsHere(text: string, i: nat)
    requires i <= |text|
    ensures Here([], text, i)
  {
    assert Den(Parse([]), text)(i, i);
  }

  lemma EolHere(text: string, i: nat)
    ensures Here("$", text, i) <==> i == |text|
  {
    if i == |text| { assert Den(Parse("$"), text)(i, i); }
  }

  /** Beyond the end nothing matches. */
  lemma {:induction false} WithinText(r: Regex, text: string, i: nat, j: nat)
    requires Den(r, text)(i, j)
    ensures i <= |text|
    decreases r
  {
    match r
    case Cat(a, b) =>
      var k: nat :| Den(a, text)(i, k) && Den(b, text)(k, j);
      WithinText(a, text, i, k);
    case Rep(s) =>
      var p: seq<nat> :| Cuts(Den(s, text), p, i, j);
      if |p| > 1 {
        assert StepOf(Den(s, text), p, 0);
        WithinText(s, text, i, p[1]);
      }
    case _ =>
  }

  // --------------------------------------------------------------- matcher

  /** matchhere(): the pattern matches at the start of the rest of the text. */
  method MatchHere(re: string, text: string, i: nat) returns (r: bool)
    requires i <= |text|
    ensures r <==> Here(re, text, i)
    decreases |re|
  {
    if |re| == 0 {
      EpsHere(text, i);
      return true;
    }
    if |re| > 1 && re[1] == '*' {
      StarParts(re, text, i);
      r := MatchStar(re[0], re[2..], text, i);
      return;
    }
    if re[0] == '$' && |re| == 1 {
      assert re == "$";
      EolHere(text, i);
      return i == |text|;
    }
    AtomParts(re, text, i);
    if i < |text| && (re[0] == '.' || re[0] == text[i]) {
      r := MatchHere(re[1..], text, i + 1);
      return;
    }
    return false;
  }

  /** matchstar(): c*re matches at the start of the rest of the text. */
  method MatchStar(c: char, re: string, text: string, i0: nat) returns (r: bool)
    requires i0 <= |text|
    ensures r <==> StarHere(c, re, text, i0)
    decreases |re| + 1
  {
    var i := i0;
    while true
      invariant Run(c, text, i0, i) && forall k: nat :: i0 <= k < i ==> !Here(re, text, k)
      decreases |text| - i
    {
      var here := MatchHere(re, text, i);
      if here { return true; }
      if i == |text| || !(text[i] == c || c == '.') { break; }
      i := i + 1;
    }
    return false;
  }

  /** Some stretch of the text has the pattern's meaning; after '^' it begins at the start. */
  ghost predicate Matches(re: string, text: string) {
    if re != [] && re[0] == '^' then Here(re[1..], text, 0) else exists i: nat :: Here(re, text, i)
  }

  /** match(): true exactly when the pattern matches somewhere, for every pattern and text without NUL. */
  method Match(re: string, text: string) returns (r: bool)
    requires '\0' !in re && '\0' !in text
    ensures r <==> Matches(re, text)
  {
    if |re| > 0 && re[0] == '^' {
      r := MatchHere(re[1..], text, 0);
      return;
    }
    var i := 0;
    while true
      invariant i <= |text| && forall k: nat :: k < i ==> !Here(re, text, k)
      decreases |text| - i
    {
      var here := MatchHere(re, text, i);
      if here { return true; }
      if i == |text| { break; }
      i := i + 1;
    }
    forall k: nat | Here(re, text, k) ensures k <= |text| {
      var j: nat :| Den(Parse(re), text)(k, j);
      WithinText(Parse(re), text, k, j);
    }
    return false;
  }
}
