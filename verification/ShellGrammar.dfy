/** sh.c: the language of the shell, apart from its parser. Lexemes are what a line consists of; a Line is its concrete
    syntax; and the parser accepts a line of text if and only if it spells one, and then returns what that means. */
module ShellGrammar {
  import opened Common
  import opened ShellSpec

  // ---- lexemes ----

  /** A word is its place in the line; a symbol is itself, with '+' for ">>". */
  datatype Lexemes = Nil | Sym(kind: char, tail: Lexemes) | Wd(p: Span, tail: Lexemes)

  ghost predicate Blank(t: string, lo: nat, hi: nat) {
    lo <= hi <= |t| && forall k :: lo <= k < hi ==> IsSpace(t[k])
  }

  /** Characters [p.lo, p.hi) are a word, and as much of it as there is. */
  ghost predicate WholeWord(t: string, p: Span) {
    && p.lo < p.hi <= |t| && (forall k :: p.lo <= k < p.hi ==> IsWordChar(t[k]))
    && (p.hi < |t| ==> !IsWordChar(t[p.hi]))
  }

  /** A symbol at a; two '>' are one. */
  ghost predicate SymbolAt(t: string, a: nat, kind: char) {
    && a < |t| && IsSymbol(t[a])
    && if t[a] == '>' && a + 1 < |t| && t[a + 1] == '>' then kind == '+' else kind == t[a]
  }

  /** From s on the line consists of the lexemes x, with white space between them. */
  ghost predicate Spells(t: string, s: nat, x: Lexemes)
    decreases x
  {
    match x
    case Nil => Blank(t, s, |t|)
    case Wd(p, y) => Blank(t, s, p.lo) && WholeWord(t, p) && Spells(t, p.hi, y)
    case Sym(kind, y) =>
      exists a: nat :: Blank(t, s, a) && SymbolAt(t, a, kind) && Spells(t, if kind == '+' then a + 2 else a + 1, y)
  }

  /** What gettoken returns, one after the other. */
  function Lex(t: string, s: nat): Lexemes
    requires s <= |t| && CString(t)
    decreases |t| - s
  {
    var g := GetToken(t, s);
    if g.kind == NUL then Nil
    else if g.kind == 'a' then Wd(Span(g.q, g.eq), Lex(t, g.next))
    else Sym(g.kind, Lex(t, g.next))
  }

  lemma {:induction false} SkipBlank(t: string, s: nat)
    requires s <= |t|
    ensures Blank(t, s, Skip(t, s))
    decreases |t| - s
  {
    if s < |t| && IsSpace(t[s]) { SkipBlank(t, s + 1); }
  }

  lemma {:induction false} BlankSkip(t: string, s: nat, a: nat)
    requires Blank(t, s, a) && (a < |t| ==> !IsSpace(t[a]))
    ensures Skip(t, s) == a
    decreases a - s
  {
    if s < a { BlankSkip(t, s + 1, a); }
  }

  /** When peek has moved the cursor over white space, gettoken does not mind. */
  lemma SkipAgain(t: string, s: nat)
    requires s <= |t|
    ensures Skip(t, Skip(t, s)) == Skip(t, s) && GetToken(t, Skip(t, s)) == GetToken(t, s)
  {
  }

  lemma LexSkips(t: string, s: nat)
    requires s <= |t| && CString(t)
    ensures Lex(t, Skip(t, s)) == Lex(t, s)
  {
    SkipAgain(t, s);
  }

  /** The tokenizer finds the lexemes, and a line is spelled in one way only. */
  lemma {:induction false} SpellsIff(t: string, s: nat, x: Lexemes)
    requires s <= |t| && CString(t)
    ensures Spells(t, s, x) <==> x == Lex(t, s)
    decreases |t| - s, 1
  {
    var a := Skip(t, s);
    SkipBlank(t, s);
    match x
    case Nil =>
      if Blank(t, s, |t|) { BlankSkip(t, s, |t|); }
    case Wd(p, y) =>
      if Blank(t, s, p.lo) && WholeWord(t, p) { WordIs(t, s, p, y); }
      if x == Lex(t, s) { WordIs(t, s, p, y); }
    case Sym(kind, y) =>
      forall b: nat | Blank(t, s, b) && SymbolAt(t, b, kind)
        ensures Spells(t, if kind == '+' then b + 2 else b + 1, y) <==> x == Lex(t, s)
        ensures b == a
      {
        BlankSkip(t, s, b);
        SymbolIs(t, s, a, if kind == '+' then a + 2 else a + 1, kind, y);
      }
      if x == Lex(t, s) {
        assert SymbolAt(t, a, kind);
      }
  }

  lemma {:induction false} WordIs(t: string, s: nat, p: Span, y: Lexemes)
    requires s <= |t| && CString(t)
    requires (Blank(t, s, p.lo) && WholeWord(t, p)) || Wd(p, y) == Lex(t, s)
    ensures s < p.hi && Blank(t, s, p.lo) && WholeWord(t, p) && (Spells(t, p.hi, y) <==> Wd(p, y) == Lex(t, s))
    decreases |t| - s, 0
  {
    SkipBlank(t, s);
    if Blank(t, s, p.lo) && WholeWord(t, p) {
      BlankSkip(t, s, p.lo);
      WordEndIs(t, p.lo, p.hi);
    }
    LexSkips(t, p.hi);
    SpellsIff(t, p.hi, y);
  }

  lemma {:induction false} WordEndIs(t: string, s: nat, e: nat)
    requires s <= e <= |t| && (forall k :: s <= k < e ==> IsWordChar(t[k])) && (e < |t| ==> !IsWordChar(t[e]))
    ensures WordEnd(t, s) == e
    decreases e - s
  {
    if s < e { WordEndIs(t, s + 1, e); }
  }

  lemma OperatorToken(t: string, a: nat, kind: char, n: nat)
    requires CString(t) && SymbolAt(t, a, kind) && n == a + if kind == '+' then 2 else 1
    ensures n <= |t| && GetToken(t, a) == Token(kind, a, n, Skip(t, n)) && kind != 'a' && kind != NUL
  {
    assert Skip(t, a) == a;
  }

  lemma {:induction false} SymbolIs(t: string, s: nat, a: nat, n: nat, kind: char, y: Lexemes)
    requires s <= |t| && CString(t) && a == Skip(t, s) && SymbolAt(t, a, kind) && n == a + if kind == '+' then 2 else 1
    ensures Spells(t, n, y) <==> Sym(kind, y) == Lex(t, s)
    decreases |t| - s, 0
  {
    SkipAgain(t, s);
    OperatorToken(t, a, kind, n);
    LexSkips(t, n);
    SpellsIff(t, n, y);
  }

  // ---- concrete syntax ----

  /** A redirection: '<', '>' or ">>", and the file. */
  datatype Out = Out(kind: char, file: Span)

  /** A word and the redirections after it. */
  datatype Arg = Arg(word: Span, outs: seq<Out>)

  /** A simple command with redirections before, between and after its words, or a line in parentheses; a pipeline; and
      pipelines with some '&' after each and ';' in between. */
  datatype Elem = Simple(pre: seq<Out>, args: seq<Arg>) | Group(line: Line, outs: seq<Out>)
  datatype Chain = One(elem: Elem) | Piped(elem: Elem, rest: Chain)
  datatype Line = Last(chain: Chain, backs: nat) | Then(chain: Chain, backs: nat, rest: Line)

  function OutsText(outs: seq<Out>, z: Lexemes): Lexemes {
    if outs == [] then z else Sym(outs[0].kind, Wd(outs[0].file, OutsText(outs[1..], z)))
  }

  function ArgsText(args: seq<Arg>, z: Lexemes): Lexemes {
    if args == [] then z else Wd(args[0].word, OutsText(args[0].outs, ArgsText(args[1..], z)))
  }

  function Amps(n: nat, z: Lexemes): Lexemes { if n == 0 then z else Sym('&', Amps(n - 1, z)) }

  function ElemText(e: Elem, z: Lexemes): Lexemes
    decreases e
  {
    match e
    case Simple(pre, args) => OutsText(pre, ArgsText(args, z))
    case Group(line, outs) => Sym('(', LineText(line, Sym(')', OutsText(outs, z))))
  }

  function ChainText(c: Chain, z: Lexemes): Lexemes
    decreases c
  {
    match c
    case One(e) => ElemText(e, z)
    case Piped(e, rest) => ElemText(e, Sym('|', ChainText(rest, z)))
  }

  function LineText(l: Line, z: Lexemes): Lexemes
    decreases l
  {
    match l
    case Last(c, n) => ChainText(c, Amps(n, z))
    case Then(c, n, rest) => ChainText(c, Amps(n, Sym(';', LineText(rest, z))))
  }

  predicate IsRedir(c: char) { c == '<' || c == '>' || c == '+' }

  ghost predicate OutsOk(outs: seq<Out>) { forall k :: 0 <= k < |outs| ==> IsRedir(outs[k].kind) }

  ghost predicate ArgsOk(args: seq<Arg>) { forall k :: 0 <= k < |args| ==> OutsOk(args[k].outs) }

  /** No more than nine words. */
  ghost predicate ElemOk(e: Elem)
    decreases e
  {
    match e
    case Simple(pre, args) => OutsOk(pre) && ArgsOk(args) && |args| < MAXARGS
    case Group(line, outs) => LineOk(line) && OutsOk(outs)
  }

  ghost predicate ChainOk(c: Chain)
    decreases c
  {
    ElemOk(c.elem) && (c.Piped? ==> ChainOk(c.rest))
  }

  ghost predicate LineOk(l: Line)
    decreases l
  {
    ChainOk(l.chain) && (l.Then? ==> LineOk(l.rest))
  }

  // ---- meaning ----

  /** The first redirection is the innermost. */
  function Around(c: Cmd, outs: seq<Out>): Cmd
    decreases |outs|
  {
    if outs == [] then c
    else
      var o := outs[0];
      Around(if o.kind == '<' then Redir(c, o.file, 0, 0) else Redir(c, o.file, 0x201, 1), outs[1..])
  }

  function AroundArgs(c: Cmd, args: seq<Arg>): Cmd
    decreases |args|
  {
    if args == [] then c else AroundArgs(Around(c, args[0].outs), args[1..])
  }

  function Words(args: seq<Arg>): seq<Span> { seq(|args|, k requires 0 <= k < |args| => args[k].word) }

  function Behind(c: Cmd, n: nat): Cmd { if n == 0 then c else Back(Behind(c, n - 1)) }

  function ElemMeans(e: Elem): Cmd
    decreases e
  {
    match e
    case Simple(pre, args) => AroundArgs(Around(Exec(Words(args)), pre), args)
    case Group(line, outs) => Around(LineMeans(line), outs)
  }

  /** Pipes and lists nest to the right. */
  function ChainMeans(c: Chain): Cmd
    decreases c
  {
    match c
    case One(e) => ElemMeans(e)
    case Piped(e, rest) => Pipe(ElemMeans(e), ChainMeans(rest))
  }

  function LineMeans(l: Line): Cmd
    decreases l
  {
    match l
    case Last(c, n) => Behind(ChainMeans(c), n)
    case Then(c, n, rest) => List(Behind(ChainMeans(c), n), LineMeans(rest))
  }

  // ---- one token ----

  lemma PeekIs(t: string, s: nat, toks: set<char>)
    requires s <= |t| && CString(t) && (forall c :: c in toks ==> IsSymbol(c))
    ensures Peek(t, s, toks) <==>
              var x := Lex(t, s); x.Sym? && (x.kind in toks || (x.kind == '+' && '>' in toks))
  {
    var a := Skip(t, s);
    if a < |t| && IsSymbol(t[a]) {
      var kind := if t[a] == '>' && a + 1 < |t| && t[a + 1] == '>' then '+' else t[a];
      SkipAgain(t, s);
      OperatorToken(t, a, kind, a + if kind == '+' then 2 else 1);
    }
  }

  lemma TokenIs(t: string, s: nat)
    requires s <= |t| && CString(t)
    ensures var g, x := GetToken(t, s), Lex(t, s);
            match x
            case Nil => g.kind == NUL && g.next == |t|
            case Wd(p, y) => g.kind == 'a' && Span(g.q, g.eq) == p && Lex(t, g.next) == y && s < g.next
            case Sym(k, y) => g.kind == k && Lex(t, g.next) == y && k != 'a' && s < g.next
  {
  }

  // ---- the parser on lexemes ----

  datatype Res<T> = Got(value: T, rest: Lexemes) | Bad

  function Len(x: Lexemes): nat {
    match x
    case Nil => 0
    case Sym(_, y) => 1 + Len(y)
    case Wd(_, y) => 1 + Len(y)
  }

  predicate At(x: Lexemes, kind: char) { x.Sym? && x.kind == kind }

  /** What may follow redirections, a simple command, a pipeline, a line. */
  predicate NoRedir(x: Lexemes) { !(x.Sym? && IsRedir(x.kind)) }
  predicate EndsSimple(x: Lexemes) { x.Nil? || At(x, '|') || At(x, ')') || At(x, '&') || At(x, ';') }
  predicate EndsChain(x: Lexemes) { x.Nil? || At(x, ')') || At(x, '&') || At(x, ';') }
  predicate EndsLine(x: Lexemes) { x.Nil? || At(x, ')') }

  function TakeRedirs(x: Lexemes, rs: seq<Redirection>): (r: Res<seq<Redirection>>)
    ensures r.Got? ==> Len(r.rest) <= Len(x)
    decreases Len(x)
  {
    if NoRedir(x) then Got(rs, x)
    else if !x.tail.Wd? then Bad
    else assert Len(x.tail) == 1 + Len(x.tail.tail); TakeRedirs(x.tail.tail, rs + [Redirected(x.kind, x.tail.p)])
  }

  function TakeArgs(x: Lexemes, ps: seq<Span>, rs: seq<Redirection>): (r: Res<(seq<Span>, seq<Redirection>)>)
    ensures r.Got? ==> Len(r.rest) <= Len(x)
    decreases Len(x)
  {
    if EndsSimple(x) then Got((ps, rs), x)
    else if !x.Wd? || |ps| + 1 >= MAXARGS then Bad
    else match TakeRedirs(x.tail, rs)
      case Bad => Bad
      case Got(rs1, y) => TakeArgs(y, ps + [x.p], rs1)
  }

  function TakeExec(x: Lexemes): (r: Res<Cmd>)
    ensures r.Got? ==> Len(r.rest) <= Len(x)
    decreases Len(x), 0
  {
    if At(x, '(') then
      match TakeLine(x.tail)
      case Bad => Bad
      case Got(c, y) =>
        if !At(y, ')') then Bad
        else match TakeRedirs(y.tail, [])
          case Bad => Bad
          case Got(rs, z) => Got(Wrap(c, rs, |rs|), z)
    else match TakeRedirs(x, [])
      case Bad => Bad
      case Got(rs, y) =>
        match TakeArgs(y, [], rs)
        case Bad => Bad
        case Got(v, z) => Got(Wrap(Exec(v.0), v.1, |v.1|), z)
  }

  function TakePipe(x: Lexemes): (r: Res<Cmd>)
    ensures r.Got? ==> Len(r.rest) <= Len(x)
    decreases Len(x), 1
  {
    match TakeExec(x)
    case Bad => Bad
    case Got(c, y) =>
      if !At(y, '|') then Got(c, y)
      else match TakePipe(y.tail)
        case Bad => Bad
        case Got(d, z) => Got(Pipe(c, d), z)
  }

  function TakeBacks(x: Lexemes, c: Cmd): (r: (Cmd, Lexemes))
    ensures Len(r.1) <= Len(x)
    decreases Len(x)
  {
    if At(x, '&') then TakeBacks(x.tail, Back(c)) else (c, x)
  }

  function TakeLine(x: Lexemes): (r: Res<Cmd>)
    ensures r.Got? ==> Len(r.rest) <= Len(x)
    decreases Len(x), 2
  {
    match TakePipe(x)
    case Bad => Bad
    case Got(c, y) =>
      var b := TakeBacks(y, c);
      if !At(b.1, ';') then Got(b.0, b.1)
      else match TakeLine(b.1.tail)
        case Bad => Bad
        case Got(d, z) => Got(List(b.0, d), z)
  }

  // -- it does on lexemes what the other does on text --

  ghost predicate Same<T>(t: string, p: Parsed<T>, r: Res<T>)
    requires CString(t)
  {
    match r
    case Bad => p.Panic?
    case Got(v, z) => p.Ok? && p.value == v && p.next <= |t| && Lex(t, p.next) == z
  }

  lemma {:induction false} SameRedirs(t: string, s: nat, rs: seq<Redirection>)
    requires s <= |t| && CString(t)
    ensures Same(t, ParseRedirs(t, s, rs), TakeRedirs(Lex(t, s), rs)) == true
    decreases |t| - s
  {
    PeekIs(t, s, {'<', '>'});
    LexSkips(t, s);
    TokenIs(t, s);
    if !NoRedir(Lex(t, s)) {
      var g := GetToken(t, s);
      TokenIs(t, g.next);
      var f := GetToken(t, g.next);
      if f.kind == 'a' { SameRedirs(t, f.next, rs + [Redirected(g.kind, Span(f.q, f.eq))]); }
    }
  }

  lemma {:induction false} SameArgs(t: string, s: nat, ps: seq<Span>, rs: seq<Redirection>)
    requires s <= |t| && CString(t)
    ensures Same(t, ParseArgs(t, s, ps, rs), TakeArgs(Lex(t, s), ps, rs)) == true
    decreases |t| - s
  {
    PeekIs(t, s, {'|', ')', '&', ';'});
    LexSkips(t, s);
    TokenIs(t, s);
    if Lex(t, s).Wd? && |ps| + 1 < MAXARGS {
      var g := GetToken(t, s);
      SameRedirs(t, g.next, rs);
      var q := ParseRedirs(t, g.next, rs);
      if q.Ok? { SameArgs(t, q.next, ps + [Span(g.q, g.eq)], q.value); }
    }
  }

  lemma {:induction false} SameExec(t: string, s: nat)
    requires s <= |t| && CString(t)
    ensures Same(t, ParseExec(t, s), TakeExec(Lex(t, s))) == true
    decreases |t| - s, 1
  {
    PeekIs(t, s, {'('});
    LexSkips(t, s);
    if At(Lex(t, s), '(') {
      SameBlock(t, s);
    } else {
      SameRedirs(t, Skip(t, s), []);
      var q := ParseRedirs(t, Skip(t, s), []);
      if q.Ok? { SameArgs(t, q.next, [], q.value); }
    }
  }

  lemma {:induction false} SameBlock(t: string, s: nat)
    requires s <= |t| && CString(t) && At(Lex(t, s), '(')
    ensures Same(t, ParseBlock(t, Skip(t, s)), TakeExec(Lex(t, s))) == true
    decreases |t| - s, 0
  {
    SkipAgain(t, s);
    PeekIs(t, Skip(t, s), {'('});
    LexSkips(t, s);
    TokenIs(t, s);
    var a := GetToken(t, s).next;
    SameLine(t, a);
    var l := ParseLine(t, a);
    if l.Ok? {
      PeekIs(t, l.next, {')'});
      TokenIs(t, l.next);
      if At(Lex(t, l.next), ')') { SameRedirs(t, GetToken(t, l.next).next, []); }
    }
  }

  lemma {:induction false} SamePipe(t: string, s: nat)
    requires s <= |t| && CString(t)
    ensures Same(t, ParsePipe(t, s), TakePipe(Lex(t, s))) == true
    decreases |t| - s, 2
  {
    SameExec(t, s);
    var e := ParseExec(t, s);
    if e.Ok? {
      PeekIs(t, e.next, {'|'});
      LexSkips(t, e.next);
      TokenIs(t, e.next);
      if At(Lex(t, e.next), '|') { SamePipe(t, GetToken(t, e.next).next); }
    }
  }

  lemma {:induction false} SameBacks(t: string, s: nat, c: Cmd)
    requires s <= |t| && CString(t)
    ensures var b, r := Backs(t, s, c), TakeBacks(Lex(t, s), c); b.0 == r.0 && Lex(t, b.1) == r.1
    decreases |t| - s
  {
    PeekIs(t, s, {'&'});
    LexSkips(t, s);
    TokenIs(t, s);
    if At(Lex(t, s), '&') { SameBacks(t, GetToken(t, s).next, Back(c)); }
  }

  lemma {:induction false} SameLine(t: string, s: nat)
    requires s <= |t| && CString(t)
    ensures Same(t, ParseLine(t, s), TakeLine(Lex(t, s))) == true
    decreases |t| - s, 3
  {
    SamePipe(t, s);
    var p := ParsePipe(t, s);
    if p.Ok? {
      SameBacks(t, p.next, p.value);
      var e := Backs(t, p.next, p.value).1;
      PeekIs(t, e, {';'});
      LexSkips(t, e);
      TokenIs(t, e);
      if At(Lex(t, e), ';') { SameLine(t, GetToken(t, e).next); }
    }
  }

  // ---- redirections, as the parser collects them ----

  function OutRs(outs: seq<Out>): seq<Redirection> {
    if outs == [] then [] else [Redirected(outs[0].kind, outs[0].file)] + OutRs(outs[1..])
  }

  function ArgRs(args: seq<Arg>): seq<Redirection> {
    if args == [] then [] else OutRs(args[0].outs) + ArgRs(args[1..])
  }

  lemma {:induction false} WrapFront(c: Cmd, rs: seq<Redirection>, n: nat)
    requires 1 <= n <= |rs|
    ensures Wrap(c, rs, n) == Wrap(Redir(c, rs[0].file, rs[0].mode, rs[0].fd), rs[1..], n - 1)
    decreases n
  {
    if n > 1 { WrapFront(c, rs, n - 1); } else { assert Wrap(c, rs, 0) == c; }
  }

  lemma {:induction false} WrapOuts(c: Cmd, outs: seq<Out>, rs: seq<Redirection>)
    requires OutsOk(outs)
    ensures Wrap(c, OutRs(outs) + rs, |OutRs(outs) + rs|) == Wrap(Around(c, outs), rs, |rs|)
    decreases |outs|
  {
    if outs == [] {
      assert OutRs(outs) + rs == rs;
    } else {
      var all := OutRs(outs) + rs;
      var o := all[0];
      assert all[1..] == OutRs(outs[1..]) + rs;
      WrapFront(c, all, |all|);
      WrapOuts(Redir(c, o.file, o.mode, o.fd), outs[1..], rs);
    }
  }

  lemma {:induction false} WrapArgs(c: Cmd, args: seq<Arg>)
    requires ArgsOk(args)
    ensures Wrap(c, ArgRs(args), |ArgRs(args)|) == AroundArgs(c, args)
    decreases |args|
  {
    if args != [] {
      WrapOuts(c, args[0].outs, ArgRs(args[1..]));
      WrapArgs(Around(c, args[0].outs), args[1..]);
    }
  }

  // ---- every line of the language is parsed as what it means ----

  lemma {:induction false} OutsTaken(rs: seq<Redirection>, outs: seq<Out>, z: Lexemes)
    requires OutsOk(outs) && NoRedir(z)
    ensures TakeRedirs(OutsText(outs, z), rs) == Got(rs + OutRs(outs), z)
    decreases |outs|
  {
    if outs == [] {
      assert rs + OutRs(outs) == rs;
    } else {
      var x := Redirected(outs[0].kind, outs[0].file);
      OutsTaken(rs + [x], outs[1..], z);
      assert rs + [x] + OutRs(outs[1..]) == rs + OutRs(outs);
    }
  }

  lemma {:induction false} ArgsTaken(ps: seq<Span>, rs: seq<Redirection>, args: seq<Arg>, z: Lexemes)
    requires ArgsOk(args) && EndsSimple(z) && |ps| + |args| < MAXARGS
    ensures TakeArgs(ArgsText(args, z), ps, rs) == Got((ps + Words(args), rs + ArgRs(args)), z)
    decreases |args|
  {
    if args == [] {
      assert ps + Words(args) == ps && rs + ArgRs(args) == rs;
    } else {
      OutsTaken(rs, args[0].outs, ArgsText(args[1..], z));
      ArgsTaken(ps + [args[0].word], rs + OutRs(args[0].outs), args[1..], z);
      ArgsMore(ps, rs, args);
    }
  }

  lemma ArgsMore(ps: seq<Span>, rs: seq<Redirection>, args: seq<Arg>)
    requires args != []
    ensures ps + [args[0].word] + Words(args[1..]) == ps + Words(args)
    ensures rs + OutRs(args[0].outs) + ArgRs(args[1..]) == rs + ArgRs(args)
  {
    var w, more := args[0].word, args[1..];
    assert Words(args) == [w] + Words(more) by {
      assert |Words(args)| == |[w] + Words(more)|;
      forall k | 0 <= k < |args| ensures Words(args)[k] == ([w] + Words(more))[k] {}
    }
    assert ps + [w] + Words(more) == ps + ([w] + Words(more));
  }

  lemma SimpleTaken(pre: seq<Out>, args: seq<Arg>, z: Lexemes)
    requires OutsOk(pre) && ArgsOk(args) && |args| < MAXARGS && EndsSimple(z)
    ensures TakeExec(ElemText(Simple(pre, args), z)) == Got(ElemMeans(Simple(pre, args)), z)
  {
    OutsTaken([], pre, ArgsText(args, z));
    ArgsTaken([], [] + OutRs(pre), args, z);
    assert [] + OutRs(pre) == OutRs(pre) && [] + Words(args) == Words(args);
    WrapOuts(Exec(Words(args)), pre, ArgRs(args));
    WrapArgs(Around(Exec(Words(args)), pre), args);
  }

  lemma {:induction false} ElemTaken(e: Elem, z: Lexemes)
    requires ElemOk(e) && EndsSimple(z)
    ensures TakeExec(ElemText(e, z)) == Got(ElemMeans(e), z)
    decreases e
  {
    match e
    case Simple(pre, args) => SimpleTaken(pre, args, z);
    case Group(line, outs) =>
      LineTaken(line, Sym(')', OutsText(outs, z)));
      OutsTaken([], outs, z);
      assert [] + OutRs(outs) == OutRs(outs) == OutRs(outs) + [];
      WrapOuts(LineMeans(line), outs, []);
  }

  lemma {:induction false} ChainTaken(c: Chain, z: Lexemes)
    requires ChainOk(c) && EndsChain(z)
    ensures TakePipe(ChainText(c, z)) == Got(ChainMeans(c), z)
    decreases c
  {
    match c
    case One(e) => ElemTaken(e, z);
    case Piped(e, rest) =>
      ElemTaken(e, Sym('|', ChainText(rest, z)));
      ChainTaken(rest, z);
  }

  lemma {:induction false} AmpsTaken(c: Cmd, m: nat, n: nat, z: Lexemes)
    requires !At(z, '&')
    ensures TakeBacks(Amps(n, z), Behind(c, m)) == (Behind(c, m + n), z)
    decreases n
  {
    if n > 0 { AmpsTaken(c, m + 1, n - 1, z); }
  }

  lemma {:induction false} LineTaken(l: Line, z: Lexemes)
    requires LineOk(l) && EndsLine(z)
    ensures TakeLine(LineText(l, z)) == Got(LineMeans(l), z)
    decreases l
  {
    var y := if l.Then? then Sym(';', LineText(l.rest, z)) else z;
    assert EndsChain(Amps(l.backs, y));
    ChainTaken(l.chain, Amps(l.backs, y));
    AmpsTaken(ChainMeans(l.chain), 0, l.backs, y);
    if l.Then? { LineTaken(l.rest, z); }
  }

  // ---- and whatever is parsed is a line of the language ----

  lemma {:induction false} RedirsSound(x: Lexemes, rs: seq<Redirection>) returns (outs: seq<Out>)
    requires TakeRedirs(x, rs).Got?
    ensures var r := TakeRedirs(x, rs);
            OutsOk(outs) && x == OutsText(outs, r.rest) && r.value == rs + OutRs(outs) && NoRedir(r.rest)
    decreases Len(x)
  {
    outs := [];
    if !NoRedir(x) {
      assert Len(x.tail) == 1 + Len(x.tail.tail);
      var o, y := Out(x.kind, x.tail.p), Redirected(x.kind, x.tail.p);
      var more := RedirsSound(x.tail.tail, rs + [y]);
      outs := [o] + more;
      assert outs[1..] == more;
      assert rs + [y] + OutRs(more) == rs + OutRs(outs);
    } else {
      assert rs + OutRs(outs) == rs;
    }
  }

  lemma {:induction false} ArgsSound(x: Lexemes, ps: seq<Span>, rs: seq<Redirection>) returns (args: seq<Arg>)
    requires TakeArgs(x, ps, rs).Got? && |ps| < MAXARGS
    ensures var r := TakeArgs(x, ps, rs);
            && ArgsOk(args) && x == ArgsText(args, r.rest) && r.value == (ps + Words(args), rs + ArgRs(args))
            && |ps| + |args| < MAXARGS
    decreases Len(x)
  {
    args := [];
    if EndsSimple(x) {
      assert ps + Words(args) == ps && rs + ArgRs(args) == rs;
    } else {
      var outs := RedirsSound(x.tail, rs);
      var r := TakeRedirs(x.tail, rs);
      var more := ArgsSound(r.rest, ps + [x.p], r.value);
      args := [Arg(x.p, outs)] + more;
      assert args[1..] == more;
      ArgsMore(ps, rs, args);
    }
  }

  lemma {:induction false} ExecSound(x: Lexemes) returns (e: Elem)
    requires TakeExec(x).Got?
    ensures var r := TakeExec(x); ElemOk(e) && x == ElemText(e, r.rest) && r.value == ElemMeans(e)
    decreases Len(x), 0
  {
    if At(x, '(') {
      var line := LineSound(x.tail);
      var l := TakeLine(x.tail);
      var outs := RedirsSound(l.rest.tail, []);
      e := Group(line, outs);
      assert [] + OutRs(outs) == OutRs(outs) == OutRs(outs) + [];
      WrapOuts(l.value, outs, []);
    } else {
      var pre := RedirsSound(x, []);
      var q := TakeRedirs(x, []);
      var args := ArgsSound(q.rest, [], q.value);
      e := Simple(pre, args);
      assert [] + OutRs(pre) == OutRs(pre) && [] + Words(args) == Words(args);
      WrapOuts(Exec(Words(args)), pre, ArgRs(args));
      WrapArgs(Around(Exec(Words(args)), pre), args);
    }
  }

  lemma {:induction false} PipeSound(x: Lexemes) returns (c: Chain)
    requires TakePipe(x).Got?
    ensures var r := TakePipe(x); ChainOk(c) && x == ChainText(c, r.rest) && r.value == ChainMeans(c)
    decreases Len(x), 1
  {
    var e := ExecSound(x);
    var y := TakeExec(x).rest;
    c := One(e);
    if At(y, '|') {
      var rest := PipeSound(y.tail);
      c := Piped(e, rest);
    }
  }

  lemma {:induction false} BacksSound(x: Lexemes, c: Cmd, m: nat) returns (n: nat)
    ensures TakeBacks(x, Behind(c, m)).0 == Behind(c, m + n) && x == Amps(n, TakeBacks(x, Behind(c, m)).1)
    decreases Len(x)
  {
    n := 0;
    if At(x, '&') {
      n := BacksSound(x.tail, c, m + 1);
      n := n + 1;
    }
  }

  lemma {:induction false} PartSound(x: Lexemes) returns (c: Chain, n: nat)
    requires TakePipe(x).Got?
    ensures var p := TakePipe(x);
            var b := TakeBacks(p.rest, p.value);
            ChainOk(c) && b.0 == Behind(ChainMeans(c), n) && x == ChainText(c, Amps(n, b.1))
    decreases Len(x), 2
  {
    c := PipeSound(x);
    var p := TakePipe(x);
    n := BacksSound(p.rest, p.value, 0);
  }

  lemma {:induction false} LineSound(x: Lexemes) returns (l: Line)
    requires TakeLine(x).Got?
    ensures var r := TakeLine(x); LineOk(l) && x == LineText(l, r.rest) && r.value == LineMeans(l)
    decreases Len(x), 3
  {
    var c, n := PartSound(x);
    var p := TakePipe(x);
    var y := TakeBacks(p.rest, p.value).1;
    l := Last(c, n);
    if At(y, ';') {
      var rest := LineSound(y.tail);
      l := Then(c, n, rest);
    }
  }

  // ---- the language ----

  /** The text is a line with this syntax. */
  ghost predicate IsLine(t: string, l: Line) { LineOk(l) && Spells(t, 0, LineText(l, Nil)) }

  /** parsecmd returns what the line means, whatever its white space and wherever its redirections are. */
  lemma LineIsParsed(t: string, l: Line)
    requires CString(t) && IsLine(t, l)
    ensures ParseCmd(t) == Ok(LineMeans(l), |t|)
  {
    SpellsIff(t, 0, LineText(l, Nil));
    LineTaken(l, Nil);
    SameLine(t, 0);
    LexIsNil(t, ParseLine(t, 0).next);
  }

  lemma LexIsNil(t: string, s: nat)
    requires s <= |t| && CString(t)
    ensures Lex(t, s).Nil? <==> Skip(t, s) == |t|
  {
    TokenIs(t, s);
  }

  /** And it panics on every other text. */
  lemma ParsedIsLine(t: string) returns (l: Line)
    requires CString(t) && ParseCmd(t).Ok?
    ensures IsLine(t, l) && ParseCmd(t) == Ok(LineMeans(l), |t|)
  {
    SameLine(t, 0);
    LexIsNil(t, ParseLine(t, 0).next);
    l := LineSound(Lex(t, 0));
    SpellsIff(t, 0, LineText(l, Nil));
  }

  lemma ParsesIff(t: string)
    requires CString(t)
    ensures ParseCmd(t).Ok? <==> exists l :: IsLine(t, l)
  {
    if ParseCmd(t).Ok? {
      var l := ParsedIsLine(t);
    }
    if l :| IsLine(t, l) { LineIsParsed(t, l); }
  }

  /** A redirection after a word is kept. */
  lemma RedirectionAfterWord()
    ensures ParseCmd("a >f") == Ok(Redir(Exec([Span(0, 1)]), Span(3, 4), 0x201, 1), 4)
  {
    var t, o := "a >f", Out('>', Span(3, 4));
    ExampleSpelled(t);
    ExampleText(o);
    ExampleMeans(o);
    LineIsParsed(t, Last(One(Simple([], [Arg(Span(0, 1), [o])])), 0));
  }

  lemma ExampleText(o: Out)
    requires o == Out('>', Span(3, 4))
    ensures LineText(Last(One(Simple([], [Arg(Span(0, 1), [o])])), 0), Nil) ==
            Wd(Span(0, 1), Sym('>', Wd(Span(3, 4), Nil)))
  {
    var args := [Arg(Span(0, 1), [o])];
    assert OutsText([o], Nil) == Sym('>', Wd(Span(3, 4), OutsText([], Nil)));
    assert ArgsText(args, Nil) == Wd(Span(0, 1), OutsText([o], ArgsText([], Nil)));
    var e := Simple([], args);
    assert ElemText(e, Nil) == OutsText([], ArgsText(args, Nil)) == ArgsText(args, Nil);
    assert ChainText(One(e), Amps(0, Nil)) == ElemText(e, Nil);
  }

  lemma ExampleMeans(o: Out)
    requires o == Out('>', Span(3, 4))
    ensures ElemMeans(Simple([], [Arg(Span(0, 1), [o])])) == Redir(Exec([Span(0, 1)]), Span(3, 4), 0x201, 1)
  {
    var args := [Arg(Span(0, 1), [o])];
    var c := Exec(Words(args));
    assert Words(args) == [Span(0, 1)];
    assert Around(c, [o]) == Around(Redir(c, Span(3, 4), 0x201, 1), []);
    assert AroundArgs(c, args) == AroundArgs(Around(c, [o]), []);
  }

  lemma ExampleSpelled(t: string)
    requires t == "a >f"
    ensures CString(t) && Spells(t, 0, Wd(Span(0, 1), Sym('>', Wd(Span(3, 4), Nil))))
  {
    assert Spells(t, 3, Wd(Span(3, 4), Nil));
    assert Blank(t, 1, 2) && SymbolAt(t, 2, '>');
    assert Spells(t, 1, Sym('>', Wd(Span(3, 4), Nil)));
  }
}
