/** sh.c: the shell's parser as functions of the text and a cursor, its printer, and the round trip. The text is
    the line without its terminating NUL; the cursor may stand at its end, where the code reads that NUL. */
module ShellSpec {
  import opened Common

  const MAXARGS := 10
  const O_RDONLY := 0
  const O_WRONLY := 0x001
  const O_CREATE := 0x200

  predicate IsSpace(c: char) { c == ' ' || c == '\t' || c == '\r' || c == '\n' || c == '\U{00000b}' }
  predicate IsSymbol(c: char) { c == '<' || c == '|' || c == '>' || c == '&' || c == ';' || c == '(' || c == ')' }
  predicate IsWordChar(c: char) { !IsSpace(c) && !IsSymbol(c) && c != NUL }

  /** A word of the line, from its first character to just past its last. */
  datatype Span = Span(lo: nat, hi: nat)

  datatype Cmd =
    | Exec(args: seq<Span>)
    | Redir(cmd: Cmd, file: Span, mode: int, fd: int)
    | Pipe(left: Cmd, right: Cmd)
    | List(left: Cmd, right: Cmd)
    | Back(cmd: Cmd)

  datatype Redirection = Redirection(file: Span, mode: int, fd: int)

  datatype Parsed<T> = Ok(value: T, next: nat) | Panic

  // ---- tokens ----

  function Skip(t: string, s: nat): (r: nat)
    requires s <= |t|
    ensures s <= r <= |t| && (r < |t| ==> !IsSpace(t[r]))
    ensures s < |t| && !IsSpace(t[s]) ==> r == s
    decreases |t| - s
  {
    if s < |t| && IsSpace(t[s]) then Skip(t, s + 1) else s
  }

  function WordEnd(t: string, s: nat): (r: nat)
    requires s <= |t|
    ensures s <= r <= |t| && (r < |t| ==> !IsWordChar(t[r]))
    ensures forall k :: s <= k < r ==> IsWordChar(t[k])
    ensures s < |t| && IsWordChar(t[s]) ==> r > s
    decreases |t| - s
  {
    if s < |t| && IsWordChar(t[s]) then WordEnd(t, s + 1) else s
  }

  /** kind is what gettoken returns: NUL, 'a' for a word, '+' for >>, or the symbol itself. */
  datatype Token = Token(kind: char, q: nat, eq: nat, next: nat)

  function GetToken(t: string, s: nat): (r: Token)
    requires s <= |t|
    ensures s <= r.q <= r.eq <= r.next <= |t|
    ensures CString(t) && r.q < |t| ==> r.q < r.eq
  {
    var a := Skip(t, s);
    if a == |t| then Token(NUL, a, a, a)
    else if t[a] == '>' && a + 1 < |t| && t[a + 1] == '>' then Token('+', a, a + 2, Skip(t, a + 2))
    else if IsSymbol(t[a]) then Token(t[a], a, a + 1, Skip(t, a + 1))
    else var e := WordEnd(t, a); Token('a', a, e, Skip(t, e))
  }

  predicate Peek(t: string, s: nat, toks: set<char>)
    requires s <= |t|
  {
    var a := Skip(t, s);
    a < |t| && t[a] in toks
  }

  // ---- the grammar ----

  function Redirected(tok: char, file: Span): Redirection {
    if tok == '<' then Redirection(file, O_RDONLY, 0) else Redirection(file, O_WRONLY + O_CREATE, 1)
  }

  function ParseRedirs(t: string, s: nat, rs: seq<Redirection>): (r: Parsed<seq<Redirection>>)
    requires s <= |t| && CString(t)
    ensures r.Ok? ==> s <= r.next <= |t|
    decreases |t| - s
  {
    if !Peek(t, s, {'<', '>'}) then Ok(rs, Skip(t, s))
    else
      var tok := GetToken(t, s);
      var f := GetToken(t, tok.next);
      if f.kind != 'a' then Panic
      else ParseRedirs(t, f.next, rs + [Redirected(tok.kind, Span(f.q, f.eq))])
  }

  function Wrap(c: Cmd, rs: seq<Redirection>, n: nat): Cmd
    requires n <= |rs|
  {
    if n == 0 then c else Redir(Wrap(c, rs, n - 1), rs[n - 1].file, rs[n - 1].mode, rs[n - 1].fd)
  }

  /** The loop of parseexec: arguments and redirections in any order. */
  function ParseArgs(t: string, s: nat, args: seq<Span>, rs: seq<Redirection>)
    : (r: Parsed<(seq<Span>, seq<Redirection>)>)
    requires s <= |t| && CString(t)
    ensures r.Ok? ==> s <= r.next <= |t|
    decreases |t| - s
  {
    if Peek(t, s, {'|', ')', '&', ';'}) then Ok((args, rs), Skip(t, s))
    else
      var tok := GetToken(t, s);
      if tok.kind == NUL then Ok((args, rs), tok.next)
      else if tok.kind != 'a' then Panic
      else if |args| + 1 >= MAXARGS then Panic
      else match ParseRedirs(t, tok.next, rs)
        case Panic => Panic
        case Ok(rs1, s1) => ParseArgs(t, s1, args + [Span(tok.q, tok.eq)], rs1)
  }

  function ParseExec(t: string, s: nat): (r: Parsed<Cmd>)
    requires s <= |t| && CString(t)
    ensures r.Ok? ==> s <= r.next <= |t|
    decreases |t| - s, 1
  {
    if Peek(t, s, {'('}) then ParseBlock(t, Skip(t, s))
    else match ParseRedirs(t, Skip(t, s), [])
      case Panic => Panic
      case Ok(rs, s1) =>
        match ParseArgs(t, s1, [], rs)
        case Panic => Panic
        case Ok(v, s2) => Ok(Wrap(Exec(v.0), v.1, |v.1|), s2)
  }

  function ParseBlock(t: string, s: nat): (r: Parsed<Cmd>)
    requires s <= |t| && CString(t)
    ensures r.Ok? ==> s <= r.next <= |t|
    decreases |t| - s, 0
  {
    if !Peek(t, s, {'('}) then Panic
    else
      var open := GetToken(t, s);
      match ParseLine(t, open.next)
      case Panic => Panic
      case Ok(c, s1) =>
        if !Peek(t, s1, {')'}) then Panic
        else match ParseRedirs(t, GetToken(t, s1).next, [])
          case Panic => Panic
          case Ok(rs, s2) => Ok(Wrap(c, rs, |rs|), s2)
  }

  function ParsePipe(t: string, s: nat): (r: Parsed<Cmd>)
    requires s <= |t| && CString(t)
    ensures r.Ok? ==> s <= r.next <= |t|
    decreases |t| - s, 2
  {
    match ParseExec(t, s)
    case Panic => Panic
    case Ok(c, s1) =>
      if !Peek(t, s1, {'|'}) then Ok(c, Skip(t, s1))
      else match ParsePipe(t, GetToken(t, s1).next)
        case Panic => Panic
        case Ok(d, s2) => Ok(Pipe(c, d), s2)
  }

  function Backs(t: string, s: nat, c: Cmd): (r: (Cmd, nat))
    requires s <= |t| && CString(t)
    ensures s <= r.1 <= |t|
    decreases |t| - s
  {
    if Peek(t, s, {'&'}) then Backs(t, GetToken(t, s).next, Back(c)) else (c, Skip(t, s))
  }

  function ParseLine(t: string, s: nat): (r: Parsed<Cmd>)
    requires s <= |t| && CString(t)
    ensures r.Ok? ==> s <= r.next <= |t|
    decreases |t| - s, 3
  {
    match ParsePipe(t, s)
    case Panic => Panic
    case Ok(c, s1) =>
      var b := Backs(t, s1, c);
      if !Peek(t, b.1, {';'}) then Ok(b.0, Skip(t, b.1))
      else match ParseLine(t, GetToken(t, b.1).next)
        case Panic => Panic
        case Ok(d, s2) => Ok(List(b.0, d), s2)
  }

  /** parsecmd: the whole line or a panic about leftovers. */
  function ParseCmd(t: string): (r: Parsed<Cmd>)
    requires CString(t)
  {
    match ParseLine(t, 0)
    case Panic => Panic
    case Ok(c, s) => if Skip(t, s) == |t| then Ok(c, |t|) else Panic
  }

  // ---- printing and reading back ----

  /** A command over words instead of places in a line. */
  datatype Tree =
    | TExec(args: seq<string>)
    | TRedir(cmd: Tree, file: string, input: bool)
    | TPipe(left: Tree, right: Tree)
    | TList(left: Tree, right: Tree)
    | TBack(cmd: Tree)

  ghost predicate IsWord(w: string) { |w| > 0 && forall k :: 0 <= k < |w| ==> IsWordChar(w[k]) }

  /** Trees that the parser can build: words, and at most MAXARGS - 1 arguments. */
  ghost predicate ValidTree(c: Tree) {
    match c
    case TExec(ws) => |ws| < MAXARGS && forall k :: 0 <= k < |ws| ==> IsWord(ws[k])
    case TRedir(d, f, _) => ValidTree(d) && IsWord(f)
    case TPipe(l, r) => ValidTree(l) && ValidTree(r)
    case TList(l, r) => ValidTree(l) && ValidTree(r)
    case TBack(d) => ValidTree(d)
  }

  function PrintArgs(ws: seq<string>, n: nat): string
    requires n <= |ws|
    decreases |ws| - n
  {
    if n == |ws| then "" else ws[n] + " " + PrintArgs(ws, n + 1)
  }

  function Block(c: Tree): string
    decreases c, 1
  {
    "(" + Print(c) + ")"
  }

  /** Every operand in parentheses. */
  function Print(c: Tree): string
    decreases c, 0
  {
    match c
    case TExec(ws) => PrintArgs(ws, 0)
    case TRedir(d, f, input) => Block(d) + (if input then "<" else ">") + f + " "
    case TPipe(l, r) => Block(l) + "|" + Block(r)
    case TList(l, r) => Block(l) + ";" + Block(r)
    case TBack(d) => Block(d) + "&"
  }

  /** w stands in t at s. */
  ghost predicate At(t: string, s: nat, w: string) {
    s + |w| <= |t| && forall k :: 0 <= k < |w| ==> t[s + k] == w[k]
  }

  lemma AtConcat(t: string, s: nat, v: string, w: string)
    ensures At(t, s, v + w) <==> At(t, s, v) && At(t, s + |v|, w)
  {
    if At(t, s, v + w) {
      forall k | 0 <= k < |v| ensures t[s + k] == v[k] { assert (v + w)[k] == v[k]; }
      forall k | 0 <= k < |w| ensures t[s + |v| + k] == w[k] { assert (v + w)[|v| + k] == w[k]; }
    }
    if At(t, s, v) && At(t, s + |v|, w) {
      forall k | 0 <= k < |v + w| ensures t[s + k] == (v + w)[k] {
        if k >= |v| { assert t[s + |v| + (k - |v|)] == w[k - |v|]; }
      }
    }
  }

  /** The words of a parsed command are those of the tree. */
  ghost predicate Reads(t: string, c: Cmd, d: Tree) {
    match d
    case TExec(ws) => c.Exec? && |c.args| == |ws| && forall k :: 0 <= k < |ws| ==> ReadsWord(t, c.args[k], ws[k])
    case TRedir(d1, f, input) =>
      c.Redir? && Reads(t, c.cmd, d1) && ReadsWord(t, c.file, f) &&
      (if input then c.mode == O_RDONLY && c.fd == 0 else c.mode == O_WRONLY + O_CREATE && c.fd == 1)
    case TPipe(l, r) => c.Pipe? && Reads(t, c.left, l) && Reads(t, c.right, r)
    case TList(l, r) => c.List? && Reads(t, c.left, l) && Reads(t, c.right, r)
    case TBack(d1) => c.Back? && Reads(t, c.cmd, d1)
  }

  ghost predicate ReadsWord(t: string, p: Span, w: string) { p.hi == p.lo + |w| && At(t, p.lo, w) }

  /** A word followed by a space is one token, and the cursor moves to what comes next. */
  lemma WordToken(t: string, s: nat, w: string, e: nat, n: nat)
    requires IsWord(w) && At(t, s, w + " ") && e == s + |w| && n == e + 1
    ensures n <= |t| && GetToken(t, s) == Token('a', s, e, Skip(t, n))
    ensures Skip(t, s) == s && IsWordChar(t[s]) && ReadsWord(t, Span(s, e), w)
  {
    AtConcat(t, s, w, " ");
    assert t[s] == w[0] && IsWordChar(w[0]);
    forall k | s <= k < s + |w| ensures IsWordChar(t[k]) { assert t[s + (k - s)] == w[k - s]; }
    assert t[s + |w| + 0] == " "[0];
  }

  /** What may follow a printed command: the end of the line or a closing parenthesis. */
  predicate Stops(t: string, s: nat) { s == |t| || (s < |t| && t[s] == ')') }

  lemma ArgStep(t: string, s: nat, tok: Token, args: seq<Span>)
    requires CString(t) && s <= |t| && !Peek(t, s, {'|', ')', '&', ';'}) && GetToken(t, s) == tok && tok.kind == 'a'
    requires |args| + 1 < MAXARGS && tok.next <= |t| && ParseRedirs(t, tok.next, []) == Ok([], tok.next)
    ensures ParseArgs(t, s, args, []) == ParseArgs(t, tok.next, args + [Span(tok.q, tok.eq)], [])
  {
  }

  lemma ArgsEnd(t: string, s: nat, args: seq<Span>)
    requires CString(t) && Stops(t, s)
    ensures ParseArgs(t, s, args, []) == Ok((args, []), s)
  {
    assert Skip(t, s) == s;
  }

  ghost predicate ReadsWords(t: string, args: seq<Span>, ws: seq<string>, n: nat) {
    n <= |ws| && |args| == n && forall k :: 0 <= k < n ==> ReadsWord(t, args[k], ws[k])
  }

  /** The first word of printed arguments. */
  lemma ArgsHead(t: string, s: nat, ws: seq<string>, n: nat, e: nat, s1: nat)
    requires n < |ws| && IsWord(ws[n]) && At(t, s, PrintArgs(ws, n)) && e == s + |ws[n]| && s1 == e + 1
    ensures At(t, s1, PrintArgs(ws, n + 1)) && s1 + |PrintArgs(ws, n + 1)| == s + |PrintArgs(ws, n)|
    ensures s1 <= |t| && GetToken(t, s) == Token('a', s, e, Skip(t, s1))
    ensures Skip(t, s) == s && IsWordChar(t[s]) && ReadsWord(t, Span(s, e), ws[n])
  {
    var rest := PrintArgs(ws, n + 1);
    assert PrintArgs(ws, n) == (ws[n] + " ") + rest;
    AtConcat(t, s, ws[n] + " ", rest);
    WordToken(t, s, ws[n], e, s1);
  }

  /** After an argument there is no white space and no redirection. */
  lemma ArgsStart(t: string, s: nat, ws: seq<string>, n: nat)
    requires CString(t) && n <= |ws| && forall k :: 0 <= k < |ws| ==> IsWord(ws[k])
    requires At(t, s, PrintArgs(ws, n)) && Stops(t, s + |PrintArgs(ws, n)|)
    ensures Skip(t, s) == s && (s < |t| ==> IsWordChar(t[s]) || t[s] == ')')
  {
    if n < |ws| { ArgsHead(t, s, ws, n, s + |ws[n]|, s + |ws[n]| + 1); }
  }

  lemma ArgTaken(t: string, s: nat, e: nat, s1: nat, args: seq<Span>)
    requires CString(t) && s < |t| && GetToken(t, s) == Token('a', s, e, s1) && Skip(t, s) == s && IsWordChar(t[s])
    requires s1 <= |t| && (s1 < |t| ==> IsWordChar(t[s1]) || t[s1] == ')') && |args| + 1 < MAXARGS
    ensures ParseArgs(t, s, args, []) == ParseArgs(t, s1, args + [Span(s, e)], [])
  {
    NoRedirs(t, s1, []);
    ArgStep(t, s, Token('a', s, e, s1), args);
  }

  lemma {:induction false} ReadArgs(t: string, s: nat, ws: seq<string>, n: nat, args: seq<Span>, end: nat)
    returns (v: seq<Span>)
    requires CString(t) && n <= |ws| && |ws| < MAXARGS && forall k :: 0 <= k < |ws| ==> IsWord(ws[k])
    requires At(t, s, PrintArgs(ws, n)) && end == s + |PrintArgs(ws, n)| && Stops(t, end)
    requires ReadsWords(t, args, ws, n)
    ensures ParseArgs(t, s, args, []) == Ok((v, []), end) && ReadsWords(t, v, ws, |ws|)
    decreases |ws| - n
  {
    if n == |ws| {
      ArgsEnd(t, s, args);
      v := args;
    } else {
      var e := s + |ws[n]|;
      var s1 := e + 1;
      ArgsHead(t, s, ws, n, e, s1);
      ArgsStart(t, s1, ws, n + 1);
      ArgTaken(t, s, e, s1, args);
      v := ReadArgs(t, s1, ws, n + 1, args + [Span(s, e)], end);
    }
  }

  /** A printed command does not begin with white space. */
  lemma PrintStart(t: string, s: nat, c: Tree)
    requires CString(t) && ValidTree(c) && At(t, s, Print(c)) && Stops(t, s + |Print(c)|)
    ensures Skip(t, s) == s
  {
    if c.TExec? {
      ArgsStart(t, s, c.args, 0);
    } else {
      assert Print(c)[0] == '(';
      assert t[s + 0] == '(';
    }
  }

  // -- one step of each parser function, on characters alone --

  lemma SymbolToken(t: string, s: nat, n: nat)
    requires s < |t| && n == s + 1 && IsSymbol(t[s]) && (n < |t| ==> !IsSpace(t[n]) && (t[s] == '>' ==> t[n] != '>'))
    ensures Skip(t, s) == s && GetToken(t, s) == Token(t[s], s, n, n)
  {
    assert Skip(t, n) == n;
  }

  lemma BlockStep(t: string, s: nat, a: nat, e: nat, b: nat, c: Cmd, rs: seq<Redirection>, end: nat)
    requires CString(t) && s < |t| && Skip(t, s) == s && t[s] == '(' && GetToken(t, s).next == a
    requires ParseLine(t, a) == Ok(c, e) && Peek(t, e, {')'}) && GetToken(t, e).next == b
    requires ParseRedirs(t, b, []) == Ok(rs, end)
    ensures ParseExec(t, s) == Ok(Wrap(c, rs, |rs|), end)
  {
    assert ParseExec(t, s) == ParseBlock(t, s);
  }

  /** Places in a block: s the parenthesis, a = s + 1, b the closing one, e = b + 1. */
  predicate BlockPlaces(t: string, s: nat, a: nat, b: nat, e: nat) {
    a == s + 1 && a <= b < |t| && e == b + 1 && t[s] == '(' && t[b] == ')' && !IsSpace(t[a])
  }

  lemma ExecOfBlock(t: string, s: nat, a: nat, b: nat, e: nat, c: Cmd, rs: seq<Redirection>, end: nat)
    requires CString(t) && BlockPlaces(t, s, a, b, e) && (e < |t| ==> !IsSpace(t[e]))
    requires ParseLine(t, a) == Ok(c, b) && ParseRedirs(t, e, []) == Ok(rs, end)
    ensures ParseExec(t, s) == Ok(Wrap(c, rs, |rs|), end)
  {
    SymbolToken(t, s, a);
    SymbolToken(t, b, e);
    BlockStep(t, s, a, b, e, c, rs, end);
  }

  lemma PipeOf(t: string, s: nat, e: nat, f: nat, c: Cmd, d: Cmd, end: nat)
    requires CString(t) && s <= e < |t| && t[e] == '|' && f == e + 1 && (f < |t| ==> !IsSpace(t[f]))
    requires ParseExec(t, s) == Ok(c, e) && ParsePipe(t, f) == Ok(d, end)
    ensures ParsePipe(t, s) == Ok(Pipe(c, d), end)
  {
    SymbolToken(t, e, f);
  }

  /** Where only `&`, `;`, a closing parenthesis or the end follows, parsepipe returns what parseexec did. */
  lemma PipeOfExec(t: string, s: nat, c: Cmd, e: nat)
    requires CString(t) && s <= e <= |t| && ParseExec(t, s) == Ok(c, e)
    requires e < |t| ==> t[e] == ')' || t[e] == '&' || t[e] == ';'
    ensures ParsePipe(t, s) == Ok(c, e)
  {
    assert Skip(t, e) == e && !Peek(t, e, {'|'});
  }

  lemma LineOfPipe(t: string, s: nat, c: Cmd, e: nat)
    requires CString(t) && s <= e <= |t| && ParsePipe(t, s) == Ok(c, e) && Stops(t, e)
    ensures ParseLine(t, s) == Ok(c, e)
  {
    assert Skip(t, e) == e && !Peek(t, e, {'&'}) && !Peek(t, e, {';'});
    assert Backs(t, e, c) == (c, e);
  }

  lemma LineOfBack(t: string, s: nat, c: Cmd, e: nat, f: nat)
    requires CString(t) && s <= e < |t| && f == e + 1 && ParsePipe(t, s) == Ok(c, e) && t[e] == '&' && Stops(t, f)
    ensures ParseLine(t, s) == Ok(Back(c), f)
  {
    SymbolToken(t, e, f);
    assert Skip(t, f) == f && !Peek(t, f, {'&'}) && !Peek(t, f, {';'});
    assert Backs(t, f, Back(c)) == (Back(c), f);
    assert Backs(t, e, c) == (Back(c), f);
  }

  lemma LineOfList(t: string, s: nat, e: nat, f: nat, c: Cmd, d: Cmd, end: nat)
    requires CString(t) && s <= e < |t| && t[e] == ';' && f == e + 1 && (f < |t| ==> !IsSpace(t[f]))
    requires ParsePipe(t, s) == Ok(c, e) && ParseLine(t, f) == Ok(d, end)
    ensures ParseLine(t, s) == Ok(List(c, d), end)
  {
    SymbolToken(t, e, f);
    assert !Peek(t, e, {'&'}) && Peek(t, e, {';'});
    assert Backs(t, e, c) == (c, e);
  }

  lemma NoRedirs(t: string, s: nat, rs: seq<Redirection>)
    requires CString(t) && s <= |t| && (s < |t| ==> !IsSpace(t[s]) && t[s] != '<' && t[s] != '>')
    ensures ParseRedirs(t, s, rs) == Ok(rs, s)
  {
    assert Skip(t, s) == s && !Peek(t, s, {'<', '>'});
  }

  lemma RedirStep(t: string, s: nat, tok: Token, f: Token, rs: seq<Redirection>, end: nat)
    requires CString(t) && s <= |t| && Peek(t, s, {'<', '>'}) && GetToken(t, s) == tok && GetToken(t, tok.next) == f
    requires f.kind == 'a' && rs == [Redirected(tok.kind, Span(f.q, f.eq))]
    requires ParseRedirs(t, f.next, rs) == Ok(rs, end)
    ensures ParseRedirs(t, s, []) == Ok(rs, end)
  {
    assert [] + rs == rs;
  }

  lemma OneRedir(t: string, e: nat, f: nat, w: string, end: nat)
    requires CString(t) && e < |t| && (t[e] == '<' || t[e] == '>') && IsWord(w) && f == e + 1 && At(t, f, w + " ")
    requires end == f + |w| + 1 && Stops(t, end)
    ensures ParseRedirs(t, e, []) == Ok([Redirected(t[e], Span(f, f + |w|))], end) && ReadsWord(t, Span(f, f + |w|), w)
  {
    WordToken(t, f, w, f + |w|, end);
    SymbolToken(t, e, f);
    var rs := [Redirected(t[e], Span(f, f + |w|))];
    assert Skip(t, end) == end;
    NoRedirs(t, end, rs);
    RedirStep(t, e, GetToken(t, e), GetToken(t, f), rs, end);
  }

  // -- printed text, cut at its operators --

  /** A printed block at s: its parentheses, and what is between them. */
  lemma BlockAt(t: string, s: nat, c: Tree) returns (a: nat, b: nat, e: nat)
    requires CString(t) && ValidTree(c) && At(t, s, Block(c))
    ensures BlockPlaces(t, s, a, b, e) && e == s + |Block(c)| && b == a + |Print(c)|
    ensures At(t, a, Print(c)) && Stops(t, b)
  {
    assert Block(c) == "(" + (Print(c) + ")");
    AtConcat(t, s, "(", Print(c) + ")");
    AtConcat(t, s + 1, Print(c), ")");
    assert t[s + 0] == "("[0];
    a, b, e := s + 1, s + 1 + |Print(c)|, s + |Block(c)|;
    assert t[b + 0] == ")"[0];
    PrintStart(t, a, c);
  }

  /** Two blocks with an operator at e between them. */
  lemma Operands(t: string, s: nat, l: Tree, op: char, r: Tree)
    requires CString(t) && At(t, s, Block(l) + [op] + Block(r))
    ensures var e := s + |Block(l)|; At(t, s, Block(l)) && e < |t| && t[e] == op && At(t, e + 1, Block(r))
    ensures |Block(l) + [op] + Block(r)| == |Block(l)| + 1 + |Block(r)|
  {
    assert Block(l) + [op] + Block(r) == Block(l) + ([op] + Block(r));
    AtConcat(t, s, Block(l), [op] + Block(r));
    var e := s + |Block(l)|;
    AtConcat(t, e, [op], Block(r));
    assert t[e + 0] == [op][0];
  }

  lemma RedirAt(t: string, s: nat, d: Tree, op: char, w: string)
    requires CString(t) && At(t, s, Block(d) + [op] + w + " ")
    ensures var e := s + |Block(d)|; At(t, s, Block(d)) && e < |t| && t[e] == op && At(t, e + 1, w + " ")
    ensures |Block(d) + [op] + w + " "| == |Block(d)| + |w| + 2
  {
    assert Block(d) + [op] + w + " " == Block(d) + ([op] + (w + " "));
    AtConcat(t, s, Block(d), [op] + (w + " "));
    var e := s + |Block(d)|;
    AtConcat(t, e, [op], w + " ");
    assert t[e + 0] == [op][0];
  }

  // -- what parseline returns on blocks, from what it returns inside them --

  lemma ExecOfPlainBlock(t: string, s: nat, a: nat, b: nat, e: nat, v: Cmd)
    requires CString(t) && BlockPlaces(t, s, a, b, e) && ParseLine(t, a) == Ok(v, b)
    requires e < |t| ==> !IsSpace(t[e]) && t[e] != '<' && t[e] != '>'
    ensures ParseExec(t, s) == Ok(v, e)
  {
    NoRedirs(t, e, []);
    ExecOfBlock(t, s, a, b, e, v, [], e);
    assert Wrap(v, [], 0) == v;
  }

  lemma PipeOfExecs(t: string, s: nat, e: nat, f: nat, end: nat, v: Cmd, w: Cmd)
    requires CString(t) && s <= e < f < end <= |t| && f == e + 1 && Stops(t, end) && t[e] == '|' && t[f] == '('
    requires ParseExec(t, s) == Ok(v, e) && ParseExec(t, f) == Ok(w, end)
    ensures ParseLine(t, s) == Ok(Pipe(v, w), end)
  {
    PipeOfExec(t, f, w, end);
    PipeOf(t, s, e, f, v, w, end);
    LineOfPipe(t, s, Pipe(v, w), end);
  }

  lemma ListOfExecs(t: string, s: nat, e: nat, f: nat, end: nat, v: Cmd, w: Cmd)
    requires CString(t) && s <= e < f < end <= |t| && f == e + 1 && Stops(t, end) && t[e] == ';' && t[f] == '('
    requires ParseExec(t, s) == Ok(v, e) && ParseExec(t, f) == Ok(w, end)
    ensures ParseLine(t, s) == Ok(List(v, w), end)
  {
    PipeOfExec(t, s, v, e);
    PipeOfExec(t, f, w, end);
    LineOfPipe(t, f, w, end);
    LineOfList(t, s, e, f, v, w, end);
  }

  lemma LineOfRedir(t: string, s: nat, a: nat, b: nat, e: nat, v: Cmd, p: Redirection, end: nat)
    requires CString(t) && BlockPlaces(t, s, a, b, e) && ParseLine(t, a) == Ok(v, b) && (e < |t| ==> !IsSpace(t[e]))
    requires ParseRedirs(t, e, []) == Ok([p], end) && Stops(t, end)
    ensures ParseLine(t, s) == Ok(Redir(v, p.file, p.mode, p.fd), end)
  {
    ExecOfBlock(t, s, a, b, e, v, [p], end);
    assert Wrap(v, [p], 1) == Redir(Wrap(v, [p], 0), p.file, p.mode, p.fd);
    PipeOfExec(t, s, Wrap(v, [p], 1), end);
    LineOfPipe(t, s, Wrap(v, [p], 1), end);
  }

  // -- the induction --

  /** From anywhere in a line, parseline reads a printed command back and stops at its end. */
  lemma {:induction false} ReadLine(t: string, s: nat, c: Tree, end: nat) returns (v: Cmd)
    requires CString(t) && ValidTree(c) && At(t, s, Print(c)) && end == s + |Print(c)| && Stops(t, end)
    ensures ParseLine(t, s) == Ok(v, end) && Reads(t, v, c)
    decreases c, 2
  {
    match c
    case TExec(ws) => v := ReadExec(t, s, ws, end);
    case TRedir(d, f, input) => v := ReadRedir(t, s, d, f, input, end);
    case TPipe(l, r) => v := ReadPipe(t, s, l, r, end);
    case TList(l, r) => v := ReadList(t, s, l, r, end);
    case TBack(d) => v := ReadBack(t, s, d, end);
  }

  lemma ReadExec(t: string, s: nat, ws: seq<string>, end: nat) returns (v: Cmd)
    requires CString(t) && ValidTree(TExec(ws)) && At(t, s, PrintArgs(ws, 0)) && end == s + |PrintArgs(ws, 0)|
    requires Stops(t, end)
    ensures ParseLine(t, s) == Ok(v, end) && Reads(t, v, TExec(ws))
  {
    ArgsStart(t, s, ws, 0);
    var args := ReadArgs(t, s, ws, 0, [], end);
    NoRedirs(t, s, []);
    v := Exec(args);
    assert !Peek(t, s, {'('});
    assert ParseExec(t, s) == Ok(v, end);
    PipeOfExec(t, s, v, end);
    LineOfPipe(t, s, v, end);
  }

  /** parseexec reads a printed block. */
  lemma {:induction false} ReadBlock(t: string, s: nat, c: Tree, e: nat) returns (v: Cmd)
    requires CString(t) && ValidTree(c) && At(t, s, Block(c)) && e == s + |Block(c)|
    requires e < |t| ==> !IsSpace(t[e]) && t[e] != '<' && t[e] != '>'
    ensures ParseExec(t, s) == Ok(v, e) && Reads(t, v, c) && s < e <= |t| && t[s] == '('
    decreases c, 3
  {
    var a, b, e' := BlockAt(t, s, c);
    v := ReadLine(t, a, c, b);
    ExecOfPlainBlock(t, s, a, b, e, v);
  }

  lemma {:induction false} ReadRedir(t: string, s: nat, d: Tree, w: string, input: bool, end: nat) returns (v: Cmd)
    requires var c := TRedir(d, w, input);
             CString(t) && ValidTree(c) && At(t, s, Print(c)) && end == s + |Print(c)| && Stops(t, end)
    ensures ParseLine(t, s) == Ok(v, end) && Reads(t, v, TRedir(d, w, input))
    decreases TRedir(d, w, input), 0
  {
    RedirAt(t, s, d, if input then '<' else '>', w);
    var a, b, e := BlockAt(t, s, d);
    var v1 := ReadLine(t, a, d, b);
    v := RedirLine(t, s, a, b, e, e + 1, v1, w, end);
  }

  lemma RedirLine(t: string, s: nat, a: nat, b: nat, e: nat, f: nat, v1: Cmd, w: string, end: nat) returns (v: Cmd)
    requires CString(t) && BlockPlaces(t, s, a, b, e) && ParseLine(t, a) == Ok(v1, b)
    requires e < |t| && (t[e] == '<' || t[e] == '>') && IsWord(w) && f == e + 1 && At(t, f, w + " ")
    requires end == f + |w| + 1 && Stops(t, end)
    ensures ParseLine(t, s) == Ok(v, end) && v.Redir? && v.cmd == v1 && ReadsWord(t, v.file, w)
    ensures if t[e] == '<' then v.mode == O_RDONLY && v.fd == 0 else v.mode == O_WRONLY + O_CREATE && v.fd == 1
  {
    OneRedir(t, e, f, w, end);
    var p := Redirected(t[e], Span(f, f + |w|));
    LineOfRedir(t, s, a, b, e, v1, p, end);
    v := Redir(v1, p.file, p.mode, p.fd);
  }

  /** Both operands of a pipe or a list. */
  lemma {:induction false} ReadOperands(t: string, c: Tree, s: nat, e: nat, f: nat, end: nat)
      returns (v1: Cmd, v2: Cmd)
    requires CString(t) && (c.TPipe? || c.TList?) && ValidTree(c) && Stops(t, end)
    requires At(t, s, Block(c.left)) && e == s + |Block(c.left)| && e < |t| && (t[e] == '|' || t[e] == ';')
    requires f == e + 1 && At(t, f, Block(c.right)) && end == f + |Block(c.right)|
    ensures ParseExec(t, s) == Ok(v1, e) && Reads(t, v1, c.left) && s < e
    ensures f < end <= |t| && t[f] == '(' && ParseExec(t, f) == Ok(v2, end) && Reads(t, v2, c.right)
    decreases c, 0
  {
    v1 := ReadBlock(t, s, c.left, e);
    v2 := ReadBlock(t, f, c.right, end);
  }

  lemma {:induction false} ReadPipe(t: string, s: nat, l: Tree, r: Tree, end: nat) returns (v: Cmd)
    requires var c := TPipe(l, r);
             CString(t) && ValidTree(c) && At(t, s, Print(c)) && end == s + |Print(c)| && Stops(t, end)
    ensures ParseLine(t, s) == Ok(v, end) && Reads(t, v, TPipe(l, r))
    decreases TPipe(l, r), 1
  {
    Operands(t, s, l, '|', r);
    var e := s + |Block(l)|;
    var f := e + 1;
    var v1, v2 := ReadOperands(t, TPipe(l, r), s, e, f, end);
    PipeOfExecs(t, s, e, f, end, v1, v2);
    v := Pipe(v1, v2);
  }

  lemma {:induction false} ReadList(t: string, s: nat, l: Tree, r: Tree, end: nat) returns (v: Cmd)
    requires var c := TList(l, r);
             CString(t) && ValidTree(c) && At(t, s, Print(c)) && end == s + |Print(c)| && Stops(t, end)
    ensures ParseLine(t, s) == Ok(v, end) && Reads(t, v, TList(l, r))
    decreases TList(l, r), 1
  {
    Operands(t, s, l, ';', r);
    var e := s + |Block(l)|;
    var f := e + 1;
    var v1, v2 := ReadOperands(t, TList(l, r), s, e, f, end);
    ListOfExecs(t, s, e, f, end, v1, v2);
    v := List(v1, v2);
  }

  lemma {:induction false} ReadBack(t: string, s: nat, d: Tree, end: nat) returns (v: Cmd)
    requires var c := TBack(d);
             CString(t) && ValidTree(c) && At(t, s, Print(c)) && end == s + |Print(c)| && Stops(t, end)
    ensures ParseLine(t, s) == Ok(v, end) && Reads(t, v, TBack(d))
    decreases TBack(d), 0
  {
    AtConcat(t, s, Block(d), "&");
    var e := s + |Block(d)|;
    assert t[e + 0] == "&"[0];
    var v1 := ReadBlock(t, s, d, e);
    PipeOfExec(t, s, v1, e);
    LineOfBack(t, s, v1, e, end);
    v := Back(v1);
  }

  /** Round trip: parsing the fully parenthesised printing of a valid tree gives that tree. */
  lemma RoundTrip(c: Tree)
    requires ValidTree(c)
    ensures CString(Print(c))
    ensures var r := ParseCmd(Print(c)); r.Ok? && Reads(Print(c), r.value, c)
  {
    PrintIsCString(c);
    var v := ReadLine(Print(c), 0, c, |Print(c)|);
  }

  lemma {:induction false} PrintIsCString(c: Tree)
    requires ValidTree(c)
    ensures CString(Print(c))
    decreases c
  {
    match c
    case TExec(ws) => ArgsAreCString(ws, 0);
    case TRedir(d, f, input) => PrintIsCString(d);
    case TPipe(l, r) =>
      PrintIsCString(l);
      PrintIsCString(r);
    case TList(l, r) =>
      PrintIsCString(l);
      PrintIsCString(r);
    case TBack(d) => PrintIsCString(d);
  }

  lemma {:induction false} ArgsAreCString(ws: seq<string>, n: nat)
    requires n <= |ws| && forall k :: 0 <= k < |ws| ==> IsWord(ws[k])
    ensures CString(PrintArgs(ws, n))
    decreases |ws| - n
  {
    if n < |ws| { ArgsAreCString(ws, n + 1); }
  }
}
