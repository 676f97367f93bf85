/** sh.c: the parser as code, and what nulterminate leaves in the line. */
module ShellCode {
  import opened Common
  import opened ShellSpec
  import Grammar = ShellGrammar

  // ---- words in a parsed command are whole words of the line ----

  ghost predicate SpansOk(t: string, args: seq<Span>) { forall k :: 0 <= k < |args| ==> Grammar.WholeWord(t, args[k]) }

  ghost predicate RedirsOk(t: string, rs: seq<Redirection>) {
    forall k :: 0 <= k < |rs| ==> Grammar.WholeWord(t, rs[k].file)
  }

  ghost predicate CmdOk(t: string, c: Cmd) {
    match c
    case Exec(args) => |args| < MAXARGS && SpansOk(t, args)
    case Redir(d, f, _, _) => CmdOk(t, d) && Grammar.WholeWord(t, f)
    case Pipe(l, r) => CmdOk(t, l) && CmdOk(t, r)
    case List(l, r) => CmdOk(t, l) && CmdOk(t, r)
    case Back(d) => CmdOk(t, d)
  }

  lemma TokenSpan(t: string, s: nat)
    requires s <= |t| && CString(t) && GetToken(t, s).kind == 'a'
    ensures Grammar.WholeWord(t, Span(GetToken(t, s).q, GetToken(t, s).eq))
  {
  }

  lemma {:induction false} RedirsSpans(t: string, s: nat, rs: seq<Redirection>)
    requires s <= |t| && CString(t) && RedirsOk(t, rs) && ParseRedirs(t, s, rs).Ok?
    ensures RedirsOk(t, ParseRedirs(t, s, rs).value)
    decreases |t| - s
  {
    if Peek(t, s, {'<', '>'}) {
      var tok := GetToken(t, s);
      var f := GetToken(t, tok.next);
      TokenSpan(t, tok.next);
      RedirsSpans(t, f.next, rs + [Redirected(tok.kind, Span(f.q, f.eq))]);
    }
  }

  lemma {:induction false} WrapOk(t: string, c: Cmd, rs: seq<Redirection>, n: nat)
    requires n <= |rs| && CmdOk(t, c) && RedirsOk(t, rs)
    ensures CmdOk(t, Wrap(c, rs, n))
  {
    if n > 0 { WrapOk(t, c, rs, n - 1); }
  }

  lemma {:induction false} ArgsSpans(t: string, s: nat, args: seq<Span>, rs: seq<Redirection>)
    requires s <= |t| && CString(t) && |args| < MAXARGS && SpansOk(t, args) && RedirsOk(t, rs)
    requires ParseArgs(t, s, args, rs).Ok?
    ensures var v := ParseArgs(t, s, args, rs).value; |v.0| < MAXARGS && SpansOk(t, v.0) && RedirsOk(t, v.1)
    decreases |t| - s
  {
    var tok := GetToken(t, s);
    if !Peek(t, s, {'|', ')', '&', ';'}) && tok.kind != NUL {
      TokenSpan(t, s);
      RedirsSpans(t, tok.next, rs);
      var r := ParseRedirs(t, tok.next, rs);
      ArgsSpans(t, r.next, args + [Span(tok.q, tok.eq)], r.value);
    }
  }

  /** Every word in what the parser returns is a whole word of the line. */
  lemma {:induction false} LineSpans(t: string, s: nat)
    requires s <= |t| && CString(t) && ParseLine(t, s).Ok?
    ensures CmdOk(t, ParseLine(t, s).value)
    decreases |t| - s, 3
  {
    PipeSpans(t, s);
    var p := ParsePipe(t, s);
    BacksSpans(t, p.next, p.value);
    var b := Backs(t, p.next, p.value);
    if Peek(t, b.1, {';'}) { LineSpans(t, GetToken(t, b.1).next); }
  }

  lemma {:induction false} BacksSpans(t: string, s: nat, c: Cmd)
    requires s <= |t| && CString(t) && CmdOk(t, c)
    ensures CmdOk(t, Backs(t, s, c).0)
    decreases |t| - s
  {
    if Peek(t, s, {'&'}) { BacksSpans(t, GetToken(t, s).next, Back(c)); }
  }

  lemma {:induction false} PipeSpans(t: string, s: nat)
    requires s <= |t| && CString(t) && ParsePipe(t, s).Ok?
    ensures CmdOk(t, ParsePipe(t, s).value)
    decreases |t| - s, 2
  {
    ExecSpans(t, s);
    var e := ParseExec(t, s);
    if Peek(t, e.next, {'|'}) { PipeSpans(t, GetToken(t, e.next).next); }
  }

  lemma {:induction false} ExecSpans(t: string, s: nat)
    requires s <= |t| && CString(t) && ParseExec(t, s).Ok?
    ensures CmdOk(t, ParseExec(t, s).value)
    decreases |t| - s, 1
  {
    if Peek(t, s, {'('}) {
      BlockSpans(t, Skip(t, s));
    } else {
      RedirsSpans(t, Skip(t, s), []);
      var r := ParseRedirs(t, Skip(t, s), []);
      ArgsSpans(t, r.next, [], r.value);
      var v := ParseArgs(t, r.next, [], r.value).value;
      WrapOk(t, Exec(v.0), v.1, |v.1|);
    }
  }

  lemma {:induction false} BlockSpans(t: string, s: nat)
    requires s <= |t| && CString(t) && ParseBlock(t, s).Ok?
    ensures CmdOk(t, ParseBlock(t, s).value)
    decreases |t| - s, 0
  {
    var a := GetToken(t, s).next;
    LineSpans(t, a);
    var l := ParseLine(t, a);
    var b := GetToken(t, l.next).next;
    RedirsSpans(t, b, []);
    var rs := ParseRedirs(t, b, []).value;
    WrapOk(t, l.value, rs, |rs|);
  }

  // ---- the tokenizer ----

  /** The loops over white space in gettoken and peek. */
  method SkipSpace(t: string, s0: nat) returns (s: nat)
    requires s0 <= |t|
    ensures s == Skip(t, s0)
  {
    s := s0;
    while s < |t| && IsSpace(t[s])
      invariant s0 <= s <= |t| && Skip(t, s) == Skip(t, s0)
    {
      s := s + 1;
    }
  }

  method Gettoken(t: string, s0: nat) returns (r: Token)
    requires s0 <= |t| && CString(t)
    ensures r == GetToken(t, s0)
  {
    var s := SkipSpace(t, s0);
    var q := s;
    var kind := if s < |t| then t[s] else NUL;
    if s < |t| {
      if t[s] == '|' || t[s] == '(' || t[s] == ')' || t[s] == ';' || t[s] == '&' || t[s] == '<' {
        s := s + 1;
      } else if t[s] == '>' {
        s := s + 1;
        if s < |t| && t[s] == '>' {
          kind := '+';
          s := s + 1;
        }
      } else {
        kind := 'a';
        while s < |t| && !IsSpace(t[s]) && !IsSymbol(t[s])
          invariant q <= s <= |t| && WordEnd(t, s) == WordEnd(t, q)
        {
          s := s + 1;
        }
      }
    }
    var eq := s;
    s := SkipSpace(t, s);
    r := Token(kind, q, eq, s);
  }

  method PeekAt(t: string, s0: nat, toks: set<char>) returns (r: bool, s: nat)
    requires s0 <= |t|
    ensures r == Peek(t, s0, toks) && s == Skip(t, s0)
  {
    s := SkipSpace(t, s0);
    r := s < |t| && t[s] in toks;
  }

  // ---- the parser ----

  method Parseredirs(t: string, s0: nat, rs0: seq<Redirection>) returns (r: Parsed<seq<Redirection>>)
    requires s0 <= |t| && CString(t)
    ensures r == ParseRedirs(t, s0, rs0)
  {
    var s, rs := s0, rs0;
    while true
      invariant s0 <= s <= |t| && ParseRedirs(t, s, rs) == ParseRedirs(t, s0, rs0)
      decreases |t| - s
    {
      var more, a := PeekAt(t, s, {'<', '>'});
      if !more { return Ok(rs, a); }
      Grammar.SkipAgain(t, s);
      var tok := Gettoken(t, a);
      var f := Gettoken(t, tok.next);
      if f.kind != 'a' { return Panic; }
      rs := rs + [Redirected(tok.kind, Span(f.q, f.eq))];
      s := f.next;
    }
  }

  method Parseargs(t: string, s0: nat, rs0: seq<Redirection>) returns (r: Parsed<(seq<Span>, seq<Redirection>)>)
    requires s0 <= |t| && CString(t)
    ensures r == ParseArgs(t, s0, [], rs0)
  {
    var s, args, rs := s0, [], rs0;
    while true
      invariant s0 <= s <= |t| && ParseArgs(t, s, args, rs) == ParseArgs(t, s0, [], rs0)
      decreases |t| - s
    {
      var stop, a := PeekAt(t, s, {'|', ')', '&', ';'});
      if stop { return Ok((args, rs), a); }
      Grammar.SkipAgain(t, s);
      var tok := Gettoken(t, a);
      if tok.kind == NUL { return Ok((args, rs), tok.next); }
      if tok.kind != 'a' { return Panic; }
      if |args| + 1 >= MAXARGS { return Panic; }
      var p := Parseredirs(t, tok.next, rs);
      if p.Panic? { return Panic; }
      args, rs, s := args + [Span(tok.q, tok.eq)], p.value, p.next;
    }
  }

  method WrapAll(c: Cmd, rs: seq<Redirection>) returns (r: Cmd)
    ensures r == Wrap(c, rs, |rs|)
  {
    r := c;
    for n := 0 to |rs|
      invariant r == Wrap(c, rs, n)
    {
      r := Redir(r, rs[n].file, rs[n].mode, rs[n].fd);
    }
  }

  method Parseexec(t: string, s: nat) returns (r: Parsed<Cmd>)
    requires s <= |t| && CString(t)
    ensures r == ParseExec(t, s)
    decreases |t| - s, 1
  {
    var open, a := PeekAt(t, s, {'('});
    if open {
      r := Parseblock(t, a);
      return;
    }
    var p := Parseredirs(t, a, []);
    if p.Panic? { return Panic; }
    var q := Parseargs(t, p.next, p.value);
    if q.Panic? { return Panic; }
    var c := WrapAll(Exec(q.value.0), q.value.1);
    r := Ok(c, q.next);
  }

  method Parseblock(t: string, s: nat) returns (r: Parsed<Cmd>)
    requires s <= |t| && CString(t)
    ensures r == ParseBlock(t, s)
    decreases |t| - s, 0
  {
    var open, a := PeekAt(t, s, {'('});
    if !open { return Panic; }
    Grammar.SkipAgain(t, s);
    var tok := Gettoken(t, a);
    var l := Parseline(t, tok.next);
    if l.Panic? { return Panic; }
    var close, b := PeekAt(t, l.next, {')'});
    if !close { return Panic; }
    Grammar.SkipAgain(t, l.next);
    tok := Gettoken(t, b);
    var p := Parseredirs(t, tok.next, []);
    if p.Panic? { return Panic; }
    var c := WrapAll(l.value, p.value);
    r := Ok(c, p.next);
  }

  method Parsepipe(t: string, s: nat) returns (r: Parsed<Cmd>)
    requires s <= |t| && CString(t)
    ensures r == ParsePipe(t, s)
    decreases |t| - s, 2
  {
    var e := Parseexec(t, s);
    if e.Panic? { return Panic; }
    var bar, a := PeekAt(t, e.next, {'|'});
    if !bar { return Ok(e.value, a); }
    Grammar.SkipAgain(t, e.next);
    var tok := Gettoken(t, a);
    var p := Parsepipe(t, tok.next);
    if p.Panic? { return Panic; }
    r := Ok(Pipe(e.value, p.value), p.next);
  }

  method Parseline(t: string, s: nat) returns (r: Parsed<Cmd>)
    requires s <= |t| && CString(t)
    ensures r == ParseLine(t, s)
    decreases |t| - s, 3
  {
    var p := Parsepipe(t, s);
    if p.Panic? { return Panic; }
    var c, e := Ampersands(t, p.next, p.value);
    var semi, a := PeekAt(t, e, {';'});
    if !semi { return Ok(c, a); }
    Grammar.SkipAgain(t, e);
    var tok := Gettoken(t, a);
    var l := Parseline(t, tok.next);
    if l.Panic? { return Panic; }
    r := Ok(List(c, l.value), l.next);
  }

  /** The loop over `&` in parseline. */
  method Ampersands(t: string, s0: nat, c0: Cmd) returns (c: Cmd, s: nat)
    requires s0 <= |t| && CString(t)
    ensures (c, s) == Backs(t, s0, c0)
  {
    c, s := c0, s0;
    while true
      invariant s0 <= s <= |t| && Backs(t, s, c) == Backs(t, s0, c0)
      decreases |t| - s
    {
      var more, a := PeekAt(t, s, {'&'});
      if !more { return c, a; }
      Grammar.SkipAgain(t, s);
      var tok := Gettoken(t, a);
      c, s := Back(c), tok.next;
    }
  }

  // ---- nulterminate ----

  /** The line with NULs written over characters that belong to no word. */
  ghost predicate Held(t: string, b: seq<char>) {
    && |b| == |t| + 1 && b[|t|] == NUL
    && (forall k :: 0 <= k < |t| ==> b[k] == t[k] || (b[k] == NUL && !IsWordChar(t[k])))
  }

  ghost predicate Terminated(b: seq<char>, c: Cmd) {
    match c
    case Exec(args) => forall k :: 0 <= k < |args| ==> EndsAt(b, args[k])
    case Redir(d, f, _, _) => Terminated(b, d) && EndsAt(b, f)
    case Pipe(l, r) => Terminated(b, l) && Terminated(b, r)
    case List(l, r) => Terminated(b, l) && Terminated(b, r)
    case Back(d) => Terminated(b, d)
  }

  ghost predicate EndsAt(b: seq<char>, p: Span) { p.hi < |b| && b[p.hi] == NUL }

  ghost predicate MoreNuls(b: seq<char>, b': seq<char>) {
    |b'| == |b| && forall k :: 0 <= k < |b| && b[k] == NUL ==> b'[k] == NUL
  }

  lemma {:induction false} StaysTerminated(b: seq<char>, b': seq<char>, c: Cmd)
    requires Terminated(b, c) && MoreNuls(b, b')
    ensures Terminated(b', c)
    decreases c
  {
    match c
    case Exec(args) =>
    case Redir(d, f, _, _) => StaysTerminated(b, b', d);
    case Pipe(l, r) =>
      StaysTerminated(b, b', l);
      StaysTerminated(b, b', r);
    case List(l, r) =>
      StaysTerminated(b, b', l);
      StaysTerminated(b, b', r);
    case Back(d) => StaysTerminated(b, b', d);
  }

  /** The C string at lo. */
  function Read(b: seq<char>, lo: nat): string
    decreases |b| - lo
  {
    if lo < |b| && b[lo] != NUL then [b[lo]] + Read(b, lo + 1) else ""
  }

  /** Each word reads back as a C string: exactly its characters. */
  lemma {:induction false} ReadsBack(t: string, b: seq<char>, p: Span, k: nat)
    requires Held(t, b) && Grammar.WholeWord(t, p) && EndsAt(b, p) && p.lo <= k <= p.hi
    ensures Read(b, k) == t[k..p.hi]
    decreases p.hi - k
  {
    if k < p.hi {
      ReadsBack(t, b, p, k + 1);
      assert t[k..p.hi] == [t[k]] + t[k + 1..p.hi];
    }
  }

  /** So an argument of a printed command reads back as the word that was printed. */
  lemma WordReadsBack(t: string, b: seq<char>, p: Span, w: string)
    requires Held(t, b) && Grammar.WholeWord(t, p) && EndsAt(b, p) && ReadsWord(t, p, w)
    ensures Read(b, p.lo) == w
  {
    ReadsBack(t, b, p, p.lo);
    assert t[p.lo..p.hi] == w;
  }

  /** The command as runcmd gets it: each word is the C string at its first character. */
  function TreeOf(b: seq<char>, c: Cmd): Tree {
    match c
    case Exec(args) => TExec(seq(|args|, k requires 0 <= k < |args| => Read(b, args[k].lo)))
    case Redir(d, f, mode, _) => TRedir(TreeOf(b, d), Read(b, f.lo), mode == O_RDONLY)
    case Pipe(l, r) => TPipe(TreeOf(b, l), TreeOf(b, r))
    case List(l, r) => TList(TreeOf(b, l), TreeOf(b, r))
    case Back(d) => TBack(TreeOf(b, d))
  }

  /** All the words of a terminated command read back. */
  lemma {:induction false} TreeReadsBack(t: string, b: seq<char>, c: Cmd, d: Tree)
    requires Held(t, b) && CmdOk(t, c) && Terminated(b, c) && Reads(t, c, d)
    ensures TreeOf(b, c) == d
    decreases c
  {
    match c
    case Exec(args) =>
      forall k | 0 <= k < |args| ensures Read(b, args[k].lo) == d.args[k] { WordReadsBack(t, b, args[k], d.args[k]); }
      assert TreeOf(b, c).args == d.args;
    case Redir(c1, f, _, _) =>
      TreeReadsBack(t, b, c1, d.cmd);
      WordReadsBack(t, b, f, d.file);
    case Pipe(l, r) =>
      TreeReadsBack(t, b, l, d.left);
      TreeReadsBack(t, b, r, d.right);
    case List(l, r) =>
      TreeReadsBack(t, b, l, d.left);
      TreeReadsBack(t, b, r, d.right);
    case Back(c1) => TreeReadsBack(t, b, c1, d.cmd);
  }

  /** The command with each word as it stands in the line. */
  function TreeIn(t: string, c: Cmd): Tree {
    match c
    case Exec(args) => TExec(seq(|args|, k requires 0 <= k < |args| => Slice(t, args[k])))
    case Redir(d, f, mode, _) => TRedir(TreeIn(t, d), Slice(t, f), mode == O_RDONLY)
    case Pipe(l, r) => TPipe(TreeIn(t, l), TreeIn(t, r))
    case List(l, r) => TList(TreeIn(t, l), TreeIn(t, r))
    case Back(d) => TBack(TreeIn(t, d))
  }

  function Slice(t: string, p: Span): string { if p.lo <= p.hi <= |t| then t[p.lo..p.hi] else "" }

  /** Whatever command it is, runcmd gets the words of the line. */
  lemma {:induction false} TerminatedTree(t: string, b: seq<char>, c: Cmd)
    requires Held(t, b) && CmdOk(t, c) && Terminated(b, c)
    ensures TreeOf(b, c) == TreeIn(t, c)
    decreases c
  {
    match c
    case Exec(args) =>
      forall k | 0 <= k < |args| ensures Read(b, args[k].lo) == Slice(t, args[k]) {
        ReadsBack(t, b, args[k], args[k].lo);
      }
      assert TreeOf(b, c).args == TreeIn(t, c).args;
    case Redir(d, f, _, _) =>
      TerminatedTree(t, b, d);
      ReadsBack(t, b, f, f.lo);
    case Pipe(l, r) =>
      TerminatedTree(t, b, l);
      TerminatedTree(t, b, r);
    case List(l, r) =>
      TerminatedTree(t, b, l);
      TerminatedTree(t, b, r);
    case Back(d) => TerminatedTree(t, b, d);
  }

  method WriteNul(ghost t: string, buf: array<char>, p: Span)
    requires Held(t, buf[..]) && Grammar.WholeWord(t, p)
    modifies buf
    ensures Held(t, buf[..]) && MoreNuls(old(buf[..]), buf[..]) && EndsAt(buf[..], p)
  {
    buf[p.hi] := NUL;
  }

  /** nulterminate: every word of the command ends in a NUL, and no NUL is inside any word of the line. */
  method Nulterminate(ghost t: string, buf: array<char>, c: Cmd)
    requires Held(t, buf[..]) && CmdOk(t, c)
    modifies buf
    ensures Held(t, buf[..]) && MoreNuls(old(buf[..]), buf[..]) && Terminated(buf[..], c)
    decreases c
  {
    match c
    case Exec(args) =>
      var i := 0;
      while i < |args|
        invariant 0 <= i <= |args| && Held(t, buf[..]) && MoreNuls(old(buf[..]), buf[..])
        invariant forall k :: 0 <= k < i ==> EndsAt(buf[..], args[k])
      {
        WriteNul(t, buf, args[i]);
        i := i + 1;
      }
    case Redir(d, f, _, _) =>
      Nulterminate(t, buf, d);
      ghost var b := buf[..];
      WriteNul(t, buf, f);
      StaysTerminated(b, buf[..], d);
    case Pipe(l, r) =>
      Nulterminate(t, buf, l);
      ghost var b := buf[..];
      Nulterminate(t, buf, r);
      StaysTerminated(b, buf[..], l);
    case List(l, r) =>
      Nulterminate(t, buf, l);
      ghost var b := buf[..];
      Nulterminate(t, buf, r);
      StaysTerminated(b, buf[..], l);
    case Back(d) =>
      Nulterminate(t, buf, d);
  }

  /** parsecmd: it panics exactly on what is no line of the language; else it returns what the line means, with its
      words terminated in place. */
  method Parsecmd(t: string, buf: array<char>) returns (r: Parsed<Cmd>)
    requires CString(t) && buf[..] == t + [NUL]
    modifies buf
    ensures r == ParseCmd(t)
    ensures r.Ok? <==> exists l :: Grammar.IsLine(t, l)
    ensures forall l :: Grammar.IsLine(t, l) ==> r == Ok(Grammar.LineMeans(l), |t|)
    ensures r.Ok? ==> TreeOf(buf[..], r.value) == TreeIn(t, r.value)
    ensures r.Ok? ==> CmdOk(t, r.value) && Held(t, buf[..]) && Terminated(buf[..], r.value)
    ensures r.Panic? ==> buf[..] == old(buf[..])
  {
    Language(t);
    var l := Parseline(t, 0);
    if l.Panic? { return Panic; }
    var s := SkipSpace(t, l.next);
    if s != |t| { return Panic; }
    LineSpans(t, 0);
    Nulterminate(t, buf, l.value);
    TerminatedTree(t, buf[..], l.value);
    r := Ok(l.value, |t|);
  }

  lemma Language(t: string)
    requires CString(t)
    ensures ParseCmd(t).Ok? <==> exists l :: Grammar.IsLine(t, l)
    ensures forall l :: Grammar.IsLine(t, l) ==> ParseCmd(t) == Ok(Grammar.LineMeans(l), |t|)
  {
    Grammar.ParsesIff(t);
    forall l | Grammar.IsLine(t, l) ensures ParseCmd(t) == Ok(Grammar.LineMeans(l), |t|) {
      Grammar.LineIsParsed(t, l);
    }
  }

  /** From the printing of a valid tree to the buffer runcmd works on and back: the same tree, words and all. */
  method ParsePrinted(d: Tree, buf: array<char>) returns (c: Cmd)
    requires ValidTree(d) && buf[..] == Print(d) + [NUL]
    modifies buf
    ensures TreeOf(buf[..], c) == d
  {
    RoundTrip(d);
    var r := Parsecmd(Print(d), buf);
    TreeReadsBack(Print(d), buf[..], r.value, d);
    c := r.value;
  }
}
