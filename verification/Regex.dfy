/** grep.c: the regular-expression matcher against a declarative reading of its patterns. Pattern and text are
    without their terminating NUL. */
module Regex {
  import opened Common

  /** What C reads at index k of a string: the NUL just past its end. */
  function CharAt(t: string, k: nat): char
    requires k <= |t|
  {
    if k < |t| then t[k] else NUL
  }

  // ---- what a pattern means ----

  /** A pattern is a list of single characters and starred characters. */
  datatype Pat = Nil | One(c: char, rest: Pat) | Star(c: char, rest: Pat)

  /** How a pattern reads from index p: the second character decides first, so `$*` is a star and `*` alone a
      plain character; `$` anchors only as the very last character. */
  function Reading(re: string, p: nat): (r: (Pat, bool))
    requires p <= |re|
    decreases |re| - p
  {
    if p == |re| then (Nil, false)
    else if p + 1 < |re| && re[p + 1] == '*' then var (rest, end) := Reading(re, p + 2); (Star(re[p], rest), end)
    else if re[p] == '$' && p + 1 == |re| then (Nil, true)
    else var (rest, end) := Reading(re, p + 1); (One(re[p], rest), end)
  }

  predicate Fits(c: char, d: char) { c == '.' || c == d }

  /** text[i..j] is a word of the pattern's language. */
  ghost predicate InLanguage(pat: Pat, text: string, i: nat, j: nat)
    requires i <= j <= |text|
  {
    match pat
    case Nil => i == j
    case One(c, rest) => i < j && Fits(c, text[i]) && InLanguage(rest, text, i + 1, j)
    case Star(c, rest) => exists m :: i <= m <= j && Repeats(c, text, i, m) && InLanguage(rest, text, m, j)
  }

  ghost predicate Repeats(c: char, text: string, i: nat, m: nat)
    requires i <= m <= |text|
  {
    forall k :: i <= k < m ==> Fits(c, text[k])
  }

  /** Some prefix of text[i..] is in the language, and all of it when the pattern is anchored at its end. */
  ghost predicate Accepts(pat: Pat, end: bool, text: string, i: nat)
    requires i <= |text|
  {
    exists j :: i <= j <= |text| && InLanguage(pat, text, i, j) && (end ==> j == |text|)
  }

  /** The pattern's meaning from index p of re, at index i of the text. */
  ghost predicate MatchesAt(re: string, p: nat, text: string, i: nat)
    requires p <= |re| && i <= |text|
  {
    Accepts(Reading(re, p).0, Reading(re, p).1, text, i)
  }

  // ---- one step of the matcher ----

  lemma NilAccepts(end: bool, text: string, i: nat)
    requires i <= |text|
    ensures Accepts(Nil, end, text, i) <==> !end || i == |text|
  {
    if !end || i == |text| { assert InLanguage(Nil, text, i, i); }
  }

  lemma OneAccepts(c: char, rest: Pat, end: bool, text: string, i: nat)
    requires i <= |text|
    ensures Accepts(One(c, rest), end, text, i) <==> i < |text| && Fits(c, text[i]) && Accepts(rest, end, text, i + 1)
  {
    if i < |text| && Fits(c, text[i]) && Accepts(rest, end, text, i + 1) {
      var j :| i + 1 <= j <= |text| && InLanguage(rest, text, i + 1, j) && (end ==> j == |text|);
      assert InLanguage(One(c, rest), text, i, j);
    }
    if Accepts(One(c, rest), end, text, i) {
      var j :| i <= j <= |text| && InLanguage(One(c, rest), text, i, j) && (end ==> j == |text|);
      assert InLanguage(rest, text, i + 1, j);
    }
  }

  /** A star is some number of fitting characters and then the rest. */
  lemma StarAccepts(c: char, rest: Pat, end: bool, text: string, i: nat)
    requires i <= |text|
    ensures Accepts(Star(c, rest), end, text, i) <==>
            exists m :: i <= m <= |text| && Repeats(c, text, i, m) && Accepts(rest, end, text, m)
  {
    if m :| i <= m <= |text| && Repeats(c, text, i, m) && Accepts(rest, end, text, m) {
      var j :| m <= j <= |text| && InLanguage(rest, text, m, j) && (end ==> j == |text|);
      assert InLanguage(Star(c, rest), text, i, j);
    }
    if Accepts(Star(c, rest), end, text, i) {
      var j :| i <= j <= |text| && InLanguage(Star(c, rest), text, i, j) && (end ==> j == |text|);
      var m :| i <= m <= j && Repeats(c, text, i, m) && InLanguage(rest, text, m, j);
      assert Accepts(rest, end, text, m);
    }
  }

  // ---- the code ----

  /** matchhere. */
  method Matchhere(re: string, p: nat, text: string, i: nat) returns (r: bool)
    requires p <= |re| && i <= |text| && CString(re) && CString(text)
    ensures r == MatchesAt(re, p, text, i)
    decreases |re| - p, 0
  {
    ghost var end := Reading(re, p).1;
    if p == |re| {
      NilAccepts(end, text, i);
      return true;
    }
    if CharAt(re, p + 1) == '*' {
      StarAccepts(re[p], Reading(re, p + 2).0, end, text, i);
      r := Matchstar(re[p], re, p + 2, text, i);
      return;
    }
    if re[p] == '$' && CharAt(re, p + 1) == NUL {
      NilAccepts(end, text, i);
      return CharAt(text, i) == NUL;
    }
    OneAccepts(re[p], Reading(re, p + 1).0, end, text, i);
    if CharAt(text, i) != NUL && (re[p] == '.' || re[p] == CharAt(text, i)) {
      r := Matchhere(re, p + 1, text, i + 1);
      return;
    }
    r := false;
  }

  /** matchstar. */
  method Matchstar(c: char, re: string, p: nat, text: string, i0: nat) returns (r: bool)
    requires p <= |re| && i0 <= |text| && CString(re) && CString(text)
    ensures r <==> exists m :: i0 <= m <= |text| && Repeats(c, text, i0, m) && MatchesAt(re, p, text, m)
    decreases |re| - p, 1
  {
    var i := i0;
    while true
      invariant i0 <= i <= |text| && Repeats(c, text, i0, i)
      invariant forall m :: i0 <= m < i ==> !MatchesAt(re, p, text, m)
      decreases |text| - i
    {
      r := Matchhere(re, p, text, i);
      if r { return true; }
      if !(CharAt(text, i) != NUL && (CharAt(text, i) == c || c == '.')) {
        forall m | i0 <= m <= |text| && Repeats(c, text, i0, m) ensures m <= i { }
        return false;
      }
      i := i + 1;
    }
  }

  /** Where a match may start: only at the beginning when the pattern has a leading `^`. */
  ghost predicate Matches(re: string, text: string) {
    if |re| > 0 && re[0] == '^' then MatchesAt(re, 1, text, 0)
    else exists i :: 0 <= i <= |text| && MatchesAt(re, 0, text, i)
  }

  /** match: true exactly when some allowed start begins a word of the pattern's language. */
  method Match(re: string, text: string) returns (r: bool)
    requires CString(re) && CString(text)
    ensures r == Matches(re, text)
  {
    if CharAt(re, 0) == '^' {
      r := Matchhere(re, 1, text, 0);
      return;
    }
    var i := 0;
    while true
      invariant 0 <= i <= |text|
      invariant forall m :: 0 <= m < i ==> !MatchesAt(re, 0, text, m)
      decreases |text| - i
    {
      r := Matchhere(re, 0, text, i);
      if r { return true; }
      if CharAt(text, i) == NUL { return false; }
      i := i + 1;
    }
  }

  // ---- what the reading promises ----

  /** A pattern of characters and dots matches exactly where its characters stand; a dot stands for any. */
  lemma {:induction false} DottedMatchesIff(re: string, p: nat, text: string, i: nat)
    requires p <= |re| && i <= |text| && forall k :: p <= k < |re| ==> re[k] != '*' && re[k] != '$'
    ensures MatchesAt(re, p, text, i) <==>
              i + (|re| - p) <= |text| && forall k :: p <= k < |re| ==> re[k] == '.' || text[i + k - p] == re[k]
    decreases |re| - p
  {
    if p == |re| {
      NilAccepts(false, text, i);
    } else {
      OneAccepts(re[p], Reading(re, p + 1).0, Reading(re, p + 1).1, text, i);
      if i < |text| {
        DottedMatchesIff(re, p + 1, text, i + 1);
      }
    }
  }

  /** Plain text without special characters matches exactly where it occurs. */
  lemma LiteralMatchesIff(re: string, p: nat, text: string, i: nat)
    requires p <= |re| && i <= |text|
    requires forall k :: p <= k < |re| ==> re[k] != '*' && re[k] != '.' && re[k] != '$'
    ensures MatchesAt(re, p, text, i) <==> i + (|re| - p) <= |text| && text[i..i + (|re| - p)] == re[p..]
  {
    DottedMatchesIff(re, p, text, i);
    var n := |re| - p;
    if i + n <= |text| && text[i..i + n] == re[p..] {
      forall k | p <= k < |re| ensures text[i + k - p] == re[k] { assert text[i..i + n][k - p] == re[p..][k - p]; }
    }
  }

  // ---- patterns as they are written ----

  function Written(pat: Pat, end: bool): string {
    match pat
    case Nil => if end then "$" else ""
    case One(c, rest) => [c] + Written(rest, end)
    case Star(c, rest) => [c, '*'] + Written(rest, end)
  }

  /** A single character must not be taken for a star or for the anchor. */
  predicate Writable(pat: Pat, end: bool) {
    match pat
    case Nil => true
    case One(c, rest) =>
      var w := Written(rest, end);
      (if |w| > 0 then w[0] != '*' else c != '$') && Writable(rest, end)
    case Star(c, rest) => Writable(rest, end)
  }

  /** A written pattern is read as what was meant. */
  lemma {:induction false} WrittenIsRead(re: string, p: nat, pat: Pat, end: bool)
    requires p <= |re| && re[p..] == Written(pat, end) && Writable(pat, end)
    ensures Reading(re, p) == (pat, end)
    decreases pat
  {
    match pat
    case Nil => if end { assert re[p..][0] == re[p]; }
    case One(c, rest) =>
      assert re[p] == re[p..][0] == c;
      assert re[p + 1..] == re[p..][1..] == Written(rest, end);
      if p + 1 < |re| { assert re[p + 1] == re[p + 1..][0]; }
      WrittenIsRead(re, p + 1, rest, end);
    case Star(c, rest) =>
      assert re[p] == re[p..][0] == c && re[p + 1] == re[p..][1] == '*';
      assert re[p + 2..] == re[p..][2..] == Written(rest, end);
      WrittenIsRead(re, p + 2, rest, end);
  }
}
