/** The shell's grammar as functions from a line and a position to a command tree and the position after it. Trees name
    words by their place in the line. */
module ShellGrammar {

  const NUL := 0 as char
  const MAXARGS := 10
  const O_RDONLY := 0
  const O_WRITE := 0x201

  /** Words are spans of the line in what the parser returns, and strings in what they stand for. */
  datatype Cmd<W> =
    Exec(argv: seq<W>) | Redir(cmd: Cmd<W>, file: W, mode: int, fd: int)
    | Pipe(left: Cmd<W>, right: Cmd<W>) | List(left: Cmd<W>, right: Cmd<W>) | Back(cmd: Cmd<W>)

  /** From `q` up to but not including `eq`. */
  datatype Span = Span(q: nat, eq: nat)

  /** A parsed part and the position after it, or a panic. */
  datatype Result<T> = Ok(value: T, next: nat) | Panic

  /** `kind` is 'a' for a word, NUL at the end of the line, '+' for >>, and else the symbol itself. */
  datatype Token = Token(kind: char, span: Span, next: nat)

  predicate White(c: char) {
    c == ' ' || c == '\t' || c == '\r' || c == '\n' || c == 11 as char
  }

  predicate Symbol(c: char) {
    c == '<' || c == '|' || c == '>' || c == '&' || c == ';' || c == '(' || c == ')'
  }

  predicate WordChar(c: char) {
    !White(c) && !Symbol(c) && c != NUL
  }

  /** The character at `i`, with the terminating NUL. */
  function At(s: string, i: nat): (c: char)
    requires i <= |s|
  {
    if i < |s| then s[i] else NUL
  }

  function SkipWhite(s: string, i: nat): (r: nat)
    requires i <= |s|
    ensures i <= r <= |s| && !White(At(s, r)) && forall k :: i <= k < r ==> White(s[k])
    decreases |s| - i
  {
    if i < |s| && White(s[i]) then SkipWhite(s, i + 1) else i
  }

  function SkipWord(s: string, i: nat): (r: nat)
    requires i <= |s|
    ensures i <= r <= |s| && (forall k :: i <= k < r ==> !White(s[k]) && !Symbol(s[k]))
    ensures r < |s| ==> White(s[r]) || Symbol(s[r])
    decreases |s| - i
  {
    if i < |s| && !White(s[i]) && !Symbol(s[i]) then SkipWord(s, i + 1) else i
  }

  function GetToken(s: string, i: nat): (t: Token)
    requires i <= |s|
    ensures i <= t.span.q <= t.span.eq <= t.next <= |s|
    ensures t.kind != NUL ==> i < t.next
  {
    var q := SkipWhite(s, i);
    var c := At(s, q);
    var (kind, eq) :=
      if c == NUL then (NUL, q)
      else if c == '>' && At(s, q + 1) == '>' then ('+', q + 2)
      else if Symbol(c) then (c, q + 1)
      else ('a', SkipWord(s, q));
    Token(kind, Span(q, eq), SkipWhite(s, eq))
  }

  predicate Peek(s: string, i: nat, toks: set<char>)
    requires i <= |s|
  {
    var c := At(s, SkipWhite(s, i));
    c != NUL && c in toks
  }

  /** Each redirection goes around what came before it. */
  function Wrap<W>(c: Cmd<W>, rs: seq<(W, int, int)>): (r: Cmd<W>)
    decreases |rs|
  {
    if rs == [] then c else Wrap(Redir(c, rs[0].0, rs[0].1, rs[0].2), rs[1..])
  }

  function ParseRedirs(s: string, i: nat, rs: seq<(Span, int, int)>): (r: Result<seq<(Span, int, int)>>)
    requires i <= |s|
    ensures r.Ok? ==> i <= r.next <= |s|
    decreases |s| - i
  {
    if !Peek(s, i, {'<', '>'}) then Ok(rs, SkipWhite(s, i))
    else
      PeekToken(s, i, {'<', '>'});
      var t := GetToken(s, i);
      var f := GetToken(s, t.next);
      if f.kind != 'a' then Panic
      else ParseRedirs(s, f.next, rs + [if t.kind == '<' then (f.span, O_RDONLY, 0) else (f.span, O_WRITE, 1)])
  }

  function ParseArgs(s: string, i: nat, args: seq<Span>, rs: seq<(Span, int, int)>): (r: Result<Cmd<Span>>)
    requires i <= |s|
    ensures r.Ok? ==> i <= r.next <= |s|
    decreases |s| - i
  {
    if Peek(s, i, {'|', ')', '&', ';'}) then Ok(Wrap(Exec(args), rs), SkipWhite(s, i))
    else
      var t := GetToken(s, i);
      if t.kind == NUL then Ok(Wrap(Exec(args), rs), t.next)
      else if t.kind != 'a' || |args| + 1 >= MAXARGS then Panic
      else
        match ParseRedirs(s, t.next, rs)
        case Panic => Panic
        case Ok(rs', j) => ParseArgs(s, j, args + [t.span], rs')
  }

  function ParseExec(s: string, i: nat): (r: Result<Cmd<Span>>)
    requires i <= |s|
    ensures r.Ok? ==> i <= r.next <= |s|
    decreases |s| - i, 1
  {
    if Peek(s, i, {'('}) then ParseBlock(s, i)
    else
      match ParseRedirs(s, i, [])
      case Panic => Panic
      case Ok(rs, j) => ParseArgs(s, j, [], rs)
  }

  function ParseBlock(s: string, i: nat): (r: Result<Cmd<Span>>)
    requires i <= |s|
    ensures r.Ok? ==> i <= r.next <= |s|
    decreases |s| - i, 0
  {
    if !Peek(s, i, {'('}) then Panic
    else
      PeekToken(s, i, {'('});
      match ParseLine(s, GetToken(s, i).next)
      case Panic => Panic
      case Ok(c, j) =>
        if !Peek(s, j, {')'}) then Panic
        else
          match ParseRedirs(s, GetToken(s, j).next, [])
          case Panic => Panic
          case Ok(rs, k) => Ok(Wrap(c, rs), k)
  }

  function ParsePipe(s: string, i: nat): (r: Result<Cmd<Span>>)
    requires i <= |s|
    ensures r.Ok? ==> i <= r.next <= |s|
    decreases |s| - i, 2
  {
    match ParseExec(s, i)
    case Panic => Panic
    case Ok(c, j) =>
      if !Peek(s, j, {'|'}) then Ok(c, SkipWhite(s, j))
      else
        PeekToken(s, j, {'|'});
        match ParsePipe(s, GetToken(s, j).next)
        case Panic => Panic
        case Ok(d, k) => Ok(Pipe(c, d), k)
  }

  function Backs(s: string, i: nat, c: Cmd<Span>): (r: (Cmd<Span>, nat))
    requires i <= |s|
    ensures i <= r.1 <= |s|
    decreases |s| - i
  {
    if !Peek(s, i, {'&'}) then (c, SkipWhite(s, i))
    else
      PeekToken(s, i, {'&'});
      Backs(s, GetToken(s, i).next, Back(c))
  }

  function ParseLine(s: string, i: nat): (r: Result<Cmd<Span>>)
    requires i <= |s|
    ensures r.Ok? ==> i <= r.next <= |s|
    decreases |s| - i, 3
  {
    match ParsePipe(s, i)
    case Panic => Panic
    case Ok(c, j) =>
      var (d, k) := Backs(s, j, c);
      if !Peek(s, k, {';'}) then Ok(d, SkipWhite(s, k))
      else
        PeekToken(s, k, {';'});
        match ParseLine(s, GetToken(s, k).next)
        case Panic => Panic
        case Ok(e, n) => Ok(List(d, e), n)
  }

  /** A whole line. */
  function ParseCmd(s: string): (r: Result<Cmd<Span>>)
    ensures r.Ok? ==> r.next == |s|
  {
    match ParseLine(s, 0)
    case Panic => Panic
    case Ok(c, j) => if SkipWhite(s, j) == |s| then Ok(c, |s|) else Panic
  }

  /** What has been peeked at is a token. */
  lemma PeekToken(s: string, i: nat, toks: set<char>)
    requires i <= |s| && Peek(s, i, toks)
    ensures i < GetToken(s, i).next && GetToken(s, i).kind != NUL
  {
  }

  // ---- what a tree of spans stands for ----

  predicate Reads(s: string, spans: seq<Span>, argv: seq<string>) {
    |spans| == |argv| && forall k :: 0 <= k < |argv| ==> SpanIs(s, spans[k], argv[k])
  }

  predicate SpanIs(s: string, w: Span, x: string) {
    Within(s, w) && s[w.q..w.eq] == x
  }

  lemma ReadsNothing(s: string)
    ensures Reads(s, [], [])
  {
  }

  lemma ReadsCons(s: string, w: Span, spans: seq<Span>, argv: seq<string>)
    requires argv != [] && SpanIs(s, w, argv[0]) && Reads(s, spans, argv[1..])
    ensures Reads(s, [w] + spans, argv)
  {
  }

  predicate Within(s: string, w: Span) {
    w.q <= w.eq <= |s|
  }

  /** The words of a tree, in any order. */
  function Words<W>(c: Cmd<W>): (r: seq<W>) {
    match c
    case Exec(argv) => argv
    case Redir(d, file, _, _) => Words(d) + [file]
    case Pipe(l, r) => Words(l) + Words(r)
    case List(l, r) => Words(l) + Words(r)
    case Back(d) => Words(d)
  }

  /** The tree of spans of the line `s` stands for the tree of strings. */
  predicate StandsFor(s: string, c: Cmd<Span>, t: Cmd<string>)
    decreases c
  {
    match (c, t)
    case (Exec(spans), Exec(argv)) => Reads(s, spans, argv)
    case (Redir(d, w, m, fd), Redir(u, file, mode, fd')) =>
      StandsFor(s, d, u) && SpanIs(s, w, file) && (m, fd) == (mode, fd')
    case (Pipe(d, e), Pipe(u, v)) => StandsFor(s, d, u) && StandsFor(s, e, v)
    case (List(d, e), List(u, v)) => StandsFor(s, d, u) && StandsFor(s, e, v)
    case (Back(d), Back(u)) => StandsFor(s, d, u)
    case _ => false
  }

  predicate IsWord(w: string) {
    w != "" && forall i :: 0 <= i < |w| ==> WordChar(w[i])
  }

  // ---- tokens in the line ----

  lemma NotWhite(s: string, j: nat)
    requires j <= |s| && !White(At(s, j))
    ensures SkipWhite(s, j) == j
  {
  }

  predicate Occurs(s: string, i: nat, x: string) {
    i + |x| <= |s| && s[i..i + |x|] == x
  }

  lemma {:induction false} SkipWordTo(s: string, i: nat, w: string)
    requires Occurs(s, i, w) && forall k :: 0 <= k < |w| ==> WordChar(w[k])
    requires i + |w| == |s| || White(s[i + |w|]) || Symbol(s[i + |w|])
    ensures SkipWord(s, i) == i + |w|
    decreases |w|
  {
    if w != "" {
      assert s[i] == w[0];
      assert s[i + 1..i + |w|] == w[1..];
      SkipWordTo(s, i + 1, w[1..]);
    }
  }

  /** A word that ends there is one token. */
  lemma WordToken(s: string, i: nat, w: string)
    requires Occurs(s, i, w) && IsWord(w) && (i + |w| == |s| || White(s[i + |w|]) || Symbol(s[i + |w|]))
    ensures GetToken(s, i) == Token('a', Span(i, i + |w|), SkipWhite(s, i + |w|))
  {
    assert s[i] == s[i..i + |w|][0] == w[0];
    SkipWordTo(s, i, w);
  }

  /** Looking for a token may start before or after white space. */
  lemma SkipSame(s: string, i: nat)
    requires i <= |s|
    ensures SkipWhite(s, SkipWhite(s, i)) == SkipWhite(s, i) && GetToken(s, SkipWhite(s, i)) == GetToken(s, i)
    ensures forall toks :: Peek(s, SkipWhite(s, i), toks) == Peek(s, i, toks)
  {
    NotWhite(s, SkipWhite(s, i));
    hide SkipWhite;
  }
}
