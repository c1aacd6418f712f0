/** The syntax of command lines, as a grammar over tokens. The parser accepts exactly the lines of the grammar, and
    builds the tree that the grammar gives them, however the tokens are spaced. */
module ShellSyntax {
  import opened ShellGrammar

  // ---- tokens ----

  /** A token: 'a' and a word, or a sign. */
  datatype Tok = Tok(kind: char, text: string)

  function Word(w: string): (t: Tok) {
    Tok('a', w)
  }

  /** '+' is the sign >>. */
  function Sign(c: char): (t: Tok) {
    Tok(c, if c == '+' then ">>" else [c])
  }

  const FILE_SIGNS := {'<', '>', '+'}
  const SIGNS := {'<', '>', '+', '|', '&', ';', '(', ')'}

  /** The tokens of the line from `i` on. */
  function Tokens(s: string, i: nat): (r: seq<Tok>)
    requires i <= |s|
    decreases |s| - i
  {
    var t := GetToken(s, i);
    if t.kind == NUL then [] else [Tok(t.kind, s[t.span.q..t.span.eq])] + Tokens(s, t.next)
  }

  /** White space aside, the next token is the longest that is there: >> rather than >, and as much of a word as there
      is; there is none exactly at the end of the line. */
  lemma TokenIs(s: string, i: nat)
    requires i <= |s| && NUL !in s
    ensures var t := GetToken(s, i);
      && (forall k :: i <= k < t.span.q || t.span.eq <= k < t.next ==> White(s[k])) && !White(At(s, t.next))
      && (t.kind == NUL <==> t.span.q == |s|)
      && (t.kind == 'a' || t.kind in SIGNS + {NUL})
      && (t.kind in SIGNS ==> Tok(t.kind, s[t.span.q..t.span.eq]) == Sign(t.kind))
      && (t.kind == '>' ==> At(s, t.span.eq) != '>')
      && (t.kind == 'a' ==> IsWord(s[t.span.q..t.span.eq]) && (t.span.eq == |s| || !WordChar(s[t.span.eq])))
  {
    var q := SkipWhite(s, i);
    assert q < |s| ==> s[q] in s;
    forall k | q <= k < |s|
      ensures s[k] != NUL
    {
      assert s[k] in s;
    }
  }

  lemma KindOf(s: string, i: nat)
    requires i <= |s|
    ensures var t := GetToken(s, i);
      && (t.kind == NUL || t.kind == 'a' || t.kind in SIGNS)
      && (t.kind in SIGNS ==> Tok(t.kind, s[t.span.q..t.span.eq]) == Sign(t.kind))
  {
    hide SkipWhite, SkipWord;
    var q := SkipWhite(s, i);
    if q < |s| {
      assert s[q..q + 1] == [s[q]];
      assert q + 1 < |s| ==> s[q..q + 2] == [s[q], s[q + 1]];
    }
  }

  /** The first token and the others. */
  lemma Head(s: string, i: nat)
    requires i <= |s|
    ensures var t := GetToken(s, i);
      && (Tokens(s, i) == [] <==> t.kind == NUL) && (t.kind == NUL || t.kind == 'a' || t.kind in SIGNS)
      && (t.kind != NUL ==> Tokens(s, i)[0].kind == t.kind && Tokens(s, i)[1..] == Tokens(s, t.next))
      && (t.kind == 'a' ==> Tokens(s, i)[0] == Word(s[t.span.q..t.span.eq]))
      && (t.kind in SIGNS ==> Tokens(s, i)[0] == Sign(t.kind))
  {
    hide GetToken;
    KindOf(s, i);
  }

  predicate Starts(ts: seq<Tok>, kinds: set<char>) {
    ts != [] && ts[0].kind in kinds
  }

  lemma PeekIs(s: string, i: nat, toks: set<char>)
    requires i <= |s| && toks <= {'|', '&', ';', '(', ')'}
    ensures Peek(s, i, toks) <==> Starts(Tokens(s, i), toks)
  {
  }

  lemma PeekFile(s: string, i: nat)
    requires i <= |s|
    ensures Peek(s, i, {'<', '>'}) <==> Starts(Tokens(s, i), FILE_SIGNS)
  {
  }

  lemma TokensSkip(s: string, i: nat)
    requires i <= |s|
    ensures Tokens(s, SkipWhite(s, i)) == Tokens(s, i)
  {
    SkipSame(s, i);
  }

  // ---- the grammar ----

  /** A redirection. */
  datatype File = File(sign: char, name: string)

  /** A word and the redirections after it. */
  datatype Arg = Arg(word: string, files: seq<File>)

  /** A simple command, with redirections before, among and after its words; or a line in parentheses. */
  datatype Unit = Simple(files: seq<File>, args: seq<Arg>) | Block(line: Line, files: seq<File>)

  datatype Pipeline = Last(u: Unit) | Piped(u: Unit, rest: Pipeline)

  /** A pipeline, how many `&` follow it, and the line after `;`, if any. */
  datatype Line = End(p: Pipeline, amps: nat) | Then(p: Pipeline, amps: nat, rest: Line)

  predicate FilesFine(fs: seq<File>) {
    forall k :: 0 <= k < |fs| ==> fs[k].sign in FILE_SIGNS
  }

  predicate ArgsFine(args: seq<Arg>) {
    forall k :: 0 <= k < |args| ==> FilesFine(args[k].files)
  }

  /** Fewer than MAXARGS words in every simple command. */
  predicate UnitFine(u: Unit) {
    FilesFine(u.files) && if u.Simple? then |u.args| < MAXARGS && ArgsFine(u.args) else LineFine(u.line)
  }

  predicate PipeFine(p: Pipeline) {
    UnitFine(p.u) && (p.Piped? ==> PipeFine(p.rest))
  }

  predicate LineFine(x: Line) {
    PipeFine(x.p) && (x.Then? ==> LineFine(x.rest))
  }

  // ---- the tokens of a line ----

  function FileToks(fs: seq<File>): (r: seq<Tok>) {
    if fs == [] then [] else [Sign(fs[0].sign), Word(fs[0].name)] + FileToks(fs[1..])
  }

  function ArgToks(args: seq<Arg>): (r: seq<Tok>) {
    if args == [] then [] else [Word(args[0].word)] + (FileToks(args[0].files) + ArgToks(args[1..]))
  }

  function UnitToks(u: Unit): (r: seq<Tok>) {
    match u
    case Simple(files, args) => FileToks(files) + ArgToks(args)
    case Block(x, files) => [Sign('(')] + (LineToks(x) + ([Sign(')')] + FileToks(files)))
  }

  function PipeToks(p: Pipeline): (r: seq<Tok>) {
    match p
    case Last(u) => UnitToks(u)
    case Piped(u, rest) => UnitToks(u) + ([Sign('|')] + PipeToks(rest))
  }

  function Amps(n: nat): (r: seq<Tok>) {
    if n == 0 then [] else [Sign('&')] + Amps(n - 1)
  }

  function LineToks(x: Line): (r: seq<Tok>) {
    match x
    case End(p, n) => PipeToks(p) + Amps(n)
    case Then(p, n, rest) => PipeToks(p) + (Amps(n) + ([Sign(';')] + LineToks(rest)))
  }

  // ---- the tree of a line ----

  /** The redirections go around the command in order, the last one outermost: < is for reading, as descriptor 0, and
      the others are for writing, as descriptor 1. */
  function Redirected(t: Cmd<string>, fs: seq<File>): (r: Cmd<string>) {
    if fs == [] then t
    else
      var (f, inner) := (fs[|fs| - 1], Redirected(t, fs[..|fs| - 1]));
      if f.sign == '<' then Redir(inner, f.name, O_RDONLY, 0) else Redir(inner, f.name, O_WRITE, 1)
  }

  function ArgWords(args: seq<Arg>): (r: seq<string>) {
    seq(|args|, k requires 0 <= k < |args| => args[k].word)
  }

  function ArgFiles(args: seq<Arg>): (r: seq<File>) {
    if args == [] then [] else args[0].files + ArgFiles(args[1..])
  }

  function UnitTree(u: Unit): (t: Cmd<string>) {
    match u
    case Simple(files, args) => Redirected(Exec(ArgWords(args)), files + ArgFiles(args))
    case Block(x, files) => Redirected(LineTree(x), files)
  }

  function PipeTree(p: Pipeline): (t: Cmd<string>) {
    match p
    case Last(u) => UnitTree(u)
    case Piped(u, rest) => Pipe(UnitTree(u), PipeTree(rest))
  }

  function Backed<W>(t: Cmd<W>, n: nat): (r: Cmd<W>) {
    if n == 0 then t else Back(Backed(t, n - 1))
  }

  function LineTree(x: Line): (t: Cmd<string>) {
    match x
    case End(p, n) => Backed(PipeTree(p), n)
    case Then(p, n, rest) => List(Backed(PipeTree(p), n), LineTree(rest))
  }

  // ---- redirections ----

  predicate FileIs(s: string, r: (Span, int, int), f: File) {
    SpanIs(s, r.0, f.name) && (r.1, r.2) == if f.sign == '<' then (O_RDONLY, 0) else (O_WRITE, 1)
  }

  predicate FilesAre(s: string, rs: seq<(Span, int, int)>, fs: seq<File>) {
    |rs| == |fs| && forall k :: 0 <= k < |fs| ==> FileIs(s, rs[k], fs[k])
  }

  lemma {:induction false} WrapLast(c: Cmd<Span>, rs: seq<(Span, int, int)>)
    requires rs != []
    ensures var r := rs[|rs| - 1]; Wrap(c, rs) == Redir(Wrap(c, rs[..|rs| - 1]), r.0, r.1, r.2)
    decreases |rs|
  {
    if |rs| > 1 {
      WrapLast(Redir(c, rs[0].0, rs[0].1, rs[0].2), rs[1..]);
      assert rs[1..][..|rs| - 2] == rs[..|rs| - 1][1..];
    }
  }

  lemma {:induction false} WrapStands(s: string, c: Cmd<Span>, t: Cmd<string>, rs: seq<(Span, int, int)>, fs: seq<File>)
    requires StandsFor(s, c, t) && FilesAre(s, rs, fs)
    ensures StandsFor(s, Wrap(c, rs), Redirected(t, fs))
    decreases |rs|
  {
    if rs != [] {
      var n := |rs| - 1;
      WrapLast(c, rs);
      assert FileIs(s, rs[n], fs[n]);
      WrapStands(s, c, t, rs[..n], fs[..n]);
    }
  }

  lemma FilesTwo(s: string, rs: seq<(Span, int, int)>, fs: seq<File>, rs': seq<(Span, int, int)>, fs': seq<File>)
    requires FilesAre(s, rs, fs) && FilesAre(s, rs', fs')
    ensures FilesAre(s, rs + rs', fs + fs')
  {
  }

  // ---- whatever the grammar gives is accepted ----

  lemma {:induction false} FilesAccept(s: string, i: nat, fs: seq<File>, rest: seq<Tok>, rs: seq<(Span, int, int)>)
    returns (all: seq<(Span, int, int)>, j: nat)
    requires i <= |s| && Tokens(s, i) == FileToks(fs) + rest && FilesFine(fs) && !Starts(rest, FILE_SIGNS)
    ensures ParseRedirs(s, i, rs) == Ok(rs + all, j) && j <= |s| && Tokens(s, j) == rest && FilesAre(s, all, fs)
    decreases |fs|
  {
    hide GetToken, Peek, SkipWhite, Tokens;
    PeekFile(s, i);
    if fs == [] {
      all, j := [], SkipWhite(s, i);
      TokensSkip(s, i);
      assert rs + [] == rs && [] + rest == rest;
    } else {
      var (t, n) := (GetToken(s, i), GetToken(s, GetToken(s, i).next));
      Head(s, i);
      Head(s, t.next);
      var more := FileToks(fs[1..]) + rest;
      assert Tokens(s, i) == [Sign(fs[0].sign), Word(fs[0].name)] + more;
      assert Tokens(s, i)[1..][1..] == more;
      var r := if t.kind == '<' then (n.span, O_RDONLY, 0) else (n.span, O_WRITE, 1);
      all, j := FilesAccept(s, n.next, fs[1..], rest, rs + [r]);
      assert rs + [r] + all == rs + ([r] + all);
      all := [r] + all;
    }
  }

  lemma ArgNext(s: string, i: nat, words: seq<Span>, rs: seq<(Span, int, int)>, rs': seq<(Span, int, int)>, k: nat)
    requires i <= |s| && k <= |s| && GetToken(s, i).kind == 'a' && |words| + 1 < MAXARGS
    requires ParseRedirs(s, GetToken(s, i).next, rs) == Ok(rs', k)
    ensures ParseArgs(s, i, words, rs) == ParseArgs(s, k, words + [GetToken(s, i).span], rs')
  {
    hide GetToken, Peek, SkipWhite, Tokens, ParseRedirs, Wrap;
    Head(s, i);
    PeekIs(s, i, {'|', ')', '&', ';'});
  }

  lemma ArgsEnd(s: string, i: nat, words: seq<Span>, rs: seq<(Span, int, int)>) returns (j: nat)
    requires i <= |s| && (Tokens(s, i) == [] || Starts(Tokens(s, i), {'|', '&', ';', ')'}))
    ensures ParseArgs(s, i, words, rs) == Ok(Wrap(Exec(words), rs), j) && j <= |s| && Tokens(s, j) == Tokens(s, i)
  {
    hide GetToken, Peek, SkipWhite, Tokens, ParseRedirs, Wrap;
    Head(s, i);
    PeekIs(s, i, {'|', ')', '&', ';'});
    if Tokens(s, i) == [] {
      j := GetToken(s, i).next;
      EndTokens(s, i);
    } else {
      j := SkipWhite(s, i);
      TokensSkip(s, i);
    }
  }

  lemma {:induction false} ArgsAccept(s: string, i: nat, args: seq<Arg>, rest: seq<Tok>, words: seq<Span>,
                                      rs: seq<(Span, int, int)>)
    returns (more: seq<Span>, all: seq<(Span, int, int)>, j: nat)
    requires i <= |s| && Tokens(s, i) == ArgToks(args) + rest && ArgsFine(args) && |words| + |args| < MAXARGS
    requires rest == [] || Starts(rest, {'|', '&', ';', ')'})
    ensures ParseArgs(s, i, words, rs) == Ok(Wrap(Exec(words + more), rs + all), j)
    ensures j <= |s| && Tokens(s, j) == rest && Reads(s, more, ArgWords(args)) && FilesAre(s, all, ArgFiles(args))
    decreases |args|
  {
    hide GetToken, Peek, SkipWhite, Tokens, ParseRedirs, Wrap, ParseArgs, FilesAre, FilesFine, FileToks, SpanIs, Reads;
    hide ArgWords;
    if args == [] {
      assert ArgToks(args) + rest == rest && words + [] == words && rs + [] == rs;
      more, all := [], [];
      j := ArgsEnd(s, i, words, rs);
      NoFiles(s);
      ReadsNothing(s);
      NoArgWords();
    } else {
      Head(s, i);
      var (t, files, after) := (GetToken(s, i), args[0].files, ArgToks(args[1..]) + rest);
      assert Tokens(s, i) == [Word(args[0].word)] + (FileToks(files) + after);
      assert Tokens(s, t.next) == FileToks(files) + after;
      AfterFiles(args[1..], rest);
      var fs, k := FilesAccept(s, t.next, files, after, rs);
      ArgNext(s, i, words, rs, rs + fs, k);
      more, all, j := ArgsAccept(s, k, args[1..], rest, words + [t.span], rs + fs);
      assert words + [t.span] + more == words + ([t.span] + more) && rs + fs + all == rs + (fs + all);
      FilesTwo(s, fs, files, all, ArgFiles(args[1..]));
      WordIs(s, i, args[0].word);
      ArgWordsRest(args);
      ReadsCons(s, t.span, more, ArgWords(args));
      more, all := [t.span] + more, fs + all;
    }
  }

  lemma NoArgWords()
    ensures ArgWords([]) == []
  {
  }

  lemma ArgWordsRest(args: seq<Arg>)
    requires args != []
    ensures ArgWords(args) == [args[0].word] + ArgWords(args[1..]) && ArgWords(args)[1..] == ArgWords(args[1..])
  {
  }

  lemma NoFiles(s: string)
    ensures FilesAre(s, [], []) && FilesFine([]) && FileToks([]) == []
  {
  }

  lemma AfterFiles(args: seq<Arg>, rest: seq<Tok>)
    requires rest == [] || Starts(rest, {'|', '&', ';', ')'})
    ensures !Starts(ArgToks(args) + rest, FILE_SIGNS)
  {
  }

  lemma WordIs(s: string, i: nat, w: string)
    requires i <= |s| && Tokens(s, i) != [] && Tokens(s, i)[0] == Word(w)
    ensures GetToken(s, i).kind == 'a' && SpanIs(s, GetToken(s, i).span, w)
  {
  }

  /** After the last token there is none. */
  lemma EndTokens(s: string, i: nat)
    requires i <= |s| && GetToken(s, i).kind == NUL
    ensures Tokens(s, GetToken(s, i).next) == []
  {
    NotWhite(s, SkipWhite(s, i));
  }

  // ---- units, pipelines and lines ----

  /** What may follow a unit, a pipeline and a line. */
  predicate Follows(rest: seq<Tok>, kinds: set<char>) {
    rest == [] || Starts(rest, kinds)
  }

  lemma SignNext(s: string, i: nat, c: char, rest: seq<Tok>)
    requires i <= |s| && Tokens(s, i) == [Sign(c)] + rest && c in SIGNS
    ensures GetToken(s, i).next <= |s| && Tokens(s, GetToken(s, i).next) == rest
    ensures i < GetToken(s, i).next && Starts(Tokens(s, i), {c})
  {
    Head(s, i);
  }

  lemma {:induction false} UnitAccept(s: string, i: nat, u: Unit, rest: seq<Tok>) returns (c: Cmd<Span>, j: nat)
    requires i <= |s| && Tokens(s, i) == UnitToks(u) + rest && UnitFine(u) && Follows(rest, {'|', '&', ';', ')'})
    ensures ParseExec(s, i) == Ok(c, j) && j <= |s| && Tokens(s, j) == rest && StandsFor(s, c, UnitTree(u))
    decreases u
  {
    hide GetToken, Peek, SkipWhite, Tokens, ParseRedirs, Wrap, ParseArgs, ParseBlock, StandsFor, FilesAre, Redirected;
    PeekIs(s, i, {'('});
    match u
    case Simple(files, args) =>
      c, j := SimpleAccept(s, i, files, args, rest);
    case Block(x, files) =>
      var (close, after) := ([Sign(')')] + (FileToks(files) + rest), FileToks(files) + rest);
      assert Tokens(s, i) == [Sign('(')] + (LineToks(x) + close);
      SignNext(s, i, '(', LineToks(x) + close);
      var d, k := LineAccept(s, GetToken(s, i).next, x, close);
      c, j := BlockAccept(s, i, d, k, LineTree(x), files, rest);
  }

  lemma SimpleAccept(s: string, i: nat, files: seq<File>, args: seq<Arg>, rest: seq<Tok>) returns (c: Cmd<Span>, j: nat)
    requires i <= |s| && Tokens(s, i) == FileToks(files) + ArgToks(args) + rest && FilesFine(files) && ArgsFine(args)
    requires |args| < MAXARGS && Follows(rest, {'|', '&', ';', ')'})
    ensures ParseExec(s, i) == Ok(c, j) && j <= |s| && Tokens(s, j) == rest
    ensures StandsFor(s, c, UnitTree(Simple(files, args)))
  {
    hide GetToken, Peek, SkipWhite, Tokens, ParseRedirs, Wrap, ParseArgs, ParseBlock, FilesAre, Redirected, Reads;
    hide ArgFiles, ArgWords;
    PeekIs(s, i, {'('});
    assert FileToks(files) + ArgToks(args) + rest == FileToks(files) + (ArgToks(args) + rest);
    AfterFiles(args, rest);
    NoBlock(files, args, rest);
    var fs, k := FilesAccept(s, i, files, ArgToks(args) + rest, []);
    var words, more;
    words, more, j := ArgsAccept(s, k, args, rest, [], fs);
    assert [] + fs == fs && [] + words == words;
    c := Wrap(Exec(words), fs + more);
    FilesTwo(s, fs, files, more, ArgFiles(args));
    WrapStands(s, Exec(words), Exec(ArgWords(args)), fs + more, files + ArgFiles(args));
  }

  lemma NoBlock(files: seq<File>, args: seq<Arg>, rest: seq<Tok>)
    requires FilesFine(files) && Follows(rest, {'|', '&', ';', ')'})
    ensures !Starts(FileToks(files) + ArgToks(args) + rest, {'('})
  {
  }

  lemma BlockAccept(s: string, i: nat, d: Cmd<Span>, k: nat, t: Cmd<string>, files: seq<File>, rest: seq<Tok>)
    returns (c: Cmd<Span>, j: nat)
    requires i <= |s| && Starts(Tokens(s, i), {'('}) && k <= |s| && ParseLine(s, GetToken(s, i).next) == Ok(d, k)
    requires Tokens(s, k) == [Sign(')')] + (FileToks(files) + rest) && FilesFine(files) && StandsFor(s, d, t)
    requires Follows(rest, {'|', '&', ';', ')'})
    ensures ParseExec(s, i) == Ok(c, j) && j <= |s| && Tokens(s, j) == rest && StandsFor(s, c, Redirected(t, files))
  {
    hide GetToken, Peek, SkipWhite, Tokens, ParseRedirs, Wrap, ParseLine, StandsFor, FilesAre, Redirected;
    PeekIs(s, i, {'('});
    PeekIs(s, k, {')'});
    SignNext(s, k, ')', FileToks(files) + rest);
    var fs;
    fs, j := FilesAccept(s, GetToken(s, k).next, files, rest, []);
    assert [] + fs == fs;
    c := Wrap(d, fs);
    WrapStands(s, d, t, fs, files);
  }

  lemma {:induction false} PipeAccept(s: string, i: nat, p: Pipeline, rest: seq<Tok>) returns (c: Cmd<Span>, j: nat)
    requires i <= |s| && Tokens(s, i) == PipeToks(p) + rest && PipeFine(p) && Follows(rest, {'&', ';', ')'})
    ensures ParsePipe(s, i) == Ok(c, j) && j <= |s| && Tokens(s, j) == rest && StandsFor(s, c, PipeTree(p))
    decreases p
  {
    hide GetToken, Peek, SkipWhite, Tokens, ParseExec, StandsFor, UnitToks, UnitFine, UnitTree;
    match p
    case Last(u) =>
      var k;
      c, k := UnitAccept(s, i, u, rest);
      PeekIs(s, k, {'|'});
      j := SkipWhite(s, k);
      TokensSkip(s, k);
    case Piped(u, more) =>
      var after := PipeToks(more) + rest;
      assert Tokens(s, i) == UnitToks(u) + ([Sign('|')] + after);
      var d, k := UnitAccept(s, i, u, [Sign('|')] + after);
      PeekIs(s, k, {'|'});
      SignNext(s, k, '|', after);
      var e;
      e, j := PipeAccept(s, GetToken(s, k).next, more, rest);
      c := Pipe(d, e);
      PipeStands(s, d, e, UnitTree(u), PipeTree(more));
  }

  lemma PipeStands(s: string, d: Cmd<Span>, e: Cmd<Span>, t: Cmd<string>, u: Cmd<string>)
    requires StandsFor(s, d, t) && StandsFor(s, e, u)
    ensures StandsFor(s, Pipe(d, e), Pipe(t, u)) && StandsFor(s, List(d, e), List(t, u))
  {
  }

  lemma {:induction false} BacksAccept(s: string, i: nat, n: nat, rest: seq<Tok>, c: Cmd<Span>) returns (j: nat)
    requires i <= |s| && Tokens(s, i) == Amps(n) + rest && !Starts(rest, {'&'})
    ensures Backs(s, i, c) == (Backed(c, n), j) && j <= |s| && Tokens(s, j) == rest
    decreases n
  {
    hide GetToken, Peek, SkipWhite, Tokens;
    PeekIs(s, i, {'&'});
    if n == 0 {
      assert Amps(n) + rest == rest;
      j := SkipWhite(s, i);
      TokensSkip(s, i);
    } else {
      assert Amps(n) + rest == [Sign('&')] + (Amps(n - 1) + rest);
      SignNext(s, i, '&', Amps(n - 1) + rest);
      j := BacksAccept(s, GetToken(s, i).next, n - 1, rest, Back(c));
      BackedBack(c, n - 1);
    }
  }

  lemma {:induction false} BackedBack<W>(c: Cmd<W>, n: nat)
    ensures Backed(Back(c), n) == Back(Backed(c, n))
  {
    if n > 0 {
      BackedBack(c, n - 1);
    }
  }

  lemma {:induction false} BackedStands(s: string, c: Cmd<Span>, t: Cmd<string>, n: nat)
    requires StandsFor(s, c, t)
    ensures StandsFor(s, Backed(c, n), Backed(t, n))
  {
    if n > 0 {
      BackedStands(s, c, t, n - 1);
    }
  }

  /** Wherever the tokens of a line stand, followed by nothing or a closing parenthesis, they are read as its tree. */
  lemma {:induction false} LineAccept(s: string, i: nat, x: Line, rest: seq<Tok>) returns (c: Cmd<Span>, j: nat)
    requires i <= |s| && Tokens(s, i) == LineToks(x) + rest && LineFine(x) && Follows(rest, {')'})
    ensures ParseLine(s, i) == Ok(c, j) && j <= |s| && Tokens(s, j) == rest && StandsFor(s, c, LineTree(x))
    decreases x
  {
    hide GetToken, Peek, SkipWhite, Tokens, ParsePipe, Backs, StandsFor, PipeToks, PipeFine, PipeTree, Backed;
    var (p, n) := (x.p, x.amps);
    var after := if x.End? then rest else [Sign(';')] + (LineToks(x.rest) + rest);
    assert LineToks(x) + rest == PipeToks(p) + (Amps(n) + after);
    AfterPipe(n, after);
    var d, k := PipeAccept(s, i, p, Amps(n) + after);
    var m := BacksAccept(s, k, n, after, d);
    BackedStands(s, d, PipeTree(p), n);
    PeekIs(s, m, {';'});
    if x.End? {
      c, j := Backed(d, n), SkipWhite(s, m);
      TokensSkip(s, m);
    } else {
      SignNext(s, m, ';', LineToks(x.rest) + rest);
      var e;
      e, j := LineAccept(s, GetToken(s, m).next, x.rest, rest);
      c := List(Backed(d, n), e);
      PipeStands(s, Backed(d, n), e, Backed(PipeTree(p), n), LineTree(x.rest));
    }
  }

  lemma AfterPipe(n: nat, after: seq<Tok>)
    requires Follows(after, {';', ')'})
    ensures Follows(Amps(n) + after, {'&', ';', ')'}) && !Starts(after, {'&'})
  {
  }

  // ---- whatever is accepted, the grammar gives ----

  lemma FilesMore(s: string, f: File, fs: seq<File>, r: (Span, int, int), all: seq<(Span, int, int)>, rest: seq<Tok>)
    requires FileIs(s, r, f) && f.sign in FILE_SIGNS && FilesAre(s, all, fs) && FilesFine(fs)
    ensures FilesAre(s, [r] + all, [f] + fs) && FilesFine([f] + fs)
    ensures FileToks([f] + fs) + rest == [Sign(f.sign), Word(f.name)] + (FileToks(fs) + rest)
  {
    assert ([f] + fs)[1..] == fs;
  }

  lemma {:induction false} FilesFrom(s: string, i: nat, rs: seq<(Span, int, int)>)
    returns (fs: seq<File>, all: seq<(Span, int, int)>)
    requires i <= |s| && ParseRedirs(s, i, rs).Ok?
    ensures var r := ParseRedirs(s, i, rs);
      && r.value == rs + all && FilesAre(s, all, fs) && FilesFine(fs)
      && Tokens(s, i) == FileToks(fs) + Tokens(s, r.next)
    decreases |s| - i
  {
    hide GetToken, Peek, SkipWhite, Tokens, FilesAre, FilesFine, FileToks;
    PeekFile(s, i);
    if !Peek(s, i, {'<', '>'}) {
      fs, all := [], [];
      TokensSkip(s, i);
      NoFiles(s);
      assert rs + [] == rs;
    } else {
      var (t, n) := (GetToken(s, i), GetToken(s, GetToken(s, i).next));
      Head(s, i);
      Head(s, t.next);
      var r := if t.kind == '<' then (n.span, O_RDONLY, 0) else (n.span, O_WRITE, 1);
      var f := File(t.kind, s[n.span.q..n.span.eq]);
      PeekToken(s, i, {'<', '>'});
      fs, all := FilesFrom(s, n.next, rs + [r]);
      assert rs + [r] + all == rs + ([r] + all);
      FilesMore(s, f, fs, r, all, Tokens(s, ParseRedirs(s, n.next, rs + [r]).next));
      assert Tokens(s, i) == [Sign(t.kind), Word(f.name)] + Tokens(s, n.next);
      fs, all := [f] + fs, [r] + all;
    }
  }

  lemma {:induction false} ArgsFrom(s: string, i: nat, words: seq<Span>, rs: seq<(Span, int, int)>)
    returns (args: seq<Arg>, more: seq<Span>, all: seq<(Span, int, int)>)
    requires i <= |s| && |words| < MAXARGS && ParseArgs(s, i, words, rs).Ok?
    ensures var r := ParseArgs(s, i, words, rs);
      && r.value == Wrap(Exec(words + more), rs + all) && |words| + |args| < MAXARGS
      && Reads(s, more, ArgWords(args)) && FilesAre(s, all, ArgFiles(args)) && ArgsFine(args)
      && Tokens(s, i) == ArgToks(args) + Tokens(s, r.next)
    decreases |s| - i
  {
    hide GetToken, Peek, SkipWhite, Tokens, ParseRedirs, Wrap, FilesAre, FilesFine, FileToks, SpanIs, Reads, ArgWords;
    hide ParseArgs;
    PeekIs(s, i, {'|', ')', '&', ';'});
    Head(s, i);
    if Tokens(s, i) == [] || Starts(Tokens(s, i), {'|', ')', '&', ';'}) {
      args, more, all := [], [], [];
      var _ := ArgsEnd(s, i, words, rs);
      NoFiles(s);
      ReadsNothing(s);
      NoArgWords();
      assert words + [] == words && rs + [] == rs;
    } else {
      var t := GetToken(s, i);
      var r := ArgsOk(s, i, words, rs);
      var files, fs := FilesFrom(s, t.next, rs);
      ArgNext(s, i, words, rs, r.value, r.next);
      args, more, all := ArgsFrom(s, r.next, words + [t.span], rs + fs);
      assert words + [t.span] + more == words + ([t.span] + more) && rs + fs + all == rs + (fs + all);
      var a := Arg(s[t.span.q..t.span.eq], files);
      ArgsMore(s, a, args, t.span, more, fs, all);
      args, more, all := [a] + args, [t.span] + more, fs + all;
      assert Tokens(s, i) == [Word(a.word)] + Tokens(s, t.next);
    }
  }

  lemma ArgsOk(s: string, i: nat, words: seq<Span>, rs: seq<(Span, int, int)>)
    returns (r: Result<seq<(Span, int, int)>>)
    requires i <= |s| && ParseArgs(s, i, words, rs).Ok?
    requires Tokens(s, i) != [] && !Starts(Tokens(s, i), {'|', ')', '&', ';'})
    ensures GetToken(s, i).kind == 'a' && |words| + 1 < MAXARGS && i < GetToken(s, i).next
    ensures r == ParseRedirs(s, GetToken(s, i).next, rs) && r.Ok? && i < r.next <= |s|
  {
    hide GetToken, Peek, SkipWhite, Tokens, ParseRedirs, Wrap;
    PeekIs(s, i, {'|', ')', '&', ';'});
    Head(s, i);
    r := ParseRedirs(s, GetToken(s, i).next, rs);
  }

  lemma ArgsMore(s: string, a: Arg, args: seq<Arg>, w: Span, more: seq<Span>, fs: seq<(Span, int, int)>,
                 all: seq<(Span, int, int)>)
    requires Reads(s, more, ArgWords(args)) && FilesAre(s, all, ArgFiles(args)) && ArgsFine(args)
    requires FilesAre(s, fs, a.files) && FilesFine(a.files) && Within(s, w) && a.word == s[w.q..w.eq]
    ensures Reads(s, [w] + more, ArgWords([a] + args)) && FilesAre(s, fs + all, ArgFiles([a] + args))
    ensures ArgsFine([a] + args) && ArgToks([a] + args) == [Word(a.word)] + (FileToks(a.files) + ArgToks(args))
  {
    hide FilesAre, FilesFine, FileToks;
    assert ([a] + args)[1..] == args;
    FilesTwo(s, fs, a.files, all, ArgFiles(args));
    ArgWordsRest([a] + args);
    ReadsCons(s, w, more, ArgWords([a] + args));
  }

  lemma {:induction false} UnitFrom(s: string, i: nat) returns (u: Unit)
    requires i <= |s| && ParseExec(s, i).Ok?
    ensures var r := ParseExec(s, i);
      UnitFine(u) && StandsFor(s, r.value, UnitTree(u)) && Tokens(s, i) == UnitToks(u) + Tokens(s, r.next)
    decreases |s| - i, 1
  {
    hide GetToken, Peek, SkipWhite, Tokens, ParseRedirs, Wrap, ParseArgs, ParseLine, FilesAre, Redirected, Reads;
    hide ArgFiles, ArgWords, FilesFine, FileToks, LineToks, LineTree, LineFine;
    PeekIs(s, i, {'('});
    if !Peek(s, i, {'('}) {
      var r := ParseRedirs(s, i, []);
      var files, fs := FilesFrom(s, i, []);
      assert [] + fs == fs;
      var args, words, more := ArgsFrom(s, r.next, [], fs);
      assert [] + words == words;
      FilesTwo(s, fs, files, more, ArgFiles(args));
      WrapStands(s, Exec(words), Exec(ArgWords(args)), fs + more, files + ArgFiles(args));
      u := Simple(files, args);
    } else {
      u := BlockFrom(s, i);
    }
  }

  lemma {:induction false} BlockFrom(s: string, i: nat) returns (u: Unit)
    requires i <= |s| && ParseBlock(s, i).Ok? && Starts(Tokens(s, i), {'('})
    ensures var r := ParseBlock(s, i);
      UnitFine(u) && StandsFor(s, r.value, UnitTree(u)) && Tokens(s, i) == UnitToks(u) + Tokens(s, r.next)
    decreases |s| - i, 0
  {
    hide GetToken, Peek, SkipWhite, Tokens, ParseRedirs, Wrap, ParseLine, FilesAre, Redirected, StandsFor;
    hide FilesFine, FileToks, LineToks, LineTree, LineFine;
    Head(s, i);
    PeekToken(s, i, {'('});
    var x := LineFrom(s, GetToken(s, i).next);
    var r := ParseLine(s, GetToken(s, i).next);
    PeekIs(s, r.next, {')'});
    Head(s, r.next);
    var k := GetToken(s, r.next).next;
    var files, fs := FilesFrom(s, k, []);
    assert [] + fs == fs;
    WrapStands(s, r.value, LineTree(x), fs, files);
    u := Block(x, files);
    assert Tokens(s, i) == [Sign('(')] + Tokens(s, GetToken(s, i).next);
    assert Tokens(s, r.next) == [Sign(')')] + Tokens(s, k);
  }

  lemma {:induction false} PipeFrom(s: string, i: nat) returns (p: Pipeline)
    requires i <= |s| && ParsePipe(s, i).Ok?
    ensures var r := ParsePipe(s, i);
      PipeFine(p) && StandsFor(s, r.value, PipeTree(p)) && Tokens(s, i) == PipeToks(p) + Tokens(s, r.next)
    decreases |s| - i, 2
  {
    hide GetToken, Peek, SkipWhite, Tokens, ParseExec, StandsFor, UnitToks, UnitFine, UnitTree;
    var u := UnitFrom(s, i);
    var r := ParseExec(s, i);
    PeekIs(s, r.next, {'|'});
    if !Peek(s, r.next, {'|'}) {
      p := Last(u);
      TokensSkip(s, r.next);
    } else {
      PeekToken(s, r.next, {'|'});
      Head(s, r.next);
      var k := GetToken(s, r.next).next;
      var rest := PipeFrom(s, k);
      p := Piped(u, rest);
      PipeStands(s, r.value, ParsePipe(s, k).value, UnitTree(u), PipeTree(rest));
      assert Tokens(s, r.next) == [Sign('|')] + Tokens(s, k);
    }
  }

  lemma {:induction false} BacksFrom(s: string, i: nat, c: Cmd<Span>) returns (n: nat)
    requires i <= |s|
    ensures var r := Backs(s, i, c); r.0 == Backed(c, n) && Tokens(s, i) == Amps(n) + Tokens(s, r.1)
    decreases |s| - i
  {
    hide GetToken, Peek, SkipWhite, Tokens;
    PeekIs(s, i, {'&'});
    if !Peek(s, i, {'&'}) {
      n := 0;
      TokensSkip(s, i);
    } else {
      PeekToken(s, i, {'&'});
      Head(s, i);
      var m := BacksFrom(s, GetToken(s, i).next, Back(c));
      BackedBack(c, m);
      assert Tokens(s, i) == [Sign('&')] + Tokens(s, GetToken(s, i).next);
      n := m + 1;
    }
  }

  /** What is accepted as a line is one, and the tree is the one the grammar gives it. */
  lemma {:induction false} LineFrom(s: string, i: nat) returns (x: Line)
    requires i <= |s| && ParseLine(s, i).Ok?
    ensures var r := ParseLine(s, i);
      LineFine(x) && StandsFor(s, r.value, LineTree(x)) && Tokens(s, i) == LineToks(x) + Tokens(s, r.next)
    decreases |s| - i, 3
  {
    hide GetToken, Peek, SkipWhite, Tokens, ParsePipe, Backs, StandsFor, PipeToks, PipeFine, PipeTree, Backed;
    var p := PipeFrom(s, i);
    var r := ParsePipe(s, i);
    var n := BacksFrom(s, r.next, r.value);
    var k := Backs(s, r.next, r.value).1;
    BackedStands(s, r.value, PipeTree(p), n);
    PeekIs(s, k, {';'});
    if !Peek(s, k, {';'}) {
      x := End(p, n);
      TokensSkip(s, k);
    } else {
      PeekToken(s, k, {';'});
      Head(s, k);
      var m := GetToken(s, k).next;
      var rest := LineFrom(s, m);
      x := Then(p, n, rest);
      PipeStands(s, Backed(r.value, n), ParseLine(s, m).value, Backed(PipeTree(p), n), LineTree(rest));
      assert Tokens(s, k) == [Sign(';')] + Tokens(s, m);
    }
  }

  // ---- the parser is the grammar ----

  ghost predicate Grammatical(s: string) {
    exists x :: LineFine(x) && Tokens(s, 0) == LineToks(x)
  }

  /** A line is accepted exactly if its tokens are those of a line of the grammar. */
  lemma AcceptsIff(s: string)
    requires NUL !in s
    ensures ParseCmd(s).Ok? <==> Grammatical(s)
  {
    if ParseCmd(s).Ok? {
      var x := LineFrom(s, 0);
      var j := ParseLine(s, 0).next;
      TokensSkip(s, j);
      assert LineToks(x) + [] == LineToks(x);
    }
    if Grammatical(s) {
      var x :| LineFine(x) && Tokens(s, 0) == LineToks(x);
      var _ := TreeOf(s, x);
    }
  }

  /** And then the tree is the one the grammar gives it: every word and every redirection is in its place. */
  lemma TreeOf(s: string, x: Line) returns (c: Cmd<Span>)
    requires NUL !in s && LineFine(x) && Tokens(s, 0) == LineToks(x)
    ensures ParseCmd(s) == Ok(c, |s|) && StandsFor(s, c, LineTree(x))
  {
    var j;
    assert LineToks(x) + [] == LineToks(x);
    c, j := LineAccept(s, 0, x, []);
    TokenIs(s, j);
    Head(s, j);
  }

  // ---- nothing is lost ----

  /** The words among tokens, in order. */
  function WordTexts(ts: seq<Tok>): (r: seq<string>) {
    if ts == [] then [] else (if ts[0].kind == 'a' then [ts[0].text] else []) + WordTexts(ts[1..])
  }

  /** How many tokens are of these kinds. */
  function Count(ts: seq<Tok>, kinds: set<char>): (n: nat) {
    if ts == [] then 0 else (if ts[0].kind in kinds then 1 else 0) + Count(ts[1..], kinds)
  }

  lemma {:induction false} TextsTwo(a: seq<Tok>, b: seq<Tok>, kinds: set<char>)
    ensures WordTexts(a + b) == WordTexts(a) + WordTexts(b) && Count(a + b, kinds) == Count(a, kinds) + Count(b, kinds)
    decreases |a|
  {
    if a == [] {
      assert a + b == b;
    } else {
      TextsTwo(a[1..], b, kinds);
      assert (a + b)[1..] == a[1..] + b;
    }
  }

  /** Redirections, pipes, lists and background commands of a tree. */
  function Nodes<W>(c: Cmd<W>, kinds: set<char>): (n: nat) {
    match c
    case Exec(_) => 0
    case Redir(d, _, _, _) => Nodes(d, kinds) + if '<' in kinds then 1 else 0
    case Pipe(l, r) => Nodes(l, kinds) + Nodes(r, kinds) + if '|' in kinds then 1 else 0
    case List(l, r) => Nodes(l, kinds) + Nodes(r, kinds) + if ';' in kinds then 1 else 0
    case Back(d) => Nodes(d, kinds) + if '&' in kinds then 1 else 0
  }

  /** The tokens hold exactly the words of the tree, and as many signs as it has nodes. */
  predicate Same(ts: seq<Tok>, t: Cmd<string>, kinds: set<char>) {
    multiset(WordTexts(ts)) == multiset(Words(t)) && Count(ts, kinds) == Nodes(t, kinds)
  }

  /** One kind of sign. */
  predicate OneKind(kinds: set<char>) {
    kinds in [FILE_SIGNS, {'|'}, {';'}, {'&'}]
  }

  lemma {:induction false} FilesSame(t: Cmd<string>, fs: seq<File>, kinds: set<char>)
    requires FilesFine(fs) && OneKind(kinds)
    ensures multiset(WordTexts(FileToks(fs))) + multiset(Words(t)) == multiset(Words(Redirected(t, fs)))
    ensures Count(FileToks(fs), kinds) + Nodes(t, kinds) == Nodes(Redirected(t, fs), kinds)
    decreases |fs|
  {
    if fs != [] {
      var (n, f) := (|fs| - 1, fs[|fs| - 1]);
      FilesSame(t, fs[..n], kinds);
      FileToksLast(fs);
      TextsTwo(FileToks(fs[..n]), [Sign(f.sign), Word(f.name)], kinds);
      OneFile(f, kinds);
    }
  }

  lemma OneFile(f: File, kinds: set<char>)
    requires f.sign in FILE_SIGNS && OneKind(kinds)
    ensures var ts := [Sign(f.sign), Word(f.name)];
      WordTexts(ts) == [f.name] && Count(ts, kinds) == if '<' in kinds then 1 else 0
  {
    SignTexts(f.sign, kinds);
    WordTextsOne(f.name, kinds);
    TextsTwo([Sign(f.sign)], [Word(f.name)], kinds);
    assert [Sign(f.sign)] + [Word(f.name)] == [Sign(f.sign), Word(f.name)];
  }

  lemma SignTexts(c: char, kinds: set<char>)
    requires c in SIGNS
    ensures WordTexts([Sign(c)]) == [] && Count([Sign(c)], kinds) == if c in kinds then 1 else 0
  {
    assert [Sign(c)][1..] == [];
  }

  lemma WordTextsOne(w: string, kinds: set<char>)
    requires OneKind(kinds)
    ensures WordTexts([Word(w)]) == [w] && Count([Word(w)], kinds) == 0
  {
    assert [Word(w)][1..] == [];
  }

  lemma {:induction false} FileToksLast(fs: seq<File>)
    requires fs != []
    ensures var (n, f) := (|fs| - 1, fs[|fs| - 1]); FileToks(fs) == FileToks(fs[..n]) + [Sign(f.sign), Word(f.name)]
    decreases |fs|
  {
    if |fs| > 1 {
      FileToksLast(fs[1..]);
      assert fs[1..][..|fs| - 2] == fs[..|fs| - 1][1..];
    }
  }

  lemma {:induction false} FileToksTwo(a: seq<File>, b: seq<File>)
    ensures FileToks(a + b) == FileToks(a) + FileToks(b)
    decreases |a|
  {
    if a == [] {
      assert a + b == b;
    } else {
      FileToksTwo(a[1..], b);
      assert (a + b)[1..] == a[1..] + b;
    }
  }

  lemma NoToks(kinds: set<char>)
    ensures FileToks([]) == [] && WordTexts([]) == [] && Count([], kinds) == 0 && ArgWords([]) == []
  {
  }

  lemma {:induction false} ArgsSame(args: seq<Arg>, kinds: set<char>)
    requires ArgsFine(args) && OneKind(kinds)
    ensures var fs := FileToks(ArgFiles(args));
      && multiset(WordTexts(ArgToks(args))) == multiset(ArgWords(args)) + multiset(WordTexts(fs))
      && Count(ArgToks(args), kinds) == Count(fs, kinds)
    decreases |args|
  {
    hide ArgWords, FileToks, Count, WordTexts, OneKind;
    if args == [] {
      NoToks(kinds);
    } else {
      var (a, rest) := (args[0], args[1..]);
      ArgsSame(rest, kinds);
      ArgWordsRest(args);
      FileToksTwo(a.files, ArgFiles(rest));
      TextsTwo(FileToks(a.files), FileToks(ArgFiles(rest)), kinds);
      TextsTwo([Word(a.word)], FileToks(a.files) + ArgToks(rest), kinds);
      TextsTwo(FileToks(a.files), ArgToks(rest), kinds);
      WordTextsOne(a.word, kinds);
    }
  }

  lemma ArgFilesFine(args: seq<Arg>)
    requires ArgsFine(args)
    ensures FilesFine(ArgFiles(args))
  {
  }

  lemma {:induction false} UnitSame(u: Unit, kinds: set<char>)
    requires UnitFine(u) && OneKind(kinds)
    ensures Same(UnitToks(u), UnitTree(u), kinds)
    decreases u
  {
    hide ArgWords, FileToks, Count, WordTexts, OneKind, Redirected, FilesFine, ArgsFine;
    match u
    case Simple(files, args) =>
      var fs := ArgFiles(args);
      ArgsSame(args, kinds);
      ArgFilesFine(args);
      FilesJoin(files, fs);
      FileToksTwo(files, fs);
      FilesSame(Exec(ArgWords(args)), files + fs, kinds);
      TextsTwo(FileToks(files), FileToks(fs), kinds);
      TextsTwo(FileToks(files), ArgToks(args), kinds);
    case Block(x, files) =>
      LineSame(x, kinds);
      FilesSame(LineTree(x), files, kinds);
      SignTexts('(', kinds);
      SignTexts(')', kinds);
      NoParens(kinds);
      TextsTwo([Sign('(')], LineToks(x) + ([Sign(')')] + FileToks(files)), kinds);
      TextsTwo(LineToks(x), [Sign(')')] + FileToks(files), kinds);
      TextsTwo([Sign(')')], FileToks(files), kinds);
  }

  lemma FilesJoin(a: seq<File>, b: seq<File>)
    requires FilesFine(a) && FilesFine(b)
    ensures FilesFine(a + b)
  {
  }

  lemma NoParens(kinds: set<char>)
    requires OneKind(kinds)
    ensures '(' !in kinds && ')' !in kinds
  {
  }

  lemma {:induction false} PipeSame(p: Pipeline, kinds: set<char>)
    requires PipeFine(p) && OneKind(kinds)
    ensures Same(PipeToks(p), PipeTree(p), kinds)
    decreases p
  {
    hide Count, WordTexts, OneKind, UnitToks, UnitTree, UnitFine;
    UnitSame(p.u, kinds);
    if p.Piped? {
      PipeSame(p.rest, kinds);
      SignTexts('|', kinds);
      TextsTwo(UnitToks(p.u), [Sign('|')] + PipeToks(p.rest), kinds);
      TextsTwo([Sign('|')], PipeToks(p.rest), kinds);
    }
  }

  lemma {:induction false} AmpsSame(t: Cmd<string>, n: nat, kinds: set<char>)
    ensures WordTexts(Amps(n)) == [] && Words(Backed(t, n)) == Words(t)
    ensures Count(Amps(n), kinds) + Nodes(t, kinds) == Nodes(Backed(t, n), kinds)
  {
    if n > 0 {
      AmpsSame(t, n - 1, kinds);
      SignTexts('&', kinds);
      TextsTwo([Sign('&')], Amps(n - 1), kinds);
    }
  }

  lemma {:induction false} LineSame(x: Line, kinds: set<char>)
    requires LineFine(x) && OneKind(kinds)
    ensures Same(LineToks(x), LineTree(x), kinds)
    decreases x
  {
    hide Count, WordTexts, OneKind, PipeToks, PipeTree, PipeFine, Backed, Amps;
    var (p, n) := (x.p, x.amps);
    PipeSame(p, kinds);
    AmpsSame(PipeTree(p), n, kinds);
    if x.End? {
      TextsTwo(PipeToks(p), Amps(n), kinds);
    } else {
      LineSame(x.rest, kinds);
      var more := [Sign(';')] + LineToks(x.rest);
      SignTexts(';', kinds);
      TextsTwo(PipeToks(p), Amps(n) + more, kinds);
      TextsTwo(Amps(n), more, kinds);
      TextsTwo([Sign(';')], LineToks(x.rest), kinds);
    }
  }

  lemma {:induction false} StandsWords(s: string, c: Cmd<Span>, t: Cmd<string>, kinds: set<char>)
    requires StandsFor(s, c, t)
    ensures Reads(s, Words(c), Words(t)) && Nodes(c, kinds) == Nodes(t, kinds)
    decreases c
  {
    match c
    case Exec(_) =>
    case Redir(d, _, _, _) => StandsWords(s, d, t.cmd, kinds);
    case Pipe(l, r) =>
      StandsWords(s, l, t.left, kinds);
      StandsWords(s, r, t.right, kinds);
    case List(l, r) =>
      StandsWords(s, l, t.left, kinds);
      StandsWords(s, r, t.right, kinds);
    case Back(d) => StandsWords(s, d, t.cmd, kinds);
  }

  /** In the tree of any accepted line are exactly the words of the line, file names among them, and as many
      redirections, pipes, lists and background commands as there are signs for them. */
  lemma NothingLost(s: string, kinds: set<char>) returns (ws: seq<string>)
    requires ParseCmd(s).Ok? && OneKind(kinds)
    ensures Reads(s, Words(ParseCmd(s).value), ws) && multiset(ws) == multiset(WordTexts(Tokens(s, 0)))
    ensures Nodes(ParseCmd(s).value, kinds) == Count(Tokens(s, 0), kinds)
  {
    hide Count, WordTexts, OneKind, Tokens, LineTree, LineToks, LineFine;
    var x := LineFrom(s, 0);
    EndOfLine(s, ParseLine(s, 0).next);
    LineSame(x, kinds);
    StandsWords(s, ParseCmd(s).value, LineTree(x), kinds);
    ws := Words(LineTree(x));
    assert LineToks(x) + [] == LineToks(x);
  }

  lemma EndOfLine(s: string, j: nat)
    requires j <= |s| && SkipWhite(s, j) == |s|
    ensures Tokens(s, j) == []
  {
  }

  // ---- lines as text ----

  predicate TokFine(t: Tok) {
    if t.kind == 'a' then IsWord(t.text) else t.kind in SIGNS && t == Sign(t.kind)
  }

  /** The tokens with a space after each. */
  function Spell(ts: seq<Tok>): (r: string) {
    if ts == [] then "" else ts[0].text + (" " + Spell(ts[1..]))
  }

  predicate AllFine(ts: seq<Tok>) {
    forall k :: 0 <= k < |ts| ==> TokFine(ts[k])
  }

  lemma {:induction false} SpellTokens(x: string, ts: seq<Tok>)
    requires AllFine(ts)
    ensures Tokens(x + Spell(ts), |x|) == ts
    decreases |ts|
  {
    hide Tokens, TokFine;
    var s := x + Spell(ts);
    if ts == [] {
      AtEnd(s);
    } else {
      var (w, rest) := (ts[0].text, Spell(ts[1..]));
      var y := x + w + " ";
      assert s == y + rest && y[|x| + |w|] == ' ' && TokFine(ts[0]);
      SpellTokens(y, ts[1..]);
      assert s[|x|..|x| + |w|] == w;
      TokenThen(s, |x|, ts[0]);
    }
  }

  lemma AtEnd(s: string)
    ensures Tokens(s, |s|) == []
  {
  }

  lemma OneToken(s: string, i: nat, t: Tok)
    requires TokFine(t) && Occurs(s, i, t.text) && i + |t.text| < |s| && s[i + |t.text|] == ' '
    ensures GetToken(s, i) == Token(t.kind, Span(i, i + |t.text|), SkipWhite(s, i + |t.text| + 1))
    ensures SkipWhite(s, i + |t.text|) == SkipWhite(s, i + |t.text| + 1)
  {
    if t.kind == 'a' {
      WordToken(s, i, t.text);
    } else {
      assert s[i] == s[i..i + |t.text|][0] == t.text[0];
      assert t.kind == '+' ==> s[i + 1] == s[i..i + 2][1] == '>';
    }
  }

  lemma TokenThen(s: string, i: nat, t: Tok)
    requires TokFine(t) && Occurs(s, i, t.text) && i + |t.text| < |s| && s[i + |t.text|] == ' '
    ensures Tokens(s, i) == [t] + Tokens(s, i + |t.text| + 1)
  {
    hide GetToken, SkipWhite;
    OneToken(s, i, t);
    TokensSkip(s, i + |t.text| + 1);
  }

  /** A line of the grammar, written out and parsed, gives its tree: words and redirections in order, in a simple
      command without parentheses too, and pipes, lists and background commands as they are. */
  lemma PlainTrip(x: Line) returns (c: Cmd<Span>)
    requires LineFine(x) && AllFine(LineToks(x))
    ensures var s := Spell(LineToks(x)); ParseCmd(s) == Ok(c, |s|) && StandsFor(s, c, LineTree(x))
  {
    var s := Spell(LineToks(x));
    SpellTokens("", LineToks(x));
    assert "" + s == s;
    NoNul(LineToks(x));
    c := TreeOf(s, x);
  }

  lemma {:induction false} NoNul(ts: seq<Tok>)
    requires AllFine(ts)
    ensures NUL !in Spell(ts)
    decreases |ts|
  {
    if ts != [] {
      assert TokFine(ts[0]);
      assert NUL !in ts[0].text;
      NoNul(ts[1..]);
    }
  }

  // ---- every command can be written ----

  predicate Printable(t: Cmd<string>) {
    match t
    case Exec(argv) => |argv| < MAXARGS && forall i :: 0 <= i < |argv| ==> IsWord(argv[i])
    case Redir(d, file, mode, fd) => Printable(d) && IsWord(file) && (mode, fd) in [(O_RDONLY, 0), (O_WRITE, 1)]
    case Pipe(l, r) => Printable(l) && Printable(r)
    case List(l, r) => Printable(l) && Printable(r)
    case Back(d) => Printable(d)
  }

  function Bare(argv: seq<string>): (args: seq<Arg>) {
    seq(|argv|, k requires 0 <= k < |argv| => Arg(argv[k], []))
  }

  /** A line with parentheses around every part. */
  function Paren(t: Cmd<string>): (x: Line) {
    match t
    case Exec(argv) => End(Last(Simple([], Bare(argv))), 0)
    case Redir(d, file, mode, _) => End(Last(Block(Paren(d), [File(if mode == O_RDONLY then '<' else '>', file)])), 0)
    case Pipe(l, r) => End(Piped(Block(Paren(l), []), Last(Block(Paren(r), []))), 0)
    case List(l, r) => Then(Last(Block(Paren(l), [])), 0, End(Last(Block(Paren(r), [])), 0))
    case Back(d) => End(Last(Block(Paren(d), [])), 1)
  }

  lemma {:induction false} BareToks(argv: seq<string>)
    requires forall i :: 0 <= i < |argv| ==> IsWord(argv[i])
    ensures AllFine(ArgToks(Bare(argv))) && ArgFiles(Bare(argv)) == [] && ArgWords(Bare(argv)) == argv
    decreases |argv|
  {
    if argv != [] {
      BareToks(argv[1..]);
      assert Bare(argv)[1..] == Bare(argv[1..]);
    }
  }

  lemma BlockIs(x: Line, files: seq<File>)
    requires LineFine(x) && AllFine(LineToks(x)) && |files| <= 1
    requires forall k :: 0 <= k < |files| ==> files[k].sign in FILE_SIGNS && IsWord(files[k].name)
    ensures UnitFine(Block(x, files)) && AllFine(UnitToks(Block(x, files)))
    ensures files == [] ==> UnitTree(Block(x, files)) == LineTree(x)
    ensures files != [] && files[0].sign == '<' ==>
      UnitTree(Block(x, files)) == Redir(LineTree(x), files[0].name, O_RDONLY, 0)
    ensures files != [] && files[0].sign != '<' ==>
      UnitTree(Block(x, files)) == Redir(LineTree(x), files[0].name, O_WRITE, 1)
  {
    hide LineFine, LineToks, LineTree;
    if files != [] {
      assert files[1..] == [] && files[..0] == [];
      assert FileToks(files) == [Sign(files[0].sign), Word(files[0].name)];
      assert Redirected(LineTree(x), files[..0]) == LineTree(x);
    }
  }

  lemma LastIs(u: Unit, n: nat)
    requires UnitFine(u) && AllFine(UnitToks(u)) && n <= 1
    ensures var x := End(Last(u), n);
      LineFine(x) && AllFine(LineToks(x)) && LineTree(x) == if n == 0 then UnitTree(u) else Back(UnitTree(u))
  {
    hide UnitFine, UnitTree, UnitToks;
    assert Amps(1) == [Sign('&')] && Backed(UnitTree(u), 1) == Back(UnitTree(u));
  }

  lemma {:induction false} ParenIs(t: Cmd<string>)
    requires Printable(t)
    ensures LineFine(Paren(t)) && LineTree(Paren(t)) == t && AllFine(LineToks(Paren(t)))
    decreases t
  {
    hide UnitFine, UnitTree, UnitToks;
    match t
    case Exec(argv) => ParenExec(argv);
    case Redir(d, file, mode, _) =>
      ParenIs(d);
      var fs := [File(if mode == O_RDONLY then '<' else '>', file)];
      BlockIs(Paren(d), fs);
      LastIs(Block(Paren(d), fs), 0);
    case Pipe(l, r) =>
      ParenIs(l);
      ParenIs(r);
      BlockIs(Paren(l), []);
      BlockIs(Paren(r), []);
      var (u, v) := (Block(Paren(l), []), Block(Paren(r), []));
      assert PipeFine(Last(v)) && PipeTree(Last(v)) == r && PipeToks(Last(v)) == UnitToks(v);
    case List(l, r) =>
      ParenIs(l);
      ParenIs(r);
      BlockIs(Paren(l), []);
      BlockIs(Paren(r), []);
      LastIs(Block(Paren(r), []), 0);
    case Back(d) =>
      ParenIs(d);
      BlockIs(Paren(d), []);
      LastIs(Block(Paren(d), []), 1);
  }

  lemma ParenExec(argv: seq<string>)
    requires Printable(Exec(argv))
    ensures var x := Paren(Exec(argv)); LineFine(x) && LineTree(x) == Exec(argv) && AllFine(LineToks(x))
  {
    hide ArgToks, ArgFiles, ArgWords;
    var u := Simple([], Bare(argv));
    BareToks(argv);
    assert [] + ArgFiles(Bare(argv)) == [] && FileToks([]) == [];
    assert UnitToks(u) == ArgToks(Bare(argv)) && UnitTree(u) == Exec(argv);
    LastIs(u, 0);
  }

  /** Writing a command with parentheses and parsing the line gives the command back. */
  lemma RoundTrip(t: Cmd<string>) returns (c: Cmd<Span>)
    requires Printable(t)
    ensures var s := Spell(LineToks(Paren(t))); ParseCmd(s) == Ok(c, |s|) && StandsFor(s, c, t)
  {
    ParenIs(t);
    c := PlainTrip(Paren(t));
  }
}
