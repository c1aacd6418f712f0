/** The shell's parser, in place: a cursor that every function advances, and the buffer in which the words of a
    command are ended by NULs afterwards. */
module Shell {
  import opened ShellGrammar
  import opened ShellSyntax

  class Parser {
    const s: string
    /** The cursor. */
    var ps: nat

    constructor (line: string)
      ensures s == line && ps == 0
    {
      s, ps := line, 0;
    }

    method SkipBlanks(from: nat) returns (i: nat)
      requires from <= |s|
      ensures i == SkipWhite(s, from)
    {
      i := from;
      while i < |s| && White(s[i])
        invariant from <= i <= |s| && SkipWhite(s, i) == SkipWhite(s, from)
      {
        i := i + 1;
      }
    }

    method NextToken() returns (kind: char, span: Span)
      requires ps <= |s|
      modifies this
      ensures Token(kind, span, ps) == GetToken(s, old(ps))
    {
      var q := SkipBlanks(ps);
      var i := q;
      kind := At(s, i);
      if kind == NUL {
      } else if kind == '|' || kind == '(' || kind == ')' || kind == ';' || kind == '&' || kind == '<' {
        i := i + 1;
      } else if kind == '>' {
        i := i + 1;
        if At(s, i) == '>' {
          kind := '+';
          i := i + 1;
        }
      } else {
        kind := 'a';
        while i < |s| && !White(s[i]) && !Symbol(s[i])
          invariant q <= i <= |s| && SkipWord(s, i) == SkipWord(s, q)
        {
          i := i + 1;
        }
      }
      span := Span(q, i);
      ps := SkipBlanks(i);
    }

    method PeekAt(toks: set<char>) returns (b: bool)
      requires ps <= |s|
      modifies this
      ensures ps == SkipWhite(s, old(ps)) && b == Peek(s, old(ps), toks)
    {
      ps := SkipBlanks(ps);
      b := At(s, ps) != NUL && At(s, ps) in toks;
    }

    /** The redirections from here on, in order. */
    method Redirections(before: seq<(Span, int, int)>) returns (ok: bool, rs: seq<(Span, int, int)>)
      requires ps <= |s|
      modifies this
      ensures old(ps) <= ps <= |s|
      ensures ParseRedirs(s, old(ps), before) == if ok then Ok(rs, ps) else Panic
    {
      hide SkipWhite, GetToken, Peek;
      rs := before;
      while true
        invariant old(ps) <= ps <= |s| && ParseRedirs(s, ps, rs) == ParseRedirs(s, old(ps), before)
        decreases |s| - ps
      {
        ghost var at := ps;
        SkipSame(s, at);
        var more := PeekAt({'<', '>'});
        if !more {
          return true, rs;
        }
        PeekToken(s, at, {'<', '>'});
        var tok, _ := NextToken();
        var kind, file := NextToken();
        if kind != 'a' {
          return false, [];
        }
        if tok == '<' {
          rs := rs + [(file, O_RDONLY, 0)];
        } else {
          rs := rs + [(file, O_WRITE, 1)];
        }
      }
    }

    /** A simple command: words, with redirections among them. */
    method Arguments(first: seq<(Span, int, int)>) returns (r: Result<Cmd<Span>>)
      requires ps <= |s|
      modifies this
      ensures old(ps) <= ps <= |s| && ParseArgs(s, old(ps), [], first) == r && (r.Ok? ==> r.next == ps)
    {
      hide SkipWhite, GetToken, Peek, ParseRedirs;
      var args, rs := [], first;
      while true
        invariant old(ps) <= ps <= |s| && ParseArgs(s, ps, args, rs) == ParseArgs(s, old(ps), [], first)
        decreases |s| - ps
      {
        ghost var at := ps;
        SkipSame(s, at);
        var stop := PeekAt({'|', ')', '&', ';'});
        if stop {
          return Ok(Wrap(Exec(args), rs), ps);
        }
        var kind, word := NextToken();
        if kind == NUL {
          return Ok(Wrap(Exec(args), rs), ps);
        }
        if kind != 'a' {
          return Panic;
        }
        if |args| + 1 >= MAXARGS {
          return Panic;
        }
        args := args + [word];
        var ok;
        ok, rs := Redirections(rs);
        if !ok {
          return Panic;
        }
      }
    }

    method SimpleOrBlock() returns (r: Result<Cmd<Span>>)
      requires ps <= |s|
      modifies this
      ensures old(ps) <= ps <= |s| && ParseExec(s, old(ps)) == r && (r.Ok? ==> r.next == ps)
      decreases |s| - ps, 1
    {
      hide SkipWhite, GetToken, Peek, ParseRedirs, ParseArgs, ParseBlock;
      ghost var at := ps;
      SkipSame(s, at);
      RedirsSkip(s, at, []);
      BlockSkip(s, at);
      var block := PeekAt({'('});
      if block {
        r := Block();
        return;
      }
      var ok, rs := Redirections([]);
      if !ok {
        return Panic;
      }
      r := Arguments(rs);
    }

    method Block() returns (r: Result<Cmd<Span>>)
      requires ps <= |s|
      modifies this
      ensures old(ps) <= ps <= |s| && ParseBlock(s, old(ps)) == r && (r.Ok? ==> r.next == ps)
      decreases |s| - ps, 0
    {
      hide SkipWhite, GetToken, Peek, ParseRedirs, ParseLine;
      ghost var at := ps;
      SkipSame(s, at);
      var open := PeekAt({'('});
      if !open {
        return Panic;
      }
      PeekToken(s, at, {'('});
      var _, _ := NextToken();
      r := Line();
      if r.Panic? {
        return;
      }
      ghost var j := ps;
      SkipSame(s, j);
      var close := PeekAt({')'});
      if !close {
        return Panic;
      }
      var _, _ := NextToken();
      var ok, rs := Redirections([]);
      if !ok {
        return Panic;
      }
      r := Ok(Wrap(r.value, rs), ps);
    }

    method Pipeline() returns (r: Result<Cmd<Span>>)
      requires ps <= |s|
      modifies this
      ensures old(ps) <= ps <= |s| && ParsePipe(s, old(ps)) == r && (r.Ok? ==> r.next == ps)
      decreases |s| - ps, 2
    {
      hide SkipWhite, GetToken, Peek, ParseExec;
      r := SimpleOrBlock();
      if r.Panic? {
        return;
      }
      ghost var j := ps;
      SkipSame(s, j);
      var bar := PeekAt({'|'});
      if !bar {
        return Ok(r.value, ps);
      }
      PeekToken(s, j, {'|'});
      var _, _ := NextToken();
      var rest := Pipeline();
      if rest.Panic? {
        return Panic;
      }
      r := Ok(Pipe(r.value, rest.value), ps);
    }

    method Line() returns (r: Result<Cmd<Span>>)
      requires ps <= |s|
      modifies this
      ensures old(ps) <= ps <= |s| && ParseLine(s, old(ps)) == r && (r.Ok? ==> r.next == ps)
      decreases |s| - ps, 3
    {
      hide SkipWhite, GetToken, Peek, ParsePipe;
      r := Pipeline();
      if r.Panic? {
        return;
      }
      var c := r.value;
      ghost var j := ps;
      while true
        invariant j <= ps <= |s| && Backs(s, ps, c) == Backs(s, j, r.value)
        decreases |s| - ps
      {
        ghost var at := ps;
        SkipSame(s, at);
        var amp := PeekAt({'&'});
        if !amp {
          break;
        }
        PeekToken(s, at, {'&'});
        var _, _ := NextToken();
        c := Back(c);
      }
      ghost var k := ps;
      SkipSame(s, k);
      var semi := PeekAt({';'});
      if !semi {
        return Ok(c, ps);
      }
      PeekToken(s, k, {';'});
      var _, _ := NextToken();
      var rest := Line();
      if rest.Panic? {
        return Panic;
      }
      r := Ok(List(c, rest.value), ps);
    }
  }

  lemma RedirsSkip(s: string, i: nat, rs: seq<(Span, int, int)>)
    requires i <= |s|
    ensures ParseRedirs(s, SkipWhite(s, i), rs) == ParseRedirs(s, i, rs)
  {
    hide SkipWhite, GetToken, Peek;
    SkipSame(s, i);
  }

  lemma BlockSkip(s: string, i: nat)
    requires i <= |s|
    ensures ParseBlock(s, SkipWhite(s, i)) == ParseBlock(s, i)
  {
    hide SkipWhite, GetToken, Peek, ParseRedirs, ParseLine;
    SkipSame(s, i);
  }

  // ---- the words of whatever was parsed ----

  /** A span of a whole word. */
  predicate WordSpan(s: string, w: Span) {
    && w.q < w.eq <= |s| && (forall k :: w.q <= k < w.eq ==> !White(s[k]) && !Symbol(s[k]))
    && (w.eq < |s| ==> White(s[w.eq]) || Symbol(s[w.eq]))
  }

  predicate WordsOk(s: string, c: Cmd<Span>) {
    forall w :: w in Words(c) ==> WordSpan(s, w)
  }

  predicate FilesOk(s: string, rs: seq<(Span, int, int)>) {
    forall k :: 0 <= k < |rs| ==> WordSpan(s, rs[k].0)
  }

  lemma TokenWord(s: string, i: nat)
    requires i <= |s| && GetToken(s, i).kind == 'a'
    ensures WordSpan(s, GetToken(s, i).span)
  {
    var q := SkipWhite(s, i);
    assert q < |s| && !White(s[q]) && !Symbol(s[q]);
    assert SkipWord(s, q) == SkipWord(s, q + 1);
  }

  lemma {:induction false} WrapWords(s: string, c: Cmd<Span>, rs: seq<(Span, int, int)>)
    requires WordsOk(s, c) && FilesOk(s, rs)
    ensures WordsOk(s, Wrap(c, rs))
    decreases |rs|
  {
    if rs != [] {
      assert WordSpan(s, rs[0].0);
      WrapWords(s, Redir(c, rs[0].0, rs[0].1, rs[0].2), rs[1..]);
    }
  }

  lemma {:induction false} RedirsWords(s: string, i: nat, rs: seq<(Span, int, int)>)
    requires i <= |s| && FilesOk(s, rs)
    ensures var r := ParseRedirs(s, i, rs); r.Ok? ==> FilesOk(s, r.value)
    decreases |s| - i
  {
    if Peek(s, i, {'<', '>'}) {
      PeekToken(s, i, {'<', '>'});
      var t := GetToken(s, i);
      var f := GetToken(s, t.next);
      if f.kind == 'a' {
        TokenWord(s, t.next);
        hide GetToken, Peek, WordSpan;
        RedirsWords(s, f.next, rs + [if t.kind == '<' then (f.span, O_RDONLY, 0) else (f.span, O_WRITE, 1)]);
      }
    }
  }

  lemma {:induction false} ArgsWords(s: string, i: nat, args: seq<Span>, rs: seq<(Span, int, int)>)
    requires i <= |s| && FilesOk(s, rs) && WordsOk(s, Exec(args))
    ensures var r := ParseArgs(s, i, args, rs); r.Ok? ==> WordsOk(s, r.value)
    decreases |s| - i
  {
    hide GetToken, Peek, WordSpan, ParseRedirs, SkipWhite;
    WrapWords(s, Exec(args), rs);
    var t := GetToken(s, i);
    if !Peek(s, i, {'|', ')', '&', ';'}) && t.kind == 'a' && |args| + 1 < MAXARGS {
      TokenWord(s, i);
      RedirsWords(s, t.next, rs);
      var r := ParseRedirs(s, t.next, rs);
      if r.Ok? {
        assert i < t.next;
        ArgsWords(s, r.next, args + [t.span], r.value);
      }
    }
  }

  lemma {:induction false} ExecWords(s: string, i: nat)
    requires i <= |s|
    ensures var r := ParseExec(s, i); r.Ok? ==> WordsOk(s, r.value)
    decreases |s| - i, 1
  {
    hide GetToken, Peek, WordsOk, ParseRedirs, ParseArgs, SkipWhite, ParseBlock;
    if Peek(s, i, {'('}) {
      BlockWords(s, i);
    } else {
      RedirsWords(s, i, []);
      var r := ParseRedirs(s, i, []);
      if r.Ok? {
        NoWords(s);
        ArgsWords(s, r.next, [], r.value);
      }
    }
  }

  lemma NoWords(s: string)
    ensures WordsOk(s, Exec([]))
  {
  }

  lemma {:induction false} BlockWords(s: string, i: nat)
    requires i <= |s|
    ensures var r := ParseBlock(s, i); r.Ok? ==> WordsOk(s, r.value)
    decreases |s| - i, 0
  {
    hide GetToken, Peek, WordsOk, ParseRedirs, ParseLine, SkipWhite;
    if Peek(s, i, {'('}) {
      PeekToken(s, i, {'('});
      LineWords(s, GetToken(s, i).next);
      var r := ParseLine(s, GetToken(s, i).next);
      if r.Ok? && Peek(s, r.next, {')'}) {
        var q := GetToken(s, r.next).next;
        RedirsWords(s, q, []);
        if ParseRedirs(s, q, []).Ok? {
          WrapWords(s, r.value, ParseRedirs(s, q, []).value);
        }
      }
    }
  }

  lemma {:induction false} PipeWords(s: string, i: nat)
    requires i <= |s|
    ensures var r := ParsePipe(s, i); r.Ok? ==> WordsOk(s, r.value)
    decreases |s| - i, 2
  {
    hide GetToken, Peek, WordSpan, ParseExec, SkipWhite;
    ExecWords(s, i);
    var r := ParseExec(s, i);
    if r.Ok? && Peek(s, r.next, {'|'}) {
      PeekToken(s, r.next, {'|'});
      PipeWords(s, GetToken(s, r.next).next);
    }
  }

  lemma {:induction false} BacksWords(s: string, i: nat, c: Cmd<Span>)
    requires i <= |s| && WordsOk(s, c)
    ensures WordsOk(s, Backs(s, i, c).0)
    decreases |s| - i
  {
    hide GetToken, Peek, WordSpan, SkipWhite;
    if Peek(s, i, {'&'}) {
      PeekToken(s, i, {'&'});
      BacksWords(s, GetToken(s, i).next, Back(c));
    }
  }

  lemma {:induction false} LineWords(s: string, i: nat)
    requires i <= |s|
    ensures var r := ParseLine(s, i); r.Ok? ==> WordsOk(s, r.value)
    decreases |s| - i, 3
  {
    hide GetToken, Peek, WordSpan, ParsePipe, SkipWhite;
    PipeWords(s, i);
    var r := ParsePipe(s, i);
    if r.Ok? {
      BacksWords(s, r.next, r.value);
      var k := Backs(s, r.next, r.value).1;
      if Peek(s, k, {';'}) {
        PeekToken(s, k, {';'});
        LineWords(s, GetToken(s, k).next);
      }
    }
  }

  // ---- ending the words ----

  predicate EndsAt(c: Cmd<Span>, p: int) {
    exists w :: w in Words(c) && w.eq == p
  }

  /** A NUL goes after every word of the command, and nowhere else. */
  method Nulterminate(buf: array<char>, c: Cmd<Span>)
    requires forall w :: w in Words(c) ==> w.eq < buf.Length
    modifies buf
    ensures forall p :: 0 <= p < buf.Length ==> buf[p] == if EndsAt(c, p) then NUL else old(buf[p])
    decreases c
  {
    match c
    case Exec(argv) =>
      var i := 0;
      while i < |argv|
        invariant 0 <= i <= |argv|
        invariant forall p :: 0 <= p < buf.Length ==> buf[p] == if EndsAt(Exec(argv[..i]), p) then NUL else old(buf[p])
      {
        assert argv[i] in Words(c);
        assert argv[..i + 1] == argv[..i] + [argv[i]];
        EndsMore(argv[..i], argv[i]);
        buf[argv[i].eq] := NUL;
        i := i + 1;
      }
      assert argv[..i] == argv;
    case Redir(d, file, _, _) =>
      assert forall w :: w in Words(d) ==> w in Words(c);
      assert file in Words(c);
      Nulterminate(buf, d);
      buf[file.eq] := NUL;
      assert forall p :: EndsAt(c, p) <==> EndsAt(d, p) || p == file.eq by {
        assert forall w :: w in Words(c) <==> w in Words(d) || w == file;
      }
    case Pipe(l, r) =>
      assert forall w :: w in Words(c) <==> w in Words(l) || w in Words(r);
      Nulterminate(buf, l);
      Nulterminate(buf, r);
    case List(l, r) =>
      assert forall w :: w in Words(c) <==> w in Words(l) || w in Words(r);
      Nulterminate(buf, l);
      Nulterminate(buf, r);
    case Back(d) =>
      Nulterminate(buf, d);
  }

  lemma EndsMore(ws: seq<Span>, w: Span)
    ensures forall p :: EndsAt(Exec(ws + [w]), p) <==> EndsAt(Exec(ws), p) || p == w.eq
  {
    assert w in Words(Exec(ws + [w]));
  }

  /** The C string that starts at `q`. */
  function CString(b: seq<char>, q: nat): (r: string)
    requires q <= |b|
    decreases |b| - q
  {
    if q == |b| || b[q] == NUL then "" else [b[q]] + CString(b, q + 1)
  }

  lemma {:induction false} CStringIs(b: seq<char>, q: nat, e: nat)
    requires q <= e < |b| && b[e] == NUL && forall k :: q <= k < e ==> b[k] != NUL
    ensures CString(b, q) == b[q..e]
    decreases e - q
  {
    if q < e {
      CStringIs(b, q + 1, e);
    }
  }

  /** In a buffer treated so, every word of a parsed line reads as exactly its token. */
  lemma ReadsBack(s: string, c: Cmd<Span>, b: seq<char>, w: Span)
    requires WordsOk(s, c) && NUL !in s && |b| == |s| + 1 && w in Words(c)
    requires forall p :: 0 <= p <= |s| ==> b[p] == if EndsAt(c, p) then NUL else At(s, p)
    ensures CString(b, w.q) == s[w.q..w.eq]
  {
    assert WordSpan(s, w) && EndsAt(c, w.eq);
    forall k | w.q <= k < w.eq
      ensures b[k] == s[k] != NUL
    {
      assert forall v :: v in Words(c) ==> WordSpan(s, v);
      assert !EndsAt(c, k) && s[k] in s;
    }
    CStringIs(b, w.q, w.eq);
    assert b[w.q..w.eq] == s[w.q..w.eq];
  }

  lemma ReadAs(s: string)
    requires NUL !in s
    ensures ParseCmd(s).Ok? <==> Grammatical(s)
    ensures forall x :: LineFine(x) && Tokens(s, 0) == LineToks(x) ==>
      ParseCmd(s).Ok? && StandsFor(s, ParseCmd(s).value, LineTree(x))
  {
    AcceptsIff(s);
    forall x | LineFine(x) && Tokens(s, 0) == LineToks(x)
      ensures ParseCmd(s).Ok? && StandsFor(s, ParseCmd(s).value, LineTree(x))
    {
      var _ := TreeOf(s, x);
    }
  }

  /** parsecmd: the tree that the grammar gives the line, with every word ended by a NUL; or a panic, exactly if the
      line is not one of the grammar. */
  method ParseBuffer(buf: array<char>, line: string) returns (r: Result<Cmd<Span>>)
    requires buf.Length == |line| + 1 && buf[..] == line + [NUL] && NUL !in line
    modifies buf
    ensures r == ParseCmd(line) && (r.Ok? <==> Grammatical(line))
    ensures forall x :: LineFine(x) && Tokens(line, 0) == LineToks(x) ==> r.Ok? && StandsFor(line, r.value, LineTree(x))
    ensures r.Ok? ==> forall w :: w in Words(r.value) ==> Within(line, w) && CString(buf[..], w.q) == line[w.q..w.eq]
  {
    ReadAs(line);
    var parser := new Parser(line);
    r := parser.Line();
    if r.Panic? {
      return;
    }
    var _ := parser.PeekAt({});
    if parser.ps != |line| {
      return Panic;
    }
    var c := r.value;
    r := Ok(c, |line|);
    LineWords(line, 0);
    assert forall w :: w in Words(c) ==> WordSpan(line, w);
    Nulterminate(buf, c);
    forall w | w in Words(c)
      ensures Within(line, w) && CString(buf[..], w.q) == line[w.q..w.eq]
    {
      ReadsBack(line, c, buf[..], w);
    }
  }
}
