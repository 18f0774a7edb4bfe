/** sh.c: the shell's grammar as a relation between a line's tokens and trees, and that the parser decides it. */
module ShellGrammar {
  import opened ShellSpec
  import opened ShellProofs

  // ----- tokens of a line -----

  /** 'a' stands for a word and '+' for ">>"; any other kind is the symbol itself. */
  datatype Lexeme = Lexeme(kind: char, span: Span)

  /** A word as long as it can be, ">>", or a symbol, where ">" is not the beginning of ">>". */
  predicate IsLexeme(s: Line, x: Lexeme) {
    && x.span.lo < x.span.hi <= |s|
    && if x.kind == 'a' then
         && (forall k :: x.span.lo <= k < x.span.hi ==> IsWordChar(s[k]))
         && (x.span.hi < |s| ==> !IsWordChar(s[x.span.hi]))
       else if x.kind == '+' then s[x.span.lo..x.span.hi] == ">>"
       else
         && x.kind in "<|>&;()" && s[x.span.lo..x.span.hi] == [x.kind]
         && (x.kind == '>' && x.span.hi < |s| ==> s[x.span.hi] != '>')
  }

  /** From `p` on the line is these tokens and blanks. */
  predicate Lexes(s: Line, p: nat, ts: seq<Lexeme>)
    requires p <= |s|
    decreases |ts|
  {
    if ts == [] then forall k :: p <= k < |s| ==> IsSpace(s[k])
    else
      && p <= ts[0].span.lo && IsLexeme(s, ts[0]) && (forall k :: p <= k < ts[0].span.lo ==> IsSpace(s[k]))
      && Lexes(s, ts[0].span.hi, ts[1..])
  }

  /** The tokens that gettoken gives from `p` on. */
  function Lex(s: Line, p: nat): seq<Lexeme>
    requires p <= |s|
    decreases |s| - p
  {
    var t := GetToken(s, p);
    if t.kind == '\0' then [] else [Lexeme(t.kind, Span(t.q, t.eq))] + Lex(s, t.next)
  }

  lemma TokenIs(s: Line, p: nat)
    requires p <= |s| && GetToken(s, p).kind != '\0'
    ensures var t := GetToken(s, p);
      IsLexeme(s, Lexeme(t.kind, Span(t.q, t.eq))) && t.q == Skip(s, p) && t.next == Skip(s, t.eq)
  {
  }

  lemma {:induction false} SkipTo(s: Line, p: nat, q: nat)
    requires p <= q <= |s| && (forall k :: p <= k < q ==> IsSpace(s[k])) && (q < |s| ==> !IsSpace(s[q]))
    ensures Skip(s, p) == q
  {
    var r := Skip(s, p);
  }

  lemma SkipLex(s: Line, p: nat)
    requires p <= |s|
    ensures GetToken(s, Skip(s, p)) == GetToken(s, p) && Lex(s, Skip(s, p)) == Lex(s, p)
  {
    SkipOnce(s, p);
  }

  /** gettoken gives tokens of the line. */
  lemma {:induction false} LexIs(s: Line, p: nat)
    requires p <= |s|
    ensures Lexes(s, p, Lex(s, p))
    decreases |s| - p
  {
    hide GetToken, IsLexeme, Skip;
    var t := GetToken(s, p);
    if t.kind != '\0' {
      TokenIs(s, p);
      LexIs(s, t.eq);
      SkipLex(s, t.eq);
      assert Lex(s, p)[1..] == Lex(s, t.next);
    } else {
      NoToken(s, p);
    }
  }

  lemma NoToken(s: Line, p: nat)
    requires p <= |s| && GetToken(s, p).kind == '\0'
    ensures forall k :: p <= k < |s| ==> IsSpace(s[k])
  {
  }

  /** A token at the first character that is no blank is the one that gettoken gives. */
  lemma OneToken(s: Line, p: nat, x: Lexeme)
    requires p <= x.span.lo && IsLexeme(s, x) && forall k :: p <= k < x.span.lo ==> IsSpace(s[k])
    ensures GetToken(s, p) == Token(x.kind, x.span.lo, x.span.hi, Skip(s, x.span.hi))
  {
    hide Skip, WordEnd;
    var lo, hi := x.span.lo, x.span.hi;
    FirstChar(s, x);
    SkipTo(s, p, lo);
    if x.kind == 'a' {
      WordEndIs(s, lo, hi);
    }
  }

  /** How a token begins, and how long it is. */
  lemma FirstChar(s: Line, x: Lexeme)
    requires IsLexeme(s, x)
    ensures var lo, hi := x.span.lo, x.span.hi;
      && !IsSpace(s[lo])
      && (x.kind == 'a' ==> !IsSymbol(s[lo]))
      && (x.kind == '+' ==> hi == lo + 2 && s[lo] == s[lo + 1] == '>')
      && (x.kind != 'a' && x.kind != '+' ==> hi == lo + 1 && s[lo] == x.kind && IsSymbol(x.kind))
  {
    var lo, hi := x.span.lo, x.span.hi;
    if x.kind != 'a' {
      var text := s[lo..hi];
      assert s[lo] == text[0] && |text| == hi - lo;
      if x.kind == '+' {
        assert s[lo + 1] == text[1];
      }
    }
  }

  lemma WordEndIs(s: Line, p: nat, e: nat)
    requires p <= e <= |s| && (e < |s| ==> !IsWordChar(s[e])) && forall k :: p <= k < e ==> IsWordChar(s[k])
    ensures WordEnd(s, p) == e
  {
    var q := WordEnd(s, p);
  }

  /** A line has one sequence of tokens. */
  lemma {:induction false} LexUnique(s: Line, p: nat, ts: seq<Lexeme>)
    requires p <= |s| && Lexes(s, p, ts)
    ensures ts == Lex(s, p)
    decreases |ts|
  {
    hide GetToken, IsLexeme, Skip;
    if ts == [] {
      SkipEnd(s, p);
    } else {
      OneToken(s, p, ts[0]);
      TokenKind(s, ts[0]);
      LexUnique(s, ts[0].span.hi, ts[1..]);
      SkipLex(s, ts[0].span.hi);
    }
  }

  lemma TokenKind(s: Line, x: Lexeme)
    requires IsLexeme(s, x)
    ensures x.kind != '\0'
  {
  }

  lemma SkipEnd(s: Line, p: nat)
    requires p <= |s| && forall k :: p <= k < |s| ==> IsSpace(s[k])
    ensures GetToken(s, p).kind == '\0'
  {
    SkipTo(s, p, |s|);
  }

  // ----- the grammar -----

  predicate IsRedir(x: Lexeme) {
    x.kind == '<' || x.kind == '>' || x.kind == '+'
  }

  /** "<" reads the file on descriptor 0; ">" and ">>" create it and write it on descriptor 1. */
  function Redirect(c: Cmd<Span>, x: Lexeme, file: Span): Cmd<Span> {
    if x.kind == '<' then Redir(c, file, 0, 0) else Redir(c, file, 0x201, 1)
  }

  /** Words, and redirections, each with a word after it. */
  predicate Simple(ts: seq<Lexeme>) {
    || ts == []
    || (ts[0].kind == 'a' && Simple(ts[1..]))
    || (|ts| >= 2 && IsRedir(ts[0]) && ts[1].kind == 'a' && Simple(ts[2..]))
  }

  /** The words that are not files of redirections. */
  function Args(ts: seq<Lexeme>): seq<Span>
    requires Simple(ts)
  {
    if ts == [] then [] else if ts[0].kind == 'a' then [ts[0].span] + Args(ts[1..]) else Args(ts[2..])
  }

  /** The redirections around `c`, the first innermost. */
  function Around(ts: seq<Lexeme>, c: Cmd<Span>): Cmd<Span>
    requires Simple(ts)
  {
    if ts == [] then c
    else if ts[0].kind == 'a' then Around(ts[1..], c)
    else Around(ts[2..], Redirect(c, ts[0], ts[1].span))
  }

  /** line ::= backed [";" line] */
  ghost predicate IsLine(ts: seq<Lexeme>, c: Cmd<Span>)
    decreases |ts|, 4
  {
    || IsBacked(ts, c)
    || (c.List? && exists k ::
          0 <= k < |ts| && ts[k].kind == ';' && IsBacked(ts[..k], c.left) && IsLine(ts[k + 1..], c.right))
  }

  /** backed ::= pipe | backed "&" */
  ghost predicate IsBacked(ts: seq<Lexeme>, c: Cmd<Span>)
    decreases |ts|, 3
  {
    || IsPipe(ts, c)
    || (c.Back? && ts != [] && ts[|ts| - 1].kind == '&' && IsBacked(ts[..|ts| - 1], c.cmd))
  }

  /** pipe ::= exec ["|" pipe] */
  ghost predicate IsPipe(ts: seq<Lexeme>, c: Cmd<Span>)
    decreases |ts|, 2
  {
    || IsExec(ts, c)
    || (c.Pipe? && exists k ::
          0 <= k < |ts| && ts[k].kind == '|' && IsExec(ts[..k], c.left) && IsPipe(ts[k + 1..], c.right))
  }

  /** exec ::= block | a simple command, of fewer than MAXARGS words */
  ghost predicate IsExec(ts: seq<Lexeme>, c: Cmd<Span>)
    decreases |ts|, 1
  {
    || IsBlock(ts, c)
    || (Simple(ts) && |Args(ts)| < 10 && c == Around(ts, Exec(Args(ts))))
  }

  /** block ::= "(" line ")" | block redirection */
  ghost predicate IsBlock(ts: seq<Lexeme>, c: Cmd<Span>)
    decreases |ts|, 0
  {
    var n := |ts|;
    || (n >= 2 && ts[0].kind == '(' && ts[n - 1].kind == ')' && IsLine(ts[1..n - 1], c))
    || (n >= 2 && c.Redir? && IsRedir(ts[n - 2]) && ts[n - 1].kind == 'a'
        && c == Redirect(c.cmd, ts[n - 2], ts[n - 1].span) && IsBlock(ts[..n - 2], c.cmd))
  }

  // ----- the parser's position, in tokens -----

  /** Where the tokens `rest` begin. */
  function Start(s: Line, rest: seq<Lexeme>): nat {
    if rest == [] then |s| else rest[0].span.lo
  }

  /** The first character of a token, unless it is a word. */
  function Lead(x: Lexeme): char {
    if x.kind == '+' then '>' else x.kind
  }

  lemma SkipStart(s: Line, p: nat)
    requires p <= |s|
    ensures Skip(s, p) == Start(s, Lex(s, p)) <= |s| && p <= Skip(s, p)
  {
  }

  lemma FirstToken(s: Line, p: nat)
    requires p <= |s|
    ensures var t, ts := GetToken(s, p), Lex(s, p);
      && (t.kind == '\0' <==> ts == [])
      && (ts == [] ==> t.next == |s|)
      && (ts != [] ==> ts[0] == Lexeme(t.kind, Span(t.q, t.eq)) && Lex(s, t.next) == ts[1..] && p < t.next <= |s|)
      && t.next == Start(s, Lex(s, t.next))
  {
    var t := GetToken(s, p);
    SkipStart(s, t.eq);
    SkipLex(s, t.eq);
    if t.kind == '\0' {
      assert Skip(s, |s|) == |s|;
    }
  }

  lemma PeekIs(s: Line, p: nat, toks: string)
    requires p <= |s| && forall c :: c in toks ==> IsSymbol(c)
    ensures Peek(s, p, toks) <==> Lex(s, p) != [] && Lead(Lex(s, p)[0]) in toks
  {
    var q := Skip(s, p);
    if q < |s| {
      assert IsSymbol(s[q]) ==> Lead(Lex(s, p)[0]) == s[q];
    }
  }

  /** What can come after a construct without becoming part of it. */
  predicate Before(rest: seq<Lexeme>, kinds: string) {
    rest == [] || rest[0].kind in kinds
  }

  // ----- every derivation is what the parser finds -----

  /** One redirection, for the loop of parseredirs. */
  lemma RedirsNext(s: Line, p: nat, x: Lexeme, file: Lexeme, rest: seq<Lexeme>, c: Cmd<Span>)
    requires p <= |s| && Lex(s, p) == [x, file] + rest && IsRedir(x) && file.kind == 'a'
    ensures Start(s, rest) <= |s| && Lex(s, Start(s, rest)) == rest
    ensures ParseRedirs(s, p, c) == ParseRedirs(s, Start(s, rest), Redirect(c, x, file.span))
  {
    hide GetToken, Skip, Peek;
    PeekIs(s, p, "<>");
    FirstToken(s, p);
    var t := GetToken(s, p);
    assert Lex(s, t.next) == [file] + rest;
    FirstToken(s, t.next);
  }

  lemma RedirsDone(s: Line, p: nat, c: Cmd<Span>)
    requires p <= |s| && (Lex(s, p) == [] || !IsRedir(Lex(s, p)[0]))
    ensures ParseRedirs(s, p, c) == Ok(c, Start(s, Lex(s, p)))
  {
    hide GetToken, Skip, Peek, Lex;
    PeekIs(s, p, "<>");
    SkipStart(s, p);
  }

  /** parseexec from the words `args` and the redirections `wrap` on. */
  function Rest(s: Line, p: nat, args: seq<Span>, wrap: Cmd<Span>): Parse
    requires p <= |s|
  {
    var r := ParseRedirs(s, p, wrap);
    if r.Panic? then Panic else ParseArgs(s, r.pos, args, r.cmd)
  }

  lemma RestDone(s: Line, p: nat, args: seq<Span>, wrap: Cmd<Span>)
    requires p <= |s| && Before(Lex(s, p), "|)&;")
    ensures Rest(s, p, args, wrap) == Ok(Refill(wrap, args), Start(s, Lex(s, p)))
  {
    hide GetToken, Skip, Peek;
    RedirsDone(s, p, wrap);
    var q := Start(s, Lex(s, p));
    AtStart(s, p);
    PeekIs(s, q, "|)&;");
    SkipStart(s, q);
    FirstToken(s, q);
  }

  /** Past the blanks nothing changes. */
  lemma AtStart(s: Line, p: nat)
    requires p <= |s|
    ensures var q := Start(s, Lex(s, p));
      p <= q <= |s| && Lex(s, q) == Lex(s, p) && GetToken(s, q) == GetToken(s, p)
  {
    SkipStart(s, p);
    SkipLex(s, p);
  }

  lemma RestWord(s: Line, p: nat, x: Lexeme, rest: seq<Lexeme>, args: seq<Span>, wrap: Cmd<Span>)
    requires p <= |s| && Lex(s, p) == [x] + rest && x.kind == 'a'
    ensures Start(s, rest) <= |s| && Lex(s, Start(s, rest)) == rest
    ensures Rest(s, p, args, wrap) ==
            if |args| + 1 >= MAXARGS then Panic else Rest(s, Start(s, rest), args + [x.span], wrap)
  {
    hide GetToken, Skip, Peek, ParseRedirs;
    RedirsDone(s, p, wrap);
    var q := Start(s, Lex(s, p));
    AtStart(s, p);
    PeekIs(s, q, "|)&;");
    FirstToken(s, q);
  }

  lemma {:induction false} SimpleParses(s: Line, p: nat, ts: seq<Lexeme>, rest: seq<Lexeme>, args: seq<Span>,
      wrap: Cmd<Span>)
    requires p <= |s| && Lex(s, p) == ts + rest && Simple(ts) && Before(rest, "|)&;") && |args| + |Args(ts)| < 10
    ensures Rest(s, p, args, wrap) == Ok(Refill(Around(ts, wrap), args + Args(ts)), Start(s, rest))
    decreases |ts|
  {
    hide GetToken, Skip, Peek, Rest, Refill, Lex;
    if ts == [] {
      assert ts + rest == rest && args + Args(ts) == args;
      RestDone(s, p, args, wrap);
    } else if ts[0].kind == 'a' {
      assert ts + rest == [ts[0]] + (ts[1..] + rest);
      RestWord(s, p, ts[0], ts[1..] + rest, args, wrap);
      SimpleParses(s, Start(s, ts[1..] + rest), ts[1..], rest, args + [ts[0].span], wrap);
      assert args + [ts[0].span] + Args(ts[1..]) == args + Args(ts);
    } else {
      assert ts + rest == [ts[0], ts[1]] + (ts[2..] + rest);
      RedirsNext(s, p, ts[0], ts[1], ts[2..] + rest, wrap);
      RestRedir(s, p, Start(s, ts[2..] + rest), args, wrap, Redirect(wrap, ts[0], ts[1].span));
      SimpleParses(s, Start(s, ts[2..] + rest), ts[2..], rest, args, Redirect(wrap, ts[0], ts[1].span));
    }
  }

  lemma RestRedir(s: Line, p: nat, q: nat, args: seq<Span>, wrap: Cmd<Span>, more: Cmd<Span>)
    requires p <= |s| && q <= |s| && ParseRedirs(s, p, wrap) == ParseRedirs(s, q, more)
    ensures Rest(s, p, args, wrap) == Rest(s, q, args, more)
  {
    hide ParseRedirs, ParseArgs;
  }

  lemma {:induction false} RefillAround(ts: seq<Lexeme>, c: Cmd<Span>, args: seq<Span>)
    requires Simple(ts)
    ensures Refill(Around(ts, c), args) == Around(ts, Refill(c, args))
    decreases |ts|
  {
    if ts != [] {
      if ts[0].kind == 'a' {
        RefillAround(ts[1..], c, args);
      } else {
        RefillAround(ts[2..], Redirect(c, ts[0], ts[1].span), args);
      }
    }
  }

  lemma {:induction false} BlockParses(s: Line, p: nat, ts: seq<Lexeme>, rest: seq<Lexeme>, c: Cmd<Span>)
    requires p <= |s| && Lex(s, p) == ts + rest && IsBlock(ts, c)
    ensures ts != [] && ts[0].kind == '(' && Start(s, rest) <= |s| && Lex(s, Start(s, rest)) == rest
    ensures ParseBlock(s, p) == ParseRedirs(s, Start(s, rest), c)
    decreases |ts|, 0
  {
    hide GetToken, Skip, Peek, ParseRedirs, ParseLine, Lex;
    var n := |ts|;
    if ts[0].kind == '(' && ts[n - 1].kind == ')' && IsLine(ts[1..n - 1], c) {
      var inner, after := ts[1..n - 1], [ts[n - 1]] + rest;
      assert ts + rest == [ts[0]] + (inner + after);
      PeekIs(s, p, "(");
      FirstToken(s, p);
      var q := GetToken(s, p).next;
      assert Lex(s, q) == inner + after;
      LineParses(s, q, inner, after, c);
      var r := Start(s, after);
      PeekIs(s, r, ")");
      FirstToken(s, r);
      assert after[1..] == rest;
    } else {
      var after := ts[n - 2..] + rest;
      assert ts[..n - 2] + after == ts + rest;
      assert after == [ts[n - 2], ts[n - 1]] + rest;
      BlockParses(s, p, ts[..n - 2], after, c.cmd);
      RedirsNext(s, Start(s, after), ts[n - 2], ts[n - 1], rest, c.cmd);
    }
  }

  lemma {:induction false} ExecParses(s: Line, p: nat, ts: seq<Lexeme>, rest: seq<Lexeme>, c: Cmd<Span>)
    requires p <= |s| && Lex(s, p) == ts + rest && IsExec(ts, c) && Before(rest, "|)&;")
    ensures ParseExec(s, p) == Ok(c, Start(s, rest)) && Start(s, rest) <= |s| && Lex(s, Start(s, rest)) == rest
    decreases |ts|, 1
  {
    hide GetToken, Skip, Peek, ParseRedirs, ParseArgs, ParseBlock, Lex, IsBlock, Around, Args;
    PeekIs(s, p, "(");
    if IsBlock(ts, c) {
      BlockParses(s, p, ts, rest, c);
      RedirsDone(s, Start(s, rest), c);
    } else {
      SimpleParses(s, p, ts, rest, [], Exec([]));
      assert [] + Args(ts) == Args(ts);
      RefillAround(ts, Exec([]), Args(ts));
      RestAt(s, p, ts, rest);
      NoParen(ts, rest);
    }
  }

  lemma NoParen(ts: seq<Lexeme>, rest: seq<Lexeme>)
    requires Simple(ts) && Before(rest, "|)&;")
    ensures ts + rest != [] ==> Lead((ts + rest)[0]) != '('
  {
  }

  lemma {:induction false} RestAt(s: Line, p: nat, ts: seq<Lexeme>, rest: seq<Lexeme>)
    requires p <= |s| && Lex(s, p) == ts + rest
    ensures Start(s, rest) <= |s| && Lex(s, Start(s, rest)) == rest
    decreases |ts|
  {
    hide GetToken, Skip, Lex;
    if ts == [] {
      AtStart(s, p);
      assert ts + rest == rest;
    } else {
      FirstToken(s, p);
      assert (ts + rest)[1..] == ts[1..] + rest;
      RestAt(s, GetToken(s, p).next, ts[1..], rest);
    }
  }

  lemma {:induction false} PipeParses(s: Line, p: nat, ts: seq<Lexeme>, rest: seq<Lexeme>, c: Cmd<Span>)
    requires p <= |s| && Lex(s, p) == ts + rest && IsPipe(ts, c) && Before(rest, ")&;")
    ensures ParsePipe(s, p) == Ok(c, Start(s, rest)) && Start(s, rest) <= |s| && Lex(s, Start(s, rest)) == rest
    decreases |ts|, 2
  {
    hide GetToken, Skip, Peek, ParseExec, Lex, IsExec;
    if IsExec(ts, c) {
      ExecParses(s, p, ts, rest, c);
      PeekIs(s, Start(s, rest), "|");
      SkipStart(s, Start(s, rest));
    } else {
      var k :| 0 <= k < |ts| && ts[k].kind == '|' && IsExec(ts[..k], c.left) && IsPipe(ts[k + 1..], c.right);
      var after := ts[k..] + rest;
      assert ts[..k] + after == ts + rest;
      ExecParses(s, p, ts[..k], after, c.left);
      PeekIs(s, Start(s, after), "|");
      FirstToken(s, Start(s, after));
      assert after[1..] == ts[k + 1..] + rest;
      PipeParses(s, Start(s, after[1..]), ts[k + 1..], rest, c.right);
    }
  }

  lemma {:induction false} BackedParses(s: Line, p: nat, ts: seq<Lexeme>, rest: seq<Lexeme>, c: Cmd<Span>)
    requires p <= |s| && Lex(s, p) == ts + rest && IsBacked(ts, c) && Before(rest, ")&;")
    ensures Start(s, rest) <= |s| && Lex(s, Start(s, rest)) == rest
    ensures var r := ParsePipe(s, p); r.Ok? && ParseBacks(s, r.pos, r.cmd) == ParseBacks(s, Start(s, rest), c)
    decreases |ts|, 3
  {
    hide GetToken, Skip, Peek, ParsePipe, Lex, IsPipe;
    if IsPipe(ts, c) {
      PipeParses(s, p, ts, rest, c);
    } else {
      var n := |ts|;
      var after := [ts[n - 1]] + rest;
      assert ts[..n - 1] + after == ts + rest;
      BackedParses(s, p, ts[..n - 1], after, c.cmd);
      PeekIs(s, Start(s, after), "&");
      FirstToken(s, Start(s, after));
      assert after[1..] == rest;
    }
  }

  lemma BacksDone(s: Line, p: nat, c: Cmd<Span>)
    requires p <= |s| && (Lex(s, p) == [] || Lex(s, p)[0].kind != '&')
    ensures ParseBacks(s, p, c) == Ok(c, Start(s, Lex(s, p)))
  {
    hide GetToken, Skip, Peek, Lex;
    PeekIs(s, p, "&");
    SkipStart(s, p);
  }

  lemma {:induction false} LineParses(s: Line, p: nat, ts: seq<Lexeme>, rest: seq<Lexeme>, c: Cmd<Span>)
    requires p <= |s| && Lex(s, p) == ts + rest && IsLine(ts, c) && Before(rest, ")")
    ensures ParseLine(s, p) == Ok(c, Start(s, rest)) && Start(s, rest) <= |s| && Lex(s, Start(s, rest)) == rest
    decreases |ts|, 4
  {
    hide GetToken, Skip, Peek, ParsePipe, ParseBacks, Lex, IsBacked;
    if IsBacked(ts, c) {
      BackedParses(s, p, ts, rest, c);
      BacksDone(s, Start(s, rest), c);
      PeekIs(s, Start(s, rest), ";");
    } else {
      var k :| 0 <= k < |ts| && ts[k].kind == ';' && IsBacked(ts[..k], c.left) && IsLine(ts[k + 1..], c.right);
      var after := ts[k..] + rest;
      assert ts[..k] + after == ts + rest;
      BackedParses(s, p, ts[..k], after, c.left);
      BacksDone(s, Start(s, after), c.left);
      PeekIs(s, Start(s, after), ";");
      FirstToken(s, Start(s, after));
      assert after[1..] == ts[k + 1..] + rest;
      LineParses(s, Start(s, after[1..]), ts[k + 1..], rest, c.right);
    }
  }

  // ----- and what the parser finds is a derivation -----

  lemma {:induction false} RedirsDerive(s: Line, p: nat, c: Cmd<Span>) returns (ts: seq<Lexeme>)
    requires p <= |s| && ParseRedirs(s, p, c).Ok?
    ensures var r := ParseRedirs(s, p, c);
      && Lex(s, p) == ts + Lex(s, r.pos) && Simple(ts) && Args(ts) == [] && r.cmd == Around(ts, c)
      && r.pos == Start(s, Lex(s, r.pos)) && (Lex(s, r.pos) == [] || !IsRedir(Lex(s, r.pos)[0]))
    decreases |s| - p
  {
    hide GetToken, Skip, Peek, Lex, Redirect;
    PeekIs(s, p, "<>");
    if !Peek(s, p, "<>") {
      ts := [];
      RedirsDone(s, p, c);
      AtStart(s, p);
    } else {
      FirstToken(s, p);
      var t := GetToken(s, p);
      FirstToken(s, t.next);
      var f := GetToken(s, t.next);
      var x, file := Lex(s, p)[0], Lex(s, t.next)[0];
      assert Lex(s, p) == [x, file] + Lex(s, f.next);
      RedirsNext(s, p, x, file, Lex(s, f.next), c);
      var more := RedirsDerive(s, f.next, Redirect(c, x, file.span));
      ts := [x, file] + more;
      assert ts[2..] == more;
    }
  }

  /** The words and redirections after the first ones. */
  lemma {:induction false} RestDerives(s: Line, p: nat, args: seq<Span>, wrap: Cmd<Span>) returns (ts: seq<Lexeme>)
    requires p <= |s| && Rest(s, p, args, wrap).Ok? && |args| < 10
    ensures var r := Rest(s, p, args, wrap);
      && r.pos <= |s| && Lex(s, p) == ts + Lex(s, r.pos) && Simple(ts) && |args| + |Args(ts)| < 10
      && r.cmd == Refill(Around(ts, wrap), args + Args(ts))
    decreases |s| - p
  {
    hide GetToken, Skip, Peek, Lex, ParseRedirs, Refill;
    var more := RedirsDerive(s, p, wrap);
    var r := ParseRedirs(s, p, wrap);
    var q, w := r.pos, r.cmd;
    PeekIs(s, q, "|)&;");
    FirstToken(s, q);
    SkipStart(s, q);
    AtStart(s, q);
    var t := GetToken(s, q);
    if Peek(s, q, "|)&;") || t.kind == '\0' {
      ts := more;
      assert args + Args(ts) == args;
    } else {
      var x := Lex(s, q)[0];
      var after := RestDerives(s, t.next, args + [x.span], w);
      ts := more + ([x] + after);
      SimpleJoin(more, [x] + after, wrap);
      assert ([x] + after)[1..] == after;
      assert args + Args(ts) == args + [x.span] + Args(after);
      assert Lex(s, p) == ts + Lex(s, Rest(s, t.next, args + [x.span], w).pos);
    }
  }

  lemma {:induction false} SimpleJoin(xs: seq<Lexeme>, ys: seq<Lexeme>, c: Cmd<Span>)
    requires Simple(xs) && Simple(ys)
    ensures Simple(xs + ys) && Args(xs + ys) == Args(xs) + Args(ys) && Around(xs + ys, c) == Around(ys, Around(xs, c))
    decreases |xs|
  {
    hide IsRedir, Redirect;
    if xs == [] {
      assert xs + ys == ys;
    } else if xs[0].kind == 'a' {
      assert (xs + ys)[0] == xs[0] && (xs + ys)[1..] == xs[1..] + ys;
      SimpleJoin(xs[1..], ys, c);
    } else {
      var zs := xs + ys;
      assert zs[0] == xs[0] && zs[1] == xs[1] && zs[2..] == xs[2..] + ys;
      SimpleJoin(xs[2..], ys, Redirect(c, xs[0], xs[1].span));
    }
  }

  lemma {:induction false} BlockMore(ts: seq<Lexeme>, c: Cmd<Span>, more: seq<Lexeme>)
    requires IsBlock(ts, c) && Simple(more) && Args(more) == []
    ensures IsBlock(ts + more, Around(more, c))
    decreases |more|
  {
    if more == [] {
      assert ts + more == ts;
    } else {
      var us := ts + more[..2];
      var n := |us|;
      assert us[n - 2] == more[0] && us[n - 1] == more[1] && us[..n - 2] == ts;
      assert IsBlock(us, Redirect(c, more[0], more[1].span));
      assert ts + more == us + more[2..];
      BlockMore(us, Redirect(c, more[0], more[1].span), more[2..]);
    }
  }

  /** A line in parentheses, and the redirections after it. */
  lemma Bracketed(open: Lexeme, inner: seq<Lexeme>, close: Lexeme, c: Cmd<Span>, more: seq<Lexeme>)
    requires open.kind == '(' && close.kind == ')' && IsLine(inner, c) && Simple(more) && Args(more) == []
    ensures IsBlock([open] + inner + [close] + more, Around(more, c))
  {
    hide IsLine, Simple, Args, Around;
    var block := [open] + inner + [close];
    assert block[1..|block| - 1] == inner;
    BlockMore(block, c, more);
  }

  lemma {:induction false} BlockDerives(s: Line, p: nat) returns (ts: seq<Lexeme>)
    requires p <= |s| && ParseBlock(s, p).Ok?
    ensures var r := ParseBlock(s, p); Lex(s, p) == ts + Lex(s, r.pos) && IsBlock(ts, r.cmd)
    decreases |s| - p, 0
  {
    hide GetToken, Skip, Peek, Lex, ParseRedirs, ParseLine, Simple, Args, Around, IsLine, IsBlock;
    PeekIs(s, p, "(");
    FirstToken(s, p);
    var t := GetToken(s, p);
    var open := Lex(s, p)[0];
    var inner := LineDerives(s, t.next);
    var r := ParseLine(s, t.next);
    PeekIs(s, r.pos, ")");
    FirstToken(s, r.pos);
    var close := Lex(s, r.pos)[0];
    var u := GetToken(s, r.pos);
    var more := RedirsDerive(s, u.next, r.cmd);
    Bracketed(open, inner, close, r.cmd, more);
    ts := [open] + inner + [close] + more;
    var end := Lex(s, ParseBlock(s, p).pos);
    assert Lex(s, p) == [open] + (inner + ([close] + (more + end)));
  }

  lemma {:induction false} ExecDerives(s: Line, p: nat) returns (ts: seq<Lexeme>)
    requires p <= |s| && ParseExec(s, p).Ok?
    ensures var r := ParseExec(s, p); Lex(s, p) == ts + Lex(s, r.pos) && IsExec(ts, r.cmd)
    decreases |s| - p, 1
  {
    hide GetToken, Skip, Peek, Lex, ParseRedirs, ParseArgs, ParseLine, Simple, Args, Around, IsBlock;
    if Peek(s, p, "(") {
      ts := BlockDerives(s, p);
    } else {
      ts := RestDerives(s, p, [], Exec([]));
      assert [] + Args(ts) == Args(ts);
      RefillAround(ts, Exec([]), Args(ts));
    }
  }

  lemma {:induction false} PipeDerives(s: Line, p: nat) returns (ts: seq<Lexeme>)
    requires p <= |s| && ParsePipe(s, p).Ok?
    ensures var r := ParsePipe(s, p); Lex(s, p) == ts + Lex(s, r.pos) && IsPipe(ts, r.cmd)
    decreases |s| - p, 2
  {
    hide GetToken, Skip, Peek, Lex, ParseExec, IsExec;
    var xs := ExecDerives(s, p);
    var l := ParseExec(s, p);
    PeekIs(s, l.pos, "|");
    if !Peek(s, l.pos, "|") {
      ts := xs;
      SkipStart(s, l.pos);
      AtStart(s, l.pos);
    } else {
      FirstToken(s, l.pos);
      var bar, next := Lex(s, l.pos)[0], GetToken(s, l.pos).next;
      var ys := PipeDerives(s, next);
      ts := xs + [bar] + ys;
      assert ts[|xs|] == bar && ts[..|xs|] == xs && ts[|xs| + 1..] == ys;
      assert Lex(s, l.pos) == [bar] + Lex(s, next);
    }
  }

  lemma {:induction false} BacksDerive(s: Line, p: nat, c: Cmd<Span>, xs: seq<Lexeme>) returns (ts: seq<Lexeme>)
    requires p <= |s| && IsBacked(xs, c)
    ensures var r := ParseBacks(s, p, c); xs + Lex(s, p) == ts + Lex(s, r.pos) && IsBacked(ts, r.cmd)
    decreases |s| - p
  {
    hide GetToken, Skip, Peek, Lex, IsPipe;
    PeekIs(s, p, "&");
    if !Peek(s, p, "&") {
      ts := xs;
      BacksDone(s, p, c);
      AtStart(s, p);
    } else {
      FirstToken(s, p);
      var amp, next := Lex(s, p)[0], GetToken(s, p).next;
      var ys := xs + [amp];
      assert ys[..|ys| - 1] == xs;
      ts := BacksDerive(s, next, Back(c), ys);
      assert xs + Lex(s, p) == ys + Lex(s, next);
    }
  }

  lemma {:induction false} LineDerives(s: Line, p: nat) returns (ts: seq<Lexeme>)
    requires p <= |s| && ParseLine(s, p).Ok?
    ensures var r := ParseLine(s, p); Lex(s, p) == ts + Lex(s, r.pos) && IsLine(ts, r.cmd)
    decreases |s| - p, 3
  {
    hide GetToken, Skip, Peek, Lex, ParsePipe, ParseBacks, IsBacked;
    var xs := PipeDerives(s, p);
    var c := ParsePipe(s, p);
    assert IsBacked(xs, c.cmd) by { PipeBacked(xs, c.cmd); }
    var ys := BacksDerive(s, c.pos, c.cmd, xs);
    var l := ParseBacks(s, c.pos, c.cmd);
    PeekIs(s, l.pos, ";");
    if !Peek(s, l.pos, ";") {
      ts := ys;
    } else {
      FirstToken(s, l.pos);
      var semi, next := Lex(s, l.pos)[0], GetToken(s, l.pos).next;
      var zs := LineDerives(s, next);
      ts := ys + [semi] + zs;
      assert ts[|ys|] == semi && ts[..|ys|] == ys && ts[|ys| + 1..] == zs;
      assert Lex(s, l.pos) == [semi] + Lex(s, next);
    }
  }

  lemma PipeBacked(ts: seq<Lexeme>, c: Cmd<Span>)
    requires IsPipe(ts, c)
    ensures IsBacked(ts, c)
  {
  }

  /** The tokens of the line derive the tree. */
  ghost predicate Derives(s: Line, c: Cmd<Span>) {
    exists ts :: Lexes(s, 0, ts) && IsLine(ts, c)
  }

  /**
   * The parser decides the grammar: a tree is what parsecmd returns if and only if the line's tokens derive it. So a
   * line has at most one tree, and parsecmd panics exactly on the lines that have none.
   */
  lemma ParsesExactly(s: Line, c: Cmd<Span>)
    ensures ParseCmd(s).Ok? && ParseCmd(s).cmd == c <==> Derives(s, c)
  {
    hide ParseLine, Skip, Lex, Lexes, IsLine;
    if ts :| Lexes(s, 0, ts) && IsLine(ts, c) {
      LexUnique(s, 0, ts);
      assert ts + [] == ts;
      LineParses(s, 0, ts, [], c);
      SkipStart(s, |s|);
      AtStart(s, |s|);
      assert Skip(s, |s|) == |s|;
    }
    var r := ParseLine(s, 0);
    if r.Ok? && Skip(s, r.pos) == |s| && r.cmd == c {
      var ts := LineDerives(s, 0);
      SkipStart(s, r.pos);
      AtEnd(s, r.pos);
      assert ts + [] == ts;
      LexIs(s, 0);
    }
  }

  lemma AtEnd(s: Line, p: nat)
    requires p <= |s| && Skip(s, p) == |s|
    ensures Lex(s, p) == []
  {
  }
}
