/** sh.c: the parser as it runs over the input buffer, and the NULs it leaves there. */
module Shell {
  import opened ShellSpec
  import opened ShellProofs
  import opened ShellGrammar

  /** The loop over blanks that gettoken and peek share. */
  method SkipBlanks(s: Line, ps: nat) returns (p: nat)
    requires ps <= |s|
    ensures p == Skip(s, ps)
  {
    p := ps;
    while p < |s| && IsSpace(s[p])
      invariant ps <= p <= |s| && Skip(s, ps) == Skip(s, p)
    {
      p := p + 1;
    }
  }

  /** gettoken's loop over the characters of a word. */
  method SkipWord(s: Line, q: nat) returns (p: nat)
    requires q <= |s|
    ensures p == WordEnd(s, q)
  {
    p := q;
    while p < |s| && !IsSpace(s[p]) && !IsSymbol(s[p])
      invariant q <= p <= |s| && WordEnd(s, q) == WordEnd(s, p)
    {
      p := p + 1;
    }
  }

  method Gettoken(s: Line, ps: nat) returns (t: Token)
    requires ps <= |s|
    ensures t == GetToken(s, ps)
  {
    hide Skip, WordEnd;
    var p := SkipBlanks(s, ps);
    var q, kind := p, '\0';
    if p < |s| {
      kind := s[p];
      match s[p] {
        case '|' => p := p + 1;
        case '(' => p := p + 1;
        case ')' => p := p + 1;
        case ';' => p := p + 1;
        case '&' => p := p + 1;
        case '<' => p := p + 1;
        case '>' =>
          p := p + 1;
          if p < |s| && s[p] == '>' {
            kind := '+';
            p := p + 1;
          }
        case _ =>
          kind := 'a';
          p := SkipWord(s, p);
      }
    }
    var eq := p;
    p := SkipBlanks(s, p);
    return Token(kind, q, eq, p);
  }

  method PeekAt(s: Line, ps: nat, toks: string) returns (p: nat, found: bool)
    requires ps <= |s|
    ensures p == Skip(s, ps) && found == Peek(s, ps, toks)
  {
    p := SkipBlanks(s, ps);
    found := p < |s| && s[p] in toks;
  }

  method Parseredirs(cmd: Cmd<Span>, s: Line, ps: nat) returns (r: Parse)
    requires ps <= |s|
    ensures r == ParseRedirs(s, ps, cmd)
  {
    hide GetToken, Skip, Peek;
    var cmd, p := cmd, ps;
    ghost var start := ParseRedirs(s, ps, cmd);
    while true
      invariant p <= |s| && ParseRedirs(s, p, cmd) == start
      decreases |s| - p
    {
      var next, found := PeekAt(s, p, "<>");
      if !found {
        return Ok(cmd, next);
      }
      SkipToken(s, p);
      var t := Gettoken(s, next);
      var f := Gettoken(s, t.next);
      if f.kind != 'a' {
        return Panic;
      }
      if t.kind == '<' {
        cmd := Redir(cmd, Span(f.q, f.eq), O_RDONLY, 0);
      } else {
        cmd := Redir(cmd, Span(f.q, f.eq), O_WRCREATE, 1);
      }
      p := f.next;
    }
  }

  lemma SkipToken(s: Line, p: nat)
    requires p <= |s|
    ensures GetToken(s, Skip(s, p)) == GetToken(s, p)
    ensures Peek(s, p, "<>") ==> GetToken(s, p).q < GetToken(s, p).next && GetToken(s, p).kind != '\0'
    ensures forall toks :: Peek(s, Skip(s, p), toks) == Peek(s, p, toks)
    ensures Skip(s, Skip(s, p)) == Skip(s, p)
  {
    SkipOnce(s, p);
  }

  method Parseexec(s: Line, ps: nat) returns (r: Parse)
    requires ps <= |s|
    ensures r == ParseExec(s, ps)
    decreases |s| - ps, 1
  {
    hide GetToken, Skip, Peek;
    var p, found := PeekAt(s, ps, "(");
    SkipToken(s, ps);
    if found {
      r := Parseblock(s, p);
      BlockSkips(s, ps);
      return;
    }
    RedirsSkip(s, ps, Exec([]));
    r := Parseredirs(Exec([]), s, p);
    if r.Panic? {
      return;
    }
    var args, wrap := [], r.cmd;
    p := r.pos;
    while true
      invariant p <= |s| && ParseArgs(s, p, args, wrap) == ParseExec(s, ps)
      decreases |s| - p
    {
      p, found := PeekNext(s, p, args, wrap);
      if found {
        break;
      }
      var t := Gettoken(s, p);
      if t.kind == '\0' {
        p := t.next;
        break;
      }
      if t.kind != 'a' {
        return Panic;
      }
      if |args| + 1 >= MAXARGS {
        return Panic;
      }
      r := Parseredirs(wrap, s, t.next);
      if r.Panic? {
        return;
      }
      args, wrap, p := args + [Span(t.q, t.eq)], r.cmd, r.pos;
    }
    return Ok(Refill(wrap, args), p);
  }

  /** peek in the loop of parseexec. */
  method PeekNext(s: Line, ps: nat, args: seq<Span>, wrap: Cmd<Span>) returns (p: nat, found: bool)
    requires ps <= |s|
    ensures p == Skip(s, ps) && found == Peek(s, p, "|)&;")
      && ParseArgs(s, p, args, wrap) == ParseArgs(s, ps, args, wrap)
    ensures Skip(s, p) == p
  {
    p, found := PeekAt(s, ps, "|)&;");
    SkipToken(s, ps);
  }

  lemma BlockSkips(s: Line, p: nat)
    requires p <= |s|
    ensures ParseBlock(s, Skip(s, p)) == ParseBlock(s, p)
  {
    SkipToken(s, p);
  }

  lemma RedirsSkip(s: Line, p: nat, c: Cmd<Span>)
    requires p <= |s|
    ensures ParseRedirs(s, Skip(s, p), c) == ParseRedirs(s, p, c)
  {
    SkipToken(s, p);
  }

  method Parseblock(s: Line, ps: nat) returns (r: Parse)
    requires ps <= |s|
    ensures r == ParseBlock(s, ps)
    decreases |s| - ps, 0
  {
    hide GetToken, Skip, Peek;
    var p, found := PeekAt(s, ps, "(");
    if !found {
      return Panic;
    }
    SkipToken(s, ps);
    PeekAdvances(s, ps, "(");
    var t := Gettoken(s, p);
    r := Parseline(s, t.next);
    if r.Panic? {
      return;
    }
    p, found := PeekAt(s, r.pos, ")");
    if !found {
      return Panic;
    }
    SkipToken(s, r.pos);
    t := Gettoken(s, p);
    r := Parseredirs(r.cmd, s, t.next);
  }

  lemma PeekAdvances(s: Line, p: nat, toks: string)
    requires p <= |s| && Peek(s, p, toks)
    ensures GetToken(s, p).next > p
  {
  }

  method Parsepipe(s: Line, ps: nat) returns (r: Parse)
    requires ps <= |s|
    ensures r == ParsePipe(s, ps)
    decreases |s| - ps, 2
  {
    hide GetToken, Skip, Peek;
    var l := Parseexec(s, ps);
    if l.Panic? {
      return Panic;
    }
    var p, found := PeekAt(s, l.pos, "|");
    if !found {
      return Ok(l.cmd, p);
    }
    SkipToken(s, l.pos);
    PeekAdvances(s, l.pos, "|");
    var t := Gettoken(s, p);
    r := Parsepipe(s, t.next);
    if r.Panic? {
      return;
    }
    return Ok(Pipe(l.cmd, r.cmd), r.pos);
  }

  method Parseline(s: Line, ps: nat) returns (r: Parse)
    requires ps <= |s|
    ensures r == ParseLine(s, ps)
    decreases |s| - ps, 3
  {
    hide GetToken, Skip, Peek;
    r := Parsepipe(s, ps);
    if r.Panic? {
      return;
    }
    var cmd, p, found := r.cmd, r.pos, true;
    ghost var l := ParseBacks(s, p, cmd);
    while true
      invariant r.pos <= p <= |s| && ParseBacks(s, p, cmd) == l
      decreases |s| - p
    {
      var next, more := PeekAt(s, p, "&");
      if !more {
        p := next;
        break;
      }
      SkipToken(s, p);
      PeekAdvances(s, p, "&");
      var t := Gettoken(s, next);
      cmd, p := Back(cmd), t.next;
    }
    p, found := PeekAt(s, p, ";");
    if !found {
      return Ok(cmd, p);
    }
    SkipToken(s, l.pos);
    PeekAdvances(s, l.pos, ";");
    var t := Gettoken(s, p);
    r := Parseline(s, t.next);
    if r.Panic? {
      return;
    }
    return Ok(List(cmd, r.cmd), r.pos);
  }

  // ----- nulterminate -----

  /** All the words of a tree. */
  function Spans(c: Cmd<Span>): set<Span> {
    match c
    case Exec(args) => set k | 0 <= k < |args| :: args[k]
    case Redir(d, f, _, _) => Spans(d) + {f}
    case Pipe(l, r) => Spans(l) + Spans(r)
    case List(l, r) => Spans(l) + Spans(r)
    case Back(d) => Spans(d)
  }

  /** `b` after a NUL is stored at the end of each of the words. */
  ghost predicate Terminated(b: seq<char>, was: seq<char>, ws: set<Span>) {
    && |b| == |was|
    && forall k :: 0 <= k < |b| ==> b[k] == if exists w :: w in ws && w.hi == k then '\0' else was[k]
  }

  /** NUL-terminate all the words of the tree in the buffer. */
  method Nulterminate(cmd: Cmd<Span>, buf: array<char>)
    requires forall w :: w in Spans(cmd) ==> w.hi < buf.Length
    modifies buf
    ensures Terminated(buf[..], old(buf[..]), Spans(cmd))
  {
    ghost var was := buf[..];
    match cmd {
      case Exec(args) =>
        var i := 0;
        while i < |args|
          invariant i <= |args|
          invariant Terminated(buf[..], was, set k | 0 <= k < i :: args[k])
        {
          assert args[i] in Spans(cmd);
          assert (set k | 0 <= k < i + 1 :: args[k]) == (set k | 0 <= k < i :: args[k]) + {args[i]};
          buf[args[i].hi] := '\0';
          i := i + 1;
        }
      case Redir(d, f, _, _) =>
        Nulterminate(d, buf);
        buf[f.hi] := '\0';
      case Pipe(l, r) =>
        Nulterminate(l, buf);
        Nulterminate(r, buf);
      case List(l, r) =>
        Nulterminate(l, buf);
        Nulterminate(r, buf);
      case Back(d) =>
        Nulterminate(d, buf);
    }
  }

  lemma {:induction false} SpansSound(s: Line, c: Cmd<Span>)
    requires Sound(s, c)
    ensures forall w :: w in Spans(c) ==> WordAt(s, w)
  {
    match c {
      case Exec(_) =>
      case Redir(d, _, _, _) => SpansSound(s, d);
      case Pipe(l, r) => SpansSound(s, l); SpansSound(s, r);
      case List(l, r) => SpansSound(s, l); SpansSound(s, r);
      case Back(d) => SpansSound(s, d);
    }
  }

  /** A C string at `p`. */
  function CString(b: seq<char>, p: nat): string
    requires p <= |b|
    decreases |b| - p
  {
    if p == |b| || b[p] == '\0' then "" else [b[p]] + CString(b, p + 1)
  }

  lemma {:induction false} ReadsUpTo(b: seq<char>, p: nat, e: nat)
    requires p <= e < |b| && b[e] == '\0' && forall k :: p <= k < e ==> b[k] != '\0'
    ensures CString(b, p) == b[p..e]
    decreases e - p
  {
    if p < e {
      ReadsUpTo(b, p + 1, e);
      assert b[p..e] == [b[p]] + b[p + 1..e];
    }
  }

  /** No NUL falls inside a word, so that each reads as the text it had in the line. */
  lemma WordsSurvive(s: Line, c: Cmd<Span>, b: seq<char>)
    requires Sound(s, c) && Terminated(b, s + ['\0'], Spans(c))
    ensures forall w :: w in Spans(c) ==> WordAt(s, w) && CString(b, w.lo) == TextOf(s, w)
  {
    SpansSound(s, c);
    forall w | w in Spans(c)
      ensures CString(b, w.lo) == TextOf(s, w)
    {
      forall k | w.lo <= k < w.hi
        ensures b[k] == s[k] && b[k] != '\0'
      {
        assert IsWordChar(s[k]);
      }
      ReadsUpTo(b, w.lo, w.hi);
      assert b[w.lo..w.hi] == s[w.lo..w.hi];
    }
  }

  /** Parse the line in the buffer, `n` characters and a NUL. */
  method Parsecmd(buf: array<char>, n: nat) returns (r: Parse)
    requires buf.Length == n + 1 && buf[n] == '\0' && '\0' !in buf[..n]
    modifies buf
    ensures r == old(ParseCmd(buf[..n]))
    ensures forall c :: r.Ok? && r.cmd == c <==> Derives(old(buf[..n]), c)
    ensures r.Panic? ==> buf[..] == old(buf[..])
    ensures r.Ok? ==>
      && old(Sound(buf[..n], r.cmd)) && Terminated(buf[..], old(buf[..]), Spans(r.cmd))
      && (forall w :: w in Spans(r.cmd) ==>
        old(WordAt(buf[..n], w)) && CString(buf[..], w.lo) == old(TextOf(buf[..n], w)))
  {
    hide ParseLine, Skip, WordAt, Terminated, Derives;
    var s: Line := buf[..n];
    assert buf[..] == s + ['\0'];
    forall c
      ensures ParseCmd(s).Ok? && ParseCmd(s).cmd == c <==> Derives(s, c)
    {
      ParsesExactly(s, c);
    }
    r := Parseline(s, 0);
    if r.Panic? {
      return;
    }
    var p, found := PeekAt(s, r.pos, "");
    if p != |s| {
      return Panic;
    }
    LineSound(s, 0);
    SpansInside(s, r.cmd);
    Nulterminate(r.cmd, buf);
    WordsSurvive(s, r.cmd, buf[..]);
  }

  lemma SpansInside(s: Line, c: Cmd<Span>)
    requires Sound(s, c)
    ensures forall w :: w in Spans(c) ==> w.lo < w.hi <= |s|
  {
    SpansSound(s, c);
  }
}
