/** sh.c: what the parser returns, and that printing and parsing again gives it back. */
module ShellProofs {
  import opened ShellSpec

  // ----- every span is a whole word of the line -----

  predicate IsWord(w: string) {
    w != "" && forall k :: 0 <= k < |w| ==> IsWordChar(w[k])
  }

  /** The span is a word, and what follows it in the line is not part of it. */
  predicate WordAt(s: Line, w: Span) {
    && w.lo < w.hi <= |s|
    && (forall k :: w.lo <= k < w.hi ==> IsWordChar(s[k]))
    && (w.hi < |s| ==> !IsWordChar(s[w.hi]))
  }

  predicate GoodMode(mode: nat, fd: nat) {
    (mode == O_RDONLY && fd == 0) || (mode == O_WRCREATE && fd == 1)
  }

  predicate Sound(s: Line, c: Cmd<Span>) {
    match c
    case Exec(args) => |args| < MAXARGS && forall k :: 0 <= k < |args| ==> WordAt(s, args[k])
    case Redir(d, f, m, n) => Sound(s, d) && WordAt(s, f) && GoodMode(m, n)
    case Pipe(l, r) => Sound(s, l) && Sound(s, r)
    case List(l, r) => Sound(s, l) && Sound(s, r)
    case Back(d) => Sound(s, d)
  }

  lemma WordToken(s: Line, p: nat)
    requires p <= |s| && GetToken(s, p).kind == 'a'
    ensures var t := GetToken(s, p); WordAt(s, Span(t.q, t.eq))
  {
  }

  lemma {:induction false} RedirsSound(s: Line, p: nat, cmd: Cmd<Span>)
    requires p <= |s| && Sound(s, cmd)
    ensures var r := ParseRedirs(s, p, cmd); r.Ok? ==> Sound(s, r.cmd)
    decreases |s| - p
  {
    if Peek(s, p, "<>") {
      var t := GetToken(s, p);
      var f := GetToken(s, t.next);
      if f.kind == 'a' {
        WordToken(s, t.next);
        var file := Span(f.q, f.eq);
        RedirsSound(s, f.next,
          if t.kind == '<' then Redir(cmd, file, O_RDONLY, 0) else Redir(cmd, file, O_WRCREATE, 1));
      }
    }
  }

  lemma {:induction false} RefillSound(s: Line, wrap: Cmd<Span>, args: seq<Span>)
    requires Sound(s, wrap) && |args| < MAXARGS && forall k :: 0 <= k < |args| ==> WordAt(s, args[k])
    ensures Sound(s, Refill(wrap, args))
  {
    if wrap.Redir? {
      RefillSound(s, wrap.cmd, args);
    }
  }

  lemma {:induction false} ArgsSound(s: Line, p: nat, args: seq<Span>, wrap: Cmd<Span>)
    requires p <= |s| && Sound(s, wrap) && |args| < MAXARGS && forall k :: 0 <= k < |args| ==> WordAt(s, args[k])
    ensures var r := ParseArgs(s, p, args, wrap); r.Ok? ==> Sound(s, r.cmd)
    decreases |s| - p
  {
    RefillSound(s, wrap, args);
    var t := GetToken(s, p);
    if !Peek(s, p, "|)&;") && t.kind == 'a' && |args| + 1 < MAXARGS {
      WordToken(s, p);
      RedirsSound(s, t.next, wrap);
      var r := ParseRedirs(s, t.next, wrap);
      if r.Ok? {
        ArgsSound(s, r.pos, args + [Span(t.q, t.eq)], r.cmd);
      }
    }
  }

  lemma {:induction false} ExecSound(s: Line, p: nat)
    requires p <= |s|
    ensures var r := ParseExec(s, p); r.Ok? ==> Sound(s, r.cmd)
    decreases |s| - p, 1
  {
    if Peek(s, p, "(") {
      var t := GetToken(s, p);
      LineSound(s, t.next);
      var r := ParseLine(s, t.next);
      if r.Ok? && Peek(s, r.pos, ")") {
        RedirsSound(s, GetToken(s, r.pos).next, r.cmd);
      }
    } else {
      RedirsSound(s, p, Exec([]));
      var r := ParseRedirs(s, p, Exec([]));
      if r.Ok? {
        ArgsSound(s, r.pos, [], r.cmd);
      }
    }
  }

  lemma {:induction false} PipeSound(s: Line, p: nat)
    requires p <= |s|
    ensures var r := ParsePipe(s, p); r.Ok? ==> Sound(s, r.cmd)
    decreases |s| - p, 2
  {
    ExecSound(s, p);
    var l := ParseExec(s, p);
    if l.Ok? && Peek(s, l.pos, "|") {
      PipeSound(s, GetToken(s, l.pos).next);
    }
  }

  lemma {:induction false} BacksSound(s: Line, p: nat, cmd: Cmd<Span>)
    requires p <= |s| && Sound(s, cmd)
    ensures Sound(s, ParseBacks(s, p, cmd).cmd)
    decreases |s| - p
  {
    if Peek(s, p, "&") {
      BacksSound(s, GetToken(s, p).next, Back(cmd));
    }
  }

  /** Whatever the line, the words in the tree are whole words of it, and no command has more than nine. */
  lemma {:induction false} LineSound(s: Line, p: nat)
    requires p <= |s|
    ensures var r := ParseLine(s, p); r.Ok? ==> Sound(s, r.cmd)
    decreases |s| - p, 3
  {
    PipeSound(s, p);
    var c := ParsePipe(s, p);
    if c.Ok? {
      BacksSound(s, c.pos, c.cmd);
      var l := ParseBacks(s, c.pos, c.cmd);
      if Peek(s, l.pos, ";") {
        LineSound(s, GetToken(s, l.pos).next);
      }
    }
  }

  // ----- words as strings -----

  function TextOf(s: Line, w: Span): string
    requires WordAt(s, w)
  {
    s[w.lo..w.hi]
  }

  function Texts(s: Line, ws: seq<Span>): (r: seq<string>)
    requires forall k :: 0 <= k < |ws| ==> WordAt(s, ws[k])
    ensures |r| == |ws| && forall k :: 0 <= k < |ws| ==> r[k] == TextOf(s, ws[k])
  {
    seq(|ws|, k requires 0 <= k < |ws| && WordAt(s, ws[k]) => TextOf(s, ws[k]))
  }

  /** The tree with each word written out. */
  function Text(s: Line, c: Cmd<Span>): Cmd<string>
    requires Sound(s, c)
  {
    match c
    case Exec(args) => Exec(Texts(s, args))
    case Redir(d, f, m, n) => Redir(Text(s, d), TextOf(s, f), m, n)
    case Pipe(l, r) => Pipe(Text(s, l), Text(s, r))
    case List(l, r) => List(Text(s, l), Text(s, r))
    case Back(d) => Back(Text(s, d))
  }

  /** A tree that the parser could return. */
  predicate Wf(t: Cmd<string>) {
    match t
    case Exec(args) => |args| < MAXARGS && forall k :: 0 <= k < |args| ==> IsWord(args[k])
    case Redir(d, f, m, n) => Wf(d) && IsWord(f) && GoodMode(m, n)
    case Pipe(l, r) => Wf(l) && Wf(r)
    case List(l, r) => Wf(l) && Wf(r)
    case Back(d) => Wf(d)
  }

  lemma SoundWf(s: Line, c: Cmd<Span>)
    requires Sound(s, c)
    ensures Wf(Text(s, c))
  {
  }

  // ----- the canonical form -----

  /** How tightly the outermost construct binds: 0 for ";", 1 for "&", 2 for "|", 3 for a simple command. */
  function Native(t: Cmd<string>): nat {
    match t
    case List(_, _) => 0
    case Back(_) => 1
    case Pipe(_, _) => 2
    case _ => 3
  }

  /** The canonical form of a tree: every token followed by a space, parentheses only where needed. */
  function Body(t: Cmd<string>): string
    decreases t, 0
  {
    match t
    case Exec(args) => Words(args)
    case Redir(c, f, m, _) => Show(c, 3) + (if m == O_RDONLY then "< " else "> ") + f + " "
    case Pipe(l, r) => Show(l, 3) + "| " + Show(r, 2)
    case List(l, r) => Show(l, 1) + "; " + Show(r, 0)
    case Back(c) => Show(c, 1) + "& "
  }

  function Show(t: Cmd<string>, level: nat): string
    decreases t, 1
  {
    if level > Native(t) then "( " + Body(t) + ") " else Body(t)
  }

  function Words(args: seq<string>): string {
    if args == [] then "" else args[0] + " " + Words(args[1..])
  }

  // ----- tokens of the canonical form -----

  predicate At(s: Line, p: nat, x: string) {
    p + |x| <= |s| && s[p..p + |x|] == x
  }

  lemma AtSplit(s: Line, p: nat, x: string, y: string)
    ensures At(s, p, x + y) <==> At(s, p, x) && At(s, p + |x|, y)
  {
    if At(s, p, x + y) {
      assert s[p..p + |x|] == s[p..p + |x + y|][..|x|];
      assert s[p + |x|..p + |x| + |y|] == s[p..p + |x + y|][|x|..];
    }
    if At(s, p, x) && At(s, p + |x|, y) {
      assert s[p..p + |x + y|] == s[p..p + |x|] + s[p + |x|..p + |x| + |y|];
    }
  }

  /** At `p`, past white space, comes one of `toks` or the end of the line. */
  predicate Next(s: Line, p: nat, toks: string) {
    p <= |s| && var q := Skip(s, p); q == |s| || s[q] in toks
  }

  lemma SkipOnce(s: Line, p: nat)
    requires p <= |s|
    ensures Skip(s, Skip(s, p)) == Skip(s, p)
  {
  }

  lemma SymbolAt(s: Line, p: nat, c: char)
    requires IsSymbol(c) && At(s, p, [c, ' '])
    ensures Skip(s, p) == p && s[p] == c && GetToken(s, p) == Token(c, p, p + 1, Skip(s, p + 2))
  {
    assert s[p] == s[p..p + 2][0] && s[p + 1] == s[p..p + 2][1];
    assert Skip(s, p + 1) == Skip(s, p + 2);
  }

  lemma {:induction false} WordEndAt(s: Line, p: nat, e: nat)
    requires p <= e < |s| && !IsWordChar(s[e]) && forall k :: p <= k < e ==> IsWordChar(s[k])
    ensures WordEnd(s, p) == e
  {
    var q := WordEnd(s, p);
  }

  lemma WordTokenAt(s: Line, p: nat, w: string)
    requires IsWord(w) && At(s, p, w + " ")
    ensures Skip(s, p) == p < |s| && IsWordChar(s[p])
    ensures GetToken(s, p) == Token('a', p, p + |w|, Skip(s, p + |w| + 1))
    ensures WordAt(s, Span(p, p + |w|)) && TextOf(s, Span(p, p + |w|)) == w
  {
    AtSplit(s, p, w, " ");
    forall k | p <= k < p + |w|
      ensures IsWordChar(s[k])
    {
      assert s[k] == s[p..p + |w|][k - p];
    }
    assert s[p + |w|] == s[p + |w|..p + |w| + 1][0];
    WordEndAt(s, p, p + |w|);
    assert Skip(s, p + |w|) == Skip(s, p + |w| + 1);
  }

  // ----- redirections -----

  /** The command under the redirections of `t`. */
  function Base(t: Cmd<string>): Cmd<string> {
    if t.Redir? then Base(t.cmd) else t
  }

  function OneRedir(f: string, m: nat): string {
    (if m == O_RDONLY then "< " else "> ") + (f + " ")
  }

  /** The redirections of `t`, the innermost first. */
  function RedirText(t: Cmd<string>): string {
    if t.Redir? then RedirText(t.cmd) + OneRedir(t.file, t.mode) else ""
  }

  lemma {:induction false} BodySplit(t: Cmd<string>)
    requires t.Redir?
    ensures Body(t) == Show(Base(t), 3) + RedirText(t)
  {
    assert Body(t) == Show(t.cmd, 3) + OneRedir(t.file, t.mode);
    if t.cmd.Redir? {
      BodySplit(t.cmd);
    }
  }

  lemma OneRedirBack(s: Line, q: nat, v: Cmd<Span>, f: string, m: nat, d: nat)
    requires IsWord(f) && GoodMode(m, d) && At(s, q, OneRedir(f, m)) && Sound(s, v)
    ensures var w := Redir(v, Span(q + 2, q + 2 + |f|), m, d);
      && Sound(s, w) && Text(s, w) == Redir(Text(s, v), f, m, d)
      && ParseRedirs(s, Skip(s, q), v) == ParseRedirs(s, Skip(s, q + |OneRedir(f, m)|), w)
  {
    hide GetToken, Skip, WordEnd, At, WordAt, TextOf;
    var c := if m == O_RDONLY then '<' else '>';
    AtSplit(s, q, [c, ' '], f + " ");
    SymbolAt(s, q, c);
    WordTokenAt(s, q + 2, f);
    SkipOnce(s, q + 2);
    assert Peek(s, q, "<>");
  }

  /** parseredirs over the redirections of `t`, started with a command that stands for its base. */
  lemma {:induction false} RedirsBack(s: Line, p: nat, cmd: Cmd<Span>, t: Cmd<string>) returns (w: Cmd<Span>)
    requires Wf(t) && Sound(s, cmd) && Text(s, cmd) == Base(t) && At(s, p, RedirText(t))
    ensures Sound(s, w) && Text(s, w) == t
    ensures ParseRedirs(s, Skip(s, p), cmd) == ParseRedirs(s, Skip(s, p + |RedirText(t)|), w)
  {
    hide ParseRedirs, Skip, OneRedir, WordAt, At, TextOf;
    if !t.Redir? {
      w := cmd;
    } else {
      var x, y := RedirText(t.cmd), OneRedir(t.file, t.mode);
      AtSplit(s, p, x, y);
      var v := RedirsBack(s, p, cmd, t.cmd);
      OneRedirBack(s, p + |x|, v, t.file, t.mode, t.fd);
      w := Redir(v, Span(p + |x| + 2, p + |x| + 2 + |t.file|), t.mode, t.fd);
    }
  }

  // ----- the words of a simple command -----

  /** `t` with the words of its base replaced. */
  function Rebase(t: Cmd<string>, args: seq<string>): Cmd<string> {
    if t.Redir? then t.(cmd := Rebase(t.cmd, args)) else Exec(args)
  }

  lemma {:induction false} RebaseFacts(t: Cmd<string>, args: seq<string>)
    requires Wf(t) && Wf(Exec(args))
    ensures Wf(Rebase(t, args)) && Base(Rebase(t, args)) == Exec(args) && RedirText(Rebase(t, args)) == RedirText(t)
  {
    if t.Redir? {
      RebaseFacts(t.cmd, args);
    }
  }

  lemma {:induction false} RefillText(s: Line, w: Cmd<Span>, t: Cmd<string>, args: seq<Span>)
    requires Sound(s, w) && Text(s, w) == Rebase(t, []) && Base(t).Exec?
    requires Sound(s, Exec(args)) && Texts(s, args) == Base(t).args
    ensures Sound(s, Refill(w, args)) && Text(s, Refill(w, args)) == t
  {
    if w.Redir? {
      RefillText(s, w.cmd, t.cmd, args);
    }
  }

  /** The part of parseexec from a call of parseredirs on, with the words `done` behind it. */
  function FromRedirs(s: Line, p: nat, done: seq<Span>): Parse
    requires p <= |s|
  {
    var r := ParseRedirs(s, p, Exec([]));
    if r.Panic? then Panic else ParseArgs(s, r.pos, done, r.cmd)
  }

  ghost predicate Gives(r: Parse, s: Line, e: nat, t: Cmd<string>) {
    e <= |s| && r.Ok? && r.pos == Skip(s, e) && Sound(s, r.cmd) && Text(s, r.cmd) == t
  }

  lemma ArgsEnd(s: Line, p: nat, done: seq<Span>, t: Cmd<string>)
    requires Wf(t) && Base(t).Exec? && Sound(s, Exec(done)) && Texts(s, done) == Base(t).args
    requires At(s, p, RedirText(t)) && Next(s, p + |RedirText(t)|, "|)&;")
    ensures Gives(FromRedirs(s, Skip(s, p), done), s, p + |RedirText(t)|, t)
  {
    hide WordAt, TextOf, At, Skip, ParseRedirs, ParseArgs, Next, RedirText;
    var e := p + |RedirText(t)|;
    RebaseFacts(t, []);
    var w := RedirsBack(s, p, Exec([]), Rebase(t, []));
    Stops(s, e, w, done);
    RefillText(s, w, t, done);
  }

  /** Neither loop of parseexec goes on where an operator or the end follows. */
  lemma Stops(s: Line, e: nat, w: Cmd<Span>, done: seq<Span>)
    requires Next(s, e, "|)&;")
    ensures e <= |s| && ParseRedirs(s, Skip(s, e), w) == Ok(w, Skip(s, e))
    ensures ParseArgs(s, Skip(s, e), done, w) == Ok(Refill(w, done), Skip(s, e))
  {
    SkipOnce(s, e);
    assert !Peek(s, Skip(s, e), "<>");
    assert Peek(s, Skip(s, e), "|)&;") || GetToken(s, Skip(s, e)).kind == '\0';
  }

  lemma ArgStep(s: Line, p: nat, done: seq<Span>, x: string)
    requires IsWord(x) && At(s, p, x + " ") && |done| + 1 < MAXARGS
    ensures FromRedirs(s, Skip(s, p), done) == FromRedirs(s, Skip(s, p + |x| + 1), done + [Span(p, p + |x|)])
  {
    hide GetToken, Skip, WordEnd, At, WordAt, TextOf;
    WordTokenAt(s, p, x);
    SkipOnce(s, p + |x| + 1);
    assert !Peek(s, p, "<>") && !Peek(s, p, "|)&;");
    assert ParseRedirs(s, p, Exec([])) == Ok(Exec([]), p);
  }

  lemma {:induction false} ArgsBack(s: Line, p: nat, done: seq<Span>, todo: seq<string>, t: Cmd<string>)
    requires Wf(t) && Base(t).Exec? && Wf(Base(t)) && Sound(s, Exec(done)) && Texts(s, done) + todo == Base(t).args
    requires At(s, p, Words(todo) + RedirText(t)) && Next(s, p + |Words(todo) + RedirText(t)|, "|)&;")
    ensures Gives(FromRedirs(s, Skip(s, p), done), s, p + |Words(todo) + RedirText(t)|, t)
    decreases |todo|
  {
    hide FromRedirs, Gives, Next, RedirText, Skip, At;
    if todo == [] {
      assert Words(todo) + RedirText(t) == RedirText(t);
      ArgsEnd(s, p, done, t);
    } else {
      var x := todo[0];
      var rest := Words(todo[1..]) + RedirText(t);
      assert Words(todo) + RedirText(t) == (x + " ") + rest;
      assert IsWord(x) by {
        assert x == Base(t).args[|done|];
      }
      AtSplit(s, p, x + " ", rest);
      WordTokenAt(s, p, x);
      var w := Span(p, p + |x|);
      assert Texts(s, done + [w]) == Texts(s, done) + [x];
      ArgStep(s, p, done, x);
      ArgsBack(s, p + |x| + 1, done + [w], todo[1..], t);
    }
  }

  // ----- levels -----

  /** The parser of each level: a line, commands with "&", a pipeline, one command. */
  function ParseAt(s: Line, p: nat, level: nat): Parse
    requires p <= |s|
  {
    if level == 0 then ParseLine(s, p)
    else if level == 1 then
      var c := ParsePipe(s, p);
      if c.Panic? then Panic else ParseBacks(s, c.pos, c.cmd)
    else if level == 2 then ParsePipe(s, p)
    else ParseExec(s, p)
  }

  /** What may come after a command of each level. */
  function Follow(level: nat): string {
    if level == 0 then ")" else if level == 1 then ");" else if level == 2 then ")&;" else "|)&;"
  }

  lemma FollowGrows(s: Line, e: nat, level: nat, up: nat)
    requires Next(s, e, Follow(level)) && level <= up
    ensures Next(s, e, Follow(up))
  {
  }

  /** Where no operator of its level follows, a command of one level is one of the level below. */
  lemma Lift(s: Line, p: nat, e: nat, t: Cmd<string>, level: nat)
    requires p <= |s| && level < 3 && Gives(ParseAt(s, p, level + 1), s, e, t) && Next(s, e, Follow(level))
    ensures Gives(ParseAt(s, p, level), s, e, t)
  {
    hide GetToken, Text, Sound, WordAt;
    SkipOnce(s, e);
  }

  lemma {:induction false} LiftTo(s: Line, p: nat, e: nat, t: Cmd<string>, from: nat, level: nat)
    requires p <= |s| && level <= from <= 3 && Gives(ParseAt(s, p, from), s, e, t) && Next(s, e, Follow(level))
    ensures Gives(ParseAt(s, p, level), s, e, t)
    decreases from
  {
    hide ParseAt, Gives, Next, Follow;
    if level < from {
      FollowGrows(s, e, level, from - 1);
      Lift(s, p, e, t, from - 1);
      LiftTo(s, p, e, t, from - 1, level);
    }
  }

  // ----- "&" -----

  /** The command under the "&"s of `t`. */
  function Core(t: Cmd<string>): Cmd<string> {
    if t.Back? then Core(t.cmd) else t
  }

  function Amps(t: Cmd<string>): string {
    if t.Back? then Amps(t.cmd) + "& " else ""
  }

  lemma {:induction false} BackSplit(t: Cmd<string>)
    ensures Show(t, 1) == Show(Core(t), 2) + Amps(t)
  {
    if t.Back? {
      BackSplit(t.cmd);
    }
  }

  lemma {:induction false} BacksBack(s: Line, p: nat, cmd: Cmd<Span>, t: Cmd<string>) returns (w: Cmd<Span>)
    requires Sound(s, cmd) && Text(s, cmd) == Core(t) && At(s, p, Amps(t))
    ensures Sound(s, w) && Text(s, w) == t
    ensures ParseBacks(s, Skip(s, p), cmd) == ParseBacks(s, Skip(s, p + |Amps(t)|), w)
  {
    hide ParseBacks, Skip, At, WordAt;
    if t.Back? {
      var x := Amps(t.cmd);
      AtSplit(s, p, x, "& ");
      var v := BacksBack(s, p, cmd, t.cmd);
      OneBack(s, p + |x|, v);
      w := Back(v);
    } else {
      w := cmd;
    }
  }

  lemma OneBack(s: Line, q: nat, v: Cmd<Span>)
    requires At(s, q, "& ")
    ensures ParseBacks(s, Skip(s, q), v) == ParseBacks(s, Skip(s, q + 2), Back(v))
  {
    hide GetToken, Skip, WordEnd;
    SymbolAt(s, q, '&');
  }

  // ----- the round trip -----

  function Size(t: Cmd<string>): (n: nat)
    ensures n > 0
  {
    match t
    case Exec(_) => 1
    case Redir(c, _, _, _) => 1 + Size(c)
    case Pipe(l, r) => 1 + Size(l) + Size(r)
    case List(l, r) => 1 + Size(l) + Size(r)
    case Back(c) => 1 + Size(c)
  }

  lemma {:induction false} BaseFacts(t: Cmd<string>)
    requires Wf(t)
    ensures Wf(Base(t)) && !Base(t).Redir? && Size(Base(t)) <= Size(t) && (t.Redir? ==> Size(Base(t)) < Size(t))
  {
    if t.Redir? {
      BaseFacts(t.cmd);
    }
  }

  lemma {:induction false} CoreFacts(t: Cmd<string>)
    requires Wf(t)
    ensures Wf(Core(t)) && !Core(t).Back? && Size(Core(t)) <= Size(t) && (t.Back? ==> Size(Core(t)) < Size(t))
  {
    if t.Back? {
      CoreFacts(t.cmd);
    }
  }

  /** A command in parentheses, with the redirections of `t` after it. */
  lemma BlockBack(s: Line, p: nat, b: Cmd<string>, t: Cmd<string>)
    requires Wf(t) && b == Base(t) && At(s, p, ("( " + Body(b) + ") ") + RedirText(t))
    requires Next(s, p + |("( " + Body(b) + ") ") + RedirText(t)|, "|)&;")
    requires At(s, p + 2, Body(b)) && Gives(ParseLine(s, Skip(s, p + 2)), s, p + 2 + |Body(b)|, b)
    ensures Gives(ParseExec(s, Skip(s, p)), s, p + |("( " + Body(b) + ") ") + RedirText(t)|, t)
  {
    hide ParseRedirs, ParseLine, Body, GetToken, Skip, RedirText, WordAt, At;
    var x := "( " + Body(b) + ") ";
    AtSplit(s, p, x, RedirText(t));
    AtSplit(s, p, "( " + Body(b), ") ");
    AtSplit(s, p, "( ", Body(b));
    SymbolAt(s, p, '(');
    var r := ParseLine(s, Skip(s, p + 2));
    var q := p + 2 + |Body(b)|;
    SymbolAt(s, q, ')');
    assert Peek(s, r.pos, ")");
    var w := RedirsBack(s, p + |x|, r.cmd, t);
    Stops(s, p + |x| + |RedirText(t)|, w, []);
    assert Peek(s, p, "(");
  }

  /** One command, from its canonical form. */
  lemma {:induction false} ExecBack(s: Line, p: nat, t: Cmd<string>)
    requires Wf(t) && Native(t) == 3 && At(s, p, Body(t)) && Next(s, p + |Body(t)|, "|)&;")
    ensures Gives(ParseExec(s, Skip(s, p)), s, p + |Body(t)|, t)
    decreases Size(t), 0
  {
    hide ParseExec, Gives, Next, Skip, At, RedirText, Body, Words;
    BaseFacts(t);
    var b := Base(t);
    BodyOf(t);
    if b.Exec? {
      ArgsBack(s, p, [], b.args, t);
      SimpleExec(s, p, t);
    } else {
      var x := "( " + Body(b) + ") ";
      AtSplit(s, p, x, RedirText(t));
      AtSplit(s, p, "( " + Body(b), ") ");
      AtSplit(s, p, "( ", Body(b));
      ClosedBy(s, p + 2 + |Body(b)|);
      RoundTrip(s, p + 2, b, 0);
      ShowLine(b);
      AtLevel(s, Skip(s, p + 2));
      BlockBack(s, p, b, t);
    }
  }

  lemma BodyOf(t: Cmd<string>)
    requires Native(t) == 3
    ensures Body(t) == (if Base(t).Exec? then Words(Base(t).args) else Show(Base(t), 3)) + RedirText(t)
    ensures Base(t).Exec? || Show(Base(t), 3) == "( " + Body(Base(t)) + ") "
  {
    NotRedir(t);
    if t.Redir? {
      BodySplit(t);
    }
  }

  lemma NotRedir(t: Cmd<string>)
    ensures !Base(t).Redir?
  {
  }

  lemma ShowLine(t: Cmd<string>)
    ensures Show(t, 0) == Body(t)
  {
  }

  lemma AtLevel(s: Line, p: nat)
    requires p <= |s|
    ensures ParseAt(s, p, 0) == ParseLine(s, p)
  {
  }

  lemma ClosedBy(s: Line, q: nat)
    requires At(s, q, ") ")
    ensures Next(s, q, Follow(0))
  {
    SymbolAt(s, q, ')');
  }

  /** A simple command does not begin with a parenthesis. */
  lemma SimpleExec(s: Line, p: nat, t: Cmd<string>)
    requires Wf(t) && Base(t).Exec? && Wf(Base(t)) && At(s, p, Words(Base(t).args) + RedirText(t))
    requires Next(s, p + |Words(Base(t).args) + RedirText(t)|, "|)&;")
    ensures p <= |s| && ParseExec(s, Skip(s, p)) == FromRedirs(s, Skip(s, p), [])
  {
    hide GetToken, Skip, WordEnd, ParseRedirs, ParseArgs, At, RedirText, Next, WordAt, Wf;
    NotParen(s, p, t);
    SkipOnce(s, p);
    assert !Peek(s, Skip(s, p), "(");
  }

  lemma NotParen(s: Line, p: nat, t: Cmd<string>)
    requires Wf(t) && Base(t).Exec? && Wf(Base(t)) && At(s, p, Words(Base(t).args) + RedirText(t))
    requires Next(s, p + |Words(Base(t).args) + RedirText(t)|, "|)&;")
    ensures p <= |s| && !Peek(s, p, "(")
  {
    hide GetToken, Skip, WordEnd, At, RedirText, Next, WordAt;
    var args := Base(t).args;
    AtSplit(s, p, Words(args), RedirText(t));
    if args != [] {
      assert Words(args) == (args[0] + " ") + Words(args[1..]);
      AtSplit(s, p, args[0] + " ", Words(args[1..]));
      WordTokenAt(s, p, args[0]);
    } else {
      assert Words(args) + RedirText(t) == RedirText(t);
      FirstRedir(s, p, t);
    }
  }

  lemma {:induction false} FirstRedir(s: Line, p: nat, t: Cmd<string>)
    requires Wf(t) && At(s, p, RedirText(t)) && Next(s, p + |RedirText(t)|, "|)&;")
    ensures p <= |s| && !Peek(s, p, "(")
  {
    hide ParseExec;
    if t.Redir? {
      AtSplit(s, p, RedirText(t.cmd), OneRedir(t.file, t.mode));
      var c := if t.mode == O_RDONLY then '<' else '>';
      var q := p + |RedirText(t.cmd)|;
      AtSplit(s, q, [c, ' '], t.file + " ");
      SymbolAt(s, q, c);
      FirstBefore(s, p, t.cmd, c);
    }
  }

  lemma {:induction false} FirstBefore(s: Line, p: nat, t: Cmd<string>, c: char)
    requires Wf(t) && At(s, p, RedirText(t)) && (c == '<' || c == '>')
    requires p + |RedirText(t)| < |s| && Skip(s, p + |RedirText(t)|) == p + |RedirText(t)| && s[p + |RedirText(t)|] == c
    ensures !Peek(s, p, "(")
  {
    if t.Redir? {
      AtSplit(s, p, RedirText(t.cmd), OneRedir(t.file, t.mode));
      var d := if t.mode == O_RDONLY then '<' else '>';
      var q := p + |RedirText(t.cmd)|;
      AtSplit(s, q, [d, ' '], t.file + " ");
      SymbolAt(s, q, d);
      FirstBefore(s, p, t.cmd, d);
    }
  }

  lemma {:induction false} PipeBack(s: Line, p: nat, t: Cmd<string>)
    requires Wf(t) && t.Pipe? && At(s, p, Body(t)) && Next(s, p + |Body(t)|, Follow(2))
    ensures Gives(ParsePipe(s, Skip(s, p)), s, p + |Body(t)|, t)
    decreases Size(t), 0
  {
    hide ParseExec, Next, Skip, At, Show, GetToken, WordAt, TextOf;
    var x, y := Show(t.left, 3), Show(t.right, 2);
    assert Body(t) == (x + "| ") + y;
    AtSplit(s, p, x + "| ", y);
    AtSplit(s, p, x, "| ");
    var q := p + |x|;
    SymbolAt(s, q, '|');
    FollowedBy(s, q, '|', 3);
    RoundTrip(s, p, t.left, 3);
    RoundTrip(s, q + 2, t.right, 2);
  }

  lemma FollowedBy(s: Line, q: nat, c: char, level: nat)
    requires IsSymbol(c) && c in Follow(level) && At(s, q, [c, ' '])
    ensures Next(s, q, Follow(level))
  {
    SymbolAt(s, q, c);
  }

  lemma {:induction false} ListBack(s: Line, p: nat, t: Cmd<string>)
    requires Wf(t) && t.List? && At(s, p, Body(t)) && Next(s, p + |Body(t)|, Follow(0))
    ensures Gives(ParseLine(s, Skip(s, p)), s, p + |Body(t)|, t)
    decreases Size(t), 0
  {
    hide ParsePipe, ParseBacks, Next, Skip, At, Show, GetToken, WordAt, TextOf;
    var x, y := Show(t.left, 1), Show(t.right, 0);
    assert Body(t) == (x + "; ") + y;
    AtSplit(s, p, x + "; ", y);
    AtSplit(s, p, x, "; ");
    var q := p + |x|;
    SymbolAt(s, q, ';');
    FollowedBy(s, q, ';', 1);
    RoundTrip(s, p, t.left, 1);
    RoundTrip(s, q + 2, t.right, 0);
  }

  lemma {:induction false} BackBack(s: Line, p: nat, t: Cmd<string>)
    requires Wf(t) && t.Back? && At(s, p, Body(t)) && Next(s, p + |Body(t)|, Follow(1))
    ensures Gives(ParseAt(s, Skip(s, p), 1), s, p + |Body(t)|, t)
    decreases Size(t), 0
  {
    hide ParsePipe, ParseBacks, Skip, At, Show, GetToken, WordAt, TextOf, Amps, Next, Body;
    CoreFacts(t);
    BackSplit(t);
    BackBody(t);
    var b := Core(t);
    var x, y := Show(b, 2), Amps(t);
    AtSplit(s, p, x, y);
    var q := p + |x|;
    AmpsNext(s, q, t);
    RoundTrip(s, p, b, 2);
    var c := ParsePipe(s, Skip(s, p));
    var w := BacksBack(s, q, c.cmd, t);
    BacksStop(s, q + |y|, w);
  }

  lemma BackBody(t: Cmd<string>)
    requires t.Back?
    ensures Body(t) == Show(t, 1)
  {
  }

  lemma BacksStop(s: Line, e: nat, w: Cmd<Span>)
    requires Next(s, e, Follow(1))
    ensures e <= |s| && ParseBacks(s, Skip(s, e), w) == Ok(w, Skip(s, e))
  {
    SkipOnce(s, e);
  }

  lemma {:induction false} AmpsNext(s: Line, q: nat, t: Cmd<string>)
    requires t.Back? && At(s, q, Amps(t))
    ensures Next(s, q, Follow(2))
  {
    AtSplit(s, q, Amps(t.cmd), "& ");
    if t.cmd.Back? {
      AmpsNext(s, q, t.cmd);
    } else {
      SymbolAt(s, q, '&');
    }
  }

  /** The canonical form of a tree, read by the parser of its own level. */
  lemma {:induction false} NativeBack(s: Line, p: nat, t: Cmd<string>)
    requires Wf(t) && At(s, p, Body(t)) && Next(s, p + |Body(t)|, Follow(Native(t)))
    ensures p <= |s| && Gives(ParseAt(s, Skip(s, p), Native(t)), s, p + |Body(t)|, t)
    decreases Size(t), 1
  {
    hide Body, Gives, Next, Skip, ParseLine, ParsePipe, ParseExec, ParseBacks, Wf;
    match t {
      case List(_, _) => ListBack(s, p, t);
      case Back(_) => BackBack(s, p, t);
      case Pipe(_, _) => PipeBack(s, p, t);
      case _ => ExecBack(s, p, t);
    }
  }

  /** The canonical form of a tree at a level, read by the parser of that level, gives the tree back. */
  lemma {:induction false} RoundTrip(s: Line, p: nat, t: Cmd<string>, level: nat)
    requires Wf(t) && level <= 3 && At(s, p, Show(t, level)) && Next(s, p + |Show(t, level)|, Follow(level))
    ensures p <= |s| && Gives(ParseAt(s, Skip(s, p), level), s, p + |Show(t, level)|, t)
    decreases Size(t), 2
  {
    hide Body, Gives, Next, Skip, ParseAt, Wf, RedirText, At;
    var e := p + |Show(t, level)|;
    if level <= Native(t) {
      FollowGrows(s, e, level, Native(t));
      NativeBack(s, p, t);
      LiftTo(s, Skip(s, p), e, t, Native(t), level);
    } else {
      InParens(s, p, t, e);
      FollowGrows(s, e, level, 3);
      ClosedBy(s, p + 2 + |Body(t)|);
      FollowGrows(s, p + 2 + |Body(t)|, 0, Native(t));
      NativeBack(s, p + 2, t);
      LiftTo(s, Skip(s, p + 2), p + 2 + |Body(t)|, t, Native(t), 0);
      ParenBack(s, p, t);
      LiftTo(s, Skip(s, p), e, t, 3, level);
    }
  }

  lemma InParens(s: Line, p: nat, t: Cmd<string>, e: nat)
    requires At(s, p, "( " + Body(t) + ") ") && e == p + |"( " + Body(t) + ") "|
    ensures At(s, p + 2, Body(t)) && At(s, p + 2 + |Body(t)|, ") ") && e == p + 2 + |Body(t)| + 2 <= |s|
  {
    AtSplit(s, p, "( " + Body(t), ") ");
    AtSplit(s, p, "( ", Body(t));
  }

  lemma ParenBack(s: Line, p: nat, t: Cmd<string>)
    requires Wf(t) && Native(t) < 3 && At(s, p, "( " + Body(t) + ") ")
      && Next(s, p + |"( " + Body(t) + ") "|, Follow(3))
    requires At(s, p + 2, Body(t)) && Gives(ParseAt(s, Skip(s, p + 2), 0), s, p + 2 + |Body(t)|, t)
    ensures p <= |s| && Gives(ParseAt(s, Skip(s, p), 3), s, p + |"( " + Body(t) + ") "|, t)
  {
    hide Body, Gives, Skip, ParseLine, ParseExec;
    assert RedirText(t) == "" && Base(t) == t;
    assert ("( " + Body(t) + ") ") + RedirText(t) == "( " + Body(t) + ") ";
    BlockBack(s, p, t, t);
  }

  lemma {:induction false} ShowClean(t: Cmd<string>)
    requires Wf(t)
    ensures '\0' !in Body(t)
  {
    match t {
      case Exec(args) => WordsClean(args);
      case Redir(c, f, _, _) => ShowClean(c);
      case Pipe(l, r) => ShowClean(l); ShowClean(r);
      case List(l, r) => ShowClean(l); ShowClean(r);
      case Back(c) => ShowClean(c);
    }
  }

  lemma {:induction false} WordsClean(args: seq<string>)
    requires forall k :: 0 <= k < |args| ==> IsWord(args[k])
    ensures '\0' !in Words(args)
  {
    if args != [] {
      WordsClean(args[1..]);
    }
  }

  /** Leading white space does not matter to any of the parsers. */
  lemma ParseSkips(s: Line, p: nat)
    requires p <= |s|
    ensures ParseLine(s, p) == ParseLine(s, Skip(s, p))
  {
    hide WordEnd, ParseArgs;
    SkipOnce(s, p);
    assert GetToken(s, p) == GetToken(s, Skip(s, p));
    assert forall c :: ParseRedirs(s, p, c) == ParseRedirs(s, Skip(s, p), c);
    assert ParseBlock(s, p) == ParseBlock(s, Skip(s, p));
    assert ParseExec(s, p) == ParseExec(s, Skip(s, p));
    assert ParsePipe(s, p) == ParsePipe(s, Skip(s, p));
  }

  /** Printing any well-formed tree and parsing the result gives the tree. */
  lemma PrintThenParse(t: Cmd<string>)
    requires Wf(t)
    ensures '\0' !in Show(t, 0)
    ensures var s: Line := Show(t, 0); var r := ParseCmd(s); r.Ok? && Sound(s, r.cmd) && Text(s, r.cmd) == t
  {
    hide ParseLine, Skip, Body, WordAt;
    ShowClean(t);
    var s: Line := Show(t, 0);
    assert s[0..|s|] == s;
    NextAtEnd(s);
    RoundTrip(s, 0, t, 0);
    ParseSkips(s, 0);
    AtLevel(s, Skip(s, 0));
  }

  lemma NextAtEnd(s: Line)
    ensures Skip(s, |s|) == |s| && Next(s, |s|, Follow(0))
  {
  }

  /** Whatever the parser returns can be printed and parsed again, with the same result. */
  lemma ParsePrintParse(s: Line)
    requires ParseCmd(s).Ok?
    ensures Sound(s, ParseCmd(s).cmd)
    ensures var t := Text(s, ParseCmd(s).cmd);
      && '\0' !in Show(t, 0)
      && (var s': Line := Show(t, 0); var r := ParseCmd(s'); r.Ok? && Sound(s', r.cmd) && Text(s', r.cmd) == t)
  {
    hide ParseLine, Skip, Body, WordAt, Text, Sound, Wf;
    LineSound(s, 0);
    SoundWf(s, ParseCmd(s).cmd);
    PrintThenParse(Text(s, ParseCmd(s).cmd));
  }
}
