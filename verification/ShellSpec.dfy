/** sh.c: the tokens and the grammar of the shell, as functions on the input line. */
module ShellSpec {
  const MAXARGS: nat := 10
  const O_RDONLY: nat := 0
  const O_WRCREATE: nat := 0x201  // O_WRONLY | O_CREATE

  predicate IsSpace(c: char) {
    c == ' ' || c == '\t' || c == '\r' || c == '\n' || c == '\U{0B}'
  }

  predicate IsSymbol(c: char) {
    c == '<' || c == '|' || c == '>' || c == '&' || c == ';' || c == '(' || c == ')'
  }

  predicate IsWordChar(c: char) {
    !IsSpace(c) && !IsSymbol(c) && c != '\0'
  }

  /** A line as strlen delimits it. */
  type Line = s: string | '\0' !in s

  /** A command, with the words given as `W`: spans of the line, or strings. */
  datatype Cmd<W> =
    | Exec(args: seq<W>)
    | Redir(cmd: Cmd<W>, file: W, mode: nat, fd: nat)
    | Pipe(left: Cmd<W>, right: Cmd<W>)
    | List(left: Cmd<W>, right: Cmd<W>)
    | Back(cmd: Cmd<W>)

  /** The characters from `lo` up to `hi` of the line. */
  datatype Span = Span(lo: nat, hi: nat)

  // ----- tokens -----

  /** Past the white space at `p`. */
  function Skip(s: Line, p: nat): (q: nat)
    requires p <= |s|
    ensures p <= q <= |s| && (q < |s| ==> !IsSpace(s[q]))
    ensures forall k :: p <= k < q ==> IsSpace(s[k])
    decreases |s| - p
  {
    if p < |s| && IsSpace(s[p]) then Skip(s, p + 1) else p
  }

  /** Past the word at `p`. */
  function WordEnd(s: Line, p: nat): (q: nat)
    requires p <= |s|
    ensures p <= q <= |s| && (q < |s| ==> !IsWordChar(s[q]))
    ensures forall k :: p <= k < q ==> IsWordChar(s[k])
    decreases |s| - p
  {
    if p < |s| && IsWordChar(s[p]) then WordEnd(s, p + 1) else p
  }

  /** The kind of a token ('a' for a word, '+' for ">>", NUL at the end), its span, and the position after it. */
  datatype Token = Token(kind: char, q: nat, eq: nat, next: nat)

  function GetToken(s: Line, p: nat): (t: Token)
    requires p <= |s|
    ensures p <= t.q <= t.eq <= t.next <= |s|
    ensures t.kind == '\0' <==> t.q == |s|
    ensures t.kind != '\0' ==> t.q < t.eq
  {
    var q := Skip(s, p);
    if q == |s| then Token('\0', q, q, q)
    else
      var c := s[q];
      var kind := if c == '>' && q + 1 < |s| && s[q + 1] == '>' then '+' else if IsSymbol(c) then c else 'a';
      var eq := if kind == '+' then q + 2 else if IsSymbol(c) then q + 1 else WordEnd(s, q);
      Token(kind, q, eq, Skip(s, eq))
  }

  /** Whether the next token begins with one of `toks`. */
  predicate Peek(s: Line, p: nat, toks: string)
    requires p <= |s|
  {
    var q := Skip(s, p);
    q < |s| && s[q] in toks
  }

  // ----- the grammar -----

  /** A command and the position after it, or the panic of a syntax error. */
  datatype Parse = Ok(cmd: Cmd<Span>, pos: nat) | Panic

  /** parseredirs */
  function ParseRedirs(s: Line, p: nat, cmd: Cmd<Span>): (r: Parse)
    requires p <= |s|
    ensures r.Ok? ==> p <= r.pos <= |s|
    decreases |s| - p
  {
    if !Peek(s, p, "<>") then Ok(cmd, Skip(s, p))
    else
      var t := GetToken(s, p);
      var f := GetToken(s, t.next);
      if f.kind != 'a' then Panic
      else
        var file := Span(f.q, f.eq);
        ParseRedirs(s, f.next, if t.kind == '<' then Redir(cmd, file, O_RDONLY, 0) else Redir(cmd, file, O_WRCREATE, 1))
  }

  /** Redirections put around the command at the bottom of `wrap`. */
  function Refill(wrap: Cmd<Span>, args: seq<Span>): Cmd<Span> {
    match wrap
    case Redir(c, f, m, d) => Redir(Refill(c, args), f, m, d)
    case _ => Exec(args)
  }

  /** The loop of parseexec: the words so far are in `args`, the redirections so far around an empty command. */
  function ParseArgs(s: Line, p: nat, args: seq<Span>, wrap: Cmd<Span>): (r: Parse)
    requires p <= |s|
    ensures r.Ok? ==> p <= r.pos <= |s|
    decreases |s| - p
  {
    if Peek(s, p, "|)&;") then Ok(Refill(wrap, args), Skip(s, p))
    else
      var t := GetToken(s, p);
      if t.kind == '\0' then Ok(Refill(wrap, args), t.next)
      else if t.kind != 'a' then Panic
      else if |args| + 1 >= MAXARGS then Panic
      else
        var r := ParseRedirs(s, t.next, wrap);
        if r.Panic? then Panic else ParseArgs(s, r.pos, args + [Span(t.q, t.eq)], r.cmd)
  }

  function ParseExec(s: Line, p: nat): (r: Parse)
    requires p <= |s|
    ensures r.Ok? ==> p <= r.pos <= |s|
    decreases |s| - p, 1
  {
    if Peek(s, p, "(") then ParseBlock(s, p)
    else
      var r := ParseRedirs(s, p, Exec([]));
      if r.Panic? then Panic else ParseArgs(s, r.pos, [], r.cmd)
  }

  function ParseBlock(s: Line, p: nat): (r: Parse)
    requires p <= |s|
    ensures r.Ok? ==> p <= r.pos <= |s|
    decreases |s| - p, 0
  {
    if !Peek(s, p, "(") then Panic
    else
      var r := ParseLine(s, GetToken(s, p).next);
      if r.Panic? || !Peek(s, r.pos, ")") then Panic
      else ParseRedirs(s, GetToken(s, r.pos).next, r.cmd)
  }

  function ParsePipe(s: Line, p: nat): (r: Parse)
    requires p <= |s|
    ensures r.Ok? ==> p <= r.pos <= |s|
    decreases |s| - p, 2
  {
    var l := ParseExec(s, p);
    if l.Panic? || !Peek(s, l.pos, "|") then (if l.Panic? then Panic else Ok(l.cmd, Skip(s, l.pos)))
    else
      var r := ParsePipe(s, GetToken(s, l.pos).next);
      if r.Panic? then Panic else Ok(Pipe(l.cmd, r.cmd), r.pos)
  }

  /** The loop of parseline over "&". */
  function ParseBacks(s: Line, p: nat, cmd: Cmd<Span>): (r: Parse)
    requires p <= |s|
    ensures r.Ok? && p <= r.pos <= |s|
    decreases |s| - p
  {
    if Peek(s, p, "&") then ParseBacks(s, GetToken(s, p).next, Back(cmd)) else Ok(cmd, Skip(s, p))
  }

  function ParseLine(s: Line, p: nat): (r: Parse)
    requires p <= |s|
    ensures r.Ok? ==> p <= r.pos <= |s|
    decreases |s| - p, 3
  {
    var c := ParsePipe(s, p);
    if c.Panic? then Panic
    else
      var l := ParseBacks(s, c.pos, c.cmd);
      if !Peek(s, l.pos, ";") then l
      else
        var r := ParseLine(s, GetToken(s, l.pos).next);
        if r.Panic? then Panic else Ok(List(l.cmd, r.cmd), r.pos)
  }

  function ParseCmd(s: Line): (r: Parse) {
    var r := ParseLine(s, 0);
    if r.Panic? || Skip(s, r.pos) != |s| then Panic else r
  }
}
