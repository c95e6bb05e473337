/**
 The shell's command grammar, as sh.c parses it. Positions index the input line s, which is a C
 string: its end |s| stands for the terminating NUL.
 */
module ShellSpec {

  const MAXARGS := 10

  /** The token s[q..eq]. */
  datatype Span = Span(q: nat, eq: nat)

  /** Both > and >> open the file in the same way, as descriptor 1; < opens it as descriptor 0. */
  datatype Redirection = Redirection(file: Span, fd: int)

  datatype Cmd =
    | Exec(args: seq<Span>)
    | Redir(cmd: Cmd, redir: Redirection)
    | Piped(left: Cmd, right: Cmd)
    | List(left: Cmd, right: Cmd)
    | Back(cmd: Cmd)

  /** Fail is a panic with a syntax error. */
  datatype Parsed = Fail | Done(cmd: Cmd, pos: nat)

  datatype ParsedRedirs = BadRedir | Redirs(rs: seq<Redirection>, pos: nat)

  // ---- characters and tokens ----

  predicate White(c: char) {
    c == ' ' || c == '\t' || c == '\r' || c == '\n' || c == '\U{000B}'
  }

  predicate Symbol(c: char) {
    c == '<' || c == '|' || c == '>' || c == '&' || c == ';' || c == '(' || c == ')'
  }

  predicate WordChar(c: char) {
    !White(c) && !Symbol(c)
  }

  function Skip(s: string, i: nat): (r: nat)
    requires i <= |s|
    ensures i <= r <= |s| && (r < |s| ==> !White(s[r]))
    ensures forall k | i <= k < r :: White(s[k])
    decreases |s| - i
  {
    if i < |s| && White(s[i]) then Skip(s, i + 1) else i
  }

  function WordEnd(s: string, i: nat): (r: nat)
    requires i <= |s|
    ensures i <= r <= |s| && (r < |s| ==> !WordChar(s[r]))
    ensures forall k | i <= k < r :: WordChar(s[k])
    decreases |s| - i
  {
    if i < |s| && WordChar(s[i]) then WordEnd(s, i + 1) else i
  }

  datatype Kind = End | Sign(c: char) | Append | Word

  datatype Token = Token(kind: Kind, span: Span, next: nat)

  /** gettoken */
  function GetToken(s: string, i: nat): (t: Token)
    requires i <= |s|
    ensures i <= t.span.q <= t.span.eq <= t.next <= |s|
    ensures t.kind.End? <==> t.span.q == |s|
    ensures !t.kind.End? ==> i < t.next
    ensures t.kind.Word? ==> TokenAt(s, t.span)
  {
    var q := Skip(s, i);
    if q == |s| then Token(End, Span(q, q), q)
    else if s[q] == '>' && q + 1 < |s| && s[q + 1] == '>' then Token(Append, Span(q, q + 2), Skip(s, q + 2))
    else if Symbol(s[q]) then Token(Sign(s[q]), Span(q, q + 1), Skip(s, q + 1))
    else var e := WordEnd(s, q); Token(Word, Span(q, e), Skip(s, e))
  }

  /** peek: the next character that is not white, if it is one of toks. */
  predicate Peek(s: string, i: nat, toks: string)
    requires i <= |s|
  {
    var j := Skip(s, i);
    j < |s| && s[j] in toks
  }

  /** A maximal run of word characters. */
  ghost predicate TokenAt(s: string, sp: Span) {
    && sp.q < sp.eq <= |s|
    && (forall k | sp.q <= k < sp.eq :: WordChar(s[k]))
    && (sp.eq < |s| ==> !WordChar(s[sp.eq]))
  }

  ghost predicate RedirAt(s: string, r: Redirection) {
    TokenAt(s, r.file) && (r.fd == 0 || r.fd == 1)
  }

  // ---- the parser ----

  /** Redirections wrap a command in the order in which they appear. */
  function Wrap(c: Cmd, rs: seq<Redirection>): Cmd {
    if rs == [] then c else Redir(Wrap(c, rs[..|rs| - 1]), rs[|rs| - 1])
  }

  /** Every token the command refers to is a token of s, and no command has too many arguments. */
  ghost predicate Tokens(s: string, c: Cmd) {
    match c
    case Exec(args) => |args| < MAXARGS && forall k | 0 <= k < |args| :: TokenAt(s, args[k])
    case Redir(c1, r) => Tokens(s, c1) && RedirAt(s, r)
    case Piped(l, r) => Tokens(s, l) && Tokens(s, r)
    case List(l, r) => Tokens(s, l) && Tokens(s, r)
    case Back(c1) => Tokens(s, c1)
  }

  ghost predicate Good(s: string, i: nat, p: Parsed) {
    p.Done? ==> i <= p.pos <= |s| && Tokens(s, p.cmd)
  }

  ghost predicate GoodRedirs(s: string, i: nat, p: ParsedRedirs) {
    p.Redirs? ==> i <= p.pos <= |s| && forall k | 0 <= k < |p.rs| :: RedirAt(s, p.rs[k])
  }

  lemma {:induction false} WrapTokens(s: string, c: Cmd, rs: seq<Redirection>)
    requires Tokens(s, c) && forall k | 0 <= k < |rs| :: RedirAt(s, rs[k])
    ensures Tokens(s, Wrap(c, rs))
  {
    if rs != [] {
      WrapTokens(s, c, rs[..|rs| - 1]);
    }
  }

  /** parseredirs, adding to the redirections rs found before */
  function ParseRedirs(s: string, i: nat, rs: seq<Redirection>): (p: ParsedRedirs)
    requires i <= |s| && forall k | 0 <= k < |rs| :: RedirAt(s, rs[k])
    ensures GoodRedirs(s, i, p)
    decreases |s| - i
  {
    if !Peek(s, i, "<>") then Redirs(rs, Skip(s, i))
    else
      var t := GetToken(s, i);
      var f := GetToken(s, t.next);
      if !f.kind.Word? then BadRedir
      else ParseRedirs(s, f.next, rs + [Redirection(f.span, if t.kind == Sign('<') then 0 else 1)])
  }

  /** the loop of parseexec */
  function ParseArgs(s: string, i: nat, args: seq<Span>, rs: seq<Redirection>): (p: Parsed)
    requires i <= |s| && |args| < MAXARGS
    requires forall k | 0 <= k < |args| :: TokenAt(s, args[k])
    requires forall k | 0 <= k < |rs| :: RedirAt(s, rs[k])
    ensures Good(s, i, p)
    decreases |s| - i
  {
    var t := GetToken(s, i);
    if Peek(s, i, "|)&;") || t.kind.End? then
      WrapTokens(s, Exec(args), rs);
      Done(Wrap(Exec(args), rs), Skip(s, i))
    else if !t.kind.Word? || |args| + 1 >= MAXARGS then Fail
    else
      var p := ParseRedirs(s, t.next, rs);
      if p.BadRedir? then Fail else ParseArgs(s, p.pos, args + [t.span], p.rs)
  }

  function ParseExec(s: string, i: nat): (p: Parsed)
    requires i <= |s|
    ensures Good(s, i, p)
    decreases |s| - i, 1
  {
    if Peek(s, i, "(") then ParseBlock(s, i)
    else
      var p := ParseRedirs(s, i, []);
      if p.BadRedir? then Fail else ParseArgs(s, p.pos, [], p.rs)
  }

  function ParseBlock(s: string, i: nat): (p: Parsed)
    requires i <= |s|
    ensures Good(s, i, p)
    decreases |s| - i, 0
  {
    if !Peek(s, i, "(") then Fail
    else
      var p := ParseLine(s, GetToken(s, i).next);
      if p.Fail? || !Peek(s, p.pos, ")") then Fail
      else
        var r := ParseRedirs(s, GetToken(s, p.pos).next, []);
        if r.BadRedir? then Fail
        else
          WrapTokens(s, p.cmd, r.rs);
          Done(Wrap(p.cmd, r.rs), r.pos)
  }

  function ParsePipe(s: string, i: nat): (p: Parsed)
    requires i <= |s|
    ensures Good(s, i, p)
    decreases |s| - i, 2
  {
    var l := ParseExec(s, i);
    if l.Fail? || !Peek(s, l.pos, "|") then l
    else
      var r := ParsePipe(s, GetToken(s, l.pos).next);
      if r.Fail? then Fail else Done(Piped(l.cmd, r.cmd), r.pos)
  }

  /** the loop of parseline: one Back for every & */
  function ParseBacks(s: string, i: nat, c: Cmd): (p: Parsed)
    requires i <= |s| && Tokens(s, c)
    ensures Good(s, i, p) && p.Done?
    decreases |s| - i
  {
    if Peek(s, i, "&") then ParseBacks(s, GetToken(s, i).next, Back(c)) else Done(c, i)
  }

  function ParseLine(s: string, i: nat): (p: Parsed)
    requires i <= |s|
    ensures Good(s, i, p)
    decreases |s| - i, 3
  {
    var l := ParsePipe(s, i);
    if l.Fail? then Fail
    else
      var b := ParseBacks(s, l.pos, l.cmd);
      if !Peek(s, b.pos, ";") then b
      else
        var r := ParseLine(s, GetToken(s, b.pos).next);
        if r.Fail? then Fail else Done(List(b.cmd, r.cmd), r.pos)
  }

  /** parsecmd, before nulterminate: leftovers are an error. */
  function ParseCmd(s: string): (p: Parsed)
    ensures Good(s, 0, p)
  {
    var p := ParseLine(s, 0);
    if p.Fail? || Skip(s, p.pos) != |s| then Fail else p
  }
}
