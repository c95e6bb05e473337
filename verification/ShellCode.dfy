/** The loops and recursion of sh.c's parser, and nulterminate writing into the input buffer. */
module ShellCode {
  import opened ShellGrammar
  import opened ShellSpec
  import ShellParse

  method SkipWhite(s: string, i: nat) returns (j: nat)
    requires i <= |s|
    ensures j == Skip(s, i)
  {
    j := i;
    while j < |s| && White(s[j])
      invariant i <= j <= |s| && Skip(s, i) == Skip(s, j)
    {
      j := j + 1;
    }
  }

  method NextToken(s: string, i: nat) returns (t: Token)
    requires i <= |s|
    ensures t == GetToken(s, i)
  {
    var q := SkipWhite(s, i);
    var e := q;
    var kind := End;
    if q < |s| {
      if Symbol(s[q]) {
        kind := Sign(s[q]);
        e := e + 1;
        if s[q] == '>' && e < |s| && s[e] == '>' {
          kind := Append;
          e := e + 1;
        }
      } else {
        kind := Word;
        while e < |s| && WordChar(s[e])
          invariant q <= e <= |s| && WordEnd(s, q) == WordEnd(s, e)
        {
          e := e + 1;
        }
      }
    }
    var next := SkipWhite(s, e);
    return Token(kind, Span(q, e), next);
  }

  method PeekFor(s: string, i: nat, toks: string) returns (found: bool, next: nat)
    requires i <= |s|
    ensures found == Peek(s, i, toks) && next == Skip(s, i)
  {
    next := SkipWhite(s, i);
    found := next < |s| && s[next] in toks;
  }

  method Redirections(s: string, i: nat, rs: seq<Redirection>) returns (p: ParsedRedirs)
    requires i <= |s| && forall k | 0 <= k < |rs| :: RedirAt(s, rs[k])
    ensures p == ParseRedirs(s, i, rs)
  {
    hide Peek, WordChar;
    var pos, found := i, rs;
    var more, at := PeekFor(s, pos, "<>");
    while more
      invariant i <= pos <= |s| && (forall k | 0 <= k < |found| :: RedirAt(s, found[k]))
      invariant ParseRedirs(s, i, rs) == ParseRedirs(s, pos, found)
      invariant more == Peek(s, pos, "<>") && at == Skip(s, pos)
      decreases |s| - pos
    {
      var t := NextToken(s, pos);
      var f := NextToken(s, t.next);
      if !f.kind.Word? {
        return BadRedir;
      }
      found := found + [Redirection(f.span, if t.kind == Sign('<') then 0 else 1)];
      pos := f.next;
      more, at := PeekFor(s, pos, "<>");
    }
    return Redirs(found, at);
  }

  method Simple(s: string, i: nat) returns (p: Parsed)
    requires i <= |s| && !Peek(s, i, "(")
    ensures p == ParseExec(s, i)
  {
    var args: seq<Span> := [];
    var r := Redirections(s, i, []);
    if r.BadRedir? {
      return Fail;
    }
    var pos, rs := r.pos, r.rs;
    ghost var goal := ParseArgs(s, pos, args, rs);
    while true
      invariant i <= pos <= |s| && |args| < MAXARGS
      invariant forall k | 0 <= k < |args| :: TokenAt(s, args[k])
      invariant forall k | 0 <= k < |rs| :: RedirAt(s, rs[k])
      invariant goal == ParseArgs(s, pos, args, rs)
      decreases |s| - pos
    {
      var stop, at := PeekFor(s, pos, "|)&;");
      if stop {
        return Done(Wrap(Exec(args), rs), at);
      }
      var t := NextToken(s, pos);
      if t.kind.End? {
        return Done(Wrap(Exec(args), rs), at);
      }
      if !t.kind.Word? {
        return Fail;
      }
      if |args| + 1 >= MAXARGS {
        return Fail;
      }
      r := Redirections(s, t.next, rs);
      if r.BadRedir? {
        return Fail;
      }
      args := args + [t.span];
      pos, rs := r.pos, r.rs;
    }
  }

  method Command(s: string, i: nat) returns (p: Parsed)
    requires i <= |s|
    ensures p == ParseExec(s, i)
    decreases |s| - i, 1
  {
    var open, at := PeekFor(s, i, "(");
    if open {
      p := Block(s, i);
    } else {
      p := Simple(s, i);
    }
  }

  method Block(s: string, i: nat) returns (p: Parsed)
    requires i <= |s|
    ensures p == ParseBlock(s, i)
    decreases |s| - i, 0
  {
    var open, at := PeekFor(s, i, "(");
    if !open {
      return Fail;
    }
    var t := NextToken(s, i);
    p := Line(s, t.next);
    if p.Fail? {
      return;
    }
    var close, at1 := PeekFor(s, p.pos, ")");
    if !close {
      return Fail;
    }
    t := NextToken(s, p.pos);
    var r := Redirections(s, t.next, []);
    if r.BadRedir? {
      return Fail;
    }
    return Done(Wrap(p.cmd, r.rs), r.pos);
  }

  method Pipeline(s: string, i: nat) returns (p: Parsed)
    requires i <= |s|
    ensures p == ParsePipe(s, i)
    decreases |s| - i, 2
  {
    p := Command(s, i);
    if p.Fail? {
      return;
    }
    var bar, at := PeekFor(s, p.pos, "|");
    if bar {
      var t := NextToken(s, p.pos);
      var r := Pipeline(s, t.next);
      if r.Fail? {
        return Fail;
      }
      return Done(Piped(p.cmd, r.cmd), r.pos);
    }
  }

  method Line(s: string, i: nat) returns (p: Parsed)
    requires i <= |s|
    ensures p == ParseLine(s, i)
    decreases |s| - i, 3
  {
    p := Pipeline(s, i);
    if p.Fail? {
      return;
    }
    var cmd, pos := p.cmd, p.pos;
    var amp, at := PeekFor(s, pos, "&");
    while amp
      invariant i <= pos <= |s| && Tokens(s, cmd) && amp == Peek(s, pos, "&")
      invariant ParseBacks(s, p.pos, p.cmd) == ParseBacks(s, pos, cmd)
      decreases |s| - pos
    {
      var t := NextToken(s, pos);
      pos := t.next;
      cmd := Back(cmd);
      amp, at := PeekFor(s, pos, "&");
    }
    var semi, at1 := PeekFor(s, pos, ";");
    if semi {
      var t := NextToken(s, pos);
      var r := Line(s, t.next);
      if r.Fail? {
        return Fail;
      }
      return Done(List(cmd, r.cmd), r.pos);
    }
    return Done(cmd, pos);
  }

  // ---- nulterminate ----

  /** Where nulterminate writes. */
  function Ends(c: Cmd): set<nat> {
    match c
    case Exec(args) => set k | 0 <= k < |args| :: args[k].eq
    case Redir(c1, r) => Ends(c1) + {r.file.eq}
    case Piped(l, r) => Ends(l) + Ends(r)
    case List(l, r) => Ends(l) + Ends(r)
    case Back(c1) => Ends(c1)
  }

  /** The buffer with NULs at the given places. */
  function Nul(b: seq<char>, ends: set<nat>): seq<char> {
    seq(|b|, p requires 0 <= p < |b| => if p in ends then '\0' else b[p])
  }

  lemma NulTwice(b: seq<char>, e: set<nat>, f: set<nat>)
    ensures Nul(Nul(b, e), f) == Nul(b, e + f)
  {
  }

  lemma NulOne(b: seq<char>, e: nat)
    requires e < |b|
    ensures Nul(b, {e}) == b[e := '\0']
  {
  }

  method NulTerminate(buf: array<char>, c: Cmd)
    requires forall e | e in Ends(c) :: e < buf.Length
    modifies buf
    ensures buf[..] == Nul(old(buf[..]), Ends(c))
    decreases c
  {
    match c {
      case Exec(args) =>
        var i := 0;
        while i < |args|
          invariant 0 <= i <= |args|
          invariant buf[..] == Nul(old(buf[..]), Ends(Exec(args[..i])))
        {
          assert args[i].eq in Ends(c);
          ghost var b := buf[..];
          buf[args[i].eq] := '\0';
          NulOne(b, args[i].eq);
          NulTwice(old(buf[..]), Ends(Exec(args[..i])), {args[i].eq});
          EndsMore(args, i);
          i := i + 1;
        }
        assert args[..i] == args;
      case Redir(c1, r) =>
        assert Ends(c) == Ends(c1) + {r.file.eq};
        NulTerminate(buf, c1);
        ghost var b := buf[..];
        buf[r.file.eq] := '\0';
        NulOne(b, r.file.eq);
        NulTwice(old(buf[..]), Ends(c1), {r.file.eq});
      case Piped(l, r) =>
        assert Ends(c) == Ends(l) + Ends(r);
        NulTerminate(buf, l);
        NulTerminate(buf, r);
        NulTwice(old(buf[..]), Ends(l), Ends(r));
      case List(l, r) =>
        assert Ends(c) == Ends(l) + Ends(r);
        NulTerminate(buf, l);
        NulTerminate(buf, r);
        NulTwice(old(buf[..]), Ends(l), Ends(r));
      case Back(c1) =>
        assert Ends(c) == Ends(c1);
        NulTerminate(buf, c1);
    }
  }

  lemma EndsMore(args: seq<Span>, i: nat)
    requires i < |args|
    ensures Ends(Exec(args[..i + 1])) == Ends(Exec(args[..i])) + {args[i].eq}
  {
    forall e ensures e in Ends(Exec(args[..i + 1])) <==> e in Ends(Exec(args[..i])) + {args[i].eq} {
      if e in Ends(Exec(args[..i])) {
        var k :| 0 <= k < i && args[..i][k].eq == e;
        assert args[..i + 1][k].eq == e;
      }
      assert args[..i + 1][i].eq == args[i].eq;
    }
  }

  /** The C string at position q: everything up to the next NUL. */
  function CString(b: seq<char>, q: nat): string
    decreases |b| - q
  {
    if q < |b| && b[q] != '\0' then [b[q]] + CString(b, q + 1) else ""
  }

  /** The command as execution sees it, through pointers to C strings. */
  function ReadC(b: seq<char>, c: Cmd): Tree {
    match c
    case Exec(args) => TExec(seq(|args|, k requires 0 <= k < |args| => CString(b, args[k].q)))
    case Redir(c1, r) => TRedir(ReadC(b, c1), CString(b, r.file.q), r.fd)
    case Piped(l, r) => TPipe(ReadC(b, l), ReadC(b, r))
    case List(l, r) => TList(ReadC(b, l), ReadC(b, r))
    case Back(c1) => TBack(ReadC(b, c1))
  }

  lemma {:induction false} CStringIs(b: seq<char>, q: nat, e: nat)
    requires q <= e < |b| && b[e] == '\0' && forall k | q <= k < e :: b[k] != '\0'
    ensures CString(b, q) == b[q..e]
    decreases e - q
  {
    if q < e {
      CStringIs(b, q + 1, e);
      assert b[q..e] == [b[q]] + b[q + 1..e];
    }
  }

  /** Terminators land only where no token has a character. */
  ghost predicate Between(s: string, ends: set<nat>) {
    forall e | e in ends :: e <= |s| && (e < |s| ==> !WordChar(s[e]))
  }

  lemma {:induction false} EndsBetween(s: string, c: Cmd)
    requires Tokens(s, c)
    ensures Between(s, Ends(c))
    decreases c
  {
    match c
    case Exec(args) =>
      forall e | e in Ends(c) ensures e <= |s| && (e < |s| ==> !WordChar(s[e])) {
        var k :| 0 <= k < |args| && args[k].eq == e;
        assert TokenAt(s, args[k]);
      }
    case Redir(c1, r) => EndsBetween(s, c1);
    case Piped(l, r) =>
      EndsBetween(s, l);
      EndsBetween(s, r);
    case List(l, r) =>
      EndsBetween(s, l);
      EndsBetween(s, r);
    case Back(c1) => EndsBetween(s, c1);
  }

  lemma TokenReads(s: string, b: seq<char>, ends: set<nat>, sp: Span)
    requires TokenAt(s, sp) && Between(s, ends) && sp.eq in ends
    requires |s| < |b| && s == b[..|s|] && '\0' !in s
    ensures CString(Nul(b, ends), sp.q) == Text(s, sp)
  {
    var n := Nul(b, ends);
    forall k | sp.q <= k < sp.eq ensures n[k] == s[k] && n[k] != '\0' {
      assert s[k] == b[..|s|][k] && s[k] in s;
    }
    CStringIs(n, sp.q, sp.eq);
    assert n[sp.q..sp.eq] == s[sp.q..sp.eq];
  }

  /** With all terminators of a whole line in place, every pointer reads back exactly its own token. */
  lemma {:induction false} TerminatedReads(s: string, b: seq<char>, ends: set<nat>, c: Cmd)
    requires Tokens(s, c) && Between(s, ends) && Ends(c) <= ends
    requires |s| < |b| && s == b[..|s|] && '\0' !in s
    ensures ReadC(Nul(b, ends), c) == Read(s, c)
    decreases c
  {
    match c
    case Exec(args) =>
      forall k | 0 <= k < |args| ensures CString(Nul(b, ends), args[k].q) == Text(s, args[k]) {
        assert args[k].eq in Ends(c);
        TokenReads(s, b, ends, args[k]);
      }
      assert ReadC(Nul(b, ends), c).args == Texts(s, args);
    case Redir(c1, r) =>
      TerminatedReads(s, b, ends, c1);
      TokenReads(s, b, ends, r.file);
    case Piped(l, r) =>
      TerminatedReads(s, b, ends, l);
      TerminatedReads(s, b, ends, r);
    case List(l, r) =>
      TerminatedReads(s, b, ends, l);
      TerminatedReads(s, b, ends, r);
    case Back(c1) =>
      TerminatedReads(s, b, ends, c1);
  }

  /** What the parser makes of the line s, in terms of the grammar alone. */
  lemma Understood(s: string)
    ensures ParseCmd(s).Done? <==> exists x :: LineFits(x) && Spells(s, 0, LineToks(x))
    ensures forall x | LineFits(x) && Spells(s, 0, LineToks(x)) :: Read(s, ParseCmd(s).cmd) == LineTree(x)
  {
    hide *;
    ShellParse.AcceptedIff(s);
    forall x | LineFits(x) && Spells(s, 0, LineToks(x))
      ensures ParseCmd(s).Done? && Read(s, ParseCmd(s).cmd) == LineTree(x)
    {
      ShellParse.SpelledParses(s, x);
    }
  }

  /**
   parsecmd: the buffer holds a C string. It is accepted exactly when it spells a line of the grammar,
   and afterwards the command, read through its pointers, is what that line means.
   */
  method ParseBuffer(buf: array<char>) returns (p: Parsed)
    requires exists n :: 0 <= n < buf.Length && buf[n] == '\0'
    modifies buf
    ensures var s := CString(old(buf[..]), 0);
            && p == ParseCmd(s)
            && (p.Done? ==> ReadC(buf[..], p.cmd) == Read(s, p.cmd))
            && (p.Done? <==> exists x :: LineFits(x) && Spells(s, 0, LineToks(x)))
            && (forall x | LineFits(x) && Spells(s, 0, LineToks(x)) :: ReadC(buf[..], p.cmd) == LineTree(x))
  {
    hide LineFits, Spells, LineToks, LineTree, ReadC, Read, ParseLine;
    var n := 0;
    while buf[n] != '\0'
      invariant 0 <= n < buf.Length && forall k | 0 <= k < n :: buf[k] != '\0'
      invariant exists m :: n <= m < buf.Length && buf[m] == '\0'
      invariant buf[..] == old(buf[..])
      decreases buf.Length - n
    {
      n := n + 1;
    }
    CStringIs(buf[..], 0, n);
    var s := buf[..n];
    assert buf[..][0..n] == s;
    Understood(s);
    p := Line(s, 0);
    if p.Fail? {
      return Fail;
    }
    var _, at := PeekFor(s, p.pos, "");
    if at != |s| {
      return Fail;
    }
    EndsBetween(s, p.cmd);
    TerminatedReads(s, buf[..], Ends(p.cmd), p.cmd);
    NulTerminate(buf, p.cmd);
  }
}
