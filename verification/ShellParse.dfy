/** sh.c's parser accepts exactly the command lines of the grammar, and gives each its meaning. */
module ShellParse {
  import opened ShellSpec
  import opened ShellGrammar

  /** The parser has built t and stands at n. */
  ghost predicate ParsesTo(p: Parsed, s: string, n: nat, t: Tree) {
    p.Done? && p.pos == n && Read(s, p.cmd) == t
  }

  ghost predicate Args(s: string, args: seq<Span>) {
    forall k | 0 <= k < |args| :: TokenAt(s, args[k])
  }

  ghost predicate RedirsAt(s: string, rs: seq<Redirection>) {
    forall k | 0 <= k < |rs| :: RedirAt(s, rs[k])
  }

  /** What parseexec does from some point in a simple command on, with args and rs found before it. */
  ghost function Rest(s: string, i: nat, args: seq<Span>, rs: seq<Redirection>): Parsed
    requires i <= |s| && |args| < MAXARGS && Args(s, args) && RedirsAt(s, rs)
  {
    var p := ParseRedirs(s, i, rs);
    if p.BadRedir? then Fail else ParseArgs(s, p.pos, args, p.rs)
  }

  predicate Redirects(k: Kind) { k == Sign('<') || k == Sign('>') || k == Append }

  /** The line ends here, or goes on with one of these signs. */
  predicate Follows(s: string, i: nat, signs: string)
    requires i <= |s|
  {
    var k := GetToken(s, i).kind; k.End? || (k.Sign? && k.c in signs)
  }

  function FdOf(k: Kind): int { if k == Sign('<') then 0 else 1 }

  lemma RedirsUnfold(s: string, i: nat, rs: seq<Redirection>)
    requires i <= |s| && RedirsAt(s, rs)
    ensures var t := GetToken(s, i);
            var f := GetToken(s, t.next);
            ParseRedirs(s, i, rs)
            == if !Redirects(t.kind) then Redirs(rs, Skip(s, i))
               else if !f.kind.Word? then BadRedir
               else ParseRedirs(s, f.next, rs + [Redirection(f.span, FdOf(t.kind))])
  {
    PeekKind(s, i, "<>");
    hide Peek, Skip;
  }

  lemma RestAtWord(s: string, i: nat, args: seq<Span>, rs: seq<Redirection>)
    requires i <= |s| && |args| + 1 < MAXARGS && Args(s, args) && RedirsAt(s, rs) && GetToken(s, i).kind.Word?
    ensures var t := GetToken(s, i);
            Args(s, args + [t.span]) && Rest(s, i, args, rs) == Rest(s, t.next, args + [t.span], rs)
  {
    RedirsUnfold(s, i, rs);
    SkipTwice(s, i);
    PeekKind(s, Skip(s, i), "|)&;");
    hide Peek, Skip, GetToken, ParseRedirs;
  }

  lemma RestAtEnd(s: string, i: nat, args: seq<Span>, rs: seq<Redirection>)
    requires i <= |s| && |args| < MAXARGS && Args(s, args) && RedirsAt(s, rs) && Follows(s, i, "|)&;")
    ensures Rest(s, i, args, rs) == Done(Wrap(Exec(args), rs), Skip(s, i))
  {
    RedirsUnfold(s, i, rs);
    SkipTwice(s, i);
    PeekKind(s, Skip(s, i), "|)&;");
    hide Peek, Skip, GetToken, ParseRedirs, Wrap;
  }

  lemma RestAtRedir(s: string, i: nat, args: seq<Span>, rs: seq<Redirection>)
    requires i <= |s| && |args| < MAXARGS && Args(s, args) && RedirsAt(s, rs) && Redirects(GetToken(s, i).kind)
    requires GetToken(s, GetToken(s, i).next).kind.Word?
    ensures var t := GetToken(s, i);
            var f := GetToken(s, t.next);
            var r := Redirection(f.span, FdOf(t.kind));
            RedirAt(s, r) && Rest(s, i, args, rs) == Rest(s, f.next, args, rs + [r])
  {
    hide Peek, Skip, GetToken, ParseRedirs, ParseArgs;
    RedirsUnfold(s, i, rs);
  }

  // ---- redirections ----

  ghost function FileTexts(s: string, rs: seq<Redirection>): seq<(string, int)> {
    seq(|rs|, k requires 0 <= k < |rs| => (Text(s, rs[k].file), rs[k].fd))
  }

  lemma {:induction false} AroundLast(t: Tree, fs: seq<(string, int)>, f: (string, int))
    ensures Around(t, fs + [f]) == TRedir(Around(t, fs), f.0, f.1)
    decreases |fs|
  {
    if fs == [] {
      assert [f][1..] == [];
      assert fs + [f] == [f];
    } else {
      assert (fs + [f])[1..] == fs[1..] + [f];
      AroundLast(TRedir(t, fs[0].0, fs[0].1), fs[1..], f);
    }
  }

  lemma {:induction false} ReadWrap(s: string, c: Cmd, rs: seq<Redirection>)
    ensures Read(s, Wrap(c, rs)) == Around(Read(s, c), FileTexts(s, rs))
    decreases |rs|
  {
    if rs != [] {
      var n := |rs| - 1;
      ReadWrap(s, c, rs[..n]);
      assert FileTexts(s, rs) == FileTexts(s, rs[..n]) + [(Text(s, rs[n].file), rs[n].fd)];
      AroundLast(Read(s, c), FileTexts(s, rs[..n]), (Text(s, rs[n].file), rs[n].fd));
    }
  }

  /** The first item of a list and what is left after it. */
  lemma FirstItem(s: string, i: nat, items: seq<Item>)
    requires i <= |s| && items != []
    ensures var it, t := items[0], GetToken(s, i);
            var f := GetToken(s, t.next);
            var j := if it.Arg? then t.next else f.next;
            && (Reads(s, i, ItemsToks(items)) <==>
                  && (if it.Arg? then t.kind.Word? && Text(s, t.span) == it.w
                      else t.kind == (if it.From? then Sign('<') else if it.To? then Sign('>') else Append)
                           && f.kind.Word? && Text(s, f.span) == it.w)
                  && Reads(s, j, ItemsToks(items[1..])))
            && After(s, i, |ItemsToks(items)|) == After(s, j, |ItemsToks(items[1..])|)
  {
    hide GetToken, Text;
    var it := items[0];
    ReadsSplit(s, i, ItemToks(it), ItemsToks(items[1..]));
    if it.Arg? {
      ReadsOne(s, i, TWord(it.w));
    } else {
      var sign := ItemToks(it)[0];
      assert ItemToks(it) == [sign] + [TWord(it.w)];
      ReadsSplit(s, i, [sign], [TWord(it.w)]);
      ReadsOne(s, i, sign);
      ReadsOne(s, GetToken(s, i).next, TWord(it.w));
    }
  }

  lemma TextsSnoc(s: string, args: seq<Span>, sp: Span, ws: seq<string>)
    ensures Texts(s, args + [sp]) + ws == Texts(s, args) + ([Text(s, sp)] + ws)
  {
  }

  lemma FilesSnoc(s: string, rs: seq<Redirection>, r: Redirection, fs: seq<(string, int)>)
    ensures FileTexts(s, rs + [r]) + fs == FileTexts(s, rs) + ([(Text(s, r.file), r.fd)] + fs)
  {
  }

  /** Words and redirections in any order: the words in order, the redirections around them in order. */
  lemma {:induction false} ItemsParse(s: string, i: nat, items: seq<Item>, args: seq<Span>, rs: seq<Redirection>)
    requires i <= |s| && Args(s, args) && RedirsAt(s, rs) && |args| + |Words(items)| < MAXARGS
    requires Reads(s, i, ItemsToks(items)) && Follows(s, After(s, i, |ItemsToks(items)|), "|)&;")
    ensures ParsesTo(Rest(s, i, args, rs), s, Skip(s, After(s, i, |ItemsToks(items)|)),
                     Around(TExec(Texts(s, args) + Words(items)), FileTexts(s, rs) + Files(items)))
    decreases |items|
  {
    hide GetToken, Reads, After, Rest, Skip, Text, Around, Read, Wrap, Follows, FileTexts, Texts, ItemToks;
    if items == [] {
      ItemsEnd(s, i, args, rs);
      assert Texts(s, args) + Words(items) == Texts(s, args) && FileTexts(s, rs) + Files(items) == FileTexts(s, rs);
    } else {
      var it, t := items[0], GetToken(s, i);
      FirstItem(s, i, items);
      if it.Arg? {
        RestAtWord(s, i, args, rs);
        ItemsParse(s, t.next, items[1..], args + [t.span], rs);
        TextsSnoc(s, args, t.span, Words(items[1..]));
        assert [] + Files(items[1..]) == Files(items[1..]);
      } else {
        var f := GetToken(s, t.next);
        var r := Redirection(f.span, FdOf(t.kind));
        RestAtRedir(s, i, args, rs);
        ItemsParse(s, f.next, items[1..], args, rs + [r]);
        FilesSnoc(s, rs, r, Files(items[1..]));
        assert [] + Words(items[1..]) == Words(items[1..]);
      }
    }
  }

  lemma ItemsEnd(s: string, i: nat, args: seq<Span>, rs: seq<Redirection>)
    requires i <= |s| && Args(s, args) && RedirsAt(s, rs) && |args| < MAXARGS && Follows(s, After(s, i, |ItemsToks([])|), "|)&;")
    ensures ParsesTo(Rest(s, i, args, rs), s, Skip(s, After(s, i, |ItemsToks([])|)),
                     Around(TExec(Texts(s, args)), FileTexts(s, rs)))
  {
    hide GetToken, Rest, Skip, Around, Wrap, FileTexts, Texts, Follows;
    RestAtEnd(s, i, args, rs);
    ReadWrap(s, Exec(args), rs);
  }

  /** The redirections after a block. */
  lemma {:induction false} RedirsParse(s: string, i: nat, items: seq<Item>, rs: seq<Redirection>)
    requires i <= |s| && RedirsAt(s, rs) && forall k | 0 <= k < |items| :: !items[k].Arg?
    requires Reads(s, i, ItemsToks(items)) && !Redirects(GetToken(s, After(s, i, |ItemsToks(items)|)).kind)
    ensures var p := ParseRedirs(s, i, rs);
            && p.Redirs? && p.pos == Skip(s, After(s, i, |ItemsToks(items)|))
            && FileTexts(s, p.rs) == FileTexts(s, rs) + Files(items)
    decreases |items|
  {
    hide GetToken, Reads, After, ParseRedirs, Skip, Text, FileTexts, ItemToks;
    RedirsUnfold(s, i, rs);
    if items == [] {
      assert FileTexts(s, rs) + Files(items) == FileTexts(s, rs);
      assert After(s, i, 0) == i by { AfterNone(s, i); }
    } else {
      FirstItem(s, i, items);
      var t := GetToken(s, i);
      var f := GetToken(s, t.next);
      var r := Redirection(f.span, FdOf(t.kind));
      RedirsParse(s, f.next, items[1..], rs + [r]);
      FilesSnoc(s, rs, r, Files(items[1..]));
    }
  }

  lemma AfterNone(s: string, i: nat)
    requires i <= |s|
    ensures After(s, i, 0) == i
  {
  }

  // ---- the parser, one function at a time ----

  lemma ExecUnfolds(s: string, i: nat)
    requires i <= |s|
    ensures var t := GetToken(s, i);
            ParseExec(s, i)
            == if t.kind != Sign('(') then Rest(s, i, [], [])
               else
                 var p := ParseLine(s, t.next);
                 if p.Fail? || GetToken(s, p.pos).kind != Sign(')') then Fail
                 else
                   var r := ParseRedirs(s, GetToken(s, p.pos).next, []);
                   if r.BadRedir? then Fail else Done(Wrap(p.cmd, r.rs), r.pos)
  {
    hide GetToken, Peek, ParseLine, ParseRedirs, ParseArgs, Wrap, Tokens;
    PeekKind(s, i, "(");
    var p := ParseLine(s, GetToken(s, i).next);
    if p.Done? {
      PeekKind(s, p.pos, ")");
    }
  }

  lemma PipeUnfolds(s: string, i: nat)
    requires i <= |s|
    ensures var l := ParseExec(s, i);
            ParsePipe(s, i)
            == if l.Fail? || GetToken(s, l.pos).kind != Sign('|') then l
               else
                 var r := ParsePipe(s, GetToken(s, l.pos).next);
                 if r.Fail? then Fail else Done(Piped(l.cmd, r.cmd), r.pos)
  {
    hide GetToken, Peek, ParseExec, Tokens;
    var l := ParseExec(s, i);
    if l.Done? {
      PeekKind(s, l.pos, "|");
    }
  }

  lemma BacksUnfold(s: string, i: nat, c: Cmd)
    requires i <= |s| && Tokens(s, c)
    ensures var t := GetToken(s, i);
            ParseBacks(s, i, c) == if t.kind != Sign('&') then Done(c, i) else ParseBacks(s, t.next, Back(c))
  {
    hide GetToken, Peek;
    PeekKind(s, i, "&");
  }

  lemma LineUnfolds(s: string, i: nat)
    requires i <= |s|
    ensures var l := ParsePipe(s, i);
            ParseLine(s, i)
            == if l.Fail? then Fail
               else
                 var b := ParseBacks(s, l.pos, l.cmd);
                 if GetToken(s, b.pos).kind != Sign(';') then b
                 else
                   var r := ParseLine(s, GetToken(s, b.pos).next);
                   if r.Fail? then Fail else Done(List(b.cmd, r.cmd), r.pos)
  {
    hide GetToken, Peek, ParsePipe, ParseBacks, Tokens;
    var l := ParsePipe(s, i);
    if l.Done? {
      PeekKind(s, ParseBacks(s, l.pos, l.cmd).pos, ";");
    }
  }

  lemma AfterSkip(s: string, i: nat, ts: seq<Tok>)
    requires i <= |s|
    ensures Reads(s, Skip(s, i), ts) == Reads(s, i, ts)
    ensures Skip(s, After(s, Skip(s, i), |ts|)) == Skip(s, After(s, i, |ts|))
  {
    hide GetToken, Skip, Matches;
    SkipTwice(s, i);
  }

  lemma {:induction false} BacksParse(s: string, i: nat, c: Cmd, n: nat)
    requires i <= |s| && Tokens(s, c) && Reads(s, i, Backs(n)) && Skip(s, i) == i
    requires GetToken(s, After(s, i, |Backs(n)|)).kind != Sign('&')
    ensures ParsesTo(ParseBacks(s, i, c), s, After(s, i, |Backs(n)|), InBackground(Read(s, c), n))
    ensures Skip(s, After(s, i, |Backs(n)|)) == After(s, i, |Backs(n)|)
    decreases n
  {
    hide GetToken, Skip, ParseBacks, Reads, After, Tokens;
    BacksUnfold(s, i, c);
    if n == 0 {
      AfterNone(s, i);
    } else {
      ReadsSplit(s, i, [TSign('&')], Backs(n - 1));
      ReadsOne(s, i, TSign('&'));
      SkipTwice(s, i);
      BackTokens(s, c);
      BacksParse(s, GetToken(s, i).next, Back(c), n - 1);
    }
  }

  lemma BackTokens(s: string, c: Cmd)
    requires Tokens(s, c)
    ensures Tokens(s, Back(c))
  {
  }

  // ---- every line of the grammar parses to its meaning ----

  lemma SimpleParses(s: string, i: nat, items: seq<Item>)
    requires i <= |s| && UnitFits(Simple(items)) && Reads(s, i, ItemsToks(items))
    requires Follows(s, After(s, i, |ItemsToks(items)|), "|)&;")
    ensures ParsesTo(ParseExec(s, i), s, Skip(s, After(s, i, |ItemsToks(items)|)), UnitTree(Simple(items)))
  {
    hide GetToken, Skip, ParseExec, ParseLine, Rest, Around, Text, Read, Reads, After;
    ItemsParse(s, i, items, [], []);
    ExecUnfolds(s, i);
    assert Texts(s, []) + Words(items) == Words(items) && FileTexts(s, []) + Files(items) == Files(items);
    if items == [] {
      AfterNone(s, i);
    } else {
      FirstItem(s, i, items);
    }
  }

  /** A block whose line has been parsed. */
  lemma GroupParses(s: string, i: nat, m: nat, t: Tree, redirs: seq<Item>)
    requires i <= |s| && m <= |s| && GetToken(s, i).kind == Sign('(') && GetToken(s, m).kind == Sign(')')
    requires ParsesTo(ParseLine(s, GetToken(s, i).next), s, Skip(s, m), t)
    requires forall k | 0 <= k < |redirs| :: !redirs[k].Arg?
    requires Reads(s, GetToken(s, m).next, ItemsToks(redirs))
    requires Follows(s, After(s, GetToken(s, m).next, |ItemsToks(redirs)|), "|)&;")
    ensures ParsesTo(ParseExec(s, i), s, Skip(s, After(s, GetToken(s, m).next, |ItemsToks(redirs)|)), Around(t, Files(redirs)))
  {
    hide GetToken, Skip, ParseExec, ParseLine, ParseRedirs, Around, Text, Read, Reads, After, Wrap, FileTexts;
    ExecUnfolds(s, i);
    SkipTwice(s, m);
    var n := GetToken(s, m).next;
    RedirsParse(s, n, redirs, []);
    assert FileTexts(s, []) + Files(redirs) == Files(redirs) by { NoFiles(s); }
    ReadWrap(s, ParseLine(s, GetToken(s, i).next).cmd, ParseRedirs(s, n, []).rs);
  }

  lemma NoFiles(s: string)
    ensures FileTexts(s, []) == []
  {
  }

  lemma {:induction false} UnitParses(s: string, i: nat, u: Unit)
    requires i <= |s| && UnitFits(u) && Reads(s, i, UnitToks(u)) && Follows(s, After(s, i, |UnitToks(u)|), "|)&;")
    ensures ParsesTo(ParseExec(s, i), s, Skip(s, After(s, i, |UnitToks(u)|)), UnitTree(u))
    decreases u
  {
    hide GetToken, Skip, ParseExec, ParseLine, ParsesTo, Reads, After, ItemsToks, LineToks;
    match u
    case Simple(items) => SimpleParses(s, i, items);
    case Group(line, redirs) =>
      ReadsSplit(s, i, [TSign('(')], LineToks(line) + ([TSign(')')] + ItemsToks(redirs)));
      ReadsOne(s, i, TSign('('));
      var k := GetToken(s, i).next;
      ReadsSplit(s, k, LineToks(line), [TSign(')')] + ItemsToks(redirs));
      var m := After(s, k, |LineToks(line)|);
      ReadsSplit(s, m, [TSign(')')], ItemsToks(redirs));
      ReadsOne(s, m, TSign(')'));
      LineParses(s, k, line);
      GroupParses(s, i, m, LineTree(line), redirs);
  }

  lemma {:induction false} PipeParses(s: string, i: nat, p: Pipe)
    requires i <= |s| && PipeFits(p) && Reads(s, i, PipeToks(p)) && Follows(s, After(s, i, |PipeToks(p)|), ")&;")
    ensures ParsesTo(ParsePipe(s, i), s, Skip(s, After(s, i, |PipeToks(p)|)), PipeTree(p))
    decreases p
  {
    hide GetToken, Skip, ParseExec, ParsePipe, Reads, After, UnitToks, UnitTree, UnitFits;
    PipeUnfolds(s, i);
    match p
    case One(u) =>
      UnitParses(s, i, u);
      SkipTwice(s, After(s, i, |UnitToks(u)|));
    case PipeTo(u, rest) =>
      ReadsSplit(s, i, UnitToks(u), [TSign('|')] + PipeToks(rest));
      var m := After(s, i, |UnitToks(u)|);
      ReadsSplit(s, m, [TSign('|')], PipeToks(rest));
      ReadsOne(s, m, TSign('|'));
      UnitParses(s, i, u);
      SkipTwice(s, m);
      PipeParses(s, GetToken(s, m).next, rest);
  }

  lemma PipeThenBacks(s: string, i: nat, p: Pipe, n: nat)
    requires i <= |s| && Reads(s, i, PipeToks(p)) && Reads(s, After(s, i, |PipeToks(p)|), Backs(n))
    requires ParsesTo(ParsePipe(s, i), s, Skip(s, After(s, i, |PipeToks(p)|)), PipeTree(p))
    requires GetToken(s, After(s, After(s, i, |PipeToks(p)|), |Backs(n)|)).kind != Sign('&')
    ensures var l := ParsePipe(s, i);
            ParsesTo(ParseBacks(s, l.pos, l.cmd), s, Skip(s, After(s, After(s, i, |PipeToks(p)|), |Backs(n)|)),
                     InBackground(PipeTree(p), n))
  {
    hide GetToken, Skip, ParsePipe, ParseBacks, Reads, After, PipeToks, PipeTree, InBackground, Backs, Read;
    var m := After(s, i, |PipeToks(p)|);
    var l := ParsePipe(s, i);
    AfterSkip(s, m, Backs(n));
    SkipTwice(s, m);
    SkipTwice(s, After(s, m, |Backs(n)|));
    SkipTwice(s, After(s, Skip(s, m), |Backs(n)|));
    BacksParse(s, l.pos, l.cmd, n);
  }

  /** What may follow a pipeline: its &s, if it has any. */
  lemma AfterPipe(s: string, m: nat, n: nat, signs: string)
    requires m <= |s| && Reads(s, m, Backs(n)) && (signs == ")" || signs == ";)") && Follows(s, After(s, m, |Backs(n)|), signs)
    ensures Follows(s, m, ")&;") && GetToken(s, After(s, m, |Backs(n)|)).kind != Sign('&')
  {
    hide GetToken, Reads, After;
    if n == 0 {
      AfterNone(s, m);
    } else {
      ReadsSplit(s, m, [TSign('&')], Backs(n - 1));
      ReadsOne(s, m, TSign('&'));
    }
  }

  lemma {:induction false} LineParses(s: string, i: nat, x: Line)
    requires i <= |s| && LineFits(x) && Reads(s, i, LineToks(x)) && Follows(s, After(s, i, |LineToks(x)|), ")")
    ensures ParsesTo(ParseLine(s, i), s, Skip(s, After(s, i, |LineToks(x)|)), LineTree(x))
    decreases x
  {
    hide GetToken, Skip, ParsePipe, ParseLine, ParseBacks, Reads, After, PipeToks, PipeTree, InBackground, Backs, PipeFits;
    LineUnfolds(s, i);
    var m := After(s, i, |PipeToks(x.p)|);
    var k := After(s, m, |Backs(x.backs)|);
    if x.Last? {
      ReadsSplit(s, i, PipeToks(x.p), Backs(x.backs));
      AfterPipe(s, m, x.backs, ")");
    } else {
      var more := [TSign(';')] + LineToks(x.rest);
      ReadsSplit(s, i, PipeToks(x.p), Backs(x.backs) + more);
      ReadsSplit(s, m, Backs(x.backs), more);
      ReadsSplit(s, k, [TSign(';')], LineToks(x.rest));
      ReadsOne(s, k, TSign(';'));
      AfterPipe(s, m, x.backs, ";)");
      LineParses(s, GetToken(s, k).next, x.rest);
    }
    PipeParses(s, i, x.p);
    PipeThenBacks(s, i, x.p, x.backs);
    SkipTwice(s, k);
  }

  // ---- and every line the parser accepts is one of the grammar ----

  lemma RestStuck(s: string, i: nat, args: seq<Span>, rs: seq<Redirection>)
    requires i <= |s| && |args| < MAXARGS && Args(s, args) && RedirsAt(s, rs) && !Follows(s, i, "|)&;")
    requires var t := GetToken(s, i);
             if t.kind.Word? then |args| + 1 >= MAXARGS
             else Redirects(t.kind) ==> !GetToken(s, t.next).kind.Word?
    ensures Rest(s, i, args, rs).Fail?
  {
    RedirsUnfold(s, i, rs);
    SkipTwice(s, i);
    PeekKind(s, Skip(s, i), "|)&;");
    hide Peek, Skip, GetToken, ParseRedirs;
  }

  function RedirItem(k: Kind, f: string): Item {
    if k == Sign('<') then From(f) else if k == Sign('>') then To(f) else AppendTo(f)
  }

  lemma WordProper(s: string, i: nat)
    requires i <= |s| && GetToken(s, i).kind.Word?
    ensures IsWord(Text(s, GetToken(s, i).span))
  {
    hide GetToken;
    var sp := GetToken(s, i).span;
    assert TokenAt(s, sp);
  }

  lemma {:induction false} ItemsFound(s: string, i: nat, args: seq<Span>, rs: seq<Redirection>) returns (items: seq<Item>)
    requires i <= |s| && |args| < MAXARGS && Args(s, args) && RedirsAt(s, rs) && Rest(s, i, args, rs).Done?
    ensures Reads(s, i, ItemsToks(items)) && |args| + |Words(items)| < MAXARGS
    ensures forall k | 0 <= k < |items| :: IsWord(items[k].w)
    ensures Rest(s, i, args, rs).pos == Skip(s, After(s, i, |ItemsToks(items)|))
    decreases |s| - i
  {
    hide GetToken, Reads, After, Rest, Skip, Text, IsWord, Wrap, ItemToks, ParseRedirs, ParseArgs;
    var t := GetToken(s, i);
    var f := GetToken(s, t.next);
    if Follows(s, i, "|)&;") {
      RestAtEnd(s, i, args, rs);
      items := [];
      NoItems(s, i);
    } else if t.kind.Word? && |args| + 1 < MAXARGS {
      RestAtWord(s, i, args, rs);
      var more := ItemsFound(s, t.next, args + [t.span], rs);
      items := [Arg(Text(s, t.span))] + more;
      WordProper(s, i);
      assert items[1..] == more;
      FirstItem(s, i, items);
    } else if Redirects(t.kind) && f.kind.Word? {
      RestAtRedir(s, i, args, rs);
      var more := ItemsFound(s, f.next, args, rs + [Redirection(f.span, FdOf(t.kind))]);
      items := [RedirItem(t.kind, Text(s, f.span))] + more;
      WordProper(s, t.next);
      assert items[1..] == more;
      FirstItem(s, i, items);
    } else {
      RestStuck(s, i, args, rs);
    }
  }

  lemma NoItems(s: string, i: nat)
    requires i <= |s|
    ensures Reads(s, i, ItemsToks([])) && After(s, i, |ItemsToks([])|) == i
  {
  }

  lemma {:induction false} RedirsFound(s: string, i: nat, rs: seq<Redirection>) returns (items: seq<Item>)
    requires i <= |s| && RedirsAt(s, rs) && ParseRedirs(s, i, rs).Redirs?
    ensures Reads(s, i, ItemsToks(items)) && forall k | 0 <= k < |items| :: IsWord(items[k].w) && !items[k].Arg?
    ensures ParseRedirs(s, i, rs).pos == Skip(s, After(s, i, |ItemsToks(items)|))
    decreases |s| - i
  {
    hide GetToken, Reads, After, Skip, Text, IsWord, ItemToks, ParseRedirs;
    RedirsUnfold(s, i, rs);
    var t := GetToken(s, i);
    if Redirects(t.kind) {
      var f := GetToken(s, t.next);
      var more := RedirsFound(s, f.next, rs + [Redirection(f.span, FdOf(t.kind))]);
      items := [RedirItem(t.kind, Text(s, f.span))] + more;
      WordProper(s, t.next);
      assert items[1..] == more;
      FirstItem(s, i, items);
    } else {
      items := [];
      NoItems(s, i);
    }
  }

  lemma {:induction false} UnitFound(s: string, i: nat) returns (u: Unit)
    requires i <= |s| && ParseExec(s, i).Done?
    ensures UnitFits(u) && Reads(s, i, UnitToks(u)) && ParseExec(s, i).pos == Skip(s, After(s, i, |UnitToks(u)|))
    decreases |s| - i, 0
  {
    hide GetToken, Reads, After, Rest, Skip, Wrap, ParseRedirs, ParseLine, ParseExec, ItemsToks, LineToks, Words, LineFits;
    ExecUnfolds(s, i);
    if GetToken(s, i).kind != Sign('(') {
      var items := ItemsFound(s, i, [], []);
      u := Simple(items);
    } else {
      var k := GetToken(s, i).next;
      var line := LineFound(s, k);
      var m := After(s, k, |LineToks(line)|);
      SkipTwice(s, m);
      var redirs := RedirsFound(s, GetToken(s, m).next, []);
      u := Group(line, redirs);
      ReadsSplit(s, i, [TSign('(')], LineToks(line) + ([TSign(')')] + ItemsToks(redirs)));
      ReadsOne(s, i, TSign('('));
      ReadsSplit(s, k, LineToks(line), [TSign(')')] + ItemsToks(redirs));
      ReadsSplit(s, m, [TSign(')')], ItemsToks(redirs));
      ReadsOne(s, m, TSign(')'));
    }
  }

  lemma {:induction false} PipeFound(s: string, i: nat) returns (p: Pipe)
    requires i <= |s| && ParsePipe(s, i).Done?
    ensures PipeFits(p) && Reads(s, i, PipeToks(p)) && ParsePipe(s, i).pos == Skip(s, After(s, i, |PipeToks(p)|))
    decreases |s| - i, 1
  {
    hide GetToken, Reads, After, Skip, ParsePipe, ParseExec, UnitToks, UnitFits;
    PipeUnfolds(s, i);
    var u := UnitFound(s, i);
    var m := After(s, i, |UnitToks(u)|);
    SkipTwice(s, m);
    if GetToken(s, m).kind != Sign('|') {
      p := One(u);
    } else {
      Advances(s, i, m);
      var rest := PipeFound(s, GetToken(s, m).next);
      p := PipeTo(u, rest);
      ReadsSplit(s, i, UnitToks(u), [TSign('|')] + PipeToks(rest));
      ReadsSplit(s, m, [TSign('|')], PipeToks(rest));
      ReadsOne(s, m, TSign('|'));
    }
  }

  lemma Advances(s: string, i: nat, m: nat)
    requires i <= |s| && m <= |s| && i <= Skip(s, m) && !GetToken(s, m).kind.End?
    ensures i < GetToken(s, m).next <= |s|
  {
  }

  lemma {:induction false} BacksFound(s: string, i: nat, c: Cmd) returns (n: nat)
    requires i <= |s| && Tokens(s, c) && Skip(s, i) == i
    ensures Reads(s, i, Backs(n)) && ParseBacks(s, i, c).pos == After(s, i, |Backs(n)|)
    ensures Skip(s, After(s, i, |Backs(n)|)) == After(s, i, |Backs(n)|)
    decreases |s| - i
  {
    hide GetToken, Skip, ParseBacks, Reads, After, Tokens;
    BacksUnfold(s, i, c);
    if GetToken(s, i).kind != Sign('&') {
      n := 0;
      AfterNone(s, i);
      ReadsNone(s, i);
    } else {
      SkipTwice(s, i);
      BackTokens(s, c);
      var m := BacksFound(s, GetToken(s, i).next, Back(c));
      n := m + 1;
      ReadsSplit(s, i, [TSign('&')], Backs(m));
      ReadsOne(s, i, TSign('&'));
    }
  }

  lemma ReadsNone(s: string, i: nat)
    requires i <= |s|
    ensures Reads(s, i, [])
  {
  }

  lemma {:induction false} LineFound(s: string, i: nat) returns (x: Line)
    requires i <= |s| && ParseLine(s, i).Done?
    ensures LineFits(x) && Reads(s, i, LineToks(x)) && ParseLine(s, i).pos == Skip(s, After(s, i, |LineToks(x)|))
    decreases |s| - i, 2
  {
    hide GetToken, Reads, After, Skip, ParsePipe, ParseLine, ParseBacks, PipeToks, PipeFits, Backs;
    LineUnfolds(s, i);
    var p := PipeFound(s, i);
    var l := ParsePipe(s, i);
    var m := After(s, i, |PipeToks(p)|);
    SkipTwice(s, m);
    var n := BacksFound(s, l.pos, l.cmd);
    AfterSkip(s, m, Backs(n));
    var k := After(s, m, |Backs(n)|);
    SkipTwice(s, k);
    var b := ParseBacks(s, l.pos, l.cmd);
    assert b.pos == Skip(s, k);
    if GetToken(s, k).kind != Sign(';') {
      x := Last(p, n);
      ReadsSplit(s, i, PipeToks(p), Backs(n));
    } else {
      Advances(s, i, k);
      var rest := LineFound(s, GetToken(s, k).next);
      x := Then(p, n, rest);
      var more := [TSign(';')] + LineToks(rest);
      ReadsSplit(s, i, PipeToks(p), Backs(n) + more);
      ReadsSplit(s, m, Backs(n), more);
      ReadsSplit(s, k, [TSign(';')], LineToks(rest));
      ReadsOne(s, k, TSign(';'));
    }
  }

  // ---- spelling ----

  /** White space, then a character that is not. */
  lemma {:induction false} SkipTo(s: string, i: nat, a: nat)
    requires Blank(s, i, a) && (a < |s| ==> !White(s[a]))
    ensures Skip(s, i) == a
    decreases a - i
  {
    if i < a {
      SkipTo(s, i + 1, a);
    }
  }

  lemma {:induction false} WordTo(s: string, a: nat, b: nat)
    requires a <= b <= |s| && (forall k | a <= k < b :: WordChar(s[k])) && (b < |s| ==> !WordChar(s[b]))
    ensures WordEnd(s, a) == b
    decreases b - a
  {
    if a < b {
      WordTo(s, a + 1, b);
    }
  }

  lemma StandsAt(s: string, i: nat, a: nat, t: Tok)
    requires ProperTok(t) && Stands(s, i, a, t)
    ensures Spelling(t) != "" && a < |s| && !White(s[a]) && Skip(s, i) == a
    ensures forall k | 0 <= k < |Spelling(t)| :: s[a + k] == Spelling(t)[k]
  {
    var b := a + |Spelling(t)|;
    forall k | 0 <= k < |Spelling(t)| ensures s[a + k] == Spelling(t)[k] {
      assert s[a..b][k] == s[a + k];
    }
    assert s[a + 0] == Spelling(t)[0];
    SkipTo(s, i, a);
  }

  /** gettoken finds a token exactly where it is spelled. */
  lemma TokenSpelled(s: string, i: nat, a: nat, t: Tok)
    requires ProperTok(t) && Stands(s, i, a, t)
    ensures Matches(s, GetToken(s, i), t) && GetToken(s, i).next == Skip(s, a + |Spelling(t)|)
  {
    StandsAt(s, i, a, t);
    hide Skip, WordEnd, Blank;
    match t
    case TWord(w) => WordSpelled(s, i, a, w);
    case TSign(c) => assert s[a + 0] == c;
    case TAppend => assert s[a + 0] == '>' && s[a + 1] == '>';
  }

  lemma WordSpelled(s: string, i: nat, a: nat, w: string)
    requires IsWord(w) && Stands(s, i, a, TWord(w)) && Skip(s, i) == a
    requires forall k | 0 <= k < |w| :: s[a + k] == w[k]
    ensures Matches(s, GetToken(s, i), TWord(w)) && GetToken(s, i).next == Skip(s, a + |w|)
  {
    hide Skip, WordEnd, Blank;
    assert s[a + 0] == w[0];
    forall k | a <= k < a + |w| ensures WordChar(s[k]) {
      assert s[a + (k - a)] == w[k - a];
    }
    WordTo(s, a, a + |w|);
  }

  lemma WordIs(s: string, i: nat)
    requires i <= |s| && GetToken(s, i).kind.Word?
    ensures var sp := GetToken(s, i).span;
            && sp.q == Skip(s, i) && GetToken(s, i).next == Skip(s, sp.eq)
            && sp.q <= sp.eq <= |s| && (sp.eq < |s| ==> !WordChar(s[sp.eq]))
  {
    hide White, Symbol;
  }

  lemma WordFound(s: string, i: nat, w: string)
    requires i <= |s| && IsWord(w) && Matches(s, GetToken(s, i), TWord(w))
    ensures var a := GetToken(s, i).span.q;
            Stands(s, i, a, TWord(w)) && GetToken(s, i).next == Skip(s, a + |w|)
  {
    hide GetToken, Skip, Blank, WordChar, IsWord;
    BlankSkip(s, i);
    WordIs(s, i);
    var sp := GetToken(s, i).span;
    assert w == s[sp.q..sp.eq];
    StandsWord(s, i, sp.q, sp.eq);
  }

  lemma StandsWord(s: string, i: nat, a: nat, b: nat)
    requires a <= b <= |s| && Blank(s, i, a) && (b < |s| ==> !WordChar(s[b]))
    ensures Stands(s, i, a, TWord(s[a..b]))
  {
    hide Blank, WordChar;
  }

  lemma SignIs(s: string, i: nat, c: char)
    requires i <= |s| && GetToken(s, i).kind == Sign(c)
    ensures var q := GetToken(s, i).span.q;
            && q == Skip(s, i) && q < |s| && s[q] == c && GetToken(s, i).next == Skip(s, q + 1)
            && (c == '>' && q + 1 < |s| ==> s[q + 1] != '>')
  {
    hide White, WordEnd;
  }

  lemma AppendIs(s: string, i: nat)
    requires i <= |s| && GetToken(s, i).kind == Append
    ensures var q := GetToken(s, i).span.q;
            q == Skip(s, i) && q + 1 < |s| && s[q] == s[q + 1] == '>' && GetToken(s, i).next == Skip(s, q + 2)
  {
    hide White, WordEnd;
  }

  lemma SignFound(s: string, i: nat, t: Tok)
    requires i <= |s| && !t.TWord? && ProperTok(t) && Matches(s, GetToken(s, i), t)
    ensures var a := GetToken(s, i).span.q;
            Stands(s, i, a, t) && GetToken(s, i).next == Skip(s, a + |Spelling(t)|)
  {
    hide GetToken, Skip, Blank;
    BlankSkip(s, i);
    var q := GetToken(s, i).span.q;
    if t.TAppend? {
      AppendIs(s, i);
      assert s[q..q + 2] == ">>";
    } else {
      SignIs(s, i, t.c);
      assert s[q..q + 1] == [t.c];
    }
  }

  lemma TokenFound(s: string, i: nat, t: Tok)
    requires i <= |s| && ProperTok(t) && Matches(s, GetToken(s, i), t)
    ensures var a := GetToken(s, i).span.q;
            Stands(s, i, a, t) && GetToken(s, i).next == Skip(s, a + |Spelling(t)|)
  {
    hide GetToken, Skip, Stands;
    if t.TWord? {
      WordFound(s, i, t.w);
    } else {
      SignFound(s, i, t);
    }
  }

  lemma BlankSkip(s: string, i: nat)
    requires i <= |s|
    ensures Blank(s, i, Skip(s, i))
  {
  }

  ghost predicate Proper(ts: seq<Tok>) {
    forall k | 0 <= k < |ts| :: ProperTok(ts[k])
  }

  /** The tokens that are spelled are the tokens that are read. */
  lemma {:induction false} SpellsIff(s: string, i: nat, ts: seq<Tok>)
    requires i <= |s| && Proper(ts)
    ensures Spells(s, i, ts) <==> Reads(s, i, ts) && GetToken(s, After(s, i, |ts|)).kind.End?
    decreases |ts|
  {
    hide GetToken, Skip, Stands, Spelling, Blank, Matches;
    if ts == [] {
      NothingLeft(s, i);
    } else {
      if Spells(s, i, ts) {
        var a: nat :| Stands(s, i, a, ts[0]) && Spells(s, a + |Spelling(ts[0])|, ts[1..]);
        FirstSpelled(s, i, a, ts[0]);
        RestSpelled(s, i, a + |Spelling(ts[0])|, ts);
      }
      if Reads(s, i, ts) && GetToken(s, After(s, i, |ts|)).kind.End? {
        var a := GetToken(s, i).span.q;
        TokenFound(s, i, ts[0]);
        FirstSpelled(s, i, a, ts[0]);
        RestSpelled(s, i, a + |Spelling(ts[0])|, ts);
      }
    }
  }

  lemma FirstSpelled(s: string, i: nat, a: nat, t: Tok)
    requires ProperTok(t) && Stands(s, i, a, t)
    ensures a + |Spelling(t)| <= |s| && i <= |s|
    ensures Matches(s, GetToken(s, i), t) && GetToken(s, i).next == Skip(s, a + |Spelling(t)|)
  {
    hide GetToken, Skip, Matches;
    TokenSpelled(s, i, a, t);
  }

  lemma {:induction false} RestSpelled(s: string, i: nat, b: nat, ts: seq<Tok>)
    requires i <= |s| && b <= |s| && ts != [] && Proper(ts)
    requires Matches(s, GetToken(s, i), ts[0]) && GetToken(s, i).next == Skip(s, b)
    ensures Spells(s, b, ts[1..]) <==> Reads(s, i, ts) && GetToken(s, After(s, i, |ts|)).kind.End?
    decreases |ts|, 0
  {
    hide GetToken, Skip, Spells, Matches;
    SpellsIff(s, b, ts[1..]);
    AfterSkip(s, b, ts[1..]);
    EndSkip(s, After(s, b, |ts| - 1), After(s, Skip(s, b), |ts| - 1));
  }

  lemma NothingLeft(s: string, i: nat)
    requires i <= |s|
    ensures Blank(s, i, |s|) <==> GetToken(s, i).kind.End?
  {
    BlankSkip(s, i);
    if Blank(s, i, |s|) {
      SkipTo(s, i, |s|);
    }
  }

  lemma EndSkip(s: string, i: nat, j: nat)
    requires i <= |s| && j <= |s| && Skip(s, i) == Skip(s, j)
    ensures GetToken(s, i).kind == GetToken(s, j).kind
  {
    hide GetToken, Skip;
    SkipTwice(s, i);
    SkipTwice(s, j);
  }

  lemma {:induction false} ItemsProper(items: seq<Item>)
    requires forall k | 0 <= k < |items| :: IsWord(items[k].w)
    ensures Proper(ItemsToks(items))
  {
    if items != [] {
      ItemsProper(items[1..]);
    }
  }

  lemma {:induction false} UnitProper(u: Unit)
    requires UnitFits(u)
    ensures Proper(UnitToks(u))
  {
    match u
    case Simple(items) => ItemsProper(items);
    case Group(line, redirs) =>
      LineProper(line);
      ItemsProper(redirs);
  }

  lemma {:induction false} PipeProper(p: Pipe)
    requires PipeFits(p)
    ensures Proper(PipeToks(p))
  {
    UnitProper(p.u);
    if p.PipeTo? {
      PipeProper(p.rest);
    }
  }

  lemma {:induction false} LineProper(x: Line)
    requires LineFits(x)
    ensures Proper(LineToks(x))
  {
    PipeProper(x.p);
    BacksProper(x.backs);
    if x.Then? {
      LineProper(x.rest);
    }
  }

  lemma {:induction false} BacksProper(n: nat)
    ensures Proper(Backs(n))
  {
    if n > 0 {
      BacksProper(n - 1);
    }
  }

  // ---- the theorems ----

  /**
   However a line of the grammar is spelled, the parser accepts it and gives it its meaning: words and
   redirections in order and in any interleaving, | to the right and before &, & before ;.
   */
  lemma SpelledParses(s: string, x: Line)
    requires LineFits(x) && Spells(s, 0, LineToks(x))
    ensures ParseCmd(s).Done? && Read(s, ParseCmd(s).cmd) == LineTree(x)
  {
    hide LineFits, LineToks, Spells, Reads, After, GetToken, Skip, ParseLine, Read, LineTree;
    LineProper(x);
    SpellsIff(s, 0, LineToks(x));
    LineParses(s, 0, x);
    var n := After(s, 0, |LineToks(x)|);
    EndIs(s, n);
    SkipTwice(s, n);
  }

  lemma EndIs(s: string, n: nat)
    requires n <= |s|
    ensures GetToken(s, n).kind.End? <==> Skip(s, n) == |s|
  {
  }

  /** The parser accepts a line if and only if it spells one of the grammar; so it fails on every other. */
  lemma AcceptedIff(s: string)
    ensures ParseCmd(s).Done? <==> exists x :: LineFits(x) && Spells(s, 0, LineToks(x))
  {
    hide LineFits, LineToks, Spells, Reads, After, GetToken, Skip, ParseLine, LineTree;
    if ParseCmd(s).Done? {
      var x := LineFound(s, 0);
      var n := After(s, 0, |LineToks(x)|);
      SkipTwice(s, n);
      EndIs(s, n);
      LineProper(x);
      SpellsIff(s, 0, LineToks(x));
    }
    if exists x :: LineFits(x) && Spells(s, 0, LineToks(x)) {
      var x :| LineFits(x) && Spells(s, 0, LineToks(x));
      SpelledParses(s, x);
    }
  }
}
