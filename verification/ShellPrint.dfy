/** Printing commands with no more parentheses than they need, which sh.c's parser inverts. */
module ShellPrint {
  import opened ShellSpec
  import opened ShellGrammar
  import opened ShellParse

  /** Trees the shell can express: proper words, and at most nine arguments to a command. */
  predicate Printable(t: Tree) {
    match t
    case TExec(args) => |args| < MAXARGS && forall k | 0 <= k < |args| :: IsWord(args[k])
    case TRedir(t1, f, fd) => Printable(t1) && IsWord(f) && (fd == 0 || fd == 1)
    case TPipe(l, r) => Printable(l) && Printable(r)
    case TList(l, r) => Printable(l) && Printable(r)
    case TBack(t1) => Printable(t1)
  }

  // ---- the line for a tree ----

  function Core(t: Tree): (c: Tree)
    ensures !c.TRedir? && (c == t || c < t)
  {
    if t.TRedir? then Core(t.cmd) else t
  }

  /** The redirections around the core, innermost first. */
  function Shell(t: Tree): seq<Item> {
    if t.TRedir? then Shell(t.cmd) + [if t.fd == 0 then From(t.file) else To(t.file)] else []
  }

  function Fore(t: Tree): (c: Tree)
    ensures !c.TBack? && (c == t || c < t)
  {
    if t.TBack? then Fore(t.cmd) else t
  }

  function BackCount(t: Tree): nat {
    if t.TBack? then BackCount(t.cmd) + 1 else 0
  }

  function Arguments(args: seq<string>): seq<Item> {
    seq(|args|, k requires 0 <= k < |args| => Arg(args[k]))
  }

  function PlainUnit(t: Tree): Unit
    decreases t, 2
  {
    var c := Core(t);
    if c.TExec? then Simple(Arguments(c.args) + Shell(t)) else Group(PlainLine(c), Shell(t))
  }

  function PlainPipe(t: Tree): Pipe
    decreases t, if t.TPipe? then 0 else 3
  {
    if t.TPipe? then PipeTo(PlainUnit(t.left), PlainPipe(t.right)) else One(PlainUnit(t))
  }

  function PlainLine(t: Tree): Line
    decreases t, if t.TExec? || t.TRedir? then 4 else 1
  {
    if t.TList? then Then(PlainPipe(Fore(t.left)), BackCount(t.left), PlainLine(t.right))
    else Last(PlainPipe(Fore(t)), BackCount(t))
  }

  // ---- it means the tree ----

  lemma {:induction false} ArgumentsMean(args: seq<string>, redirs: seq<Item>)
    requires forall k | 0 <= k < |redirs| :: !redirs[k].Arg?
    ensures Words(Arguments(args) + redirs) == args && Files(Arguments(args) + redirs) == Files(redirs)
    decreases |args|
  {
    var items := Arguments(args) + redirs;
    if args == [] {
      assert items == redirs;
      NoWords(redirs);
    } else {
      assert items[1..] == Arguments(args[1..]) + redirs;
      ArgumentsMean(args[1..], redirs);
    }
  }

  lemma {:induction false} NoWords(redirs: seq<Item>)
    requires forall k | 0 <= k < |redirs| :: !redirs[k].Arg?
    ensures Words(redirs) == []
  {
    if redirs != [] {
      NoWords(redirs[1..]);
    }
  }

  lemma {:induction false} FilesConcat(a: seq<Item>, b: seq<Item>)
    ensures Files(a + b) == Files(a) + Files(b)
    decreases |a|
  {
    if a == [] {
      assert a + b == b;
    } else {
      assert (a + b)[1..] == a[1..] + b;
      FilesConcat(a[1..], b);
    }
  }

  lemma {:induction false} ShellMeans(t: Tree)
    requires Printable(t)
    ensures Printable(Core(t)) && Around(Core(t), Files(Shell(t))) == t
    ensures forall k | 0 <= k < |Shell(t)| :: IsWord(Shell(t)[k].w) && !Shell(t)[k].Arg?
  {
    if t.TRedir? {
      ShellMeans(t.cmd);
      var last := if t.fd == 0 then From(t.file) else To(t.file);
      FilesConcat(Shell(t.cmd), [last]);
      assert Files([last]) == [(t.file, t.fd)] by { assert [last][1..] == []; }
      AroundLast(Core(t), Files(Shell(t.cmd)), (t.file, t.fd));
    }
  }

  lemma {:induction false} BacksLast(t: Tree, n: nat)
    ensures InBackground(t, n + 1) == TBack(InBackground(t, n))
    decreases n
  {
    if n > 0 {
      BacksLast(TBack(t), n - 1);
    }
  }

  lemma {:induction false} ForeMeans(t: Tree)
    requires Printable(t)
    ensures Printable(Fore(t)) && InBackground(Fore(t), BackCount(t)) == t
  {
    if t.TBack? {
      ForeMeans(t.cmd);
      BacksLast(Fore(t), BackCount(t.cmd));
    }
  }

  lemma {:induction false} PlainUnitMeans(t: Tree)
    requires Printable(t)
    ensures UnitFits(PlainUnit(t)) && UnitTree(PlainUnit(t)) == t
    decreases t, 2
  {
    hide PlainLine, Around, Files, Shell, Core, IsWord, Words;
    ShellMeans(t);
    CoreSmaller(t);
    var c := Core(t);
    if c.TExec? {
      ArgumentsMean(c.args, Shell(t));
      SimpleFits(c.args, Shell(t));
    } else {
      PlainLineMeans(c);
    }
  }

  lemma CoreSmaller(t: Tree)
    ensures !Core(t).TRedir? && (Core(t) == t || Core(t) < t)
  {
  }

  lemma SimpleFits(args: seq<string>, redirs: seq<Item>)
    requires forall k | 0 <= k < |args| :: IsWord(args[k])
    requires forall k | 0 <= k < |redirs| :: IsWord(redirs[k].w)
    ensures var items := Arguments(args) + redirs; forall k | 0 <= k < |items| :: IsWord(items[k].w)
  {
    hide IsWord;
  }

  lemma {:induction false} PlainPipeMeans(t: Tree)
    requires Printable(t)
    ensures PipeFits(PlainPipe(t)) && PipeTree(PlainPipe(t)) == t
    decreases t, if t.TPipe? then 0 else 3
  {
    hide PlainUnit, UnitTree, UnitFits;
    if t.TPipe? {
      PlainUnitMeans(t.left);
      PlainPipeMeans(t.right);
    } else {
      PlainUnitMeans(t);
    }
  }

  lemma {:induction false} PlainLineMeans(t: Tree)
    requires Printable(t)
    ensures LineFits(PlainLine(t)) && LineTree(PlainLine(t)) == t
    decreases t, if t.TExec? || t.TRedir? then 4 else 1
  {
    hide PlainPipe, PipeTree, PipeFits, InBackground;
    if t.TList? {
      ForeMeans(t.left);
      ForeSmaller(t.left);
      PlainPipeMeans(Fore(t.left));
      PlainLineMeans(t.right);
    } else {
      ForeMeans(t);
      ForeSmaller(t);
      PlainPipeMeans(Fore(t));
    }
  }

  lemma ForeSmaller(t: Tree)
    ensures !Fore(t).TBack? && (Fore(t) == t || Fore(t) < t)
  {
  }

  // ---- with the fewest parentheses ----

  function UnitGroups(u: Unit): nat {
    if u.Simple? then 0 else 1 + LineGroups(u.line)
  }

  function PipeGroups(p: Pipe): nat {
    UnitGroups(p.u) + if p.PipeTo? then PipeGroups(p.rest) else 0
  }

  function LineGroups(x: Line): nat {
    PipeGroups(x.p) + if x.Then? then LineGroups(x.rest) else 0
  }

  /** A tree that can stand without parentheses needs no more of them than one that has them. */
  lemma PlainSaves(t: Tree)
    ensures LineGroups(PlainLine(t)) <= PipeGroups(PlainPipe(t)) <= UnitGroups(PlainUnit(t))
  {
  }

  lemma {:induction false} CoreAround(t: Tree, fs: seq<(string, int)>)
    ensures Core(Around(t, fs)) == Core(t)
    decreases |fs|
  {
    if fs != [] {
      CoreAround(TRedir(t, fs[0].0, fs[0].1), fs[1..]);
    }
  }

  lemma {:induction false} UnitFewest(u: Unit)
    ensures UnitGroups(PlainUnit(UnitTree(u))) <= UnitGroups(u)
  {
    hide PlainPipe, Around, Files;
    match u
    case Simple(items) => CoreAround(TExec(Words(items)), Files(items));
    case Group(line, redirs) =>
      var t := LineTree(line);
      CoreAround(t, Files(redirs));
      LineFewest(line);
      CoreSaves(t);
  }

  lemma CoreSaves(t: Tree)
    ensures Core(t).TExec? || LineGroups(PlainLine(Core(t))) <= LineGroups(PlainLine(t))
  {
    if t.TRedir? {
      var u := PlainUnit(t);
      assert PlainPipe(t) == One(u);
      assert LineGroups(Last(One(u), 0)) == PipeGroups(One(u)) == UnitGroups(u);
    }
  }

  lemma {:induction false} PipeFewest(p: Pipe)
    ensures PipeGroups(PlainPipe(PipeTree(p))) <= PipeGroups(p)
  {
    hide PlainUnit, UnitTree, UnitGroups;
    UnitFewest(p.u);
    if p.PipeTo? {
      PipeFewest(p.rest);
    } else {
      PlainSaves(UnitTree(p.u));
    }
  }

  lemma {:induction false} ForeOf(t: Tree, n: nat)
    ensures Fore(InBackground(t, n)) == Fore(t) && (n > 0 ==> InBackground(t, n).TBack?)
    decreases n
  {
    if n > 0 {
      ForeOf(TBack(t), n - 1);
    }
  }

  lemma ForeSaves(t: Tree)
    ensures PipeGroups(PlainPipe(Fore(t))) <= PipeGroups(PlainPipe(t))
  {
    if t.TBack? {
      var x := PlainLine(t);
      assert PlainPipe(t) == One(PlainUnit(t)) && PlainUnit(t) == Group(x, []);
      assert PipeGroups(One(Group(x, []))) == UnitGroups(Group(x, [])) == 1 + LineGroups(x);
      assert LineGroups(x) == PipeGroups(x.p);
    }
  }

  /** However a command is written, its plain form has no more parentheses. */
  lemma {:induction false} LineFewest(x: Line)
    ensures LineGroups(PlainLine(LineTree(x))) <= LineGroups(x)
  {
    hide PlainUnit, PlainPipe, PipeTree, PipeGroups, InBackground, Fore;
    var t := PipeTree(x.p);
    PipeFewest(x.p);
    ForeOf(t, x.backs);
    ForeSaves(t);
    if x.Then? {
      LineFewest(x.rest);
    } else if x.backs == 0 {
      PlainSaves(t);
      assert InBackground(t, 0) == t by { NoBacks(t); }
    }
  }

  lemma NoBacks(t: Tree)
    ensures InBackground(t, 0) == t
  {
  }

  // ---- printing ----

  function Print(ts: seq<Tok>): string {
    if ts == [] then "" else Spelling(ts[0]) + (" " + Print(ts[1..]))
  }

  lemma SpellsBlank(s: string, b: nat, ts: seq<Tok>)
    requires b < |s| && s[b] == ' ' && Spells(s, b + 1, ts)
    ensures Spells(s, b, ts)
  {
    if ts != [] {
      var a: nat :| Stands(s, b + 1, a, ts[0]) && Spells(s, a + |Spelling(ts[0])|, ts[1..]);
      assert Stands(s, b, a, ts[0]);
    }
  }

  lemma Cut(s: string, i: nat, a: string, b: string)
    requires i <= |s| && s[i..] == a + b
    ensures i + |a| <= |s| && s[i..i + |a|] == a && s[i + |a|..] == b
  {
    assert s[i..i + |a|] == s[i..][..|a|];
    assert s[i + |a|..] == s[i..][|a|..];
  }

  lemma PrintFirst(s: string, i: nat, ts: seq<Tok>)
    requires ts != [] && i <= |s| && s[i..] == Print(ts)
    ensures var b := i + |Spelling(ts[0])|;
            Stands(s, i, i, ts[0]) && b < |s| && s[b] == ' ' && s[b + 1..] == Print(ts[1..])
  {
    var w, rest := Spelling(ts[0]), Print(ts[1..]);
    Cut(s, i, w, " " + rest);
    Cut(s, i + |w|, " ", rest);
    hide Print, Spelling;
    assert s[i + |w|] == s[i + |w|..i + |w| + 1][0];
  }

  lemma {:induction false} PrintSpells(s: string, i: nat, ts: seq<Tok>)
    requires i <= |s| && s[i..] == Print(ts)
    ensures Spells(s, i, ts)
    decreases |ts|
  {
    hide Print, Stands, Spelling;
    if ts == [] {
      assert s[i..] == "" by { PrintNone(); }
    } else {
      PrintFirst(s, i, ts);
      var b := i + |Spelling(ts[0])|;
      PrintSpells(s, b + 1, ts[1..]);
      SpellsBlank(s, b, ts[1..]);
    }
  }

  lemma PrintNone()
    ensures Print([]) == ""
  {
  }

  function Show(t: Tree): string {
    Print(LineToks(PlainLine(t)))
  }

  /** Parsing inverts printing: the parser gives back every command, argument by argument. */
  lemma ParseInvertsShow(t: Tree)
    requires Printable(t)
    ensures var p := ParseCmd(Show(t)); p.Done? && Read(Show(t), p.cmd) == t
  {
    hide Printable, Print, ParseCmd, Read, Spells, LineFits, LineToks, LineTree, PlainLine;
    PlainLineMeans(t);
    PrintSpells(Show(t), 0, LineToks(PlainLine(t)));
    SpelledParses(Show(t), PlainLine(t));
  }

  lemma {:induction false} ReadPrintable(s: string, c: Cmd)
    requires Tokens(s, c)
    ensures Printable(Read(s, c))
    decreases c
  {
    match c
    case Exec(args) =>
      forall k | 0 <= k < |args| ensures IsWord(Texts(s, args)[k]) {
        assert TokenAt(s, args[k]);
      }
    case Redir(c1, r) => ReadPrintable(s, c1);
    case Piped(l, r) =>
      ReadPrintable(s, l);
      ReadPrintable(s, r);
    case List(l, r) =>
      ReadPrintable(s, l);
      ReadPrintable(s, r);
    case Back(c1) => ReadPrintable(s, c1);
  }

  /** Whatever line is accepted, printing its command and parsing again gives the same command. */
  lemma ReparseIsStable(s: string)
    requires ParseCmd(s).Done?
    ensures var t := Read(s, ParseCmd(s).cmd);
            Printable(t) && var p := ParseCmd(Show(t)); p.Done? && Read(Show(t), p.cmd) == t
  {
    hide ParseLine, Show;
    ReadPrintable(s, ParseCmd(s).cmd);
    ParseInvertsShow(Read(s, ParseCmd(s).cmd));
  }
}
