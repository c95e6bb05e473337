/**
 The shell's grammar on its own: what a command line is, and which command it means, without saying
 how it is parsed. sh.c's parser accepts exactly the lines of this grammar and gives each its meaning.

   line ::= pipe '&'* [';' line]      pipe ::= unit ['|' pipe]
   unit ::= item*  |  '(' line ')' redirection*
 */
module ShellGrammar {
  import opened ShellSpec

  /** A command with its words as strings instead of places in the input. */
  datatype Tree =
    | TExec(args: seq<string>)
    | TRedir(cmd: Tree, file: string, fd: int)
    | TPipe(left: Tree, right: Tree)
    | TList(left: Tree, right: Tree)
    | TBack(cmd: Tree)

  predicate IsWord(w: string) {
    w != "" && forall k | 0 <= k < |w| :: WordChar(w[k])
  }

  // ---- lexical structure ----

  datatype Tok = TWord(w: string) | TSign(c: char) | TAppend

  function Spelling(t: Tok): string {
    match t
    case TWord(w) => w
    case TSign(c) => [c]
    case TAppend => ">>"
  }

  predicate ProperTok(t: Tok) {
    match t
    case TWord(w) => IsWord(w)
    case TSign(c) => c in "<|>&;()"
    case TAppend => true
  }

  /** No character that could belong to t follows it at b. */
  predicate CutAfter(s: string, b: nat, t: Tok) {
    b < |s| ==> (t.TWord? ==> !WordChar(s[b])) && (t == TSign('>') ==> s[b] != '>')
  }

  ghost predicate Blank(s: string, i: nat, j: nat) {
    i <= j <= |s| && forall k | i <= k < j :: s[k] in " \t\r\n\U{000B}"
  }

  /** After white space from i on, token t stands at position a. */
  ghost predicate Stands(s: string, i: nat, a: nat, t: Tok) {
    var b := a + |Spelling(t)|;
    Blank(s, i, a) && b <= |s| && s[a..b] == Spelling(t) && CutAfter(s, b, t)
  }

  /** From position i on, s is the tokens ts in order, with any white space around them. */
  ghost predicate Spells(s: string, i: nat, ts: seq<Tok>)
    decreases |ts|
  {
    if ts == [] then Blank(s, i, |s|)
    else exists a: nat :: Stands(s, i, a, ts[0]) && Spells(s, a + |Spelling(ts[0])|, ts[1..])
  }

  // ---- syntax ----

  /** A word of a simple command, or a redirection, which may stand anywhere among the words. */
  datatype Item = Arg(w: string) | From(w: string) | To(w: string) | AppendTo(w: string)

  datatype Unit = Simple(items: seq<Item>) | Group(line: Line, redirs: seq<Item>)
  datatype Pipe = One(u: Unit) | PipeTo(u: Unit, rest: Pipe)
  datatype Line = Last(p: Pipe, backs: nat) | Then(p: Pipe, backs: nat, rest: Line)

  function ItemToks(it: Item): seq<Tok> {
    match it
    case Arg(w) => [TWord(w)]
    case From(f) => [TSign('<'), TWord(f)]
    case To(f) => [TSign('>'), TWord(f)]
    case AppendTo(f) => [TAppend, TWord(f)]
  }

  function ItemsToks(items: seq<Item>): seq<Tok> {
    if items == [] then [] else ItemToks(items[0]) + ItemsToks(items[1..])
  }

  function Backs(n: nat): seq<Tok> {
    if n == 0 then [] else [TSign('&')] + Backs(n - 1)
  }

  function UnitToks(u: Unit): seq<Tok> {
    match u
    case Simple(items) => ItemsToks(items)
    case Group(line, redirs) => [TSign('(')] + (LineToks(line) + ([TSign(')')] + ItemsToks(redirs)))
  }

  function PipeToks(p: Pipe): seq<Tok> {
    match p
    case One(u) => UnitToks(u)
    case PipeTo(u, rest) => UnitToks(u) + ([TSign('|')] + PipeToks(rest))
  }

  function LineToks(x: Line): seq<Tok> {
    match x
    case Last(p, n) => PipeToks(p) + Backs(n)
    case Then(p, n, rest) => PipeToks(p) + (Backs(n) + ([TSign(';')] + LineToks(rest)))
  }

  /** Proper words, at most nine of them to a command, and only redirections after a block. */
  predicate UnitFits(u: Unit) {
    match u
    case Simple(items) => |Words(items)| < MAXARGS && forall k | 0 <= k < |items| :: IsWord(items[k].w)
    case Group(line, redirs) => LineFits(line) && forall k | 0 <= k < |redirs| :: IsWord(redirs[k].w) && !redirs[k].Arg?
  }

  predicate PipeFits(p: Pipe) {
    UnitFits(p.u) && (p.PipeTo? ==> PipeFits(p.rest))
  }

  predicate LineFits(x: Line) {
    PipeFits(x.p) && (x.Then? ==> LineFits(x.rest))
  }

  // ---- meaning ----

  function Words(items: seq<Item>): seq<string> {
    if items == [] then []
    else (if items[0].Arg? then [items[0].w] else []) + Words(items[1..])
  }

  function Files(items: seq<Item>): seq<(string, int)> {
    if items == [] then []
    else (if items[0].Arg? then [] else [(items[0].w, if items[0].From? then 0 else 1)]) + Files(items[1..])
  }

  /** t with the redirections fs around it, the first one innermost. */
  function Around(t: Tree, fs: seq<(string, int)>): Tree
    decreases |fs|
  {
    if fs == [] then t else Around(TRedir(t, fs[0].0, fs[0].1), fs[1..])
  }

  function InBackground(t: Tree, n: nat): Tree
    decreases n
  {
    if n == 0 then t else InBackground(TBack(t), n - 1)
  }

  function UnitTree(u: Unit): Tree {
    match u
    case Simple(items) => Around(TExec(Words(items)), Files(items))
    case Group(line, redirs) => Around(LineTree(line), Files(redirs))
  }

  function PipeTree(p: Pipe): Tree {
    match p
    case One(u) => UnitTree(u)
    case PipeTo(u, rest) => TPipe(UnitTree(u), PipeTree(rest))
  }

  function LineTree(x: Line): Tree {
    match x
    case Last(p, n) => InBackground(PipeTree(p), n)
    case Then(p, n, rest) => TList(InBackground(PipeTree(p), n), LineTree(rest))
  }

  // ---- the tokens that gettoken finds, and the command that the parser builds from them ----

  function Text(s: string, sp: Span): string {
    if sp.q <= sp.eq <= |s| then s[sp.q..sp.eq] else ""
  }

  function Texts(s: string, args: seq<Span>): seq<string> {
    seq(|args|, k requires 0 <= k < |args| => Text(s, args[k]))
  }

  /** The tree a parsed command stands for. */
  function Read(s: string, c: Cmd): Tree {
    match c
    case Exec(args) => TExec(Texts(s, args))
    case Redir(c1, r) => TRedir(Read(s, c1), Text(s, r.file), r.fd)
    case Piped(l, r) => TPipe(Read(s, l), Read(s, r))
    case List(l, r) => TList(Read(s, l), Read(s, r))
    case Back(c1) => TBack(Read(s, c1))
  }

  predicate Matches(s: string, t: Token, k: Tok) {
    match k
    case TWord(w) => t.kind.Word? && Text(s, t.span) == w
    case TSign(c) => t.kind == Sign(c)
    case TAppend => t.kind.Append?
  }

  /** Reading tokens from position i on gives first those of ts. */
  predicate Reads(s: string, i: nat, ts: seq<Tok>)
    requires i <= |s|
    decreases |ts|
  {
    ts == [] || (Matches(s, GetToken(s, i), ts[0]) && Reads(s, GetToken(s, i).next, ts[1..]))
  }

  /** The position after n tokens. */
  function After(s: string, i: nat, n: nat): (r: nat)
    requires i <= |s|
    ensures r <= |s|
    decreases n
  {
    if n == 0 then i else After(s, GetToken(s, i).next, n - 1)
  }

  lemma {:induction false} ReadsSplit(s: string, i: nat, a: seq<Tok>, b: seq<Tok>)
    requires i <= |s|
    ensures Reads(s, i, a + b) <==> Reads(s, i, a) && Reads(s, After(s, i, |a|), b)
    ensures After(s, i, |a + b|) == After(s, After(s, i, |a|), |b|)
    decreases |a|
  {
    hide GetToken, Matches;
    if a == [] {
      assert a + b == b;
    } else {
      assert (a + b)[1..] == a[1..] + b && (a + b)[0] == a[0];
      ReadsSplit(s, GetToken(s, i).next, a[1..], b);
    }
  }

  lemma ReadsOne(s: string, i: nat, t: Tok)
    requires i <= |s|
    ensures Reads(s, i, [t]) <==> Matches(s, GetToken(s, i), t)
    ensures After(s, i, 1) == GetToken(s, i).next
  {
    hide GetToken, Matches;
    assert [t][1..] == [];
  }

  /** White space before a token makes no difference. */
  lemma SkipTwice(s: string, i: nat)
    requires i <= |s|
    ensures Skip(s, Skip(s, i)) == Skip(s, i) && GetToken(s, Skip(s, i)) == GetToken(s, i)
    ensures Skip(s, GetToken(s, i).next) == GetToken(s, i).next
  {
    var t := GetToken(s, i);
    assert t.next == |s| || !White(s[t.next]);
  }

  /** peek looks at the kind of the next token. */
  lemma PeekKind(s: string, i: nat, toks: string)
    requires i <= |s| && forall c | c in toks :: Symbol(c)
    ensures var k := GetToken(s, i).kind; Peek(s, i, toks) <==> (k.Sign? && k.c in toks) || (k.Append? && '>' in toks)
  {
  }
}
