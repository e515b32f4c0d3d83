/** The lines that sh.c accepts, as a grammar with a meaning for each of its trees. The parser reads exactly these
    lines, and each as what it means; and every command can be written as such a line, with parentheses only where they
    are needed. */
module ShellGrammar {
  import opened Shell

  // ---------- the tokens of a line ----------

  function Tokens(s: string): (ts: seq<Token>)
    decreases |s|
  {
    var (tok, rest) := GetToken(s);
    if tok == Eol then [] else [tok] + Tokens(rest)
  }

  lemma {:induction false} SkipTwice(s: string)
    ensures Skip(Skip(s)) == Skip(s)
  {
    if s == [] || !IsSpace(s[0]) {
    } else {
      SkipTwice(s[1..]);
    }
  }

  /** Blanks in front do not matter. */
  lemma SkipTokens(s: string)
    ensures GetToken(Skip(s)) == GetToken(s) && Tokens(Skip(s)) == Tokens(s)
  {
    SkipTwice(s);
  }

  predicate Starts(t: Token, toks: string) {
    (t.Symbol? && t.c in toks) || (t == Append && '>' in toks)
  }

  /** The tokens start with one of these symbols. */
  predicate Next(ts: seq<Token>, toks: string) {
    ts != [] && Starts(ts[0], toks)
  }

  /** peek looks at the next token. */
  lemma PeekToken(s: string, toks: string)
    requires forall c | c in toks :: IsSymbol(c)
    ensures Peek(s, toks) <==> Next(Tokens(s), toks)
  {
    var t := Skip(s);
    if t != [] && !IsSymbol(t[0]) {
      assert t[0] !in toks;
    }
  }

  // ---------- how a line is spelled ----------

  function Letters(t: Token): (s: string) {
    match t
    case Eol => ""
    case Symbol(c) => [c]
    case Append => ">>"
    case Text(w) => w
  }

  predicate Real(t: Token) {
    match t
    case Eol => false
    case Symbol(c) => IsSymbol(c)
    case Append => true
    case Text(w) => ValidWord(w)
  }

  /** Two tokens that need no blank between them. */
  predicate MayTouch(a: Token, b: Token) {
    !(a.Text? && b.Text?) && !(a == Symbol('>') && Starts(b, ">"))
  }

  predicate Blank(g: string) {
    forall i | 0 <= i < |g| :: IsSpace(g[i])
  }

  /** Real tokens, with blanks around and between them, which may be missing where the tokens may touch. */
  predicate Spaced(ts: seq<Token>, gaps: seq<string>) {
    && |gaps| == |ts| + 1 && (forall i | 0 <= i < |ts| :: Real(ts[i])) && (forall i | 0 <= i < |gaps| :: Blank(gaps[i]))
    && forall i | 0 < i < |ts| && gaps[i] == [] :: MayTouch(ts[i - 1], ts[i])
  }

  function Spell(ts: seq<Token>, gaps: seq<string>): (s: string)
    requires |gaps| == |ts| + 1
  {
    if ts == [] then gaps[0] else gaps[0] + (Letters(ts[0]) + Spell(ts[1..], gaps[1..]))
  }

  lemma {:induction false} SkipBlank(g: string, post: string)
    requires Blank(g)
    ensures Skip(g + post) == Skip(post)
  {
    if g == [] {
      assert g + post == post;
    } else {
      assert (g + post)[1..] == g[1..] + post;
      SkipBlank(g[1..], post);
    }
  }

  /** What follows does not make the token longer. */
  predicate Ends(t: Token, post: string) {
    post == [] || (!(t.Text? && IsWordChar(post[0])) && !(t == Symbol('>') && post[0] == '>'))
  }

  lemma TokenRead(t: Token, post: string)
    requires Real(t) && Ends(t, post)
    ensures GetToken(Letters(t) + post) == (t, Skip(post))
  {
    match t
    case Symbol(c) => TokenSymbol(c, post);
    case Append => TokenAppend(post);
    case Text(w) => TokenWord(w, post);
  }

  lemma SpelledEnds(ts: seq<Token>, gaps: seq<string>)
    requires Spaced(ts, gaps) && ts != []
    ensures Ends(ts[0], Spell(ts[1..], gaps[1..]))
  {
    var s := Spell(ts[1..], gaps[1..]);
    if gaps[1] != [] {
      assert s[0] == gaps[1][0] && IsSpace(gaps[1][0]);
    } else if |ts| > 1 {
      assert s[0] == Letters(ts[1])[0] && MayTouch(ts[0], ts[1]);
    }
  }

  /** However a line is spaced, its tokens are read from it. */
  lemma {:induction false} SpellRead(ts: seq<Token>, gaps: seq<string>)
    requires Spaced(ts, gaps)
    ensures Tokens(Spell(ts, gaps)) == ts
    decreases |ts|
  {
    if ts == [] {
      SkipBlank(gaps[0], []);
      assert gaps[0] + [] == gaps[0];
    } else {
      var rest := Spell(ts[1..], gaps[1..]);
      var s := Letters(ts[0]) + rest;
      assert Spaced(ts[1..], gaps[1..]) by {
        assert forall i | 0 < i < |ts| - 1 :: gaps[1..][i] == gaps[i + 1] && ts[1..][i - 1] == ts[i];
      }
      SpellRead(ts[1..], gaps[1..]);
      SpelledEnds(ts, gaps);
      TokenRead(ts[0], rest);
      SkipBlank(gaps[0], s);
      SkipTokens(gaps[0] + s);
      SkipTokens(s);
      SkipTokens(rest);
    }
  }

  lemma {:induction false} SkipSplit(s: string) returns (g: string)
    ensures Blank(g) && s == g + Skip(s)
  {
    if s == [] || !IsSpace(s[0]) {
      g := [];
    } else {
      var h := SkipSplit(s[1..]);
      g := [s[0]] + h;
    }
  }

  lemma {:induction false} WordEnds(s: string)
    ensures |Word(s)| < |s| ==> !IsWordChar(s[|Word(s)|])
  {
    if s == [] || !IsWordChar(s[0]) {
    } else {
      WordEnds(s[1..]);
    }
  }

  /** The first token with what stands behind it. */
  lemma TokenSplit(s: string) returns (post: string)
    requires GetToken(s).0 != Eol
    ensures Skip(s) == Letters(GetToken(s).0) + post && GetToken(s).1 == Skip(post)
    ensures Real(GetToken(s).0) && Ends(GetToken(s).0, post) && |post| < |s|
  {
    var t := Skip(s);
    post := t[|Letters(GetToken(s).0)|..];
    TokenValid(s);
    WordEnds(t);
  }

  /** Every line is its tokens, spaced in some way. */
  lemma {:induction false} Spelled(s: string) returns (gaps: seq<string>)
    ensures Spaced(Tokens(s), gaps) && s == Spell(Tokens(s), gaps)
    decreases |s|
  {
    var g := SkipSplit(s);
    if GetToken(s).0 == Eol {
      gaps := [s];
    } else {
      var post := TokenSplit(s);
      SkipTokens(post);
      var more := Spelled(post);
      gaps := SpellMore(GetToken(s).0, Tokens(post), g, more);
    }
  }

  lemma SpellMore(t: Token, ts: seq<Token>, g: string, more: seq<string>) returns (gaps: seq<string>)
    requires Spaced(ts, more) && Blank(g) && Real(t) && Ends(t, Spell(ts, more))
    ensures Spaced([t] + ts, gaps) && Spell([t] + ts, gaps) == g + (Letters(t) + Spell(ts, more))
  {
    gaps := [g] + more;
    assert ([t] + ts)[1..] == ts && gaps[1..] == more;
    if ts != [] && more[0] == [] {
      assert Spell(ts, more)[0] == Letters(ts[0])[0];
    }
  }

  // ---------- the grammar ----------

  /** "<", ">" or ">>" */
  datatype Op = From | To | Onto

  datatype Redirection = Redirection(op: Op, file: string)

  /** A simple command is made of words and redirections in any order. */
  datatype Item = Arg(word: string) | Redirect(r: Redirection)

  datatype Part = Simple(items: seq<Item>) | Block(line: Line, rs: seq<Redirection>)

  /** Parts with "|" between them. */
  datatype Pipeline = One(part: Part) | Bar(part: Part, rest: Pipeline)

  /** Pipelines, each followed by a number of "&", with ";" between them. */
  datatype Line = Last(p: Pipeline, amps: nat) | Then(p: Pipeline, amps: nat, rest: Line)

  function OpToken(op: Op): (t: Token) {
    match op
    case From => Symbol('<')
    case To => Symbol('>')
    case Onto => Append
  }

  /** The tokens of each kind of tree, followed by post. */
  function FlatRedirs(rs: seq<Redirection>, post: seq<Token>): (ts: seq<Token>) {
    if rs == [] then post else [OpToken(rs[0].op), Text(rs[0].file)] + FlatRedirs(rs[1..], post)
  }

  function FlatItems(items: seq<Item>, post: seq<Token>): (ts: seq<Token>) {
    if items == [] then post
    else
      var rest := FlatItems(items[1..], post);
      match items[0]
      case Arg(w) => [Text(w)] + rest
      case Redirect(r) => [OpToken(r.op), Text(r.file)] + rest
  }

  function FlatPart(p: Part, post: seq<Token>): (ts: seq<Token>) {
    match p
    case Simple(items) => FlatItems(items, post)
    case Block(l, rs) => [Symbol('(')] + FlatLine(l, [Symbol(')')] + FlatRedirs(rs, post))
  }

  function FlatPipeline(p: Pipeline, post: seq<Token>): (ts: seq<Token>) {
    match p
    case One(part) => FlatPart(part, post)
    case Bar(part, rest) => FlatPart(part, [Symbol('|')] + FlatPipeline(rest, post))
  }

  function FlatAmps(k: nat, post: seq<Token>): (ts: seq<Token>) {
    if k == 0 then post else [Symbol('&')] + FlatAmps(k - 1, post)
  }

  function FlatLine(l: Line, post: seq<Token>): (ts: seq<Token>) {
    match l
    case Last(p, k) => FlatPipeline(p, FlatAmps(k, post))
    case Then(p, k, rest) => FlatPipeline(p, FlatAmps(k, [Symbol(';')] + FlatLine(rest, post)))
  }

  // ---------- what a line means ----------

  /** The first redirection is the innermost. */
  function Wrap(c: Cmd<string>, rs: seq<Redirection>): (d: Cmd<string>)
    decreases |rs|
  {
    if rs == [] then c
    else
      var last := rs[|rs| - 1];
      Redir(Wrap(c, rs[..|rs| - 1]), last.file, last.op != From)
  }

  function ArgsOf(items: seq<Item>): (args: seq<string>) {
    if items == [] then []
    else (match items[0] case Arg(w) => [w] case Redirect(_) => []) + ArgsOf(items[1..])
  }

  function RedirsOf(items: seq<Item>): (rs: seq<Redirection>) {
    if items == [] then []
    else (match items[0] case Arg(_) => [] case Redirect(r) => [r]) + RedirsOf(items[1..])
  }

  function Backs(c: Cmd<string>, k: nat): (d: Cmd<string>)
    decreases k
  {
    if k == 0 then c else Backs(Back(c), k - 1)
  }

  function PartMeans(p: Part): (c: Cmd<string>) {
    match p
    case Simple(items) => Wrap(Exec(ArgsOf(items)), RedirsOf(items))
    case Block(l, rs) => Wrap(LineMeans(l), rs)
  }

  function PipelineMeans(p: Pipeline): (c: Cmd<string>) {
    match p
    case One(part) => PartMeans(part)
    case Bar(part, rest) => Pipe(PartMeans(part), PipelineMeans(rest))
  }

  function LineMeans(l: Line): (c: Cmd<string>) {
    match l
    case Last(p, k) => Backs(PipelineMeans(p), k)
    case Then(p, k, rest) => List(Backs(PipelineMeans(p), k), LineMeans(rest))
  }

  /** No simple command has more than nine arguments. */
  predicate PartFits(p: Part) {
    match p
    case Simple(items) => |ArgsOf(items)| <= 9
    case Block(l, _) => LineFits(l)
  }

  predicate PipelineFits(p: Pipeline) {
    match p
    case One(part) => PartFits(part)
    case Bar(part, rest) => PartFits(part) && PipelineFits(rest)
  }

  predicate LineFits(l: Line) {
    match l
    case Last(p, _) => PipelineFits(p)
    case Then(p, _, rest) => PipelineFits(p) && LineFits(rest)
  }

  // ---------- the parser on tokens ----------

  /** What a part of the parser makes of the tokens ahead: a command, with the tokens behind it, or a panic. */
  datatype Parse = Got(cmd: Cmd<string>, rest: seq<Token>) | Fails(why: Fault)

  function ReadRedirs(c: Cmd<string>, ts: seq<Token>): (r: Parse)
    ensures r.Got? ==> |r.rest| <= |ts|
    decreases |ts|
  {
    if !Next(ts, "<>") then Got(c, ts)
    else if |ts| == 1 || !ts[1].Text? then Fails(MissingFile)
    else ReadRedirs(Redir(c, ts[1].w, ts[0] != Symbol('<')), ts[2..])
  }

  function ReadArgs(c: Cmd<string>, args: seq<string>, ts: seq<Token>): (r: Parse)
    ensures r.Got? ==> |r.rest| <= |ts|
    decreases |ts|
  {
    if ts == [] || Next(ts, "|)&;") then Got(WithArgs(c, args), ts)
    else if !ts[0].Text? then Fails(BadToken)
    else if |args| + 1 >= MAXARGS then Fails(TooManyArgs)
    else
      var d := ReadRedirs(c, ts[1..]);
      if d.Fails? then d else ReadArgs(d.cmd, args + [ts[0].w], d.rest)
  }

  function ReadExec(ts: seq<Token>): (r: Parse)
    ensures r.Got? ==> |r.rest| <= |ts|
    decreases |ts|, 0
  {
    if Next(ts, "(") then
      var c := ReadLine(ts[1..]);
      if c.Fails? then c
      else if !Next(c.rest, ")") then Fails(MissingParen)
      else ReadRedirs(c.cmd, c.rest[1..])
    else
      var c := ReadRedirs(Exec([]), ts);
      if c.Fails? then c else ReadArgs(c.cmd, [], c.rest)
  }

  function ReadPipe(ts: seq<Token>): (r: Parse)
    ensures r.Got? ==> |r.rest| <= |ts|
    decreases |ts|, 1
  {
    var c := ReadExec(ts);
    if c.Fails? || !Next(c.rest, "|") then c
    else
      var d := ReadPipe(c.rest[1..]);
      if d.Fails? then d else Got(Pipe(c.cmd, d.cmd), d.rest)
  }

  function ReadBack(c: Cmd<string>, ts: seq<Token>): (r: Parse)
    ensures r.Got? && |r.rest| <= |ts|
    decreases |ts|
  {
    if Next(ts, "&") then ReadBack(Back(c), ts[1..]) else Got(c, ts)
  }

  function ReadLine(ts: seq<Token>): (r: Parse)
    ensures r.Got? ==> |r.rest| <= |ts|
    decreases |ts|, 2
  {
    var c := ReadPipe(ts);
    if c.Fails? then c
    else
      var b := ReadBack(c.cmd, c.rest);
      if !Next(b.rest, ";") then b
      else
        var d := ReadLine(b.rest[1..]);
        if d.Fails? then d else Got(List(b.cmd, d.cmd), d.rest)
  }

  /** The parser on characters has come to the same. */
  predicate Same(r: Result, p: Parse) {
    match r
    case Ok(c, rest) => p == Got(c, Tokens(rest))
    case Panic(why) => p == Fails(why)
  }

  lemma Head(s: string)
    ensures GetToken(s).0 == Eol <==> Tokens(s) == []
    ensures Tokens(s) != [] ==> Tokens(s)[0] == GetToken(s).0 && Tokens(GetToken(s).1) == Tokens(s)[1..]
  {}

  lemma {:induction false} RedirsSame(c: Cmd<string>, s: string)
    ensures Same(ParseRedirs(c, s), ReadRedirs(c, Tokens(s)))
    decreases |s|
  {
    PeekToken(s, "<>");
    SkipTokens(s);
    if Peek(s, "<>") {
      var (tok, t) := GetToken(s);
      var (file, u) := GetToken(t);
      Head(s);
      Head(t);
      if file.Text? {
        RedirsSame(Redir(c, file.w, tok != Symbol('<')), u);
        assert Tokens(u) == Tokens(s)[2..];
      }
    }
  }

  lemma {:induction false} ArgsSame(c: Cmd<string>, args: seq<string>, s: string)
    ensures Same(ParseArgs(c, args, s), ReadArgs(c, args, Tokens(s)))
    decreases |s|
  {
    PeekToken(s, "|)&;");
    SkipTokens(s);
    Head(s);
    var (tok, t) := GetToken(s);
    if !Peek(s, "|)&;") && tok.Text? && |args| + 1 < MAXARGS {
      RedirsSame(c, t);
      var d := ParseRedirs(c, t);
      if d.Ok? { ArgsSame(d.cmd, args + [tok.w], d.rest); }
    }
  }

  lemma {:induction false} ExecSame(s: string)
    ensures Same(ParseExec(s), ReadExec(Tokens(s)))
    decreases |s|, 0
  {
    PeekToken(s, "(");
    Head(s);
    if Peek(s, "(") {
      var t := GetToken(s).1;
      LineSame(t);
      var c := ParseLine(t);
      if c.Ok? {
        PeekToken(c.rest, ")");
        Head(c.rest);
        RedirsSame(c.cmd, GetToken(c.rest).1);
      }
    } else {
      SkipTokens(s);
      RedirsSame(Exec([]), Skip(s));
      var c := ParseRedirs(Exec([]), Skip(s));
      if c.Ok? { ArgsSame(c.cmd, [], c.rest); }
    }
  }

  lemma {:induction false} PipeSame(s: string)
    ensures Same(ParsePipe(s), ReadPipe(Tokens(s)))
    decreases |s|, 1
  {
    ExecSame(s);
    var c := ParseExec(s);
    if c.Ok? {
      PeekToken(c.rest, "|");
      SkipTokens(c.rest);
      Head(c.rest);
      if Peek(c.rest, "|") { PipeSame(GetToken(c.rest).1); }
    }
  }

  lemma {:induction false} BackSame(c: Cmd<string>, s: string)
    ensures Same(ParseBack(c, s), ReadBack(c, Tokens(s)))
    decreases |s|
  {
    PeekToken(s, "&");
    SkipTokens(s);
    Head(s);
    if Peek(s, "&") { BackSame(Back(c), GetToken(s).1); }
  }

  lemma {:induction false} LineSame(s: string)
    ensures Same(ParseLine(s), ReadLine(Tokens(s)))
    decreases |s|, 2
  {
    PipeSame(s);
    var c := ParsePipe(s);
    if c.Ok? {
      BackSame(c.cmd, c.rest);
      var b := ParseBack(c.cmd, c.rest);
      PeekToken(b.rest, ";");
      SkipTokens(b.rest);
      Head(b.rest);
      if Peek(b.rest, ";") { LineSame(GetToken(b.rest).1); }
    }
  }

  // ---------- it reads every tree ----------

  lemma {:induction false} RedirsRead(c: Cmd<string>, before: seq<Redirection>, rs: seq<Redirection>, post: seq<Token>)
    requires !Next(post, "<>")
    ensures ReadRedirs(Wrap(c, before), FlatRedirs(rs, post)) == Got(Wrap(c, before + rs), post)
    decreases |rs|
  {
    if rs == [] {
      assert before + rs == before;
    } else {
      WrapMore(c, before, rs[0]);
      RedirsRead(c, before + [rs[0]], rs[1..], post);
      assert before + [rs[0]] + rs[1..] == before + rs;
    }
  }

  lemma WrapMore(c: Cmd<string>, rs: seq<Redirection>, r: Redirection)
    ensures Wrap(c, rs + [r]) == Redir(Wrap(c, rs), r.file, r.op != From)
  {
    assert (rs + [r])[..|rs|] == rs;
  }

  lemma {:induction false} ArgsWrapped(args: seq<string>, rs: seq<Redirection>)
    ensures WithArgs(Wrap(Exec([]), rs), args) == Wrap(Exec(args), rs)
    decreases |rs|
  {
    if rs == [] {
    } else {
      ArgsWrapped(args, rs[..|rs| - 1]);
    }
  }

  /** parseexec between two words. */
  function ReadMore(c: Cmd<string>, args: seq<string>, ts: seq<Token>): (r: Parse) {
    var d := ReadRedirs(c, ts);
    if d.Fails? then d else ReadArgs(d.cmd, args, d.rest)
  }

  /** What may follow a simple command. */
  predicate Follows(post: seq<Token>) {
    post == [] || Next(post, "|)&;")
  }

  lemma WordStep(c: Cmd<string>, args: seq<string>, w: string, rest: seq<Token>)
    requires |args| + 1 < MAXARGS
    ensures ReadMore(c, args, [Text(w)] + rest) == ReadMore(c, args + [w], rest)
  {
    assert ([Text(w)] + rest)[1..] == rest;
  }

  lemma RedirStep(c: Cmd<string>, r: Redirection, rest: seq<Token>)
    ensures ReadRedirs(c, [OpToken(r.op), Text(r.file)] + rest) == ReadRedirs(Redir(c, r.file, r.op != From), rest)
  {
    assert ([OpToken(r.op), Text(r.file)] + rest)[2..] == rest;
  }

  lemma FirstItem(i: Item, more: seq<Item>, args: seq<string>, rs: seq<Redirection>)
    ensures var items := [i] + more;
            && args + ArgsOf(items) == (if i.Arg? then args + [i.word] else args) + ArgsOf(more)
            && rs + RedirsOf(items) == (if i.Arg? then rs else rs + [i.r]) + RedirsOf(more)
  {
    assert ([i] + more)[1..] == more;
  }

  lemma {:induction false} ItemsRead(args: seq<string>, rs: seq<Redirection>, items: seq<Item>, post: seq<Token>)
    requires Follows(post) && |args| + |ArgsOf(items)| < MAXARGS
    ensures ReadMore(Wrap(Exec([]), rs), args, FlatItems(items, post))
            == Got(Wrap(Exec(args + ArgsOf(items)), rs + RedirsOf(items)), post)
    decreases |items|
  {
    if items == [] {
      ArgsWrapped(args, rs);
      assert args + [] == args && rs + [] == rs;
    } else {
      var i, more := items[0], items[1..];
      var rest := FlatItems(more, post);
      assert items == [i] + more;
      FirstItem(i, more, args, rs);
      if i.Arg? {
        WordStep(Wrap(Exec([]), rs), args, i.word, rest);
        ItemsRead(args + [i.word], rs, more, post);
      } else {
        RedirStep(Wrap(Exec([]), rs), i.r, rest);
        WrapMore(Exec([]), rs, i.r);
        ItemsRead(args, rs + [i.r], more, post);
      }
    }
  }

  lemma NoBlock(items: seq<Item>, post: seq<Token>)
    requires Follows(post)
    ensures !Next(FlatItems(items, post), "(")
  {}

  lemma ExecSimple(ts: seq<Token>)
    requires !Next(ts, "(")
    ensures ReadExec(ts) == ReadMore(Exec([]), [], ts)
  {}

  lemma SimpleRead(items: seq<Item>, post: seq<Token>)
    requires |ArgsOf(items)| < MAXARGS && Follows(post)
    ensures ReadExec(FlatItems(items, post)) == Got(Wrap(Exec(ArgsOf(items)), RedirsOf(items)), post)
  {
    NoBlock(items, post);
    ExecSimple(FlatItems(items, post));
    assert Wrap(Exec([]), []) == Exec([]);
    ItemsRead([], [], items, post);
    assert [] + ArgsOf(items) == ArgsOf(items) && [] + RedirsOf(items) == RedirsOf(items);
  }

  lemma BlockRead(l: Line, rs: seq<Redirection>, post: seq<Token>)
    requires var inner := [Symbol(')')] + FlatRedirs(rs, post);
             ReadLine(FlatLine(l, inner)) == Got(LineMeans(l), inner) && !Next(post, "<>")
    ensures ReadExec(FlatPart(Block(l, rs), post)) == Got(Wrap(LineMeans(l), rs), post)
  {
    var inner := [Symbol(')')] + FlatRedirs(rs, post);
    var ts := [Symbol('(')] + FlatLine(l, inner);
    assert ts[1..] == FlatLine(l, inner) && inner[1..] == FlatRedirs(rs, post);
    RedirsRead(LineMeans(l), [], rs, post);
    assert [] + rs == rs;
  }

  /** A part is read up to what may follow it. */
  lemma {:induction false} PartRead(p: Part, post: seq<Token>)
    requires PartFits(p) && Follows(post)
    ensures ReadExec(FlatPart(p, post)) == Got(PartMeans(p), post)
    decreases p
  {
    match p
    case Simple(items) =>
      SimpleRead(items, post);
    case Block(l, rs) =>
      LineRead(l, [Symbol(')')] + FlatRedirs(rs, post));
      BlockRead(l, rs, post);
  }

  lemma {:induction false} PipelineRead(p: Pipeline, post: seq<Token>)
    requires PipelineFits(p) && (post == [] || Next(post, ")&;"))
    ensures ReadPipe(FlatPipeline(p, post)) == Got(PipelineMeans(p), post)
    decreases p
  {
    match p
    case One(part) =>
      PartRead(part, post);
    case Bar(part, rest) =>
      PartRead(part, [Symbol('|')] + FlatPipeline(rest, post));
      PipelineRead(rest, post);
  }

  lemma {:induction false} AmpsRead(c: Cmd<string>, k: nat, post: seq<Token>)
    requires !Next(post, "&")
    ensures ReadBack(c, FlatAmps(k, post)) == Got(Backs(c, k), post)
    decreases k
  {
    if k == 0 {
    } else {
      AmpsRead(Back(c), k - 1, post);
    }
  }

  lemma {:induction false} LineRead(l: Line, post: seq<Token>)
    requires LineFits(l) && (post == [] || Next(post, ")"))
    ensures ReadLine(FlatLine(l, post)) == Got(LineMeans(l), post)
    decreases l
  {
    var more := if l.Last? then post else [Symbol(';')] + FlatLine(l.rest, post);
    PipelineRead(l.p, FlatAmps(l.amps, more));
    AmpsRead(PipelineMeans(l.p), l.amps, more);
    if l.Then? {
      LineRead(l.rest, post);
    }
  }

  // ---------- and nothing else ----------

  lemma {:induction false} RedirsTree(c: Cmd<string>, before: seq<Redirection>, ts: seq<Token>)
    returns (rs: seq<Redirection>)
    requires ReadRedirs(Wrap(c, before), ts).Got?
    ensures var r := ReadRedirs(Wrap(c, before), ts); r.cmd == Wrap(c, before + rs) && ts == FlatRedirs(rs, r.rest)
    decreases |ts|
  {
    if !Next(ts, "<>") {
      rs := [];
      assert before + [] == before;
    } else {
      var r := RedirTree(ts);
      WrapMore(c, before, r);
      var more := RedirsTree(c, before + [r], ts[2..]);
      rs := [r] + more;
      assert before + [r] + more == before + rs && rs[1..] == more;
    }
  }

  /** One redirection. */
  lemma RedirTree(ts: seq<Token>) returns (r: Redirection)
    requires Next(ts, "<>") && |ts| > 1 && ts[1].Text?
    ensures ts == [OpToken(r.op), Text(r.file)] + ts[2..] && r.file == ts[1].w
    ensures r.op != From <==> ts[0] != Symbol('<')
  {
    r := Redirection(if ts[0] == Symbol('<') then From else if ts[0] == Append then Onto else To, ts[1].w);
  }

  lemma {:induction false} ItemsTree(args: seq<string>, rs: seq<Redirection>, ts: seq<Token>) returns (items: seq<Item>)
    requires ReadMore(Wrap(Exec([]), rs), args, ts).Got? && |args| < MAXARGS
    ensures var r := ReadMore(Wrap(Exec([]), rs), args, ts);
            && |args| + |ArgsOf(items)| < MAXARGS && ts == FlatItems(items, r.rest)
            && r.cmd == Wrap(Exec(args + ArgsOf(items)), rs + RedirsOf(items))
    decreases |ts|
  {
    var c := Wrap(Exec([]), rs);
    if Next(ts, "<>") {
      var r := RedirTree(ts);
      RedirStep(c, r, ts[2..]);
      WrapMore(Exec([]), rs, r);
      var more := ItemsTree(args, rs + [r], ts[2..]);
      items := [Redirect(r)] + more;
      FirstItem(Redirect(r), more, args, rs);
    } else if Follows(ts) {
      items := [];
      ArgsWrapped(args, rs);
      assert args + [] == args && rs + [] == rs;
    } else {
      var w := ts[0].w;
      assert ts == [Text(w)] + ts[1..];
      WordStep(c, args, w, ts[1..]);
      var more := ItemsTree(args + [w], rs, ts[1..]);
      items := [Arg(w)] + more;
      FirstItem(Arg(w), more, args, rs);
    }
  }

  lemma FirstIs(ts: seq<Token>, c: char)
    requires Next(ts, [c]) && c != '>'
    ensures ts == [Symbol(c)] + ts[1..]
  {}

  lemma {:induction false} PartTree(ts: seq<Token>) returns (p: Part)
    requires ReadExec(ts).Got?
    ensures ts == FlatPart(p, ReadExec(ts).rest) && PartFits(p) && ReadExec(ts).cmd == PartMeans(p)
    decreases |ts|, 0
  {
    if Next(ts, "(") {
      FirstIs(ts, '(');
      var l := LineTree(ts[1..]);
      var c := ReadLine(ts[1..]);
      FirstIs(c.rest, ')');
      var rs := RedirsTree(c.cmd, [], c.rest[1..]);
      p := Block(l, rs);
      assert [] + rs == rs;
    } else {
      var items := ItemsTree([], [], ts);
      p := Simple(items);
      assert [] + ArgsOf(items) == ArgsOf(items) && [] + RedirsOf(items) == RedirsOf(items);
    }
  }

  lemma {:induction false} PipelineTree(ts: seq<Token>) returns (p: Pipeline)
    requires ReadPipe(ts).Got?
    ensures ts == FlatPipeline(p, ReadPipe(ts).rest) && PipelineFits(p) && ReadPipe(ts).cmd == PipelineMeans(p)
    decreases |ts|, 1
  {
    var part := PartTree(ts);
    var c := ReadExec(ts);
    if Next(c.rest, "|") {
      FirstIs(c.rest, '|');
      var rest := PipelineTree(c.rest[1..]);
      p := Bar(part, rest);
    } else {
      p := One(part);
    }
  }

  lemma {:induction false} AmpsTree(c: Cmd<string>, ts: seq<Token>) returns (k: nat)
    ensures ReadBack(c, ts).cmd == Backs(c, k) && ts == FlatAmps(k, ReadBack(c, ts).rest)
    decreases |ts|
  {
    if !Next(ts, "&") {
      k := 0;
    } else {
      FirstIs(ts, '&');
      var j := AmpsTree(Back(c), ts[1..]);
      k := j + 1;
    }
  }

  lemma {:induction false} LineTree(ts: seq<Token>) returns (l: Line)
    requires ReadLine(ts).Got?
    ensures ts == FlatLine(l, ReadLine(ts).rest) && LineFits(l) && ReadLine(ts).cmd == LineMeans(l)
    decreases |ts|, 2
  {
    var p := PipelineTree(ts);
    var c := ReadPipe(ts);
    var k := AmpsTree(c.cmd, c.rest);
    var b := ReadBack(c.cmd, c.rest);
    if Next(b.rest, ";") {
      FirstIs(b.rest, ';');
      var rest := LineTree(b.rest[1..]);
      l := Then(p, k, rest);
    } else {
      l := Last(p, k);
    }
  }

  // ---------- how a command is written ----------

  /** What the redirections around a command are wrapped around. */
  function Core(c: Cmd<string>): (d: Cmd<string>)
    ensures c.Redir? ==> d < c
    ensures !d.Redir? && (!c.Redir? ==> d == c)
  {
    if c.Redir? then Core(c.cmd) else c
  }

  function Around(c: Cmd<string>): (rs: seq<Redirection>) {
    if c.Redir? then Around(c.cmd) + [Redirection(if c.output then To else From, c.file)] else []
  }

  /** A command without its "&". */
  function Front(c: Cmd<string>): (d: Cmd<string>)
    ensures c.Back? ==> d < c
    ensures !d.Back? && (!c.Back? ==> d == c)
  {
    if c.Back? then Front(c.cmd) else c
  }

  function AmpCount(c: Cmd<string>): (k: nat) {
    if c.Back? then AmpCount(c.cmd) + 1 else 0
  }

  /** A simple command: its arguments and then its redirections. */
  function WriteItems(args: seq<string>, rs: seq<Redirection>): (items: seq<Item>) {
    if args != [] then [Arg(args[0])] + WriteItems(args[1..], rs)
    else if rs != [] then [Redirect(rs[0])] + WriteItems(args, rs[1..])
    else []
  }

  /** Only what stands where the grammar has no room for it is put in parentheses. */
  function WritePart(c: Cmd<string>): (p: Part)
    decreases c, if c.Pipe? then 4 else 1
  {
    if Core(c).Exec? then Simple(WriteItems(Core(c).args, Around(c))) else Block(WriteLine(Core(c)), Around(c))
  }

  function WritePipeline(c: Cmd<string>): (p: Pipeline)
    decreases c, 2
  {
    if c.Pipe? then Bar(WritePart(c.left), WritePipeline(c.right)) else One(WritePart(c))
  }

  function WriteLine(c: Cmd<string>): (l: Line)
    decreases c, if c.List? || c.Back? then 0 else 3
  {
    if c.List? then Then(WritePipeline(Front(c.left)), AmpCount(c.left), WriteLine(c.right))
    else Last(WritePipeline(Front(c)), AmpCount(c))
  }

  lemma {:induction false} WrapCore(c: Cmd<string>)
    ensures Wrap(Core(c), Around(c)) == c
  {
    if c.Redir? {
      WrapCore(c.cmd);
      WrapMore(Core(c), Around(c.cmd), Redirection(if c.output then To else From, c.file));
    }
  }

  lemma {:induction false} BackOut(c: Cmd<string>, k: nat)
    ensures Backs(Back(c), k) == Back(Backs(c, k))
    decreases k
  {
    if k == 0 {
    } else {
      BackOut(Back(c), k - 1);
    }
  }

  lemma {:induction false} BacksFront(c: Cmd<string>)
    ensures Backs(Front(c), AmpCount(c)) == c
  {
    if c.Back? {
      BacksFront(c.cmd);
      BackOut(Front(c), AmpCount(c.cmd));
    }
  }

  lemma {:induction false} ItemsOf(args: seq<string>, rs: seq<Redirection>)
    ensures ArgsOf(WriteItems(args, rs)) == args && RedirsOf(WriteItems(args, rs)) == rs
  {
    if args != [] {
      ItemsOf(args[1..], rs);
      FirstItem(Arg(args[0]), WriteItems(args[1..], rs), [], []);
    } else if rs != [] {
      ItemsOf(args, rs[1..]);
      FirstItem(Redirect(rs[0]), WriteItems(args, rs[1..]), [], []);
    }
  }

  /** What is written means the command. */
  lemma {:induction false} PartWritten(c: Cmd<string>)
    requires Valid(c)
    ensures PartMeans(WritePart(c)) == c && PartFits(WritePart(c))
    decreases c, if c.Pipe? then 4 else 1
  {
    WrapCore(c);
    CoreValid(c);
    if Core(c).Exec? {
      ItemsOf(Core(c).args, Around(c));
    } else {
      LineWritten(Core(c));
    }
  }

  lemma {:induction false} CoreValid(c: Cmd<string>)
    requires Valid(c)
    ensures Valid(Core(c)) && Valid(Front(c))
  {
    if c.Redir? || c.Back? {
      CoreValid(c.cmd);
    }
  }

  lemma {:induction false} PipelineWritten(c: Cmd<string>)
    requires Valid(c)
    ensures PipelineMeans(WritePipeline(c)) == c && PipelineFits(WritePipeline(c))
    decreases c, 2
  {
    if c.Pipe? {
      PartWritten(c.left);
      PipelineWritten(c.right);
    } else {
      PartWritten(c);
    }
  }

  lemma {:induction false} LineWritten(c: Cmd<string>)
    requires Valid(c)
    ensures LineMeans(WriteLine(c)) == c && LineFits(WriteLine(c))
    decreases c, if c.List? || c.Back? then 0 else 3
  {
    CoreValid(c);
    if c.List? {
      CoreValid(c.left);
      PipelineWritten(Front(c.left));
      BacksFront(c.left);
      LineWritten(c.right);
    } else {
      PipelineWritten(Front(c));
      BacksFront(c);
    }
  }

  // ---------- its tokens are real ----------

  predicate AllReal(ts: seq<Token>) {
    forall i | 0 <= i < |ts| :: Real(ts[i])
  }

  predicate WordsValid(ws: seq<string>) {
    forall i | 0 <= i < |ws| :: ValidWord(ws[i])
  }

  predicate FilesValid(rs: seq<Redirection>) {
    forall i | 0 <= i < |rs| :: ValidWord(rs[i].file)
  }

  lemma {:induction false} WrapValid(c: Cmd<string>, rs: seq<Redirection>)
    requires Valid(Wrap(c, rs))
    ensures Valid(c) && FilesValid(rs)
    decreases |rs|
  {
    if rs == [] {
    } else {
      WrapValid(c, rs[..|rs| - 1]);
    }
  }

  lemma {:induction false} RedirsReal(rs: seq<Redirection>, post: seq<Token>)
    requires AllReal(post) && FilesValid(rs)
    ensures AllReal(FlatRedirs(rs, post))
  {
    if rs == [] {
    } else {
      RedirsReal(rs[1..], post);
    }
  }

  lemma WordsTail(w: string, ws: seq<string>)
    requires WordsValid([w] + ws)
    ensures ValidWord(w) && WordsValid(ws)
  {
    assert ([w] + ws)[0] == w && ([w] + ws)[1..] == ws;
  }

  lemma FilesTail(r: Redirection, rs: seq<Redirection>)
    requires FilesValid([r] + rs)
    ensures ValidWord(r.file) && FilesValid(rs)
  {
    assert ([r] + rs)[0] == r && ([r] + rs)[1..] == rs;
  }

  lemma {:induction false} ItemsReal(items: seq<Item>, post: seq<Token>)
    requires AllReal(post) && WordsValid(ArgsOf(items)) && FilesValid(RedirsOf(items))
    ensures AllReal(FlatItems(items, post))
  {
    if items == [] {
    } else {
      var i, more := items[0], items[1..];
      if i.Arg? {
        WordsTail(i.word, ArgsOf(more));
        assert RedirsOf(items) == RedirsOf(more);
      } else {
        FilesTail(i.r, RedirsOf(more));
        assert ArgsOf(items) == ArgsOf(more);
      }
      ItemsReal(more, post);
    }
  }

  lemma {:induction false} PartReal(p: Part, post: seq<Token>)
    requires Valid(PartMeans(p)) && AllReal(post)
    ensures AllReal(FlatPart(p, post))
    decreases p
  {
    match p
    case Simple(items) =>
      WrapValid(Exec(ArgsOf(items)), RedirsOf(items));
      ItemsReal(items, post);
    case Block(l, rs) =>
      WrapValid(LineMeans(l), rs);
      RedirsReal(rs, post);
      LineReal(l, [Symbol(')')] + FlatRedirs(rs, post));
  }

  lemma {:induction false} PipelineReal(p: Pipeline, post: seq<Token>)
    requires Valid(PipelineMeans(p)) && AllReal(post)
    ensures AllReal(FlatPipeline(p, post))
    decreases p
  {
    match p
    case One(part) => PartReal(part, post);
    case Bar(part, rest) =>
      PipelineReal(rest, post);
      PartReal(part, [Symbol('|')] + FlatPipeline(rest, post));
  }

  lemma {:induction false} AmpsReal(c: Cmd<string>, k: nat, post: seq<Token>)
    requires Valid(Backs(c, k)) && AllReal(post)
    ensures Valid(c) && AllReal(FlatAmps(k, post))
    decreases k
  {
    if k == 0 {
    } else {
      AmpsReal(Back(c), k - 1, post);
    }
  }

  lemma {:induction false} LineReal(l: Line, post: seq<Token>)
    requires Valid(LineMeans(l)) && AllReal(post)
    ensures AllReal(FlatLine(l, post))
    decreases l
  {
    if l.Then? { LineReal(l.rest, post); }
    var more := if l.Last? then post else [Symbol(';')] + FlatLine(l.rest, post);
    AmpsReal(PipelineMeans(l.p), l.amps, more);
    PipelineReal(l.p, FlatAmps(l.amps, more));
  }

  // ---------- main results ----------

  /** s is this tree of the grammar, spaced so, and the tree means c. */
  predicate IsLine(l: Line, gaps: seq<string>, s: string, c: Cmd<string>) {
    var ts := FlatLine(l, []);
    LineFits(l) && Spaced(ts, gaps) && s == Spell(ts, gaps) && c == LineMeans(l)
  }

  lemma NothingLeft(s: string)
    ensures Skip(s) == [] <==> Tokens(s) == []
  {}

  /** Any line of the grammar, with whatever blanks, is read as what it means. */
  lemma LineParsed(l: Line, gaps: seq<string>)
    requires LineFits(l) && Spaced(FlatLine(l, []), gaps)
    ensures ParseCmd(Spell(FlatLine(l, []), gaps)) == Ok(LineMeans(l), [])
  {
    var s := Spell(FlatLine(l, []), gaps);
    SpellRead(FlatLine(l, []), gaps);
    LineSame(s);
    LineRead(l, []);
    NothingLeft(ParseLine(s).rest);
  }

  /** parsecmd gives a command for a line exactly if the line is one of the grammar, with that meaning. So it panics
      exactly on all other lines. */
  lemma ParsesGrammar(s: string, c: Cmd<string>)
    ensures ParseCmd(s) == Ok(c, []) <==> exists l, gaps :: IsLine(l, gaps, s, c)
  {
    if l, gaps :| IsLine(l, gaps, s, c) {
      LineParsed(l, gaps);
    }
    if ParseCmd(s) == Ok(c, []) {
      LineSame(s);
      NothingLeft(ParseLine(s).rest);
      var l := LineTree(Tokens(s));
      var gaps := Spelled(s);
      assert IsLine(l, gaps, s, c);
    }
  }

  /** Two trees with the same tokens mean the same. */
  lemma Unambiguous(l: Line, m: Line)
    requires LineFits(l) && LineFits(m) && FlatLine(l, []) == FlatLine(m, [])
    ensures LineMeans(l) == LineMeans(m)
  {
    LineRead(l, []);
    LineRead(m, []);
  }

  /** A command as it is usually written: parentheses only where they are needed, single blanks. */
  function Print(c: Cmd<string>): (s: string) {
    var ts := FlatLine(WriteLine(c), []);
    Spell(ts, Singles(|ts|))
  }

  /** Single blanks between n tokens. */
  function Singles(n: nat): (gaps: seq<string>)
    ensures |gaps| == n + 1 && (forall i | 0 < i < n :: gaps[i] != []) && forall i | 0 <= i <= n :: Blank(gaps[i])
  {
    seq(n + 1, i => if 0 < i < n then " " else "")
  }

  /** For every command with valid words and at most nine arguments: parsing what is printed gives it back, and all
      input is used. */
  lemma RoundTrip(c: Cmd<string>)
    requires Valid(c)
    ensures ParseCmd(Print(c)) == Ok(c, [])
  {
    var l := WriteLine(c);
    LineWritten(c);
    LineReal(l, []);
    LineParsed(l, Singles(|FlatLine(l, [])|));
  }

  /** Whatever line is accepted, its command can be written out and is read back from that. */
  lemma Canonical(s: string)
    ensures ParseCmd(s).Ok? ==> ParseCmd(Print(ParseCmd(s).cmd)) == ParseCmd(s)
  {
    LineValid(s);
    if ParseCmd(s).Ok? { RoundTrip(ParseCmd(s).cmd); }
  }
}
