/** The command language of sh.c: what the parser makes of a line. */
module Shell {
  const MAXARGS := 10

  /** A parsed command; W is how a word is given. A redirection is from a file to 0, or from 1 to a file that is
      created. */
  datatype Cmd<W> =
    | Exec(args: seq<W>)
    | Redir(cmd: Cmd<W>, file: W, output: bool)
    | Pipe(left: Cmd<W>, right: Cmd<W>)
    | List(left: Cmd<W>, right: Cmd<W>)
    | Back(cmd: Cmd<W>)

  /** What the parser panics with. */
  datatype Fault = MissingFile | MissingParen | BadToken | TooManyArgs | Leftovers

  datatype Result = Ok(cmd: Cmd<string>, rest: string) | Panic(why: Fault)

  // ---------- tokens ----------

  predicate IsSpace(c: char) {
    c in " \t\r\n\U{0B}"
  }

  predicate IsSymbol(c: char) {
    c in "<|>&;()"
  }

  predicate IsWordChar(c: char) {
    !IsSpace(c) && !IsSymbol(c)
  }

  function Skip(s: string): (r: string)
    ensures |r| <= |s| && (r == [] || !IsSpace(r[0]))
  {
    if s != [] && IsSpace(s[0]) then Skip(s[1..]) else s
  }

  /** The word that s starts with. */
  function Word(s: string): (w: string)
    ensures |w| <= |s| && w == s[..|w|]
  {
    if s != [] && IsWordChar(s[0]) then [s[0]] + Word(s[1..]) else []
  }

  predicate Peek(s: string, toks: string) {
    var t := Skip(s);
    t != [] && t[0] in toks
  }

  /** gettoken's result: the end of the line, a symbol, ">>", or a word. */
  datatype Token = Eol | Symbol(c: char) | Append | Text(w: string)

  function GetToken(s: string): (r: (Token, string))
    ensures |r.1| <= |s| && (r.0 != Eol ==> |r.1| < |s|)
  {
    var t := Skip(s);
    if t == [] then (Eol, t)
    else if t[0] == '>' then
      if |t| > 1 && t[1] == '>' then (Append, Skip(t[2..])) else (Symbol('>'), Skip(t[1..]))
    else if IsSymbol(t[0]) then (Symbol(t[0]), Skip(t[1..]))
    else (Text(Word(t)), Skip(t[|Word(t)|..]))
  }

  // ---------- the grammar ----------

  function ParseRedirs(c: Cmd<string>, s: string): (r: Result)
    ensures r.Ok? ==> |r.rest| <= |s|
    decreases |s|
  {
    if !Peek(s, "<>") then Ok(c, Skip(s))
    else
      var (tok, t) := GetToken(s);
      var (file, u) := GetToken(t);
      if !file.Text? then Panic(MissingFile)
      else ParseRedirs(Redir(c, file.w, tok != Symbol('<')), u)
  }

  /** The command that the redirections in c have been wrapped around gets its arguments. */
  function WithArgs<W>(c: Cmd<W>, args: seq<W>): (d: Cmd<W>) {
    match c
    case Exec(_) => Exec(args)
    case Redir(e, file, output) => Redir(WithArgs(e, args), file, output)
    case _ => c
  }

  /** The loop of parseexec, args read so far. */
  function ParseArgs(c: Cmd<string>, args: seq<string>, s: string): (r: Result)
    ensures r.Ok? ==> |r.rest| <= |s|
    decreases |s|
  {
    if Peek(s, "|)&;") then Ok(WithArgs(c, args), Skip(s))
    else
      var (tok, t) := GetToken(s);
      match tok
      case Eol => Ok(WithArgs(c, args), t)
      case Text(w) =>
        if |args| + 1 >= MAXARGS then Panic(TooManyArgs)
        else
          var d := ParseRedirs(c, t);
          if d.Panic? then d else ParseArgs(d.cmd, args + [w], d.rest)
      case _ => Panic(BadToken)
  }

  function ParseExec(s: string): (r: Result)
    ensures r.Ok? ==> |r.rest| <= |s|
    decreases |s|, 1
  {
    if Peek(s, "(") then ParseBlock(s)
    else
      var c := ParseRedirs(Exec([]), Skip(s));
      if c.Panic? then c else ParseArgs(c.cmd, [], c.rest)
  }

  function ParseBlock(s: string): (r: Result)
    requires Peek(s, "(")
    ensures r.Ok? ==> |r.rest| <= |s|
    decreases |s|, 0
  {
    var c := ParseLine(GetToken(s).1);
    if c.Panic? then c
    else if !Peek(c.rest, ")") then Panic(MissingParen)
    else ParseRedirs(c.cmd, GetToken(c.rest).1)
  }

  function ParsePipe(s: string): (r: Result)
    ensures r.Ok? ==> |r.rest| <= |s|
    decreases |s|, 2
  {
    var c := ParseExec(s);
    if c.Panic? then c
    else if !Peek(c.rest, "|") then Ok(c.cmd, Skip(c.rest))
    else
      var d := ParsePipe(GetToken(c.rest).1);
      if d.Panic? then d else Ok(Pipe(c.cmd, d.cmd), d.rest)
  }

  /** The loop of parseline over "&". */
  function ParseBack(c: Cmd<string>, s: string): (r: Result)
    ensures r.Ok? && |r.rest| <= |s|
    decreases |s|
  {
    if Peek(s, "&") then ParseBack(Back(c), GetToken(s).1) else Ok(c, Skip(s))
  }

  function ParseLine(s: string): (r: Result)
    ensures r.Ok? ==> |r.rest| <= |s|
    decreases |s|, 3
  {
    var c := ParsePipe(s);
    if c.Panic? then c
    else
      var b := ParseBack(c.cmd, c.rest);
      if !Peek(b.rest, ";") then Ok(b.cmd, Skip(b.rest))
      else
        var d := ParseLine(GetToken(b.rest).1);
        if d.Panic? then d else Ok(List(b.cmd, d.cmd), d.rest)
  }

  function ParseCmd(s: string): (r: Result)
    ensures r.Ok? ==> r.rest == []
  {
    var c := ParseLine(s);
    if c.Panic? then c else if Skip(c.rest) != [] then Panic(Leftovers) else Ok(c.cmd, [])
  }

  // ---------- commands that can be written ----------

  predicate ValidWord(w: string) {
    w != [] && forall i | 0 <= i < |w| :: IsWordChar(w[i])
  }

  predicate Valid(c: Cmd<string>) {
    match c
    case Exec(args) => |args| <= 9 && forall i | 0 <= i < |args| :: ValidWord(args[i])
    case Redir(d, file, _) => Valid(d) && ValidWord(file)
    case Pipe(l, r) => Valid(l) && Valid(r)
    case List(l, r) => Valid(l) && Valid(r)
    case Back(d) => Valid(d)
  }

  // ---------- single tokens ----------

  lemma {:induction false} WordRead(w: string, post: string)
    requires (forall i | 0 <= i < |w| :: IsWordChar(w[i])) && (post == [] || !IsWordChar(post[0]))
    ensures Word(w + post) == w
  {
    if w == [] {
      assert w + post == post;
    } else {
      assert (w + post)[1..] == w[1..] + post;
      WordRead(w[1..], post);
    }
  }

  lemma TokenWord(w: string, post: string)
    requires ValidWord(w) && (post == [] || !IsWordChar(post[0]))
    ensures GetToken(w + post) == (Text(w), Skip(post))
  {
    WordRead(w, post);
    assert (w + post)[0] == w[0] && (w + post)[|w|..] == post;
  }

  lemma TokenSymbol(c: char, post: string)
    requires IsSymbol(c) && (c != '>' || post == [] || post[0] != '>')
    ensures GetToken([c] + post) == (Symbol(c), Skip(post))
  {
    assert ([c] + post)[1..] == post;
  }

  lemma TokenAppend(post: string)
    ensures GetToken(">>" + post) == (Append, Skip(post))
  {
    assert (">>" + post)[2..] == post;
  }

  lemma {:induction false} WordValid(s: string)
    ensures forall i | 0 <= i < |Word(s)| :: IsWordChar(Word(s)[i])
  {
    if s == [] || !IsWordChar(s[0]) {
    } else {
      WordValid(s[1..]);
    }
  }

  lemma TokenValid(s: string)
    ensures GetToken(s).0.Text? ==> ValidWord(GetToken(s).0.w)
  {
    WordValid(Skip(s));
  }

  lemma {:induction false} RedirsValid(c: Cmd<string>, s: string)
    requires Valid(c)
    ensures ParseRedirs(c, s).Ok? ==> Valid(ParseRedirs(c, s).cmd)
    decreases |s|
  {
    if !Peek(s, "<>") {
    } else {
      var (tok, t) := GetToken(s);
      var (file, u) := GetToken(t);
      TokenValid(t);
      if file.Text? { RedirsValid(Redir(c, file.w, tok != Symbol('<')), u); }
    }
  }

  lemma {:induction false} WithArgsValid(c: Cmd<string>, args: seq<string>)
    requires Valid(c) && Valid(Exec(args))
    ensures Valid(WithArgs(c, args))
  {
    if !c.Redir? {
    } else {
      WithArgsValid(c.cmd, args);
    }
  }

  lemma {:induction false} ArgsValid(c: Cmd<string>, args: seq<string>, s: string)
    requires Valid(c) && Valid(Exec(args))
    ensures ParseArgs(c, args, s).Ok? ==> Valid(ParseArgs(c, args, s).cmd)
    decreases |s|
  {
    WithArgsValid(c, args);
    var (tok, t) := GetToken(s);
    if Peek(s, "|)&;") || !tok.Text? || |args| + 1 >= MAXARGS {
    } else {
      TokenValid(s);
      RedirsValid(c, t);
      var d := ParseRedirs(c, t);
      if d.Ok? { ArgsValid(d.cmd, args + [tok.w], d.rest); }
    }
  }

  lemma {:induction false} BackValid(c: Cmd<string>, s: string)
    requires Valid(c)
    ensures Valid(ParseBack(c, s).cmd)
    decreases |s|
  {
    if !Peek(s, "&") {
    } else {
      BackValid(Back(c), GetToken(s).1);
    }
  }

  lemma {:induction false} ExecValid(s: string)
    ensures ParseExec(s).Ok? ==> Valid(ParseExec(s).cmd)
    decreases |s|, 1
  {
    if Peek(s, "(") {
      LineValid(GetToken(s).1);
      var c := ParseLine(GetToken(s).1);
      if c.Ok? { RedirsValid(c.cmd, GetToken(c.rest).1); }
    } else {
      RedirsValid(Exec([]), Skip(s));
      var c := ParseRedirs(Exec([]), Skip(s));
      if c.Ok? { ArgsValid(c.cmd, [], c.rest); }
    }
  }

  lemma {:induction false} PipeValid(s: string)
    ensures ParsePipe(s).Ok? ==> Valid(ParsePipe(s).cmd)
    decreases |s|, 2
  {
    ExecValid(s);
    var c := ParseExec(s);
    if !c.Ok? || !Peek(c.rest, "|") {
    } else {
      PipeValid(GetToken(c.rest).1);
    }
  }

  lemma {:induction false} LineValid(s: string)
    ensures ParseLine(s).Ok? ==> Valid(ParseLine(s).cmd)
    decreases |s|, 3
  {
    PipeValid(s);
    var c := ParsePipe(s);
    if !c.Ok? {
    } else {
      BackValid(c.cmd, c.rest);
      var b := ParseBack(c.cmd, c.rest);
      if Peek(b.rest, ";") { LineValid(GetToken(b.rest).1); }
    }
  }
}
