/** The parser of sh.c itself, with its cursor, and nulterminate, which cuts the words out of the line in place. */
module ShellParser {
  import opened Shell

  /** A word in the line: from q up to, not including, eq. */
  datatype Span = Span(q: nat, eq: nat)

  /** A word with nothing but word characters, up to a character that is none or to the end. */
  predicate SpanOk(s: string, w: Span) {
    && w.q < w.eq <= |s| && (forall k | w.q <= k < w.eq :: IsWordChar(s[k]))
    && (w.eq < |s| ==> !IsWordChar(s[w.eq]))
  }

  predicate SpansOk(s: string, c: Cmd<Span>) {
    match c
    case Exec(args) => forall i | 0 <= i < |args| :: SpanOk(s, args[i])
    case Redir(d, file, _) => SpansOk(s, d) && SpanOk(s, file)
    case Pipe(l, r) => SpansOk(s, l) && SpansOk(s, r)
    case List(l, r) => SpansOk(s, l) && SpansOk(s, r)
    case Back(d) => SpansOk(s, d)
  }

  function TextOf(s: string, w: Span): (t: string)
    requires SpanOk(s, w)
  {
    s[w.q..w.eq]
  }

  function Texts(s: string, args: seq<Span>): (r: seq<string>)
    requires forall i | 0 <= i < |args| :: SpanOk(s, args[i])
    ensures |r| == |args|
  {
    seq(|args|, i requires 0 <= i < |args| => TextOf(s, args[i]))
  }

  /** The command that the line gives for the spans. */
  function Tree(s: string, c: Cmd<Span>): (d: Cmd<string>)
    requires SpansOk(s, c)
  {
    match c
    case Exec(args) => Exec(Texts(s, args))
    case Redir(e, file, output) => Redir(Tree(s, e), TextOf(s, file), output)
    case Pipe(l, r) => Pipe(Tree(s, l), Tree(s, r))
    case List(l, r) => List(Tree(s, l), Tree(s, r))
    case Back(e) => Back(Tree(s, e))
  }

  datatype Parsed = Done(cmd: Cmd<Span>, p: nat) | Stopped(why: Fault)

  /** The parser, from p on, has come to what the grammar says. */
  predicate Reads(s: string, p: nat, r: Parsed, want: Result) {
    match r
    case Done(c, q) => p <= q <= |s| && SpansOk(s, c) && want == Ok(Tree(s, c), s[q..])
    case Stopped(why) => want == Panic(why)
  }

  // ---------- tokens ----------

  method SkipSpace(s: string, p: nat) returns (q: nat)
    requires p <= |s|
    ensures p <= q <= |s| && s[q..] == Skip(s[p..]) && (q < |s| ==> !IsSpace(s[q]))
  {
    q := p;
    while q < |s| && IsSpace(s[q])
      invariant p <= q <= |s| && Skip(s[q..]) == Skip(s[p..])
    {
      assert s[q..][1..] == s[q + 1..];
      q := q + 1;
    }
  }

  /** The token that gettoken's return value stands for. */
  function TokenOf(ret: char, w: string): (t: Token) {
    if ret == '\0' then Eol else if ret == '+' then Append else if ret == 'a' then Text(w) else Symbol(ret)
  }

  method ScanWord(s: string, p: nat) returns (q: nat)
    requires p <= |s|
    ensures p <= q <= |s| && s[p..q] == Word(s[p..])
    ensures (forall k | p <= k < q :: IsWordChar(s[k])) && (q < |s| ==> !IsWordChar(s[q]))
  {
    q := p;
    while q < |s| && IsWordChar(s[q])
      invariant p <= q <= |s| && (forall k | p <= k < q :: IsWordChar(s[k]))
    {
      q := q + 1;
    }
    WordRead(s[p..q], s[q..]);
    assert s[p..] == s[p..q] + s[q..];
  }

  /** What starts at q is the token that stands for ret and w, and the rest of the line after it is from eq on. */
  predicate TokenAt(s: string, q: nat, ret: char, w: string, eq: nat)
    requires q <= eq <= |s|
  {
    GetToken(s[q..]) == (TokenOf(ret, w), Skip(s[eq..]))
  }

  /** The branches of gettoken's switch. */
  lemma AtEnd(s: string)
    ensures TokenAt(s, |s|, '\0', "", |s|)
  {}

  lemma AtAppend(s: string, q: nat)
    requires q + 1 < |s| && s[q] == '>' && s[q + 1] == '>'
    ensures TokenAt(s, q, '+', s[q..q + 2], q + 2)
  {
    assert s[q..][2..] == s[q + 2..];
  }

  lemma AtGreater(s: string, q: nat)
    requires q < |s| && s[q] == '>' && (q + 1 < |s| ==> s[q + 1] != '>')
    ensures TokenAt(s, q, '>', s[q..q + 1], q + 1)
  {
    assert s[q..][1..] == s[q + 1..];
  }

  lemma AtSymbol(s: string, q: nat)
    requires q < |s| && IsSymbol(s[q]) && s[q] != '>'
    ensures TokenAt(s, q, s[q], s[q..q + 1], q + 1)
  {
    assert s[q..][1..] == s[q + 1..];
  }

  lemma AtWord(s: string, q: nat, eq: nat)
    requires q < eq <= |s| && IsWordChar(s[q]) && s[q..eq] == Word(s[q..])
    ensures TokenAt(s, q, 'a', s[q..eq], eq)
  {
    assert s[q..][eq - q..] == s[eq..];
  }

  /** gettoken between its two skips: the token that starts at q. */
  method ScanToken(s: string, q: nat) returns (ret: char, eq: nat)
    requires q <= |s| && (q < |s| ==> !IsSpace(s[q]))
    ensures q <= eq <= |s| && TokenAt(s, q, ret, s[q..eq], eq) && (ret != '\0' ==> q < eq)
    ensures ret == 'a' ==> SpanOk(s, Span(q, eq))
  {
    if q == |s| {
      AtEnd(s);
      return '\0', q;
    }
    if s[q] == '|' || s[q] == '(' || s[q] == ')' || s[q] == ';' || s[q] == '&' || s[q] == '<' {
      AtSymbol(s, q);
      return s[q], q + 1;
    }
    if s[q] == '>' {
      if q + 1 < |s| && s[q + 1] == '>' {
        AtAppend(s, q);
        return '+', q + 2;
      }
      AtGreater(s, q);
      return '>', q + 1;
    }
    eq := ScanWord(s, q);
    AtWord(s, q, eq);
    return 'a', eq;
  }

  /** Blanks before a token do not matter. */
  lemma SkipToken(s: string, t: string)
    requires t == Skip(s)
    ensures GetToken(s) == GetToken(t)
  {}

  /** gettoken: the token, its span, and the cursor after it. */
  method Gettoken(s: string, p: nat) returns (ret: char, q: nat, eq: nat, next: nat)
    requires p <= |s|
    ensures p <= q <= eq <= next <= |s| && (ret != '\0' ==> p < next)
    ensures GetToken(s[p..]) == (TokenOf(ret, s[q..eq]), s[next..])
    ensures ret == 'a' ==> SpanOk(s, Span(q, eq))
  {
    q := SkipSpace(s, p);
    SkipToken(s[p..], s[q..]);
    ret, eq := ScanToken(s, q);
    next := SkipSpace(s, eq);
  }

  method PeekAt(s: string, p: nat, toks: string) returns (yes: bool, q: nat)
    requires p <= |s|
    ensures p <= q <= |s| && s[q..] == Skip(s[p..]) && yes == Peek(s[p..], toks)
  {
    q := SkipSpace(s, p);
    yes := q < |s| && s[q] in toks;
  }

  /** Looking ahead skips blanks, and nothing depends on them. */
  lemma SkipSame(s: string, c: Cmd<string>)
    ensures Skip(Skip(s)) == Skip(s) && GetToken(Skip(s)) == GetToken(s)
    ensures forall toks :: Peek(Skip(s), toks) == Peek(s, toks)
    ensures Shell.ParseRedirs(c, Skip(s)) == Shell.ParseRedirs(c, s)
  {}

  lemma ArgsSkipSame(s: string, c: Cmd<string>, args: seq<string>)
    ensures ParseArgs(c, args, Skip(s)) == ParseArgs(c, args, s)
  {
    SkipSame(s, c);
  }

  // ---------- the parser ----------

  method ParseRedirs(cmd: Cmd<Span>, s: string, p: nat) returns (r: Parsed)
    requires p <= |s| && SpansOk(s, cmd)
    ensures Reads(s, p, r, Shell.ParseRedirs(Tree(s, cmd), s[p..]))
  {
    var c, at := cmd, p;
    while true
      invariant p <= at <= |s| && SpansOk(s, c)
      invariant Shell.ParseRedirs(Tree(s, c), s[at..]) == Shell.ParseRedirs(Tree(s, cmd), s[p..])
      decreases |s| - at
    {
      SkipSame(s[at..], Tree(s, c));
      var yes, q := PeekAt(s, at, "<>");
      if !yes { return Done(c, q); }
      var tok, _, _, t := Gettoken(s, q);
      var ret, f, ef, u := Gettoken(s, t);
      if ret != 'a' { return Stopped(MissingFile); }
      c := Redir(c, Span(f, ef), tok != '<');
      at := u;
    }
  }

  lemma {:induction false} WithArgsTree(s: string, c: Cmd<Span>, args: seq<Span>)
    requires SpansOk(s, c) && forall i | 0 <= i < |args| :: SpanOk(s, args[i])
    ensures SpansOk(s, WithArgs(c, args)) && Tree(s, WithArgs(c, args)) == WithArgs(Tree(s, c), Texts(s, args))
  {
    if !c.Redir? {
    } else {
      WithArgsTree(s, c.cmd, args);
    }
  }

  lemma TextsMore(s: string, args: seq<Span>, w: Span)
    requires (forall i | 0 <= i < |args| :: SpanOk(s, args[i])) && SpanOk(s, w)
    ensures Texts(s, args + [w]) == Texts(s, args) + [TextOf(s, w)]
  {}

  /** One round of parseexec's loop after the look-ahead: a word, and what is redirected after it. */
  method ParseArg(c: Cmd<Span>, args: seq<Span>, s: string, p: nat) returns (end: bool, more: seq<Span>, r: Parsed)
    requires p <= |s| && SpansOk(s, c) && (forall i | 0 <= i < |args| :: SpanOk(s, args[i])) && !Peek(s[p..], "|)&;")
    ensures forall i | 0 <= i < |more| :: SpanOk(s, more[i])
    ensures end ==> Reads(s, p, r, ParseArgs(Tree(s, c), Texts(s, args), s[p..]))
    ensures !end ==> r.Done? && p < r.p <= |s| && SpansOk(s, r.cmd) &&
                     ParseArgs(Tree(s, r.cmd), Texts(s, more), s[r.p..])
                     == ParseArgs(Tree(s, c), Texts(s, args), s[p..])
  {
    var tok, q, eq, t := Gettoken(s, p);
    if tok == '\0' {
      WithArgsTree(s, c, args);
      return true, [], Done(WithArgs(c, args), t);
    }
    if tok != 'a' { return true, [], Stopped(BadToken); }
    TextsMore(s, args, Span(q, eq));
    more := args + [Span(q, eq)];
    if |more| >= MAXARGS { return true, [], Stopped(TooManyArgs); }
    r := ParseRedirs(c, s, t);
    end := r.Stopped?;
  }

  method ParseExec(s: string, p: nat) returns (r: Parsed)
    requires p <= |s|
    ensures Reads(s, p, r, Shell.ParseExec(s[p..]))
    decreases |s| - p, 1
  {
    var block, at := PeekAt(s, p, "(");
    SkipSame(s[p..], Exec([]));
    if block {
      r := ParseBlock(s, at, p);
      return;
    }
    var args: seq<Span> := [];
    r := ParseRedirs(Exec([]), s, at);
    if r.Stopped? { return; }
    ghost var want := Shell.ParseExec(s[p..]);
    while true
      invariant r.Done? && p <= r.p <= |s| && SpansOk(s, r.cmd) && forall i | 0 <= i < |args| :: SpanOk(s, args[i])
      invariant ParseArgs(Tree(s, r.cmd), Texts(s, args), s[r.p..]) == want
      decreases |s| - r.p
    {
      ArgsSkipSame(s[r.p..], Tree(s, r.cmd), Texts(s, args));
      SkipSame(s[r.p..], Tree(s, r.cmd));
      var stop, q := PeekAt(s, r.p, "|)&;");
      if stop {
        WithArgsTree(s, r.cmd, args);
        return Done(WithArgs(r.cmd, args), q);
      }
      var end;
      end, args, r := ParseArg(r.cmd, args, s, q);
      if end { return; }
    }
  }

  /** parseblock, called with the cursor past the blanks before "("; the blanks began at p. */
  method ParseBlock(s: string, at: nat, ghost p: nat) returns (r: Parsed)
    requires p <= at <= |s| && s[at..] == Skip(s[p..]) && Peek(s[p..], "(")
    ensures Reads(s, p, r, Shell.ParseBlock(s[p..]))
    decreases |s| - at, 0
  {
    SkipSame(s[p..], Exec([]));
    var _, _, _, t := Gettoken(s, at);
    r := ParseLine(s, t);
    if r.Stopped? { return; }
    SkipSame(s[r.p..], Exec([]));
    var close, q := PeekAt(s, r.p, ")");
    if !close { return Stopped(MissingParen); }
    var _, _, _, u := Gettoken(s, q);
    r := ParseRedirs(r.cmd, s, u);
  }

  method ParsePipe(s: string, p: nat) returns (r: Parsed)
    requires p <= |s|
    ensures Reads(s, p, r, Shell.ParsePipe(s[p..]))
    decreases |s| - p, 2
  {
    r := ParseExec(s, p);
    if r.Stopped? { return; }
    SkipSame(s[r.p..], Exec([]));
    var more, q := PeekAt(s, r.p, "|");
    if !more { return Done(r.cmd, q); }
    var left := r.cmd;
    var _, _, _, t := Gettoken(s, q);
    r := ParsePipe(s, t);
    if r.Done? { r := Done(Pipe(left, r.cmd), r.p); }
  }

  method ParseLine(s: string, p: nat) returns (r: Parsed)
    requires p <= |s|
    ensures Reads(s, p, r, Shell.ParseLine(s[p..]))
    decreases |s| - p, 3
  {
    r := ParsePipe(s, p);
    if r.Stopped? { return; }
    var c, at := ParseAmps(r.cmd, s, r.p);
    SkipSame(s[at..], Exec([]));
    var more, q := PeekAt(s, at, ";");
    if !more { return Done(c, q); }
    var _, _, _, t := Gettoken(s, q);
    r := ParseLine(s, t);
    if r.Done? { r := Done(List(c, r.cmd), r.p); }
  }

  /** The loop of parseline over "&". */
  method ParseAmps(cmd: Cmd<Span>, s: string, p: nat) returns (c: Cmd<Span>, at: nat)
    requires p <= |s| && SpansOk(s, cmd)
    ensures p <= at <= |s| && SpansOk(s, c) && ParseBack(Tree(s, cmd), s[p..]) == Ok(Tree(s, c), s[at..])
  {
    c, at := cmd, p;
    while true
      invariant p <= at <= |s| && SpansOk(s, c) && ParseBack(Tree(s, c), s[at..]) == ParseBack(Tree(s, cmd), s[p..])
      decreases |s| - at
    {
      SkipSame(s[at..], Exec([]));
      var yes, q := PeekAt(s, at, "&");
      if !yes { return c, q; }
      var _, _, _, t := Gettoken(s, q);
      c := Back(c);
      at := t;
    }
  }

  /** parsecmd, up to nulterminate. */
  method ParseCmd(s: string) returns (r: Parsed)
    ensures Reads(s, 0, r, Shell.ParseCmd(s))
  {
    assert s[0..] == s;
    r := ParseLine(s, 0);
    if r.Stopped? { return; }
    var _, q := PeekAt(s, r.p, "");
    if q != |s| { return Stopped(Leftovers); }
    r := Done(r.cmd, q);
  }

  // ---------- cutting the words out ----------

  /** Some word of the command ends at k. */
  ghost predicate EndsAt(c: Cmd<Span>, k: int) {
    match c
    case Exec(args) => exists i :: 0 <= i < |args| && args[i].eq == k
    case Redir(d, file, _) => EndsAt(d, k) || file.eq == k
    case Pipe(l, r) => EndsAt(l, k) || EndsAt(r, k)
    case List(l, r) => EndsAt(l, k) || EndsAt(r, k)
    case Back(d) => EndsAt(d, k)
  }

  /** The characters from q up to a NUL. */
  function CString(b: seq<char>, q: nat): (t: string)
    decreases |b| - q
  {
    if q >= |b| || b[q] == '\0' then [] else [b[q]] + CString(b, q + 1)
  }

  function CStrings(b: seq<char>, args: seq<Span>): (r: seq<string>) {
    seq(|args|, i requires 0 <= i < |args| => CString(b, args[i].q))
  }

  /** The command as runcmd sees it: each word is read from its start to the NUL. */
  function Seen(b: seq<char>, c: Cmd<Span>): (d: Cmd<string>) {
    match c
    case Exec(args) => Exec(CStrings(b, args))
    case Redir(e, file, output) => Redir(Seen(b, e), CString(b, file.q), output)
    case Pipe(l, r) => Pipe(Seen(b, l), Seen(b, r))
    case List(l, r) => List(Seen(b, l), Seen(b, r))
    case Back(e) => Back(Seen(b, e))
  }

  method Nulterminate(buf: array<char>, cmd: Cmd<Span>, ghost s: string)
    requires buf.Length == |s| + 1 && SpansOk(s, cmd)
    modifies buf
    ensures forall k | 0 <= k < buf.Length :: buf[k] == if EndsAt(cmd, k) then '\0' else old(buf[k])
    decreases cmd
  {
    match cmd
    case Exec(args) =>
      for i := 0 to |args|
        invariant forall k | 0 <= k < buf.Length ::
                    buf[k] == if exists j :: 0 <= j < i && args[j].eq == k then '\0' else old(buf[k])
      {
        assert SpanOk(s, args[i]);
        buf[args[i].eq] := '\0';
      }
    case Redir(d, file, _) =>
      Nulterminate(buf, d, s);
      buf[file.eq] := '\0';
    case Pipe(l, r) =>
      Nulterminate(buf, l, s);
      Nulterminate(buf, r, s);
    case List(l, r) =>
      Nulterminate(buf, l, s);
      Nulterminate(buf, r, s);
    case Back(d) =>
      Nulterminate(buf, d, s);
  }

  /** Words end where no word goes on. */
  lemma {:induction false} EndsOutside(s: string, c: Cmd<Span>, k: nat)
    requires SpansOk(s, c) && EndsAt(c, k)
    ensures k <= |s| && (k < |s| ==> !IsWordChar(s[k]))
  {
    match c
    case Exec(args) =>
    case Redir(d, file, _) => if EndsAt(d, k) { EndsOutside(s, d, k); }
    case Pipe(l, r) => if EndsAt(l, k) { EndsOutside(s, l, k); } else { EndsOutside(s, r, k); }
    case List(l, r) => if EndsAt(l, k) { EndsOutside(s, l, k); } else { EndsOutside(s, r, k); }
    case Back(d) => EndsOutside(s, d, k);
  }

  /** The line has been cut at word ends only. */
  ghost predicate CutAtEnds(s: string, b: seq<char>) {
    && |b| == |s| + 1 && '\0' !in s
    && forall k | 0 <= k < |s| && IsWordChar(s[k]) :: b[k] == s[k]
  }

  lemma {:induction false} WordSeen(s: string, b: seq<char>, w: Span, q: nat)
    requires CutAtEnds(s, b) && SpanOk(s, w) && w.q <= q <= w.eq && b[w.eq] == '\0'
    ensures CString(b, q) == s[q..w.eq]
    decreases w.eq - q
  {
    if q == w.eq {
    } else {
      WordSeen(s, b, w, q + 1);
      assert s[q] in s;
    }
  }

  lemma {:induction false} TreeSeen(s: string, b: seq<char>, c: Cmd<Span>)
    requires CutAtEnds(s, b) && SpansOk(s, c) && forall k | 0 <= k < |b| && EndsAt(c, k) :: b[k] == '\0'
    ensures Seen(b, c) == Tree(s, c)
  {
    match c
    case Exec(args) =>
      forall i | 0 <= i < |args| ensures CString(b, args[i].q) == TextOf(s, args[i]) {
        assert EndsAt(c, args[i].eq);
        WordSeen(s, b, args[i], args[i].q);
      }
      assert CStrings(b, args) == Texts(s, args);
    case Redir(d, file, _) =>
      TreeSeen(s, b, d);
      assert EndsAt(c, file.eq);
      WordSeen(s, b, file, file.q);
    case Pipe(l, r) => TreeSeen(s, b, l); TreeSeen(s, b, r);
    case List(l, r) => TreeSeen(s, b, l); TreeSeen(s, b, r);
    case Back(d) => TreeSeen(s, b, d);
  }

  /** parsecmd on a line in a buffer, NUL at its end: when it returns, every word of the command, read from the buffer
      up to its NUL, is the word that was scanned. */
  method Parsecmd(buf: array<char>, s: string) returns (r: Parsed)
    requires buf[..] == s + ['\0'] && '\0' !in s
    modifies buf
    ensures r.Stopped? ==> Shell.ParseCmd(s) == Panic(r.why)
    ensures r.Done? ==> Shell.ParseCmd(s) == Ok(Seen(buf[..], r.cmd), [])
  {
    r := ParseCmd(s);
    if r.Done? {
      Nulterminate(buf, r.cmd, s);
      forall k | 0 <= k < |s| && IsWordChar(s[k]) ensures buf[..][k] == s[k] {
        if EndsAt(r.cmd, k) { EndsOutside(s, r.cmd, k); }
        assert (s + ['\0'])[k] == s[k];
      }
      TreeSeen(s, buf[..], r.cmd);
    }
  }
}
