/** The command parser of user/sh.c. The text is the line without its final NUL; a position stands for a
    pointer into it, and a pair of positions for the start and end pointers of a token. */
module Shell {
  const NUL := '\0'
  const MAXARGS: nat := 10

  predicate IsSpace(c: char) { c == ' ' || c == '\t' || c == '\r' || c == '\n' || c == '\U{0B}' }

  predicate IsSymbol(c: char) { c == '<' || c == '|' || c == '>' || c == '&' || c == ';' || c == '(' || c == ')' }

  predicate WordChar(c: char) { !IsSpace(c) && !IsSymbol(c) && c != NUL }

  predicate IsText(s: string) { forall i: nat :: i < |s| ==> s[i] != NUL }

  datatype Span = Span(start: nat, end: nat)

  /** Reading, writing and appending: '<', '>' and ">>". */
  datatype Op = In | Out | App

  datatype Cmd<T> =
    | Exec(args: seq<T>)
    | Redir(cmd: Cmd<T>, op: Op, file: T)
    | Pipe(left: Cmd<T>, right: Cmd<T>)
    | List(left: Cmd<T>, right: Cmd<T>)
    | Back(cmd: Cmd<T>)

  datatype Result<T> = Ok(value: T, next: nat) | Fail(message: string)

  function Settle(s: string, p: nat): (r: nat)
    requires p <= |s|
    ensures p <= r <= |s| && (r < |s| ==> !IsSpace(s[r])) && forall i: nat :: p <= i < r ==> IsSpace(s[i])
    decreases |s| - p
  {
    if p < |s| && IsSpace(s[p]) then Settle(s, p + 1) else p
  }

  function WordEnd(s: string, p: nat): (r: nat)
    requires p <= |s|
    ensures p <= r <= |s| && (r < |s| ==> IsSpace(s[r]) || IsSymbol(s[r]))
    ensures forall i: nat :: p <= i < r ==> !IsSpace(s[i]) && !IsSymbol(s[i])
    decreases |s| - p
  {
    if p < |s| && !IsSpace(s[p]) && !IsSymbol(s[p]) then WordEnd(s, p + 1) else p
  }

  /** What gettoken() returns: 0, the symbol itself, '+' for ">>", and 'a' for a word. */
  datatype Kind = End | Symbol(c: char) | Append | Word

  datatype Token = Token(kind: Kind, q: nat, eq: nat, next: nat)

  function GetToken(s: string, p: nat): (t: Token)
    requires p <= |s|
    ensures p <= t.q <= t.eq <= t.next <= |s| && t.next == Settle(s, t.eq) && (!t.kind.End? ==> t.q < t.eq)
  {
    var q := Settle(s, p);
    if q == |s| then Token(End, q, q, q)
    else if s[q] == '>' && q + 1 < |s| && s[q + 1] == '>' then Token(Append, q, q + 2, Settle(s, q + 2))
    else if IsSymbol(s[q]) then Token(Symbol(s[q]), q, q + 1, Settle(s, q + 1))
    else var e := WordEnd(s, q); Token(Word, q, e, Settle(s, e))
  }

  /** peek(): what is at p after blanks is one of toks. */
  predicate Peek(s: string, p: nat, toks: string)
    requires p <= |s|
  {
    var q := Settle(s, p);
    q < |s| && s[q] in toks
  }

  datatype Wrap<T> = Wrap(op: Op, file: T)

  /** A command inside its redirections, the first innermost. */
  function Wrapped<T>(c: Cmd<T>, ws: seq<Wrap<T>>): Cmd<T>
    decreases |ws|
  {
    if ws == [] then c else Wrapped(Redir(c, ws[0].op, ws[0].file), ws[1..])
  }

  /** parseredirs(). */
  function ParseRedirs(s: string, ws: seq<Wrap<Span>>, p: nat): (r: Result<seq<Wrap<Span>>>)
    requires p <= |s|
    ensures r.Ok? ==> p <= r.next <= |s|
    decreases |s| - p
  {
    if !Peek(s, p, "<>") then Ok(ws, Settle(s, p)) else
    var t := GetToken(s, p);
    var f := GetToken(s, t.next);
    if !f.kind.Word? then Fail("missing file for redirection") else
    var op := if t.kind.Append? then App else if t.kind == Symbol('<') then In else Out;
    ParseRedirs(s, ws + [Wrap(op, Span(f.q, f.eq))], f.next)
  }

  datatype Words = Words(args: seq<Span>, wraps: seq<Wrap<Span>>)

  /** The loop of parseexec(). The redirections seen so far enclose the command whose arguments are
      still coming in. */
  function ParseArgs(s: string, w: Words, p: nat): (r: Result<Words>)
    requires p <= |s|
    ensures r.Ok? ==> p <= r.next <= |s|
    decreases |s| - p
  {
    if Peek(s, p, "|)&;") then Ok(w, Settle(s, p)) else
    var t := GetToken(s, p);
    if t.kind.End? then Ok(w, t.next) else
    if !t.kind.Word? then Fail("syntax") else
    var args := w.args + [Span(t.q, t.eq)];
    if |args| >= MAXARGS then Fail("too many args") else
    match ParseRedirs(s, w.wraps, t.next)
    case Fail(m) => Fail(m)
    case Ok(wraps, next) => ParseArgs(s, Words(args, wraps), next)
  }

  function ParseExec(s: string, p: nat): (r: Result<Cmd<Span>>)
    requires p <= |s|
    ensures r.Ok? ==> p <= r.next <= |s|
    decreases |s| - p, 1
  {
    if Peek(s, p, "(") then ParseBlock(s, p) else
    match ParseRedirs(s, [], p)
    case Fail(m) => Fail(m)
    case Ok(wraps, next) =>
      match ParseArgs(s, Words([], wraps), next)
      case Fail(m) => Fail(m)
      case Ok(w, end) => Ok(Wrapped(Exec(w.args), w.wraps), end)
  }

  function ParseBlock(s: string, p: nat): (r: Result<Cmd<Span>>)
    requires p <= |s|
    ensures r.Ok? ==> p <= r.next <= |s|
    decreases |s| - p, 0
  {
    if !Peek(s, p, "(") then Fail("parseblock") else
    match ParseLine(s, GetToken(s, p).next)
    case Fail(m) => Fail(m)
    case Ok(c, next) =>
      if !Peek(s, next, ")") then Fail("syntax - missing )") else
      match ParseRedirs(s, [], GetToken(s, next).next)
      case Fail(m) => Fail(m)
      case Ok(wraps, end) => Ok(Wrapped(c, wraps), end)
  }

  function ParsePipe(s: string, p: nat): (r: Result<Cmd<Span>>)
    requires p <= |s|
    ensures r.Ok? ==> p <= r.next <= |s|
    decreases |s| - p, 2
  {
    match ParseExec(s, p)
    case Fail(m) => Fail(m)
    case Ok(c, next) =>
      if !Peek(s, next, "|") then Ok(c, Settle(s, next)) else
      match ParsePipe(s, GetToken(s, next).next)
      case Fail(m) => Fail(m)
      case Ok(right, end) => Ok(Pipe(c, right), end)
  }

  /** The '&' loop of parseline(). */
  function ParseBacks(s: string, c: Cmd<Span>, p: nat): (r: Result<Cmd<Span>>)
    requires p <= |s|
    ensures r.Ok? && p <= r.next <= |s|
    decreases |s| - p
  {
    if Peek(s, p, "&") then ParseBacks(s, Back(c), GetToken(s, p).next) else Ok(c, Settle(s, p))
  }

  function ParseLine(s: string, p: nat): (r: Result<Cmd<Span>>)
    requires p <= |s|
    ensures r.Ok? ==> p <= r.next <= |s|
    decreases |s| - p, 3
  {
    match ParsePipe(s, p)
    case Fail(m) => Fail(m)
    case Ok(c, next) =>
      var b := ParseBacks(s, c, next);
      if !Peek(s, b.next, ";") then b else
      match ParseLine(s, GetToken(s, b.next).next)
      case Fail(m) => Fail(m)
      case Ok(rest, end) => Ok(List(b.value, rest), end)
  }

  /** parsecmd() up to nulterminate(). */
  function ParseCmd(s: string): (r: Result<Cmd<Span>>) {
    match ParseLine(s, 0)
    case Fail(m) => Fail(m)
    case Ok(c, next) => if Settle(s, next) != |s| then Fail("syntax") else Ok(c, |s|)
  }

  function TextOf(s: string, a: Span): string { if a.start <= a.end <= |s| then s[a.start..a.end] else "" }

  function TextsOf(s: string, args: seq<Span>): (r: seq<string>)
    ensures |r| == |args| && forall i: nat :: i < |r| ==> r[i] == TextOf(s, args[i])
  {
    seq(|args|, i requires 0 <= i < |args| => TextOf(s, args[i]))
  }

  function WrapText(s: string, w: Wrap<Span>): Wrap<string> { Wrap(w.op, TextOf(s, w.file)) }

  function WrapTexts(s: string, ws: seq<Wrap<Span>>): (r: seq<Wrap<string>>)
    ensures |r| == |ws| && forall i: nat :: i < |r| ==> r[i] == WrapText(s, ws[i])
  {
    seq(|ws|, i requires 0 <= i < |ws| => WrapText(s, ws[i]))
  }

  /** The command with each token spelled out. */
  function Reads(s: string, c: Cmd<Span>): Cmd<string> {
    match c
    case Exec(args) => Exec(TextsOf(s, args))
    case Redir(d, op, f) => Redir(Reads(s, d), op, TextOf(s, f))
    case Pipe(l, r) => Pipe(Reads(s, l), Reads(s, r))
    case List(l, r) => List(Reads(s, l), Reads(s, r))
    case Back(d) => Back(Reads(s, d))
  }

  lemma {:induction false} ReadsWrapped(s: string, c: Cmd<Span>, ws: seq<Wrap<Span>>)
    ensures Reads(s, Wrapped(c, ws)) == Wrapped(Reads(s, c), WrapTexts(s, ws))
    decreases |ws|
  {
    if ws != [] {
      ReadsWrapped(s, Redir(c, ws[0].op, ws[0].file), ws[1..]);
      assert WrapTexts(s, ws)[1..] == WrapTexts(s, ws[1..]);
    }
  }

  /** A token to be printed. */
  datatype Piece = W(text: string) | S(kind: Kind)

  predicate IsWord(w: string) { w != "" && forall i: nat :: i < |w| ==> WordChar(w[i]) }

  /** A command that has a printed form: its words are words, and no command has too many. */
  predicate Printable(c: Cmd<string>) {
    match c
    case Exec(args) => |args| < MAXARGS && forall i: nat :: i < |args| ==> IsWord(args[i])
    case Redir(d, _, f) => Printable(d) && IsWord(f)
    case Pipe(l, r) => Printable(l) && Printable(r)
    case List(l, r) => Printable(l) && Printable(r)
    case Back(d) => Printable(d)
  }

  /** How tightly a command binds: a list least, then background, pipe, and the rest. */
  function Level(c: Cmd<string>): nat {
    match c
    case List(_, _) => 0
    case Back(_) => 1
    case Pipe(_, _) => 2
    case _ => 3
  }

  function OpKind(op: Op): Kind { match op case In => Symbol('<') case Out => Symbol('>') case App => Append }

  function WordPieces(args: seq<string>): (r: seq<Piece>)
    ensures |r| == |args| && forall i: nat :: i < |r| ==> r[i] == W(args[i])
  {
    seq(|args|, i requires 0 <= i < |args| => W(args[i]))
  }

  function WrapPieces(ws: seq<Wrap<string>>): seq<Piece> {
    if ws == [] then [] else [S(OpKind(ws[0].op)), W(ws[0].file)] + WrapPieces(ws[1..])
  }

  /** The tokens of a command where one that binds at least as tightly as `level` is wanted: others go
      into parentheses. */
  function Pieces(c: Cmd<string>, level: nat): seq<Piece>
    decreases c, if Level(c) < level then 1 else 0
  {
    if Level(c) < level then [S(Symbol('('))] + Pieces(c, 0) + [S(Symbol(')'))] else
    match c
    case Exec(args) => WordPieces(args)
    case Redir(d, op, f) => Pieces(d, 3) + [S(OpKind(op)), W(f)]
    case Pipe(l, r) => Pieces(l, 3) + [S(Symbol('|'))] + Pieces(r, 2)
    case List(l, r) => Pieces(l, 1) + [S(Symbol(';'))] + Pieces(r, 0)
    case Back(d) => Pieces(d, 1) + [S(Symbol('&'))]
  }

  /** The command inside the redirections, and these. */
  function Core(c: Cmd<string>): (r: Cmd<string>)
    ensures !r.Redir? && (r == c || r < c) && (!c.Redir? ==> r == c) && (Printable(c) ==> Printable(r))
  {
    if c.Redir? then Core(c.cmd) else c
  }

  function WrapsOf(c: Cmd<string>): (ws: seq<Wrap<string>>)
    ensures Printable(c) ==> forall i: nat :: i < |ws| ==> IsWord(ws[i].file)
  {
    if c.Redir? then WrapsOf(c.cmd) + [Wrap(c.op, c.file)] else []
  }

  lemma {:induction false} WrappedLast<T>(c: Cmd<T>, ws: seq<Wrap<T>>, w: Wrap<T>)
    ensures Wrapped(c, ws + [w]) == Redir(Wrapped(c, ws), w.op, w.file)
    decreases |ws|
  {
    if ws == [] {
      assert ws + [w] == [w];
    } else {
      assert (ws + [w])[1..] == ws[1..] + [w];
      WrappedLast(Redir(c, ws[0].op, ws[0].file), ws[1..], w);
    }
  }

  lemma {:induction false} WrapPiecesLast(ws: seq<Wrap<string>>, w: Wrap<string>)
    ensures WrapPieces(ws + [w]) == WrapPieces(ws) + [S(OpKind(w.op)), W(w.file)]
    decreases |ws|
  {
    if ws == [] {
      assert ws + [w] == [w];
    } else {
      assert (ws + [w])[1..] == ws[1..] + [w];
      WrapPiecesLast(ws[1..], w);
    }
  }

  /** A command is its core inside its redirections, and is printed that way. */
  lemma {:induction false} CoreWrapped(c: Cmd<string>)
    ensures Wrapped(Core(c), WrapsOf(c)) == c
    ensures Pieces(c, 3) == Pieces(Core(c), 3) + WrapPieces(WrapsOf(c))
  {
    if c.Redir? {
      CoreWrapped(c.cmd);
      WrappedLast(Core(c.cmd), WrapsOf(c.cmd), Wrap(c.op, c.file));
      WrapPiecesLast(WrapsOf(c.cmd), Wrap(c.op, c.file));
    }
  }

  /** The token at p is x. */
  predicate Matches(s: string, p: nat, x: Piece)
    requires p <= |s|
  {
    var t := GetToken(s, p);
    match x
    case W(w) => t.kind.Word? && s[t.q..t.eq] == w
    case S(k) => t.kind == k
  }

  /** The tokens from p on begin with xs. */
  predicate Lexes(s: string, p: nat, xs: seq<Piece>)
    requires p <= |s|
    decreases |xs|
  {
    xs != [] ==> Matches(s, p, xs[0]) && Lexes(s, GetToken(s, p).next, xs[1..])
  }

  /** Where n tokens from p end, blanks skipped. */
  function LexEnd(s: string, p: nat, n: nat): (q: nat)
    requires p <= |s|
    ensures p <= q <= |s|
    decreases n
  {
    if n == 0 then p else LexEnd(s, GetToken(s, p).next, n - 1)
  }

  lemma {:induction false} LexSplit(s: string, p: nat, xs: seq<Piece>, ys: seq<Piece>)
    requires p <= |s| && Lexes(s, p, xs + ys)
    ensures Lexes(s, p, xs) && Lexes(s, LexEnd(s, p, |xs|), ys)
    ensures LexEnd(s, p, |xs + ys|) == LexEnd(s, LexEnd(s, p, |xs|), |ys|)
    decreases |xs|
  {
    hide GetToken, Matches;
    if xs == [] {
      assert xs + ys == ys;
    } else {
      assert (xs + ys)[1..] == xs[1..] + ys;
      LexSplit(s, GetToken(s, p).next, xs[1..], ys);
    }
  }

  predicate Settled(s: string, p: nat) { p <= |s| && Settle(s, p) == p }

  lemma {:induction false} SettledAgain(s: string, p: nat)
    requires p <= |s|
    ensures Settled(s, Settle(s, p))
    decreases |s| - p
  {
    if p < |s| && IsSpace(s[p]) { SettledAgain(s, p + 1); }
  }

  lemma {:induction false} LexEndSettled(s: string, p: nat, n: nat)
    requires Settled(s, p)
    ensures Settled(s, LexEnd(s, p, n))
    decreases n
  {
    if n != 0 {
      SettledAgain(s, GetToken(s, p).eq);
      LexEndSettled(s, GetToken(s, p).next, n - 1);
    }
  }

  /** The first character tells the kind of the token. */
  lemma FirstChar(s: string, p: nat, x: Piece)
    requires Settled(s, p) && Matches(s, p, x) && (x.S? ==> x.kind.Symbol? || x.kind.Append?)
    ensures p < |s| && Settled(s, GetToken(s, p).next)
    ensures s[p] == if x.W? then s[p] else if x.kind.Symbol? then x.kind.c else '>'
    ensures x.W? ==> !IsSymbol(s[p])
  {
    SettledAgain(s, GetToken(s, p).eq);
  }

  /** At q the text ends, or goes on with one of toks. */
  predicate Stops(s: string, q: nat, toks: string) { q == |s| || (q < |s| && s[q] in toks) }

  lemma LexFirst(s: string, p: nat, xs: seq<Piece>)
    requires p <= |s| && xs != [] && Lexes(s, p, xs)
    ensures Matches(s, p, xs[0]) && Lexes(s, GetToken(s, p).next, xs[1..])
    ensures LexEnd(s, p, |xs|) == LexEnd(s, GetToken(s, p).next, |xs| - 1)
  {
  }

  function Next(s: string, p: nat): (q: nat)
    requires p <= |s|
    ensures q <= |s|
  {
    GetToken(s, p).next
  }

  function SpanAt(s: string, p: nat): Span
    requires p <= |s|
  {
    Span(GetToken(s, p).q, GetToken(s, p).eq)
  }

  lemma RedirStep(s: string, p: nat, w: Wrap<string>, before: seq<Wrap<Span>>)
    requires Settled(s, p) && Matches(s, p, S(OpKind(w.op))) && Matches(s, Next(s, p), W(w.file))
    ensures var f := Wrap(w.op, SpanAt(s, Next(s, p)));
            && WrapText(s, f) == w && Settled(s, Next(s, Next(s, p)))
            && ParseRedirs(s, before, p) == ParseRedirs(s, before + [f], Next(s, Next(s, p)))
  {
    FirstChar(s, p, S(OpKind(w.op)));
    FirstChar(s, Next(s, p), W(w.file));
  }

  lemma RedirStop(s: string, p: nat, before: seq<Wrap<Span>>)
    requires Settled(s, p) && (p < |s| ==> s[p] != '<' && s[p] != '>')
    ensures ParseRedirs(s, before, p) == Ok(before, p)
  {
  }

  lemma {:induction false} WrapFirst(s: string, p: nat, ws: seq<Wrap<string>>)
    requires p <= |s| && ws != [] && Lexes(s, p, WrapPieces(ws))
    ensures Matches(s, p, S(OpKind(ws[0].op))) && Matches(s, Next(s, p), W(ws[0].file))
    ensures Lexes(s, Next(s, Next(s, p)), WrapPieces(ws[1..]))
    ensures LexEnd(s, p, |WrapPieces(ws)|) == LexEnd(s, Next(s, Next(s, p)), |WrapPieces(ws[1..])|)
  {
    hide Matches, GetToken;
    var xs := WrapPieces(ws);
    assert xs[1..][1..] == WrapPieces(ws[1..]);
    LexFirst(s, p, xs);
    LexFirst(s, Next(s, p), xs[1..]);
  }

  lemma RedirsNone(s: string, p: nat, before: seq<Wrap<Span>>)
    requires Settled(s, p) && (var q := LexEnd(s, p, |WrapPieces([])|); q < |s| ==> s[q] != '<' && s[q] != '>')
    ensures ParseRedirs(s, before, p) == Ok(before, LexEnd(s, p, |WrapPieces([])|)) && WrapTexts(s, []) == []
  {
    RedirStop(s, p, before);
  }

  /** parseredirs() reads printed redirections back, and stops after them. */
  lemma {:induction false} RedirsOk(s: string, p: nat, ws: seq<Wrap<string>>, before: seq<Wrap<Span>>) returns (read: seq<Wrap<Span>>)
    requires Settled(s, p) && Lexes(s, p, WrapPieces(ws))
    requires var q := LexEnd(s, p, |WrapPieces(ws)|); q < |s| ==> s[q] != '<' && s[q] != '>'
    ensures ParseRedirs(s, before, p) == Ok(before + read, LexEnd(s, p, |WrapPieces(ws)|)) && WrapTexts(s, read) == ws
    decreases |ws|
  {
    hide *;
    read := [];
    if ws == [] {
      RedirsNone(s, p, before);
      assert before + read == before;
    } else {
      WrapFirst(s, p, ws);
      RedirStep(s, p, ws[0], before);
      var f := Wrap(ws[0].op, SpanAt(s, Next(s, p)));
      read := RedirsOk(s, Next(s, Next(s, p)), ws[1..], before + [f]);
      assert before + [f] + read == before + ([f] + read);
      WrapTextsCons(s, f, read);
      assert ws == [ws[0]] + ws[1..];
      read := [f] + read;
    }
  }

  lemma WrapTextsCons(s: string, w: Wrap<Span>, ws: seq<Wrap<Span>>)
    ensures WrapTexts(s, [w] + ws) == [WrapText(s, w)] + WrapTexts(s, ws)
  {
  }

  lemma TextsCons(s: string, a: Span, args: seq<Span>)
    ensures TextsOf(s, [a] + args) == [TextOf(s, a)] + TextsOf(s, args)
  {
  }

  lemma ArgStep(s: string, p: nat, arg: string, w: Words)
    requires Settled(s, p) && Matches(s, p, W(arg)) && |w.args| + 1 < MAXARGS
    ensures TextOf(s, SpanAt(s, p)) == arg && Settled(s, Next(s, p)) && p < |s| && !IsSymbol(s[p])
    ensures var r := ParseRedirs(s, w.wraps, Next(s, p));
            r.Ok? ==> ParseArgs(s, w, p) == ParseArgs(s, Words(w.args + [SpanAt(s, p)], r.value), r.next)
  {
    FirstChar(s, p, W(arg));
  }

  lemma AtStop(s: string, q: nat, w: Words)
    requires Settled(s, q) && Stops(s, q, "|)&;")
    ensures ParseArgs(s, w, q) == Ok(w, q) && (q < |s| ==> s[q] != '<' && s[q] != '>')
  {
  }

  lemma ArgFirst(s: string, p: nat, args: seq<string>, ws: seq<Wrap<string>>)
    requires p <= |s| && args != [] && Lexes(s, p, WordPieces(args) + WrapPieces(ws))
    ensures Matches(s, p, W(args[0])) && Lexes(s, Next(s, p), WordPieces(args[1..]) + WrapPieces(ws))
    ensures LexEnd(s, p, |WordPieces(args) + WrapPieces(ws)|) == LexEnd(s, Next(s, p), |WordPieces(args[1..]) + WrapPieces(ws)|)
  {
    hide Matches, GetToken;
    var xs := WordPieces(args) + WrapPieces(ws);
    assert xs[1..] == WordPieces(args[1..]) + WrapPieces(ws);
    LexFirst(s, p, xs);
  }

  /** The redirections after an argument: those that are printed after the last one, none before. */
  lemma AfterArg(s: string, p: nat, args: seq<string>, ws: seq<Wrap<string>>, before: seq<Wrap<Span>>) returns (read: seq<Wrap<Span>>)
    requires Settled(s, p) && Lexes(s, p, WordPieces(args) + WrapPieces(ws))
    requires Stops(s, LexEnd(s, p, |WordPieces(args) + WrapPieces(ws)|), "|)&;")
    ensures args != [] ==> ParseRedirs(s, before, p) == Ok(before, p) && read == []
    ensures args == [] ==> ParseRedirs(s, before, p) == Ok(before + read, LexEnd(s, p, |WrapPieces(ws)|)) && WrapTexts(s, read) == ws
  {
    read := [];
    if args != [] {
      ArgFirst(s, p, args, ws);
      FirstChar(s, p, W(args[0]));
      RedirStop(s, p, before);
    } else {
      assert WordPieces(args) + WrapPieces(ws) == WrapPieces(ws);
      read := RedirsOk(s, p, ws, before);
    }
  }

  /** The loop of parseexec() reads printed arguments back, and the redirections after the last. */
  lemma {:induction false} ArgsOk(s: string, p: nat, args: seq<string>, ws: seq<Wrap<string>>, before: Words) returns (read: Words)
    requires Settled(s, p) && Lexes(s, p, WordPieces(args) + WrapPieces(ws)) && args != []
    requires |before.args| + |args| < MAXARGS && Stops(s, LexEnd(s, p, |WordPieces(args) + WrapPieces(ws)|), "|)&;")
    ensures ParseArgs(s, before, p) ==
            Ok(Words(before.args + read.args, before.wraps + read.wraps), LexEnd(s, p, |WordPieces(args) + WrapPieces(ws)|))
    ensures TextsOf(s, read.args) == args && WrapTexts(s, read.wraps) == ws
    decreases |args|
  {
    hide *;
    ArgFirst(s, p, args, ws);
    ArgStep(s, p, args[0], before);
    var a, n := SpanAt(s, p), Next(s, p);
    var wraps := AfterArg(s, n, args[1..], ws, before.wraps);
    read := Words([], wraps);
    if args[1..] == [] {
      LastArg(s, n, ws, Words(before.args + [a], before.wraps + wraps));
      assert before.args + [a] == before.args + ([a] + []);
    } else {
      read := ArgsOk(s, n, args[1..], ws, Words(before.args + [a], before.wraps));
      assert before.args + [a] + read.args == before.args + ([a] + read.args);
    }
    TextsCons(s, a, read.args);
    assert args == [args[0]] + args[1..];
    assert read.args == [] ==> TextsOf(s, read.args) == [];
    read := Words([a] + read.args, read.wraps);
  }

  lemma LastArg(s: string, p: nat, ws: seq<Wrap<string>>, w: Words)
    requires Settled(s, p) && Stops(s, LexEnd(s, p, |WordPieces([]) + WrapPieces(ws)|), "|)&;")
    ensures LexEnd(s, p, |WordPieces([]) + WrapPieces(ws)|) == LexEnd(s, p, |WrapPieces(ws)|)
    ensures ParseArgs(s, w, LexEnd(s, p, |WrapPieces(ws)|)) == Ok(w, LexEnd(s, p, |WrapPieces(ws)|))
  {
    assert WordPieces([]) + WrapPieces(ws) == WrapPieces(ws);
    LexEndSettled(s, p, |WrapPieces(ws)|);
    AtStop(s, LexEnd(s, p, |WrapPieces(ws)|), w);
  }

  /** parseexec() on a command with its redirections printed after it. */
  lemma SimpleOk(s: string, p: nat, args: seq<string>, ws: seq<Wrap<string>>) returns (c: Cmd<Span>)
    requires Settled(s, p) && Lexes(s, p, WordPieces(args) + WrapPieces(ws)) && |args| < MAXARGS
    requires Stops(s, LexEnd(s, p, |WordPieces(args) + WrapPieces(ws)|), "|)&;")
    ensures ParseExec(s, p) == Ok(c, LexEnd(s, p, |WordPieces(args) + WrapPieces(ws)|))
    ensures Reads(s, c) == Wrapped(Exec(args), ws)
  {
    hide Lexes, ParseArgs, ParseRedirs, LexEnd, WrapPieces, Reads;
    NotBlock(s, p, args, ws);
    var wraps := AfterArg(s, p, args, ws, []);
    assert [] + wraps == wraps;
    var w := Words([], wraps);
    if args == [] {
      LastArg(s, p, ws, Words([], wraps));
    } else {
      w := ArgsOk(s, p, args, ws, Words([], []));
      assert [] + w.args == w.args && [] + w.wraps == w.wraps;
    }
    c := Wrapped(Exec(w.args), w.wraps);
    ReadsWrapped(s, Exec(w.args), w.wraps);
    ReadsExec(s, w.args);
    assert args == [] ==> TextsOf(s, w.args) == [];
  }

  lemma ReadsExec(s: string, args: seq<Span>)
    ensures Reads(s, Exec(args)) == Exec(TextsOf(s, args))
  {
  }

  lemma {:induction false} NotBlock(s: string, p: nat, args: seq<string>, ws: seq<Wrap<string>>)
    requires Settled(s, p) && Lexes(s, p, WordPieces(args) + WrapPieces(ws))
    requires Stops(s, LexEnd(s, p, |WordPieces(args) + WrapPieces(ws)|), "|)&;")
    ensures !Peek(s, p, "(")
  {
    var xs := WordPieces(args) + WrapPieces(ws);
    if xs != [] {
      assert xs[0] == if args != [] then W(args[0]) else S(OpKind(ws[0].op));
      LexFirst(s, p, xs);
      FirstChar(s, p, xs[0]);
    }
  }

  lemma BlockGo(s: string, p: nat, c: Cmd<Span>, m: nat, ws: seq<Wrap<Span>>, q: nat)
    requires Settled(s, p) && Matches(s, p, S(Symbol('('))) && ParseLine(s, Next(s, p)) == Ok(c, m) && m <= |s| && Settled(s, m)
    requires Matches(s, m, S(Symbol(')'))) && ParseRedirs(s, [], Next(s, m)) == Ok(ws, q)
    ensures ParseExec(s, p) == Ok(Wrapped(c, ws), q)
  {
    FirstChar(s, p, S(Symbol('(')));
    FirstChar(s, m, S(Symbol(')')));
  }

  lemma PipeStop(s: string, p: nat, c: Cmd<Span>, q: nat)
    requires p <= |s| && ParseExec(s, p) == Ok(c, q) && Settled(s, q) && Stops(s, q, ")&;")
    ensures ParsePipe(s, p) == Ok(c, q)
  {
    hide ParseExec;
  }

  lemma PipeGo(s: string, p: nat, c: Cmd<Span>, m: nat, r: Cmd<Span>, q: nat)
    requires p <= |s| && ParseExec(s, p) == Ok(c, m) && Settled(s, m) && Matches(s, m, S(Symbol('|')))
    requires ParsePipe(s, Next(s, m)) == Ok(r, q)
    ensures ParsePipe(s, p) == Ok(Pipe(c, r), q)
  {
    hide ParseExec;
    FirstChar(s, m, S(Symbol('|')));
  }

  lemma BackStop(s: string, c: Cmd<Span>, q: nat)
    requires Settled(s, q) && (q < |s| ==> s[q] != '&')
    ensures ParseBacks(s, c, q) == Ok(c, q)
  {
  }

  lemma BackGo(s: string, c: Cmd<Span>, m: nat)
    requires Settled(s, m) && Matches(s, m, S(Symbol('&')))
    ensures ParseBacks(s, c, m) == ParseBacks(s, Back(c), Next(s, m))
  {
    FirstChar(s, m, S(Symbol('&')));
  }

  lemma LineStop(s: string, p: nat, c: Cmd<Span>, q: nat)
    requires p <= |s| && q <= |s| && ParsePipe(s, p).Ok?
    requires ParseBacks(s, ParsePipe(s, p).value, ParsePipe(s, p).next) == ParseBacks(s, c, q)
    requires Settled(s, q) && Stops(s, q, ")")
    ensures ParseLine(s, p) == Ok(c, q)
  {
    hide ParsePipe;
    BackStop(s, c, q);
  }

  lemma LineGo(s: string, p: nat, c: Cmd<Span>, m: nat, r: Cmd<Span>, q: nat)
    requires p <= |s| && m <= |s| && ParsePipe(s, p).Ok?
    requires ParseBacks(s, ParsePipe(s, p).value, ParsePipe(s, p).next) == ParseBacks(s, c, m)
    requires Settled(s, m) && Matches(s, m, S(Symbol(';'))) && ParseLine(s, Next(s, m)) == Ok(r, q)
    ensures ParseLine(s, p) == Ok(List(c, r), q)
  {
    hide ParsePipe;
    FirstChar(s, m, S(Symbol(';')));
    BackStop(s, c, m);
  }

  /** xs, then the symbol c, then ys. */
  lemma {:induction false} LexAround(s: string, p: nat, xs: seq<Piece>, c: char, ys: seq<Piece>) returns (m: nat)
    requires Settled(s, p) && Lexes(s, p, xs + [S(Symbol(c))] + ys)
    ensures m == LexEnd(s, p, |xs|) && Lexes(s, p, xs) && Settled(s, m) && m < |s| && s[m] == c && Matches(s, m, S(Symbol(c)))
    ensures Settled(s, Next(s, m)) && Lexes(s, Next(s, m), ys)
    ensures LexEnd(s, p, |xs + [S(Symbol(c))] + ys|) == LexEnd(s, Next(s, m), |ys|)
  {
    hide GetToken, Matches, Settle, Settled;
    var zs := [S(Symbol(c))] + ys;
    assert xs + [S(Symbol(c))] + ys == xs + zs && zs[1..] == ys;
    LexSplit(s, p, xs, zs);
    m := LexEnd(s, p, |xs|);
    LexEndSettled(s, p, |xs|);
    LexFirst(s, m, zs);
    FirstChar(s, m, S(Symbol(c)));
  }

  ghost function Rank(t: Cmd<string>, level: nat): nat
    requires level <= 3
  {
    if Level(t) >= level then Level(t) - level else 7 - level
  }

  /** What is printed for t at a level that t does not have is printed at the next level, too. */
  lemma NextLevel(t: Cmd<string>, level: nat)
    requires level < 3 && Level(t) != level
    ensures Pieces(t, level) == Pieces(t, level + 1) && Rank(t, level + 1) < Rank(t, level)
  {
  }

  predicate Ready(s: string, p: nat, t: Cmd<string>, level: nat, stops: string) {
    Settled(s, p) && Printable(t) && Lexes(s, p, Pieces(t, level)) && Stops(s, LexEnd(s, p, |Pieces(t, level)|), stops)
  }

  /** The tokens of a block: the parentheses at p and m, and the redirections. */
  lemma {:induction false} BlockLex(s: string, p: nat, t: Cmd<string>) returns (m: nat)
    requires Ready(s, p, t, 3, "|)&;") && !Core(t).Exec?
    ensures m <= |s| && Matches(s, p, S(Symbol('('))) && Matches(s, m, S(Symbol(')'))) && Settled(s, m)
    ensures Settled(s, Next(s, m)) && Lexes(s, Next(s, m), WrapPieces(WrapsOf(t)))
    ensures LexEnd(s, p, |Pieces(t, 3)|) == LexEnd(s, Next(s, m), |WrapPieces(WrapsOf(t))|)
    ensures m == LexEnd(s, Next(s, p), |Pieces(Core(t), 0)|) && Ready(s, Next(s, p), Core(t), 0, ")")
  {
    hide Settled, Lexes, Matches, LexEnd, WrapPieces, Core, WrapsOf, Printable;
    var core, ws := Core(t), WrapsOf(t);
    CoreWrapped(t);
    var inner := Pieces(core, 0) + [S(Symbol(')'))] + WrapPieces(ws);
    assert Pieces(t, 3) == [] + [S(Symbol('('))] + inner;
    hide Pieces;
    var m0 := LexAround(s, p, [], '(', inner);
    EmptyLex(s, p);
    m := LexAround(s, Next(s, p), Pieces(core, 0), ')', WrapPieces(ws));
  }

  lemma {:induction false} SimpleReady(s: string, p: nat, t: Cmd<string>)
    requires Ready(s, p, t, 3, "|)&;") && Core(t).Exec?
    ensures Settled(s, p) && Pieces(t, 3) == WordPieces(Core(t).args) + WrapPieces(WrapsOf(t)) && |Core(t).args| < MAXARGS
    ensures Lexes(s, p, Pieces(t, 3)) && Stops(s, LexEnd(s, p, |Pieces(t, 3)|), "|)&;")
  {
    hide Lexes, LexEnd, Settled;
    CoreWrapped(t);
  }

  lemma BlockEnds(s: string, p: nat, t: Cmd<string>)
    requires Ready(s, p, t, 3, "|)&;") && !Core(t).Exec?
    ensures p <= |s| && Settled(s, p) && (Core(t) == t ==> Rank(t, 0) < Rank(t, 3))
    ensures var q := LexEnd(s, p, |Pieces(t, 3)|); q < |s| ==> s[q] != '<' && s[q] != '>'
  {
    hide Lexes, LexEnd, Pieces, Printable;
  }

  lemma {:induction false} ExecOk(s: string, p: nat, t: Cmd<string>) returns (c: Cmd<Span>)
    requires Ready(s, p, t, 3, "|)&;")
    ensures ParseExec(s, p) == Ok(c, LexEnd(s, p, |Pieces(t, 3)|)) && Reads(s, c) == t
    decreases t, Rank(t, 3)
  {
    hide *;
    var core, ws := Core(t), WrapsOf(t);
    CoreWrapped(t);
    if core.Exec? {
      SimpleReady(s, p, t);
      c := SimpleOk(s, p, core.args, ws);
    } else {
      BlockEnds(s, p, t);
      var m := BlockLex(s, p, t);
      var line := LineOk(s, Next(s, p), core);
      var read := RedirsOk(s, Next(s, m), ws, []);
      assert [] + read == read;
      BlockGo(s, p, line, m, read, LexEnd(s, Next(s, m), |WrapPieces(ws)|));
      ReadsWrapped(s, line, read);
      c := Wrapped(line, read);
    }
  }

  lemma EmptyLex(s: string, p: nat)
    requires p <= |s|
    ensures LexEnd(s, p, 0) == p
  {
  }

  lemma {:induction false} PipeOk(s: string, p: nat, t: Cmd<string>) returns (c: Cmd<Span>)
    requires Ready(s, p, t, 2, ")&;")
    ensures ParsePipe(s, p) == Ok(c, LexEnd(s, p, |Pieces(t, 2)|)) && Reads(s, c) == t
    decreases t, Rank(t, 2)
  {
    if t.Pipe? {
      hide Settled, Lexes, Matches, LexEnd, ParseExec, ParsePipe;
      var m := LexAround(s, p, Pieces(t.left, 3), '|', Pieces(t.right, 2));
      var left := ExecOk(s, p, t.left);
      var right := PipeOk(s, Next(s, m), t.right);
      PipeGo(s, p, left, m, right, LexEnd(s, Next(s, m), |Pieces(t.right, 2)|));
      c := Pipe(left, right);
    } else {
      NextLevel(t, 2);
      hide Settled, Lexes, Matches, LexEnd, ParseExec, ParsePipe, Pieces;
      LexEndSettled(s, p, |Pieces(t, 3)|);
      c := ExecOk(s, p, t);
      PipeStop(s, p, c, LexEnd(s, p, |Pieces(t, 3)|));
    }
  }

  lemma {:induction false} BackOk(s: string, p: nat, t: Cmd<string>) returns (c: Cmd<Span>)
    requires Ready(s, p, t, 1, ")&;")
    ensures ParsePipe(s, p).Ok? && Reads(s, c) == t
    ensures ParseBacks(s, ParsePipe(s, p).value, ParsePipe(s, p).next) == ParseBacks(s, c, LexEnd(s, p, |Pieces(t, 1)|))
    decreases t, Rank(t, 1)
  {
    if t.Back? {
      hide Settled, Lexes, Matches, LexEnd, ParsePipe, ParseBacks;
      assert Pieces(t, 1) == Pieces(t.cmd, 1) + [S(Symbol('&'))] + [];
      var m := LexAround(s, p, Pieces(t.cmd, 1), '&', []);
      EmptyLex(s, Next(s, m));
      var cmd := BackOk(s, p, t.cmd);
      BackGo(s, cmd, m);
      c := Back(cmd);
    } else {
      NextLevel(t, 1);
      hide Settled, Lexes, Matches, LexEnd, ParsePipe, ParseBacks, Pieces;
      c := PipeOk(s, p, t);
    }
  }

  lemma {:induction false} LineOk(s: string, p: nat, t: Cmd<string>) returns (c: Cmd<Span>)
    requires Ready(s, p, t, 0, ")")
    ensures ParseLine(s, p) == Ok(c, LexEnd(s, p, |Pieces(t, 0)|)) && Reads(s, c) == t
    decreases t, Rank(t, 0)
  {
    if t.List? {
      hide Settled, Lexes, Matches, LexEnd, ParsePipe, ParseLine, ParseBacks;
      var m := LexAround(s, p, Pieces(t.left, 1), ';', Pieces(t.right, 0));
      var left := BackOk(s, p, t.left);
      var right := LineOk(s, Next(s, m), t.right);
      LineGo(s, p, left, m, right, LexEnd(s, Next(s, m), |Pieces(t.right, 0)|));
      c := List(left, right);
    } else {
      NextLevel(t, 0);
      hide Settled, Lexes, Matches, LexEnd, ParsePipe, ParseLine, ParseBacks, Pieces;
      LexEndSettled(s, p, |Pieces(t, 1)|);
      c := BackOk(s, p, t);
      LineStop(s, p, c, LexEnd(s, p, |Pieces(t, 1)|));
    }
  }

  predicate Blank(g: string) { forall i: nat :: i < |g| ==> IsSpace(g[i]) }

  predicate PieceOk(x: Piece) {
    match x
    case W(w) => IsWord(w)
    case S(k) => k.Append? || (k.Symbol? && IsSymbol(k.c))
  }

  function Spell(x: Piece): (t: string)
    ensures PieceOk(x) ==> t != ""
  {
    match x
    case W(w) => w
    case S(k) => if k.Symbol? then [k.c] else ">>"
  }

  /** Without a blank between them, the two would be read as something else. */
  predicate NeedsGap(x: Piece, y: Piece) {
    (x.W? && y.W?) || (x == S(Symbol('>')) && (y == S(Symbol('>')) || y == S(Append)))
  }

  /** Blanks before, between and after the tokens xs: as many as one likes, but some where they are needed. */
  predicate Gaps(xs: seq<Piece>, gaps: seq<string>) {
    && |gaps| == |xs| + 1 && (forall i: nat :: i < |gaps| ==> Blank(gaps[i]))
    && (forall i: nat, j: nat :: j == i + 1 < |xs| ==> NeedsGap(xs[i], xs[j]) ==> gaps[j] != "")
  }

  function Render(xs: seq<Piece>, gaps: seq<string>): string
    requires |gaps| == |xs| + 1
    decreases |xs|
  {
    if xs == [] then gaps[0] else gaps[0] + Spell(xs[0]) + Render(xs[1..], gaps[1..])
  }

  lemma {:induction false} SettleAt(s: string, p: nat, q: nat)
    requires p <= q <= |s| && (q < |s| ==> !IsSpace(s[q])) && forall i: nat :: p <= i < q ==> IsSpace(s[i])
    ensures Settle(s, p) == q
    decreases q - p
  {
    if p < q { SettleAt(s, p + 1, q); }
  }

  lemma {:induction false} WordEndAt(s: string, p: nat, q: nat)
    requires p <= q <= |s| && (q < |s| ==> IsSpace(s[q]) || IsSymbol(s[q]))
    requires forall i: nat :: p <= i < q ==> !IsSpace(s[i]) && !IsSymbol(s[i])
    ensures WordEnd(s, p) == q
    decreases q - p
  {
    if p < q { WordEndAt(s, p + 1, q); }
  }

  /** What comes right after a token does not run into it. */
  lemma {:induction false} NextChar(x: Piece, xs: seq<Piece>, gaps: seq<string>)
    requires Gaps([x] + xs, [""] + gaps) && PieceOk(x) && forall i: nat :: i < |xs| ==> PieceOk(xs[i])
    ensures |gaps| == |xs| + 1
    ensures var r := Render(xs, gaps);
            r != "" ==> (x.W? ==> IsSpace(r[0]) || IsSymbol(r[0])) && (x == S(Symbol('>')) ==> r[0] != '>')
  {
    var g := [""] + gaps;
    assert g[1] == gaps[0] && Blank(g[1]);
    if xs != [] {
      var all := [x] + xs;
      assert all[0] == x && all[1] == xs[0];
      assert PieceOk(xs[0]);
      var r := Render(xs, gaps);
      if gaps[0] == "" { assert r[0] == Spell(xs[0])[0]; } else { assert r[0] == gaps[0][0]; }
    }
  }

  /** The token x, written at q of s and followed by what does not run into it, is read there. */
  lemma TokenAt(s: string, q: nat, x: Piece)
    requires PieceOk(x) && q + |Spell(x)| <= |s| && s[q..q + |Spell(x)|] == Spell(x)
    requires var e := q + |Spell(x)|;
             e < |s| ==> (x.W? ==> IsSpace(s[e]) || IsSymbol(s[e])) && (x == S(Symbol('>')) ==> s[e] != '>')
    ensures !IsSpace(s[q]) && Matches(s, q, x) && GetToken(s, q).next == Settle(s, q + |Spell(x)|)
  {
    var e := q + |Spell(x)|;
    forall i: nat | q <= i < e ensures s[i] == Spell(x)[i - q] { assert s[q..e][i - q] == s[i]; }
    SettleAt(s, q, q);
    if x.W? { WordEndAt(s, q, e); }
  }

  lemma {:induction false} RenderFirst(pre: string, xs: seq<Piece>, gaps: seq<string>)
    requires xs != [] && Gaps(xs, gaps) && forall i: nat :: i < |xs| ==> PieceOk(xs[i])
    ensures var s := pre + Render(xs, gaps);
            var pre1 := pre + gaps[0] + Spell(xs[0]);
            && Gaps(xs[1..], gaps[1..]) && s == pre1 + Render(xs[1..], gaps[1..])
            && Matches(s, Settle(s, |pre|), xs[0]) && GetToken(s, Settle(s, |pre|)).next == Settle(s, |pre1|)
  {
    hide Matches, GetToken, Gaps, PieceOk;
    FirstGap(xs, gaps);
    var x, rest, gaps1 := xs[0], xs[1..], gaps[1..];
    GapsRest(xs, gaps);
    var s := pre + Render(xs, gaps);
    var q := |pre| + |gaps[0]|;
    var pre1 := pre + gaps[0] + Spell(x);
    var r := Render(rest, gaps1);
    assert s == pre1 + r;
    NextChar(x, rest, gaps1);
    assert |pre1| < |s| ==> s[|pre1|] == r[0];
    hide Render;
    assert s[q..q + |Spell(x)|] == Spell(x);
    TokenAt(s, q, x);
    forall i: nat | |pre| <= i < q ensures IsSpace(s[i]) { assert s[i] == gaps[0][i - |pre|]; }
    SettleAt(s, |pre|, q);
  }

  lemma FirstGap(xs: seq<Piece>, gaps: seq<string>)
    requires Gaps(xs, gaps)
    ensures |gaps| == |xs| + 1 && Blank(gaps[0])
  {
  }

  /** Tokens written with blanks between them are read back. */
  lemma {:induction false} RenderLexes(pre: string, xs: seq<Piece>, gaps: seq<string>)
    requires Gaps(xs, gaps) && forall i: nat :: i < |xs| ==> PieceOk(xs[i])
    ensures var s := pre + Render(xs, gaps);
            var p := Settle(s, |pre|);
            Lexes(s, p, xs) && LexEnd(s, p, |xs|) == |s|
    decreases |xs|
  {
    hide Matches, GetToken, Gaps, PieceOk;
    FirstGap(xs, gaps);
    if xs == [] {
      var s := pre + gaps[0];
      SettleAt(s, |pre|, |s|);
    } else {
      RenderFirst(pre, xs, gaps);
      RenderLexes(pre + gaps[0] + Spell(xs[0]), xs[1..], gaps[1..]);
    }
  }

  lemma GapsRest(xs: seq<Piece>, gaps: seq<string>)
    requires Gaps(xs, gaps) && xs != []
    ensures Gaps([xs[0]] + xs[1..], [""] + gaps[1..]) && Gaps(xs[1..], gaps[1..])
  {
    var g := gaps[1..];
    forall i: nat | i < |g| ensures Blank(g[i]) { assert g[i] == gaps[i + 1]; }
    assert [xs[0]] + xs[1..] == xs;
    forall i: nat, j: nat | j == i + 1 < |xs[1..]| && NeedsGap(xs[1..][i], xs[1..][j]) ensures g[j] != "" {
      assert xs[1..][i] == xs[i + 1] && xs[1..][j] == xs[j + 1] && g[j] == gaps[j + 1];
    }
    forall i: nat, j: nat | j == i + 1 < |xs| && NeedsGap(xs[i], xs[j]) ensures ([""] + g)[j] != "" { assert g[i] == gaps[j]; }
  }

  lemma {:induction false} PiecesOk(t: Cmd<string>, level: nat, i: nat)
    requires Printable(t) && i < |Pieces(t, level)|
    ensures PieceOk(Pieces(t, level)[i])
    decreases t, if Level(t) < level then 1 else 0
  {
    var xs := Pieces(t, level);
    if Level(t) < level {
      if 0 < i < |xs| - 1 { PiecesOk(t, 0, i - 1); }
    } else {
      match t
      case Exec(args) => assert xs[i] == W(args[i]) && IsWord(args[i]);
      case Redir(d, op, f) => if i < |Pieces(d, 3)| { PiecesOk(d, 3, i); }
      case Pipe(l, r) => PairOk(l, r, 3, '|', 2, i);
      case List(l, r) => PairOk(l, r, 1, ';', 0, i);
      case Back(d) => if i < |Pieces(d, 1)| { PiecesOk(d, 1, i); }
    }
  }

  lemma {:induction false} PairOk(l: Cmd<string>, r: Cmd<string>, a: nat, c: char, b: nat, i: nat)
    requires Printable(l) && Printable(r) && IsSymbol(c) && i < |Pieces(l, a) + [S(Symbol(c))] + Pieces(r, b)|
    ensures PieceOk((Pieces(l, a) + [S(Symbol(c))] + Pieces(r, b))[i])
    decreases if l < r then r else l, 2
  {
    var n := |Pieces(l, a)|;
    if i < n { PiecesOk(l, a, i); }
    if i > n { PiecesOk(r, b, i - n - 1); }
  }

  lemma TokenSettles(s: string, p: nat, toks: string)
    requires p <= |s|
    ensures GetToken(s, p) == GetToken(s, Settle(s, p)) && Peek(s, p, toks) == Peek(s, Settle(s, p), toks)
    ensures Settle(s, Settle(s, p)) == Settle(s, p)
  {
    SettledAgain(s, p);
  }

  lemma RedirsSettle(s: string, p: nat)
    requires p <= |s|
    ensures ParseRedirs(s, [], p) == ParseRedirs(s, [], Settle(s, p))
  {
    TokenSettles(s, p, "<>");
    hide GetToken, Peek, Settle;
  }

  lemma BlockSettles(s: string, p: nat)
    requires p <= |s|
    ensures ParseBlock(s, p) == ParseBlock(s, Settle(s, p))
  {
    TokenSettles(s, p, "(");
    hide GetToken, Peek, Settle, ParseLine, ParseRedirs;
  }

  /** Leading blanks do not matter. */
  lemma LineSettles(s: string, p: nat)
    requires p <= |s|
    ensures ParseLine(s, p) == ParseLine(s, Settle(s, p))
  {
    TokenSettles(s, p, "(");
    RedirsSettle(s, p);
    BlockSettles(s, p);
    hide ParseLine, ParseArgs, ParseBlock, ParseRedirs, Peek, Settle;
    assert ParseExec(s, p) == ParseExec(s, Settle(s, p));
    LineFrom(s, p, Settle(s, p));
  }

  lemma LineFrom(s: string, p: nat, q: nat)
    requires p <= |s| && q <= |s| && ParseExec(s, p) == ParseExec(s, q)
    ensures ParseLine(s, p) == ParseLine(s, q)
  {
    hide ParseExec;
    assert ParsePipe(s, p) == ParsePipe(s, q);
  }

  /** Parsing the printed form of a command, with any blanks between the tokens, gives the command back. */
  lemma RoundTrip(t: Cmd<string>, gaps: seq<string>)
    requires Printable(t) && Gaps(Pieces(t, 0), gaps)
    ensures var s := Render(Pieces(t, 0), gaps);
            ParseCmd(s).Ok? && Reads(s, ParseCmd(s).value) == t
  {
    hide Gaps, Lexes, LexEnd, Pieces, ParseLine, PieceOk;
    var xs := Pieces(t, 0);
    FirstGap(xs, gaps);
    var s := Render(xs, gaps);
    forall i: nat | i < |xs| ensures PieceOk(xs[i]) { PiecesOk(t, 0, i); }
    RenderLexes("", xs, gaps);
    assert "" + s == s;
    SettledAgain(s, 0);
    var c := LineOk(s, Settle(s, 0), t);
    LineSettles(s, 0);
  }
}
