/** The pointers that the parser of user/sh.c leaves in the line, nulterminate(), and the parser as it
    moves along the line. */
module ShellBuffer {
  import opened Shell

  /** The pointers enclose a whole word: it ends at a blank, a symbol or the end of the line. */
  predicate WordSpan(s: string, a: Span) {
    && a.start < a.end <= |s| && (forall i: nat :: a.start <= i < a.end ==> !IsSpace(s[i]) && !IsSymbol(s[i]))
    && (a.end < |s| ==> IsSpace(s[a.end]) || IsSymbol(s[a.end]))
  }

  predicate Marked(s: string, c: Cmd<Span>) {
    match c
    case Exec(args) => |args| < MAXARGS && forall i: nat :: i < |args| ==> WordSpan(s, args[i])
    case Redir(d, _, f) => Marked(s, d) && WordSpan(s, f)
    case Pipe(l, r) => Marked(s, l) && Marked(s, r)
    case List(l, r) => Marked(s, l) && Marked(s, r)
    case Back(d) => Marked(s, d)
  }

  predicate WrapsMarked(s: string, ws: seq<Wrap<Span>>) { forall i: nat :: i < |ws| ==> WordSpan(s, ws[i].file) }

  predicate WordsMarked(s: string, w: Words) {
    |w.args| < MAXARGS && WrapsMarked(s, w.wraps) && forall i: nat :: i < |w.args| ==> WordSpan(s, w.args[i])
  }

  lemma TokenMarked(s: string, p: nat)
    requires p <= |s| && GetToken(s, p).kind.Word?
    ensures WordSpan(s, Span(GetToken(s, p).q, GetToken(s, p).eq))
  {
  }

  lemma {:induction false} WrappedMarked(s: string, c: Cmd<Span>, ws: seq<Wrap<Span>>)
    requires Marked(s, c) && WrapsMarked(s, ws)
    ensures Marked(s, Wrapped(c, ws))
    decreases |ws|
  {
    if ws != [] {
      assert WordSpan(s, ws[0].file);
      forall i: nat | i < |ws[1..]| ensures WordSpan(s, ws[1..][i].file) { assert ws[1..][i] == ws[i + 1]; }
      WrappedMarked(s, Redir(c, ws[0].op, ws[0].file), ws[1..]);
    }
  }

  lemma {:induction false} RedirsMarked(s: string, ws: seq<Wrap<Span>>, p: nat)
    requires p <= |s| && WrapsMarked(s, ws)
    ensures var r := ParseRedirs(s, ws, p); r.Ok? ==> WrapsMarked(s, r.value)
    decreases |s| - p
  {
    if Peek(s, p, "<>") {
      var t := GetToken(s, p);
      var f := GetToken(s, t.next);
      if f.kind.Word? {
        TokenMarked(s, t.next);
        hide GetToken, WordSpan;
        var op := if t.kind.Append? then App else if t.kind == Symbol('<') then In else Out;
        RedirsMarked(s, ws + [Wrap(op, Span(f.q, f.eq))], f.next);
      }
    }
  }

  lemma {:induction false} ArgsMarked(s: string, w: Words, p: nat)
    requires p <= |s| && WordsMarked(s, w)
    ensures var r := ParseArgs(s, w, p); r.Ok? ==> WordsMarked(s, r.value)
    decreases |s| - p
  {
    var t := GetToken(s, p);
    if !Peek(s, p, "|)&;") && t.kind.Word? && |w.args| + 1 < MAXARGS {
      TokenMarked(s, p);
      RedirsMarked(s, w.wraps, t.next);
      var r := ParseRedirs(s, w.wraps, t.next);
      hide GetToken, WordSpan, ParseRedirs;
      if r.Ok? { ArgsMarked(s, Words(w.args + [Span(t.q, t.eq)], r.value), r.next); }
    }
  }

  lemma {:induction false} ExecMarked(s: string, p: nat)
    requires p <= |s|
    ensures var r := ParseExec(s, p); r.Ok? ==> Marked(s, r.value)
    decreases |s| - p, 1
  {
    hide ParseRedirs, ParseArgs, ParseBlock, WordSpan, GetToken;
    if Peek(s, p, "(") {
      BlockMarked(s, p);
    } else {
      RedirsMarked(s, [], p);
      var r := ParseRedirs(s, [], p);
      if r.Ok? {
        ArgsMarked(s, Words([], r.value), r.next);
        var a := ParseArgs(s, Words([], r.value), r.next);
        if a.Ok? { WrappedMarked(s, Exec(a.value.args), a.value.wraps); }
      }
    }
  }

  lemma {:induction false} BlockMarked(s: string, p: nat)
    requires p <= |s|
    ensures var r := ParseBlock(s, p); r.Ok? ==> Marked(s, r.value)
    decreases |s| - p, 0
  {
    if Peek(s, p, "(") {
      var n := GetToken(s, p).next;
      assert p < n;
      hide ParseRedirs, ParseLine, WordSpan, GetToken, Peek, Marked;
      LineMarked(s, n);
      var r := ParseLine(s, n);
      if r.Ok? {
        var m := GetToken(s, r.next).next;
        RedirsMarked(s, [], m);
        var ws := ParseRedirs(s, [], m);
        if ws.Ok? { WrappedMarked(s, r.value, ws.value); }
      }
    }
  }

  lemma {:induction false} PipeMarked(s: string, p: nat)
    requires p <= |s|
    ensures var r := ParsePipe(s, p); r.Ok? ==> Marked(s, r.value)
    decreases |s| - p, 2
  {
    ExecMarked(s, p);
    hide ParseExec, WordSpan;
    var r := ParseExec(s, p);
    if r.Ok? && Peek(s, r.next, "|") { PipeMarked(s, GetToken(s, r.next).next); }
  }

  lemma {:induction false} BacksMarked(s: string, c: Cmd<Span>, p: nat)
    requires p <= |s| && Marked(s, c)
    ensures Marked(s, ParseBacks(s, c, p).value)
    decreases |s| - p
  {
    if Peek(s, p, "&") { BacksMarked(s, Back(c), GetToken(s, p).next); }
  }

  lemma {:induction false} LineMarked(s: string, p: nat)
    requires p <= |s|
    ensures var r := ParseLine(s, p); r.Ok? ==> Marked(s, r.value)
    decreases |s| - p, 3
  {
    PipeMarked(s, p);
    hide ParsePipe, ParseBacks, WordSpan;
    var r := ParsePipe(s, p);
    if r.Ok? {
      BacksMarked(s, r.value, r.next);
      var b := ParseBacks(s, r.value, r.next);
      if Peek(s, b.next, ";") { LineMarked(s, GetToken(s, b.next).next); }
    }
  }

  lemma {:induction false} MarkedPrintable(s: string, c: Cmd<Span>)
    requires IsText(s) && Marked(s, c)
    ensures Printable(Reads(s, c))
  {
    match c
    case Exec(args) =>
      forall i: nat | i < |args| ensures IsWord(TextsOf(s, args)[i]) { assert WordSpan(s, args[i]); }
    case Redir(d, _, f) => MarkedPrintable(s, d);
    case Pipe(l, r) => MarkedPrintable(s, l); MarkedPrintable(s, r);
    case List(l, r) => MarkedPrintable(s, l); MarkedPrintable(s, r);
    case Back(d) => MarkedPrintable(s, d);
  }

  /** Whatever the parser accepts means the same as its printed form: printing and parsing again, with
      any blanks, gives the same command. */
  lemma PrintsSame(s: string, gaps: seq<string>)
    requires IsText(s) && ParseCmd(s).Ok?
    requires Gaps(Pieces(Reads(s, ParseCmd(s).value), 0), gaps)
    ensures Printable(Reads(s, ParseCmd(s).value))
    ensures var t := Reads(s, ParseCmd(s).value);
            var s1 := Render(Pieces(t, 0), gaps);
            ParseCmd(s1).Ok? && Reads(s1, ParseCmd(s1).value) == t
  {
    hide ParseLine, Reads, Pieces, Gaps, Marked, Printable;
    LineMarked(s, 0);
    MarkedPrintable(s, ParseCmd(s).value);
    RoundTrip(Reads(s, ParseCmd(s).value), gaps);
  }

  /** A string in memory, up to its NUL. */
  function CString(b: string, i: nat): string
    decreases |b| - i
  {
    if i < |b| && b[i] != NUL then [b[i]] + CString(b, i + 1) else ""
  }

  predicate Ends(c: Cmd<Span>, i: nat) {
    match c
    case Exec(args) => exists k: nat :: k < |args| && args[k].end == i
    case Redir(d, _, f) => Ends(d, i) || f.end == i
    case Pipe(l, r) => Ends(l, i) || Ends(r, i)
    case List(l, r) => Ends(l, i) || Ends(r, i)
    case Back(d) => Ends(d, i)
  }

  predicate HasSpan(c: Cmd<Span>, a: Span) {
    match c
    case Exec(args) => a in args
    case Redir(d, _, f) => HasSpan(d, a) || f == a
    case Pipe(l, r) => HasSpan(l, a) || HasSpan(r, a)
    case List(l, r) => HasSpan(l, a) || HasSpan(r, a)
    case Back(d) => HasSpan(d, a)
  }

  /** The line with a NUL at the end of every argument and file name. */
  function Cut(b: string, c: Cmd<Span>): (r: string)
    ensures |r| == |b| && forall i: nat :: i < |b| ==> r[i] == if Ends(c, i) then NUL else b[i]
  {
    seq(|b|, i requires 0 <= i < |b| => if Ends(c, i) then NUL else b[i])
  }

  lemma {:induction false} EndsInside(s: string, c: Cmd<Span>, i: nat)
    requires Marked(s, c) && Ends(c, i)
    ensures i <= |s| && (i < |s| ==> IsSpace(s[i]) || IsSymbol(s[i]))
  {
    match c
    case Exec(args) =>
      var k: nat :| k < |args| && args[k].end == i;
      assert WordSpan(s, args[k]);
    case Redir(d, _, f) => if f.end != i { EndsInside(s, d, i); }
    case Pipe(l, r) => if Ends(l, i) { EndsInside(s, l, i); } else { EndsInside(s, r, i); }
    case List(l, r) => if Ends(l, i) { EndsInside(s, l, i); } else { EndsInside(s, r, i); }
    case Back(d) => EndsInside(s, d, i);
  }

  lemma {:induction false} SpanMarked(s: string, c: Cmd<Span>, a: Span)
    requires Marked(s, c) && HasSpan(c, a)
    ensures WordSpan(s, a) && Ends(c, a.end)
  {
    match c
    case Exec(args) =>
      var k: nat :| k < |args| && args[k] == a;
      assert WordSpan(s, args[k]);
    case Redir(d, _, f) => if f != a { SpanMarked(s, d, a); }
    case Pipe(l, r) => if HasSpan(l, a) { SpanMarked(s, l, a); } else { SpanMarked(s, r, a); }
    case List(l, r) => if HasSpan(l, a) { SpanMarked(s, l, a); } else { SpanMarked(s, r, a); }
    case Back(d) => SpanMarked(s, d, a);
  }

  lemma {:induction false} CStringIs(b: string, i: nat, e: nat)
    requires i <= e < |b| && b[e] == NUL && forall k: nat :: i <= k < e ==> b[k] != NUL
    ensures CString(b, i) == b[i..e]
    decreases e - i
  {
    if i < e {
      CStringIs(b, i + 1, e);
      assert b[i..e] == [b[i]] + b[i + 1..e];
    }
  }

  /** After nulterminate(), every argument and file name of any command the parser accepted is, as a string
      in the line, exactly its token: no NUL of another token cuts it short. */
  lemma TokensSurvive(s: string, a: Span)
    requires IsText(s) && ParseCmd(s).Ok? && HasSpan(ParseCmd(s).value, a)
    ensures a.start < a.end && CString(Cut(s + [NUL], ParseCmd(s).value), a.start) == TextOf(s, a) != ""
  {
    hide ParseLine, Marked, Ends, HasSpan;
    var c := ParseCmd(s).value;
    LineMarked(s, 0);
    SpanMarked(s, c, a);
    var b := Cut(s + [NUL], c);
    forall k: nat | a.start <= k < a.end ensures b[k] == s[k] != NUL { if Ends(c, k) { EndsInside(s, c, k); } }
    CStringIs(b, a.start, a.end);
    assert b[a.start..a.end] == s[a.start..a.end];
  }

  /** All spans end inside the buffer. */
  ghost predicate Fits(n: nat, c: Cmd<Span>) { forall i: nat :: Ends(c, i) ==> i < n }

  /** nulterminate(). */
  method Nulterminate(b: array<char>, c: Cmd<Span>)
    requires Fits(b.Length, c)
    modifies b
    ensures b[..] == Cut(old(b[..]), c)
    decreases c
  {
    match c
    case Exec(args) =>
      var i := 0;
      while i < |args|
        invariant i <= |args|
        invariant forall k: nat :: k < b.Length ==> b[k] == if (exists j: nat :: j < i && args[j].end == k) then NUL else old(b[k])
      {
        assert Ends(c, args[i].end);
        b[args[i].end] := NUL;
        i := i + 1;
      }
    case Redir(d, _, f) =>
      assert forall i: nat :: Ends(d, i) ==> Ends(c, i);
      Nulterminate(b, d);
      assert Ends(c, f.end);
      b[f.end] := NUL;
    case Pipe(l, r) =>
      assert forall i: nat :: Ends(l, i) || Ends(r, i) ==> Ends(c, i);
      Nulterminate(b, l);
      Nulterminate(b, r);
    case List(l, r) =>
      assert forall i: nat :: Ends(l, i) || Ends(r, i) ==> Ends(c, i);
      Nulterminate(b, l);
      Nulterminate(b, r);
    case Back(d) =>
      assert forall i: nat :: Ends(d, i) ==> Ends(c, i);
      Nulterminate(b, d);
  }

  /** The parser as it moves its pointer along the line; a panic() is a Fail. */
  class Parser {
    const text: string
    var pos: nat

    ghost predicate Valid()
      reads this
    {
      pos <= |text|
    }

    constructor (text: string)
      ensures Valid() && this.text == text && pos == 0
    {
      this.text, pos := text, 0;
    }

    method SkipBlanks()
      requires Valid()
      modifies this`pos
      ensures Valid() && pos == Settle(text, old(pos))
    {
      while pos < |text| && IsSpace(text[pos])
        invariant Valid() && Settle(text, pos) == Settle(text, old(pos))
        decreases |text| - pos
      {
        pos := pos + 1;
      }
    }

    method Gettoken() returns (kind: Kind, q: nat, eq: nat)
      requires Valid()
      modifies this`pos
      ensures Valid() && Token(kind, q, eq, pos) == GetToken(text, old(pos))
    {
      SkipBlanks();
      q := pos;
      if pos == |text| {
        kind := End;
      } else if text[pos] == '>' {
        pos := pos + 1;
        kind := Symbol('>');
        if pos < |text| && text[pos] == '>' {
          kind := Append;
          pos := pos + 1;
        }
      } else if IsSymbol(text[pos]) {
        kind := Symbol(text[pos]);
        pos := pos + 1;
      } else {
        kind := Word;
        while pos < |text| && !IsSpace(text[pos]) && !IsSymbol(text[pos])
          invariant q <= pos <= |text| && WordEnd(text, pos) == WordEnd(text, q)
          decreases |text| - pos
        {
          pos := pos + 1;
        }
      }
      eq := pos;
      SkipBlanks();
    }

    method PeekAt(toks: string) returns (r: bool)
      requires Valid()
      modifies this`pos
      ensures Valid() && pos == Settle(text, old(pos)) && r == Peek(text, old(pos), toks)
    {
      SkipBlanks();
      r := pos < |text| && text[pos] in toks;
    }

    method Redirs(before: seq<Wrap<Span>>) returns (r: Result<seq<Wrap<Span>>>)
      requires Valid()
      modifies this`pos
      ensures Valid() && r == ParseRedirs(text, before, old(pos)) && (r.Ok? ==> pos == r.next)
    {
      hide GetToken;
      var ws := before;
      ghost var p0 := pos;
      var more := PeekAt("<>");
      TokenSettles(text, p0, "<>");
      RedirsFrom(text, ws, p0);
      while more
        invariant Valid() && more == Peek(text, pos, "<>") && Settle(text, pos) == pos
        invariant ParseRedirs(text, ws, pos) == ParseRedirs(text, before, p0)
        decreases |text| - pos, more
      {
        hide Settle, Peek;
        ghost var p := pos;
        TokenGrows(text, p, "<>");
        var kind, _, _ := Gettoken();
        ghost var n := pos;
        var word, q, eq := Gettoken();
        if !word.Word? { return Fail("missing file for redirection"); }
        var op := if kind.Append? then App else if kind == Symbol('<') then In else Out;
        ws := ws + [Wrap(op, Span(q, eq))];
        ghost var p1 := pos;
        more := PeekAt("<>");
        TokenSettles(text, p1, "<>");
        RedirsFrom(text, ws, p1);
      }
      r := Ok(ws, pos);
    }
  }

  lemma RedirsFrom(s: string, ws: seq<Wrap<Span>>, p: nat)
    requires p <= |s|
    ensures ParseRedirs(s, ws, p) == ParseRedirs(s, ws, Settle(s, p))
  {
    TokenSettles(s, p, "<>");
    hide GetToken, Peek, Settle;
  }

  lemma TokenGrows(s: string, p: nat, toks: string)
    requires p <= |s| && Peek(s, p, toks)
    ensures p < GetToken(s, p).next <= |s|
  {
  }
}
