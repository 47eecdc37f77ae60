/** The shell's recursive-descent parser (user/sh.c): every procedure computes what the grammar says, ends
on every input with the cursor inside the line, and nulterminate turns every word into a C string. */
module Shell {
  import opened ShellSpec

  // ---- Tokens -------------------------------------------------------------------------------------

  method SkipSpaces(text: string, pos: nat) returns (s: nat)
    requires pos <= |text|
    ensures s == Skip(text, pos)
  {
    s := pos;
    while s < |text| && IsSpace(text[s])
      invariant pos <= s <= |text| && Skip(text, s) == Skip(text, pos)
    {
      s := s + 1;
    }
  }

  method Gettoken(text: string, pos: nat) returns (t: Token)
    requires pos <= |text|
    ensures t == GetToken(text, pos)
  {
    var s := SkipSpaces(text, pos);
    var q, kind := s, At(text, s);
    if kind == NUL {
    } else if kind == '>' {
      s := s + 1;
      if At(text, s) == '>' {
        kind := '+';
        s := s + 1;
      }
    } else if IsSymbol(kind) {
      s := s + 1;
    } else {
      kind := 'a';
      while s < |text| && !IsSpace(text[s]) && !IsSymbol(text[s])
        invariant q <= s <= |text| && WordEnd(text, s) == WordEnd(text, q)
      {
        s := s + 1;
      }
    }
    var next := SkipSpaces(text, s);
    t := Token(kind, q, s, next);
  }

  /** peek: skip spaces, and see whether one of toks comes next. */
  method Peek(text: string, pos: nat, toks: string) returns (found: bool, p: nat)
    requires pos <= |text|
    ensures p == Skip(text, pos) && found == (At(text, p) != NUL && At(text, p) in toks)
  {
    p := SkipSpaces(text, pos);
    found := At(text, p) != NUL && At(text, p) in toks;
  }

  // ---- Commands -----------------------------------------------------------------------------------

  method ParseRedirs(text: string, pos: nat) returns (r: Redirs)
    requires pos <= |text|
    ensures r == RedirsAt(text, pos)
  {
    var list: seq<Redirection>, p := [], pos;
    AheadOf([], RedirsAt(text, pos));
    while true
      invariant p <= |text| && RedirsAt(text, pos) == Ahead(list, RedirsAt(text, p))
      decreases |text| - p
    {
      var more;
      more, p := Peek(text, p, "<>");
      if !more { break; }
      var t := Gettoken(text, p);
      var f := Gettoken(text, t.next);
      if f.kind != 'a' {
        return Missing;
      }
      AheadTwice(list, [Redirection(Span(f.q, f.eq), t.kind)], RedirsAt(text, f.next));
      list := list + [Redirection(Span(f.q, f.eq), t.kind)];
      p := f.next;
    }
    assert list + [] == list;
    r := Redirs(list, p);
  }

  lemma AheadOf(list: seq<Redirection>, r: Redirs)
    requires list == []
    ensures Ahead(list, r) == r
  {
    assert r.Redirs? ==> [] + r.list == r.list;
  }

  lemma AheadTwice(a: seq<Redirection>, b: seq<Redirection>, r: Redirs)
    ensures Ahead(a, Ahead(b, r)) == Ahead(a + b, r)
  {
    assert r.Redirs? ==> a + (b + r.list) == a + b + r.list;
  }

  /** parseexec: a block, or the arguments and redirections of a simple command in any order. */
  method ParseExec(text: string, pos: nat) returns (r: Parse)
    requires pos <= |text|
    ensures r == ExecAt(text, pos)
    decreases |text| - pos, 1
  {
    var block, p := Peek(text, pos, "(");
    if block {
      r := ParseBlock(text, p);
      return;
    }
    var first := ParseRedirs(text, p);
    if first.Missing? {
      return Panic;
    }
    r := ParseArgs(text, first.pos, first.list);
  }

  /** Its loop. */
  method ParseArgs(text: string, pos: nat, list0: seq<Redirection>) returns (r: Parse)
    requires pos <= |text|
    ensures r == ArgsAt(text, pos, [], list0)
  {
    var args: seq<Span>, list, p := [], list0, pos;
    while true
      invariant p <= |text| && ArgsAt(text, pos, [], list0) == ArgsAt(text, p, args, list)
      decreases |text| - p
    {
      var stop;
      stop, p := Peek(text, p, "|)&;");
      if stop {
        return Done(Wrap(Exec(args), list), p);
      }
      var t := Gettoken(text, p);
      if t.kind == NUL {
        return Done(Wrap(Exec(args), list), t.next);
      }
      if t.kind != 'a' {
        return Panic;
      }
      if |args| + 1 >= MAXARGS {
        return Panic;
      }
      var more := ParseRedirs(text, t.next);
      if more.Missing? {
        return Panic;
      }
      args, list, p := args + [Span(t.q, t.eq)], list + more.list, more.pos;
    }
  }

  method ParseBlock(text: string, pos: nat) returns (r: Parse)
    requires pos <= |text| && At(text, pos) == '('
    ensures r == BlockAt(text, pos)
    decreases |text| - pos, 0
  {
    var t := Gettoken(text, pos);
    r := ParseLine(text, t.next);
    if r.Panic? { return; }
    var closed, p := Peek(text, r.pos, ")");
    if !closed {
      return Panic;
    }
    t := Gettoken(text, p);
    var list := ParseRedirs(text, t.next);
    if list.Missing? {
      return Panic;
    }
    r := Done(Wrap(r.cmd, list.list), list.pos);
  }

  method ParsePipe(text: string, pos: nat) returns (r: Parse)
    requires pos <= |text|
    ensures r == PipeAt(text, pos)
    decreases |text| - pos, 2
  {
    r := ParseExec(text, pos);
    if r.Panic? { return; }
    var bar, p := Peek(text, r.pos, "|");
    if !bar {
      return Done(r.cmd, p);
    }
    var t := Gettoken(text, p);
    var right := ParsePipe(text, t.next);
    r := if right.Panic? then Panic else Done(Pipe(r.cmd, right.cmd), right.pos);
  }

  method ParseLine(text: string, pos: nat) returns (r: Parse)
    requires pos <= |text|
    ensures r == LineAt(text, pos)
    decreases |text| - pos, 3
  {
    r := ParsePipe(text, pos);
    if r.Panic? { return; }
    var cmd, p := r.cmd, r.pos;
    while true
      invariant r.pos <= p <= |text| && BacksAt(text, r.cmd, r.pos) == BacksAt(text, cmd, p)
      decreases |text| - p
    {
      var amp;
      amp, p := Peek(text, p, "&");
      if !amp { break; }
      var t := Gettoken(text, p);
      cmd, p := Back(cmd), t.next;
    }
    var semi, q := Peek(text, p, ";");
    if !semi {
      return Done(cmd, q);
    }
    var t := Gettoken(text, q);
    var right := ParseLine(text, t.next);
    r := if right.Panic? then Panic else Done(List(cmd, right.cmd), right.pos);
  }

  /** parsecmd, up to nulterminate. */
  method ParseCmd(text: string) returns (r: Parse)
    ensures r == CommandOf(text)
  {
    r := ParseLine(text, 0);
    if r.Panic? { return; }
    var found, p := Peek(text, r.pos, "");
    r := if p != |text| then Panic else Done(r.cmd, p);
  }

  // ---- nulterminate -----------------------------------------------------------------------------------

  /** nulterminate: the character after each word becomes NUL, and nothing else changes. */
  method NulTerminate(cmd: Cmd, buf: array<char>, ghost text: string)
    requires SpansOk(text, cmd) && buf.Length == |text| + 1
    modifies buf
    ensures Struck(old(buf[..]), buf[..], Ends(cmd))
    decreases cmd
  {
    match cmd {
      case Exec(args) =>
        var i := 0;
        while i < |args|
          invariant i <= |args| && Struck(old(buf[..]), buf[..], Ends(Exec(args[..i])))
        {
          assert SpanOk(text, args[i]);
          buf[args[i].eq] := NUL;
          EndsSnoc(args, i);
          i := i + 1;
        }
        assert args[..i] == args;
      case Redir(c, file, _) =>
        NulTerminate(c, buf, text);
        buf[file.eq] := NUL;
      case Pipe(left, right) =>
        NulTerminate(left, buf, text);
        NulTerminate(right, buf, text);
      case List(left, right) =>
        NulTerminate(left, buf, text);
        NulTerminate(right, buf, text);
      case Back(c) => NulTerminate(c, buf, text);
    }
  }

  lemma EndsSnoc(args: seq<Span>, i: nat)
    requires i < |args|
    ensures Ends(Exec(args[..i + 1])) == Ends(Exec(args[..i])) + {args[i].eq}
  {
    var a, b := Ends(Exec(args[..i])), Ends(Exec(args[..i + 1]));
    forall x | x in b ensures x in a + {args[i].eq} {
      var j :| 0 <= j < i + 1 && args[..i + 1][j].eq == x;
      assert j < i ==> args[..i][j].eq == x;
    }
    forall x | x in a + {args[i].eq} ensures x in b {
      if x in a {
        var j :| 0 <= j < i && args[..i][j].eq == x;
        assert args[..i + 1][j].eq == x;
      } else {
        assert args[..i + 1][i].eq == x;
      }
    }
  }

  /** The whole of parsecmd on the buffer that holds the line and its NUL. */
  method ParseBuffer(buf: array<char>, ghost text: string) returns (r: Parse)
    requires buf.Length > 0 && buf[..] == text + [NUL] && NoNul(text)
    modifies buf
    ensures r == CommandOf(text) && (r.Panic? ==> buf[..] == old(buf[..]))
    ensures r.Done? ==> SpansOk(text, r.cmd) && Struck(text + [NUL], buf[..], Ends(r.cmd))
    ensures r.Done? ==> forall s :: SpanOk(text, s) && s.eq in Ends(r.cmd) ==> CString(buf[..], s.q) == text[s.q..s.eq]
  {
    var line := buf[..buf.Length - 1];
    assert line == text;
    r := ParseCmd(line);
    if r.Done? {
      LineOk(text, 0);
      NulTerminate(r.cmd, buf, text);
      forall s | SpanOk(text, s) && s.eq in Ends(r.cmd) ensures CString(buf[..], s.q) == text[s.q..s.eq] {
        WordsTerminated(text, buf[..], r.cmd, s);
      }
    }
  }
}
