/** The grammar of the shell (user/sh.c) as functions of the input line and a cursor, and the proof that
printing a command tree and parsing it again gives the tree back. */
module ShellSpec {
  const NUL: char := '\0'
  const MAXARGS: nat := 10

  predicate IsSpace(c: char) {
    c == ' ' || c == '\t' || c == '\r' || c == '\n' || c == '\U{000B}'
  }

  predicate IsSymbol(c: char) {
    c == '<' || c == '|' || c == '>' || c == '&' || c == ';' || c == '(' || c == ')'
  }

  predicate WordChar(c: char) {
    !IsSpace(c) && !IsSymbol(c) && c != NUL
  }

  /** The line up to its terminating NUL. */
  ghost predicate NoNul(text: string) {
    forall i :: 0 <= i < |text| ==> text[i] != NUL
  }

  function At(text: string, i: nat): char {
    if i < |text| then text[i] else NUL
  }

  // ---- Tokens -------------------------------------------------------------------------------------

  function Skip(text: string, i: nat): (j: nat)
    requires i <= |text|
    ensures i <= j <= |text| && !IsSpace(At(text, j))
    decreases |text| - i
  {
    if i < |text| && IsSpace(text[i]) then Skip(text, i + 1) else i
  }

  function WordEnd(text: string, i: nat): (j: nat)
    requires i <= |text|
    ensures i <= j <= |text| && (j < |text| ==> IsSpace(text[j]) || IsSymbol(text[j]))
    ensures forall k :: i <= k < j ==> !IsSpace(text[k]) && !IsSymbol(text[k])
    decreases |text| - i
  {
    if i < |text| && !IsSpace(text[i]) && !IsSymbol(text[i]) then WordEnd(text, i + 1) else i
  }

  /** kind is the symbol, `+` for >>, `a` for a word, NUL at the end. */
  datatype Token = Token(kind: char, q: nat, eq: nat, next: nat)

  function GetToken(text: string, pos: nat): (t: Token)
    requires pos <= |text|
    ensures pos <= t.q <= t.eq <= t.next <= |text|
    ensures t.kind != NUL ==> t.q < t.eq
    ensures t.kind == NUL && NoNul(text) ==> t.next == |text|
  {
    var q := Skip(text, pos);
    var c := At(text, q);
    var kind, eq :=
      if c == NUL then NUL
      else if c == '>' && At(text, q + 1) == '>' then '+'
      else if IsSymbol(c) then c else 'a',
      if c == NUL then q
      else if c == '>' && At(text, q + 1) == '>' then q + 2
      else if IsSymbol(c) then q + 1 else WordEnd(text, q);
    Token(kind, q, eq, Skip(text, eq))
  }

  // ---- Commands -----------------------------------------------------------------------------------

  datatype Span = Span(q: nat, eq: nat)

  datatype Cmd =
    | Exec(args: seq<Span>)
    | Redir(cmd: Cmd, file: Span, mode: char)
    | Pipe(left: Cmd, right: Cmd)
    | List(left: Cmd, right: Cmd)
    | Back(cmd: Cmd)

  datatype Parse = Done(cmd: Cmd, pos: nat) | Panic

  datatype Redirection = Redirection(file: Span, mode: char)

  datatype Redirs = Redirs(list: seq<Redirection>, pos: nat) | Missing

  /** The redirections around a command, the first one innermost. */
  function Wrap(cmd: Cmd, list: seq<Redirection>): Cmd
    decreases |list|
  {
    if list == [] then cmd else Wrap(Redir(cmd, list[0].file, list[0].mode), list[1..])
  }

  function RedirsAt(text: string, pos: nat): (r: Redirs)
    requires pos <= |text|
    ensures r.Redirs? ==> pos <= r.pos <= |text|
    decreases |text| - pos
  {
    var p := Skip(text, pos);
    if At(text, p) == '<' || At(text, p) == '>' then
      var t := GetToken(text, p);
      var f := GetToken(text, t.next);
      if f.kind != 'a' then Missing
      else
        Ahead([Redirection(Span(f.q, f.eq), t.kind)], RedirsAt(text, f.next))
    else Redirs([], p)
  }

  /** Redirections found earlier come first. */
  function Ahead(list: seq<Redirection>, r: Redirs): Redirs {
    match r
    case Missing => Missing
    case Redirs(rest, end) => Redirs(list + rest, end)
  }

  /** The loop of parseexec.  The redirections found so far already surround the command whose arguments
      are still being collected. */
  function ArgsAt(text: string, pos: nat, args: seq<Span>, list: seq<Redirection>): (r: Parse)
    requires pos <= |text|
    ensures r.Done? ==> pos <= r.pos <= |text|
    decreases |text| - pos
  {
    var p := Skip(text, pos);
    var c := At(text, p);
    if c == '|' || c == ')' || c == '&' || c == ';' then Done(Wrap(Exec(args), list), p)
    else
      var t := GetToken(text, p);
      if t.kind == NUL then Done(Wrap(Exec(args), list), t.next)
      else if t.kind != 'a' || |args| + 1 >= MAXARGS then Panic
      else
        match RedirsAt(text, t.next)
        case Missing => Panic
        case Redirs(more, end) => ArgsAt(text, end, args + [Span(t.q, t.eq)], list + more)
  }

  function ExecAt(text: string, pos: nat): (r: Parse)
    requires pos <= |text|
    ensures r.Done? ==> pos <= r.pos <= |text|
    decreases |text| - pos, 1
  {
    var p := Skip(text, pos);
    if At(text, p) == '(' then BlockAt(text, p)
    else
      match RedirsAt(text, p)
      case Missing => Panic
      case Redirs(list, end) => ArgsAt(text, end, [], list)
  }

  function BlockAt(text: string, pos: nat): (r: Parse)
    requires pos <= |text| && At(text, pos) == '('
    ensures r.Done? ==> pos <= r.pos <= |text|
    decreases |text| - pos, 0
  {
    var t := GetToken(text, pos);
    match LineAt(text, t.next)
    case Panic => Panic
    case Done(cmd, end) =>
      var p := Skip(text, end);
      if At(text, p) != ')' then Panic
      else
        match RedirsAt(text, GetToken(text, p).next)
        case Missing => Panic
        case Redirs(list, end) => Done(Wrap(cmd, list), end)
  }

  function PipeAt(text: string, pos: nat): (r: Parse)
    requires pos <= |text|
    ensures r.Done? ==> pos <= r.pos <= |text|
    decreases |text| - pos, 2
  {
    match ExecAt(text, pos)
    case Panic => Panic
    case Done(cmd, end) =>
      var p := Skip(text, end);
      if At(text, p) != '|' then Done(cmd, p)
      else
        match PipeAt(text, GetToken(text, p).next)
        case Panic => Panic
        case Done(right, end) => Done(Pipe(cmd, right), end)
  }

  /** The loop over & in parseline. */
  function BacksAt(text: string, cmd: Cmd, pos: nat): (r: Parse)
    requires pos <= |text|
    ensures r.Done? && pos <= r.pos <= |text|
    decreases |text| - pos
  {
    var p := Skip(text, pos);
    if At(text, p) == '&' then BacksAt(text, Back(cmd), GetToken(text, p).next) else Done(cmd, p)
  }

  function LineAt(text: string, pos: nat): (r: Parse)
    requires pos <= |text|
    ensures r.Done? ==> pos <= r.pos <= |text|
    decreases |text| - pos, 3
  {
    match PipeAt(text, pos)
    case Panic => Panic
    case Done(first, end) =>
      var b := BacksAt(text, first, end);
      var p := Skip(text, b.pos);
      if At(text, p) != ';' then Done(b.cmd, p)
      else
        match LineAt(text, GetToken(text, p).next)
        case Panic => Panic
        case Done(right, end) => Done(List(b.cmd, right), end)
  }

  /** parsecmd, up to nulterminate. */
  function CommandOf(text: string): (r: Parse) {
    match LineAt(text, 0)
    case Panic => Panic
    case Done(cmd, end) => if Skip(text, end) == |text| then Done(cmd, |text|) else Panic
  }

  // ---- Printing -----------------------------------------------------------------------------------

  /** A command tree with the words themselves. */
  datatype Tree =
    | TExec(args: seq<string>)
    | TRedir(cmd: Tree, file: string, mode: char)
    | TPipe(left: Tree, right: Tree)
    | TList(left: Tree, right: Tree)
    | TBack(cmd: Tree)

  ghost predicate Word(w: string) {
    w != "" && forall i :: 0 <= i < |w| ==> WordChar(w[i])
  }

  /** Trees that can be written down: proper words, at most nine of them in a command. */
  ghost predicate Printable(t: Tree) {
    match t
    case TExec(args) => |args| < MAXARGS && forall i :: 0 <= i < |args| ==> Word(args[i])
    case TRedir(cmd, file, mode) => Printable(cmd) && Word(file) && (mode == '<' || mode == '>' || mode == '+')
    case TPipe(left, right) => Printable(left) && Printable(right)
    case TList(left, right) => Printable(left) && Printable(right)
    case TBack(cmd) => Printable(cmd)
  }

  function Words(args: seq<string>): string {
    if args == [] then "" else if |args| == 1 then args[0] else args[0] + " " + Words(args[1..])
  }

  function Arrow(mode: char): string {
    if mode == '<' then "<" else if mode == '>' then ">" else ">>"
  }

  function Print(t: Tree): string
    decreases t, 0
  {
    match t
    case TExec(args) => Words(args)
    case TRedir(cmd, file, mode) => Parens(cmd) + (Arrow(mode) + file)
    case TPipe(left, right) => Parens(left) + ("|" + Parens(right))
    case TList(left, right) => Parens(left) + (";" + Parens(right))
    case TBack(cmd) => Parens(cmd) + "&"
  }

  function Parens(t: Tree): string
    decreases t, 1
  {
    "(" + (Print(t) + ")")
  }

  /** The words that the spans of a command stand for. */
  function Read(text: string, s: Span): string {
    if s.q <= s.eq <= |text| then text[s.q..s.eq] else ""
  }

  function ReadAll(text: string, args: seq<Span>): seq<string> {
    seq(|args|, i requires 0 <= i < |args| => Read(text, args[i]))
  }

  function TreeOf(text: string, cmd: Cmd): Tree {
    match cmd
    case Exec(args) => TExec(ReadAll(text, args))
    case Redir(c, file, mode) => TRedir(TreeOf(text, c), Read(text, file), mode)
    case Pipe(left, right) => TPipe(TreeOf(text, left), TreeOf(text, right))
    case List(left, right) => TList(TreeOf(text, left), TreeOf(text, right))
    case Back(c) => TBack(TreeOf(text, c))
  }

  // ---- Parsing what was printed ---------------------------------------------------------------------

  /** At pos the text goes on with s. */
  ghost predicate Has(text: string, pos: nat, s: string) {
    pos + |s| <= |text| && text[pos..pos + |s|] == s
  }

  lemma {:induction false} HasBoth(text: string, pos: nat, a: string, b: string)
    requires Has(text, pos, a + b)
    ensures Has(text, pos, a) && Has(text, pos + |a|, b)
  {
    var s := a + b;
    assert text[pos..pos + |s|][..|a|] == text[pos..pos + |a|];
    assert text[pos..pos + |s|][|a|..] == text[pos + |a|..pos + |a| + |b|];
    assert s[..|a|] == a && s[|a|..] == b;
  }

  lemma {:induction false} HasChar(text: string, pos: nat, s: string, k: nat)
    requires Has(text, pos, s) && k < |s|
    ensures At(text, pos + k) == s[k]
  {
    assert text[pos..pos + |s|][k] == text[pos + k];
  }

  /** The end of a command: the text is over, or a parenthesis closes. */
  ghost predicate Closed(text: string, p: nat) {
    p <= |text| && (At(text, p) == ')' || At(text, p) == NUL)
  }

  /** No space: the cursor stays. */
  lemma {:induction false} Stay(text: string, pos: nat)
    requires pos <= |text| && !IsSpace(At(text, pos))
    ensures Skip(text, pos) == pos
  {
  }

  /** A symbol is a token by itself, unless it is the first of >>. */
  lemma {:induction false} Symbol(text: string, pos: nat)
    requires pos < |text| && IsSymbol(text[pos]) && text[pos] != '>' && !IsSpace(At(text, pos + 1))
    ensures GetToken(text, pos) == Token(text[pos], pos, pos + 1, pos + 1)
  {
    Stay(text, pos);
    Stay(text, pos + 1);
  }

  /** A word ends before a space, a symbol or the end. */
  lemma {:induction false} WordToken(text: string, pos: nat, w: string)
    requires Has(text, pos, w) && Word(w) && !WordChar(At(text, pos + |w|)) && NoNul(text)
    ensures var t := GetToken(text, pos); t.kind == 'a' && t.q == pos && t.eq == pos + |w|
                                          && t.next == Skip(text, pos + |w|)
  {
    HasChar(text, pos, w, 0);
    assert WordChar(w[0]);
    Stay(text, pos);
    WordSpan(text, pos, w);
  }

  lemma {:induction false} WordSpan(text: string, pos: nat, w: string)
    requires Has(text, pos, w) && !WordChar(At(text, pos + |w|)) && NoNul(text)
             && forall i :: 0 <= i < |w| ==> WordChar(w[i])
    ensures WordEnd(text, pos) == pos + |w|
    decreases |w|
  {
    if w != "" {
      HasChar(text, pos, w, 0);
      assert w == w[..1] + w[1..] && WordChar(w[0]);
      HasBoth(text, pos, w[..1], w[1..]);
      WordSpan(text, pos + 1, w[1..]);
    }
  }

  /** Where no arrow follows there is no redirection. */
  lemma {:induction false} NoRedirs(text: string, pos: nat)
    requires pos <= |text| && !IsSpace(At(text, pos)) && At(text, pos) != '<' && At(text, pos) != '>'
    ensures RedirsAt(text, pos) == Redirs([], pos)
  {
    Stay(text, pos);
  }

  // ---- One step of each function --------------------------------------------------------------------

  lemma {:induction false} PipeNone(text: string, pos: nat, cmd: Cmd, p: nat)
    requires pos <= |text| && ExecAt(text, pos) == Done(cmd, p) && !IsSpace(At(text, p)) && At(text, p) != '|'
    ensures PipeAt(text, pos) == Done(cmd, p)
  {
    Stay(text, p);
  }

  lemma {:induction false} PipeStep(text: string, pos: nat, l: Cmd, p: nat, r: Cmd, end: nat)
    requires pos <= p < |text| && ExecAt(text, pos) == Done(l, p) && At(text, p) == '|' && !IsSpace(At(text, p + 1))
    requires PipeAt(text, p + 1) == Done(r, end)
    ensures PipeAt(text, pos) == Done(Pipe(l, r), end)
  {
    Stay(text, p);
    Symbol(text, p);
  }

  lemma {:induction false} LineNone(text: string, pos: nat, cmd: Cmd, p: nat)
    requires pos <= |text| && PipeAt(text, pos) == Done(cmd, p) && !IsSpace(At(text, p)) && At(text, p) != '&'
             && At(text, p) != ';'
    ensures LineAt(text, pos) == Done(cmd, p)
  {
    Stay(text, p);
  }

  lemma {:induction false} LineStep(text: string, pos: nat, l: Cmd, p: nat, r: Cmd, end: nat)
    requires pos <= p < |text| && PipeAt(text, pos) == Done(l, p) && At(text, p) == ';' && !IsSpace(At(text, p + 1))
    requires LineAt(text, p + 1) == Done(r, end)
    ensures LineAt(text, pos) == Done(List(l, r), end)
  {
    Stay(text, p);
    Symbol(text, p);
  }

  lemma {:induction false} LineBack(text: string, pos: nat, c: Cmd, p: nat)
    requires pos <= p < |text| && PipeAt(text, pos) == Done(c, p) && At(text, p) == '&' && Closed(text, p + 1)
    ensures LineAt(text, pos) == Done(Back(c), p + 1)
  {
    Stay(text, p);
    Symbol(text, p);
    Stay(text, p + 1);
    assert BacksAt(text, Back(c), p + 1) == Done(Back(c), p + 1);
  }

  /** Where nothing but the end follows, a simple command is the whole line. */
  lemma {:induction false} EndOfLine(text: string, pos: nat, cmd: Cmd, p: nat)
    requires pos <= |text| && ExecAt(text, pos) == Done(cmd, p) && Closed(text, p)
    ensures PipeAt(text, pos) == Done(cmd, p) && LineAt(text, pos) == Done(cmd, p)
  {
    PipeNone(text, pos, cmd, p);
    LineNone(text, pos, cmd, p);
  }

  lemma {:induction false} ArgsStep(text: string, pos: nat, args: seq<Span>)
    requires pos <= |text| && Skip(text, pos) == pos && !IsSymbol(At(text, pos)) && |args| + 1 < MAXARGS
    requires var t := GetToken(text, pos); t.kind == 'a' && RedirsAt(text, t.next) == Redirs([], t.next)
    ensures var t := GetToken(text, pos); ArgsAt(text, pos, args, [])
                                          == ArgsAt(text, t.next, args + [Span(t.q, t.eq)], [])
  {
    var none: seq<Redirection> := [];
    assert none + none == none;
  }

  lemma {:induction false} ArgsEnd(text: string, pos: nat, args: seq<Span>)
    requires Closed(text, pos) && NoNul(text)
    ensures ArgsAt(text, pos, args, []) == Done(Exec(args), pos)
  {
    Stay(text, pos);
  }

  // ---- Simple commands ------------------------------------------------------------------------------

  /** The text has the words from pos to end, where the command ends. */
  ghost predicate Printed(text: string, pos: nat, ws: seq<string>, end: nat) {
    && Has(text, pos, Words(ws)) && end == pos + |Words(ws)| && Closed(text, end) && NoNul(text)
    && forall i :: 0 <= i < |ws| ==> Word(ws[i])
  }

  /** The first word of several, and where the rest of them begins. */
  lemma {:induction false} NextWord(text: string, pos: nat, ws: seq<string>, end: nat) returns (next: nat)
    requires ws != [] && Printed(text, pos, ws, end)
    ensures Has(text, pos, ws[0]) && !WordChar(At(text, pos + |ws[0]|)) && next == Skip(text, pos + |ws[0]|)
    ensures Printed(text, next, ws[1..], end)
    ensures !IsSpace(At(text, next)) && At(text, next) != '<' && At(text, next) != '>'
  {
    if |ws| == 1 {
      next := pos + |ws[0]|;
      assert ws[1..] == [] && Has(text, next, "");
      Stay(text, next);
    } else {
      next := pos + |ws[0]| + 1;
      SplitWords(text, pos, ws);
      FirstOfWords(ws[1..]);
      HasChar(text, next, Words(ws[1..]), 0);
      Stay(text, next);
    }
  }

  /** Two words or more: the first one, a space, the others. */
  lemma {:induction false} SplitWords(text: string, pos: nat, ws: seq<string>)
    requires |ws| > 1 && Has(text, pos, Words(ws))
    ensures Has(text, pos, ws[0]) && At(text, pos + |ws[0]|) == ' ' && Has(text, pos + |ws[0]| + 1, Words(ws[1..]))
    ensures |Words(ws)| == |ws[0]| + 1 + |Words(ws[1..])|
  {
    var tail := Words(ws[1..]);
    assert Words(ws) == ws[0] + (" " + tail);
    HasTwo(text, pos, ws[0], " ", tail);
  }

  lemma {:induction false} FirstOfWords(ws: seq<string>)
    requires ws != [] && Word(ws[0])
    ensures Words(ws) != "" && WordChar(Words(ws)[0])
  {
    assert Words(ws)[0] == ws[0][0];
  }

  lemma {:induction false} FirstArg(text: string, pos: nat, ws: seq<string>, args: seq<Span>, end: nat)
    returns (next: nat, s: Span)
    requires ws != [] && Printed(text, pos, ws, end) && |args| + |ws| < MAXARGS
    ensures next <= |text| && ArgsAt(text, pos, args, []) == ArgsAt(text, next, args + [s], [])
            && Read(text, s) == ws[0]
    ensures Printed(text, next, ws[1..], end)
  {
    next := NextWord(text, pos, ws, end);
    FirstOfWords(ws);
    HasChar(text, pos, Words(ws), 0);
    WordToken(text, pos, ws[0]);
    s := Span(pos, pos + |ws[0]|);
    NoRedirs(text, next);
    Stay(text, pos);
    ArgsStep(text, pos, args);
  }

  lemma {:induction false} ReadFirst(text: string, s: Span, others: seq<Span>, ws: seq<string>)
    requires ws != [] && Read(text, s) == ws[0] && ReadAll(text, others) == ws[1..]
    ensures ReadAll(text, [s] + others) == ws
  {
    assert |others| == |ws| - 1;
    forall i | 0 <= i < |ws| ensures ReadAll(text, [s] + others)[i] == ws[i] {
      assert i > 0 ==> ReadAll(text, others)[i - 1] == ws[1..][i - 1];
    }
  }

  lemma {:induction false} Assoc(a: seq<Span>, s: Span, b: seq<Span>)
    ensures a + ([s] + b) == a + [s] + b
  {
  }

  /** The arguments of a printed command are found one after the other. */
  lemma {:induction false} ArgsPrinted(text: string, pos: nat, ws: seq<string>, args: seq<Span>, end: nat)
    returns (spans: seq<Span>)
    requires Printed(text, pos, ws, end) && |args| + |ws| < MAXARGS
    ensures ArgsAt(text, pos, args, []) == Done(Exec(args + spans), end) && ReadAll(text, spans) == ws
    decreases |ws|
  {
    if ws == [] {
      spans := [];
      ArgsEnd(text, pos, args);
      assert args + spans == args;
    } else {
      var next, s := FirstArg(text, pos, ws, args, end);
      var others := ArgsPrinted(text, next, ws[1..], args + [s], end);
      spans := [s] + others;
      Assoc(args, s, others);
      ReadFirst(text, s, others, ws);
    }
  }

  lemma {:induction false} ExecPrinted(args: seq<string>, text: string, pos: nat) returns (cmd: Cmd)
    requires Printable(TExec(args)) && NoNul(text) && Has(text, pos, Words(args)) && Closed(text, pos + |Words(args)|)
    ensures LineAt(text, pos) == Done(cmd, pos + |Words(args)|) && TreeOf(text, cmd) == TExec(args)
  {
    if args != [] {
      FirstOfWords(args);
      HasChar(text, pos, Words(args), 0);
    }
    Stay(text, pos);
    NoRedirs(text, pos);
    var spans := ArgsPrinted(text, pos, args, [], pos + |Words(args)|);
    assert [] + spans == spans;
    cmd := Exec(spans);
    EndOfLine(text, pos, cmd, pos + |Words(args)|);
  }

  // ---- Everything else ------------------------------------------------------------------------------

  /** A block from pos to p, and then the redirections at p. */
  ghost predicate BlockThen(text: string, pos: nat, p: nat, cmd: Cmd) {
    && pos <= p <= |text|
    && var r := RedirsAt(text, p); r.Redirs? ==> ExecAt(text, pos) == Done(Wrap(cmd, r.list), r.pos)
  }

  /** A block without redirections. */
  lemma {:induction false} BlockAlone(text: string, pos: nat, p: nat, cmd: Cmd)
    requires BlockThen(text, pos, p, cmd) && !IsSpace(At(text, p)) && At(text, p) != '<' && At(text, p) != '>'
    ensures ExecAt(text, pos) == Done(cmd, p)
  {
    NoRedirs(text, p);
  }

  lemma {:induction false} HasParens(text: string, pos: nat, t: Tree)
    requires Has(text, pos, Parens(t))
    ensures At(text, pos) == '(' && Has(text, pos + 1, Print(t)) && At(text, pos + 1 + |Print(t)|) == ')'
            && |Parens(t)| == |Print(t)| + 2
  {
    var s := Print(t);
    HasBoth(text, pos, "(", s + ")");
    HasBoth(text, pos + 1, s, ")");
    HasChar(text, pos, "(", 0);
    HasChar(text, pos + 1 + |s|, ")", 0);
  }

  /** Printed commands begin with a word, a parenthesis, or nothing at all. */
  lemma {:induction false} FirstChar(t: Tree, text: string, pos: nat)
    requires Printable(t) && Has(text, pos, Print(t)) && Closed(text, pos + |Print(t)|)
    ensures !IsSpace(At(text, pos))
  {
    if Print(t) != "" {
      HasChar(text, pos, Print(t), 0);
      FirstPrinted(t);
    }
  }

  lemma {:induction false} FirstPrinted(t: Tree)
    requires Printable(t) && Print(t) != ""
    ensures !IsSpace(Print(t)[0])
  {
    if t.TExec? {
      FirstOfWords(t.args);
    } else {
      var inner := if t.TRedir? || t.TBack? then t.cmd else t.left;
      assert Parens(inner)[0] == '(' && Print(t)[0] == Parens(inner)[0];
    }
  }

  /** A printed command in parentheses is parsed as a block. */
  lemma {:induction false} BlockPrinted(t: Tree, text: string, pos: nat, p: nat) returns (cmd: Cmd)
    requires Printable(t) && NoNul(text) && Has(text, pos, Parens(t)) && p == pos + |Parens(t)| && !IsSpace(At(text, p))
    ensures TreeOf(text, cmd) == t && At(text, pos) == '(' && BlockThen(text, pos, p, cmd)
    decreases t, 4
  {
    HasParens(text, pos, t);
    FirstChar(t, text, pos + 1);
    cmd := LinePrinted(t, text, pos + 1);
    BlockStep(text, pos, cmd, p - 1);
  }

  /** The same, where no redirection follows. */
  lemma {:induction false} PlainBlock(t: Tree, text: string, pos: nat, p: nat) returns (cmd: Cmd)
    requires Printable(t) && NoNul(text) && Has(text, pos, Parens(t)) && p == pos + |Parens(t)|
    requires !IsSpace(At(text, p)) && At(text, p) != '<' && At(text, p) != '>'
    ensures TreeOf(text, cmd) == t && At(text, pos) == '(' && ExecAt(text, pos) == Done(cmd, p)
    decreases t, 5
  {
    cmd := BlockPrinted(t, text, pos, p);
    BlockAlone(text, pos, p, cmd);
  }

  lemma {:induction false} BlockStep(text: string, pos: nat, cmd: Cmd, p: nat)
    requires pos < p < |text| && At(text, pos) == '(' && !IsSpace(At(text, pos + 1)) && At(text, p) == ')'
             && !IsSpace(At(text, p + 1))
    requires LineAt(text, pos + 1) == Done(cmd, p)
    ensures BlockThen(text, pos, p + 1, cmd)
  {
    Symbol(text, pos);
    Stay(text, p);
    Symbol(text, p);
    ExecBlock(text, pos);
    BlockBody(text, pos, cmd, p);
  }

  lemma {:induction false} ExecBlock(text: string, pos: nat)
    requires pos <= |text| && At(text, pos) == '('
    ensures ExecAt(text, pos) == BlockAt(text, pos)
  {
    Stay(text, pos);
  }

  lemma {:induction false} BlockBody(text: string, pos: nat, cmd: Cmd, p: nat)
    requires pos < p < |text| && At(text, pos) == '(' && GetToken(text, pos).next == pos + 1
    requires LineAt(text, pos + 1) == Done(cmd, p) && Skip(text, p) == p && At(text, p) == ')'
             && GetToken(text, p).next == p + 1
    ensures var r := RedirsAt(text, p + 1); r.Redirs? ==> BlockAt(text, pos) == Done(Wrap(cmd, r.list), r.pos)
  {
  }

  /** A printed command, up to the end or a closing parenthesis, is parsed as itself. */
  lemma {:induction false} LinePrinted(t: Tree, text: string, pos: nat) returns (cmd: Cmd)
    requires Printable(t) && NoNul(text) && Has(text, pos, Print(t)) && Closed(text, pos + |Print(t)|)
    ensures LineAt(text, pos) == Done(cmd, pos + |Print(t)|) && TreeOf(text, cmd) == t
    decreases t, 3
  {
    match t {
      case TExec(args) => cmd := ExecPrinted(args, text, pos);
      case TRedir(_, _, _) => cmd := RedirLine(t, text, pos);
      case TPipe(_, _) => cmd := PipeLine(t, text, pos);
      case TList(_, _) => cmd := ListLine(t, text, pos);
      case TBack(_) => cmd := BackLine(t, text, pos);
    }
  }

  lemma {:induction false} RedirLine(t: Tree, text: string, pos: nat) returns (cmd: Cmd)
    requires t.TRedir? && Printable(t) && NoNul(text) && Has(text, pos, Print(t)) && Closed(text, pos + |Print(t)|)
    ensures LineAt(text, pos) == Done(cmd, pos + |Print(t)|) && TreeOf(text, cmd) == t
    decreases t, 2
  {
    HasThree(text, pos, Parens(t.cmd), Arrow(t.mode), t.file);
    cmd := RedirCase(t, text, pos, pos + |Parens(t.cmd)|, pos + |Print(t)|);
  }

  lemma {:induction false} PipeLine(t: Tree, text: string, pos: nat) returns (cmd: Cmd)
    requires t.TPipe? && Printable(t) && NoNul(text) && Has(text, pos, Print(t)) && Closed(text, pos + |Print(t)|)
    ensures LineAt(text, pos) == Done(cmd, pos + |Print(t)|) && TreeOf(text, cmd) == t
    decreases t, 2
  {
    HasTwo(text, pos, Parens(t.left), "|", Parens(t.right));
    cmd := PipeCase(t, text, pos, pos + |Parens(t.left)|, pos + |Print(t)|);
  }

  lemma {:induction false} ListLine(t: Tree, text: string, pos: nat) returns (cmd: Cmd)
    requires t.TList? && Printable(t) && NoNul(text) && Has(text, pos, Print(t)) && Closed(text, pos + |Print(t)|)
    ensures LineAt(text, pos) == Done(cmd, pos + |Print(t)|) && TreeOf(text, cmd) == t
    decreases t, 2
  {
    HasTwo(text, pos, Parens(t.left), ";", Parens(t.right));
    cmd := ListCase(t, text, pos, pos + |Parens(t.left)|, pos + |Print(t)|);
  }

  lemma {:induction false} BackLine(t: Tree, text: string, pos: nat) returns (cmd: Cmd)
    requires t.TBack? && Printable(t) && NoNul(text) && Has(text, pos, Print(t)) && Closed(text, pos + |Print(t)|)
    ensures LineAt(text, pos) == Done(cmd, pos + |Print(t)|) && TreeOf(text, cmd) == t
    decreases t, 2
  {
    HasBoth(text, pos, Parens(t.cmd), "&");
    HasChar(text, pos + |Parens(t.cmd)|, "&", 0);
    cmd := BackCase(t, text, pos, pos + |Parens(t.cmd)|);
  }

  lemma {:induction false} HasTwo(text: string, pos: nat, a: string, symbol: string, b: string)
    requires Has(text, pos, a + (symbol + b)) && |symbol| == 1
    ensures Has(text, pos, a) && At(text, pos + |a|) == symbol[0] && Has(text, pos + |a| + 1, b)
  {
    HasBoth(text, pos, a, symbol + b);
    HasBoth(text, pos + |a|, symbol, b);
    HasChar(text, pos + |a|, symbol, 0);
  }

  lemma {:induction false} HasThree(text: string, pos: nat, a: string, b: string, c: string)
    requires Has(text, pos, a + (b + c))
    ensures Has(text, pos, a) && Has(text, pos + |a|, b) && Has(text, pos + |a| + |b|, c)
  {
    HasBoth(text, pos, a, b + c);
    HasBoth(text, pos + |a|, b, c);
  }

  /** The two halves of a pipe or a list. */
  lemma {:induction false} TwoBlocks(t: Tree, text: string, pos: nat, p: nat, end: nat) returns (l: Cmd, r: Cmd)
    requires (t.TPipe? || t.TList?) && Printable(t) && NoNul(text) && Has(text, pos, Parens(t.left))
             && p == pos + |Parens(t.left)|
    requires (At(text, p) == '|' || At(text, p) == ';') && Has(text, p + 1, Parens(t.right))
    requires end == p + 1 + |Parens(t.right)| && Closed(text, end)
    ensures p < |text| && ExecAt(text, pos) == Done(l, p) && TreeOf(text, l) == t.left
    ensures At(text, p + 1) == '(' && ExecAt(text, p + 1) == Done(r, end) && TreeOf(text, r) == t.right
    decreases t, 0
  {
    r := PlainBlock(t.right, text, p + 1, end);
    l := PlainBlock(t.left, text, pos, p);
  }

  lemma {:induction false} PipeCase(t: Tree, text: string, pos: nat, p: nat, end: nat) returns (cmd: Cmd)
    requires t.TPipe? && Printable(t) && NoNul(text) && Has(text, pos, Parens(t.left)) && p == pos + |Parens(t.left)|
    requires At(text, p) == '|' && Has(text, p + 1, Parens(t.right)) && end == p + 1 + |Parens(t.right)|
             && Closed(text, end)
    ensures LineAt(text, pos) == Done(cmd, end) && TreeOf(text, cmd) == t
    decreases t, 1
  {
    var l, r := TwoBlocks(t, text, pos, p, end);
    cmd := Pipe(l, r);
    PipeEnd(text, pos, l, p, r, end);
  }

  lemma {:induction false} PipeEnd(text: string, pos: nat, l: Cmd, p: nat, r: Cmd, end: nat)
    requires pos <= p < |text| && ExecAt(text, pos) == Done(l, p) && At(text, p) == '|' && At(text, p + 1) == '('
    requires ExecAt(text, p + 1) == Done(r, end) && Closed(text, end)
    ensures LineAt(text, pos) == Done(Pipe(l, r), end)
  {
    EndOfLine(text, p + 1, r, end);
    PipeStep(text, pos, l, p, r, end);
    LineNone(text, pos, Pipe(l, r), end);
  }

  lemma {:induction false} ListEnd(text: string, pos: nat, l: Cmd, p: nat, r: Cmd, end: nat)
    requires pos <= p < |text| && ExecAt(text, pos) == Done(l, p) && At(text, p) == ';' && At(text, p + 1) == '('
    requires ExecAt(text, p + 1) == Done(r, end) && Closed(text, end)
    ensures LineAt(text, pos) == Done(List(l, r), end)
  {
    EndOfLine(text, p + 1, r, end);
    PipeNone(text, pos, l, p);
    LineStep(text, pos, l, p, r, end);
  }

  lemma {:induction false} ListCase(t: Tree, text: string, pos: nat, p: nat, end: nat) returns (cmd: Cmd)
    requires t.TList? && Printable(t) && NoNul(text) && Has(text, pos, Parens(t.left)) && p == pos + |Parens(t.left)|
    requires At(text, p) == ';' && Has(text, p + 1, Parens(t.right)) && end == p + 1 + |Parens(t.right)|
             && Closed(text, end)
    ensures LineAt(text, pos) == Done(cmd, end) && TreeOf(text, cmd) == t
    decreases t, 1
  {
    var l, r := TwoBlocks(t, text, pos, p, end);
    cmd := List(l, r);
    ListEnd(text, pos, l, p, r, end);
  }

  lemma {:induction false} BackCase(t: Tree, text: string, pos: nat, p: nat) returns (cmd: Cmd)
    requires t.TBack? && Printable(t) && NoNul(text) && Has(text, pos, Parens(t.cmd)) && p == pos + |Parens(t.cmd)|
    requires At(text, p) == '&' && Closed(text, p + 1)
    ensures LineAt(text, pos) == Done(cmd, p + 1) && TreeOf(text, cmd) == t
    decreases t, 1
  {
    var inner := PlainBlock(t.cmd, text, pos, p);
    cmd := Back(inner);
    PipeNone(text, pos, inner, p);
    LineBack(text, pos, inner, p);
  }

  lemma {:induction false} RedirCase(t: Tree, text: string, pos: nat, p: nat, end: nat) returns (cmd: Cmd)
    requires t.TRedir? && Printable(t) && NoNul(text) && Has(text, pos, Parens(t.cmd)) && p == pos + |Parens(t.cmd)|
    requires Has(text, p, Arrow(t.mode)) && Has(text, p + |Arrow(t.mode)|, t.file)
             && end == p + |Arrow(t.mode)| + |t.file| && Closed(text, end)
    ensures LineAt(text, pos) == Done(cmd, end) && TreeOf(text, cmd) == t
    decreases t, 1
  {
    var f := p + |Arrow(t.mode)|;
    HasChar(text, p, Arrow(t.mode), 0);
    var inner := BlockPrinted(t.cmd, text, pos, p);
    RedirTokens(t.file, t.mode, text, p, f, end);
    cmd := Redir(inner, Span(f, end), t.mode);
    RedirEnd(text, pos, inner, p, f, end, t.mode);
  }

  lemma {:induction false} RedirEnd(text: string, pos: nat, inner: Cmd, p: nat, f: nat, end: nat, mode: char)
    requires BlockThen(text, pos, p, inner) && RedirsAt(text, p) == Redirs([Redirection(Span(f, end), mode)], end)
             && Closed(text, end)
    ensures LineAt(text, pos) == Done(Redir(inner, Span(f, end), mode), end)
  {
    WrapOne(inner, Redirection(Span(f, end), mode));
    EndOfLine(text, pos, Redir(inner, Span(f, end), mode), end);
  }

  lemma {:induction false} WrapOne(cmd: Cmd, r: Redirection)
    ensures Wrap(cmd, [r]) == Redir(cmd, r.file, r.mode)
  {
    assert [r][1..] == [];
  }

  lemma {:induction false} RedirTokens(file: string, mode: char, text: string, p: nat, f: nat, end: nat)
    requires Has(text, p, Arrow(mode)) && f == p + |Arrow(mode)| && Has(text, f, file) && end == f + |file|
    requires Word(file) && Closed(text, end) && NoNul(text) && (mode == '<' || mode == '>' || mode == '+')
    ensures RedirsAt(text, p) == Redirs([Redirection(Span(f, end), mode)], end)
  {
    HasChar(text, f, file, 0);
    assert WordChar(file[0]);
    ArrowToken(text, p, mode);
    WordToken(text, f, file);
    Stay(text, end);
    NoRedirs(text, end);
    RedirsOne(text, p, f, end, mode);
  }

  lemma {:induction false} RedirsOne(text: string, p: nat, f: nat, end: nat, mode: char)
    requires p <= |text| && Skip(text, p) == p && (At(text, p) == '<' || At(text, p) == '>')
    requires var t := GetToken(text, p); t.kind == mode && t.next == f
    requires f <= |text| && var t := GetToken(text, f); t.kind == 'a' && t.q == f && t.eq == t.next == end
    requires end <= |text| && RedirsAt(text, end) == Redirs([], end)
    ensures RedirsAt(text, p) == Redirs([Redirection(Span(f, end), mode)], end)
  {
    var one := [Redirection(Span(f, end), mode)];
    assert one + [] == one;
  }

  lemma {:induction false} ArrowToken(text: string, p: nat, mode: char)
    requires Has(text, p, Arrow(mode)) && WordChar(At(text, p + |Arrow(mode)|))
             && (mode == '<' || mode == '>' || mode == '+')
    ensures Skip(text, p) == p && (At(text, p) == '<' || At(text, p) == '>')
    ensures var t := GetToken(text, p); t.kind == mode && t.next == p + |Arrow(mode)|
  {
    HasChar(text, p, Arrow(mode), 0);
    if mode == '+' {
      HasChar(text, p, Arrow(mode), 1);
    }
    Stay(text, p);
    Stay(text, p + |Arrow(mode)|);
  }

  /** Parsing the printed form of any command tree gives the tree back. */
  lemma {:induction false} RoundTrip(t: Tree)
    requires Printable(t)
    ensures var r := CommandOf(Print(t)); r.Done? && TreeOf(Print(t), r.cmd) == t
  {
    var text := Print(t);
    PrintedNoNul(t);
    assert text[0..0 + |text|] == text;
    var cmd := LinePrinted(t, text, 0);
    Stay(text, |text|);
  }

  lemma {:induction false} PrintedNoNul(t: Tree)
    requires Printable(t)
    ensures NoNul(Print(t))
    decreases t
  {
    match t {
      case TExec(args) => WordsNoNul(args);
      case TRedir(c, file, mode) =>
        PrintedNoNul(c);
        ConcatNoNul(Parens(c), Arrow(mode) + file);
      case TPipe(left, right) =>
        PrintedNoNul(left);
        PrintedNoNul(right);
        ConcatNoNul(Parens(left), "|" + Parens(right));
      case TList(left, right) =>
        PrintedNoNul(left);
        PrintedNoNul(right);
        ConcatNoNul(Parens(left), ";" + Parens(right));
      case TBack(c) => PrintedNoNul(c);
    }
  }

  lemma {:induction false} ConcatNoNul(a: string, b: string)
    requires NoNul(a) && NoNul(b)
    ensures NoNul(a + b)
  {
  }

  lemma {:induction false} WordsNoNul(args: seq<string>)
    requires forall i :: 0 <= i < |args| ==> Word(args[i])
    ensures NoNul(Words(args))
  {
    if args != [] {
      assert Word(args[0]);
      WordsNoNul(args[1..]);
      if |args| > 1 {
        ConcatNoNul(args[0], " ");
        ConcatNoNul(args[0] + " ", Words(args[1..]));
      }
    }
  }

  // ---- Words stay apart -----------------------------------------------------------------------------

  /** A span is one whole word. */
  ghost predicate SpanOk(text: string, s: Span) {
    && s.q < s.eq <= |text| && !WordChar(At(text, s.eq))
    && forall k :: s.q <= k < s.eq ==> WordChar(text[k])
  }

  ghost predicate ListOk(text: string, list: seq<Redirection>) {
    forall i :: 0 <= i < |list| ==> SpanOk(text, list[i].file)
  }

  ghost predicate SpansOk(text: string, cmd: Cmd) {
    match cmd
    case Exec(args) => forall i :: 0 <= i < |args| ==> SpanOk(text, args[i])
    case Redir(c, file, _) => SpansOk(text, c) && SpanOk(text, file)
    case Pipe(left, right) => SpansOk(text, left) && SpansOk(text, right)
    case List(left, right) => SpansOk(text, left) && SpansOk(text, right)
    case Back(c) => SpansOk(text, c)
  }

  lemma {:induction false} TokenOk(text: string, pos: nat)
    requires pos <= |text| && NoNul(text) && GetToken(text, pos).kind == 'a'
    ensures var t := GetToken(text, pos); SpanOk(text, Span(t.q, t.eq))
  {
  }

  lemma {:induction false} RedirsOk(text: string, pos: nat)
    requires pos <= |text| && NoNul(text)
    ensures var r := RedirsAt(text, pos); r.Redirs? ==> ListOk(text, r.list)
    decreases |text| - pos
  {
    var p := Skip(text, pos);
    if At(text, p) == '<' || At(text, p) == '>' {
      var f := GetToken(text, GetToken(text, p).next);
      if f.kind == 'a' {
        TokenOk(text, GetToken(text, p).next);
        RedirsOk(text, f.next);
      }
    }
  }

  lemma {:induction false} WrapOk(text: string, cmd: Cmd, list: seq<Redirection>)
    requires SpansOk(text, cmd) && ListOk(text, list)
    ensures SpansOk(text, Wrap(cmd, list))
    decreases |list|
  {
    if list != [] {
      WrapOk(text, Redir(cmd, list[0].file, list[0].mode), list[1..]);
    }
  }

  lemma {:induction false} ArgsOk(text: string, pos: nat, args: seq<Span>, list: seq<Redirection>)
    requires pos <= |text| && NoNul(text) && SpansOk(text, Exec(args)) && ListOk(text, list)
    ensures var r := ArgsAt(text, pos, args, list); r.Done? ==> SpansOk(text, r.cmd)
    decreases |text| - pos
  {
    var p := Skip(text, pos);
    WrapOk(text, Exec(args), list);
    var t := GetToken(text, p);
    if t.kind == 'a' && |args| + 1 < MAXARGS {
      TokenOk(text, p);
      RedirsOk(text, t.next);
      var more := RedirsAt(text, t.next);
      if more.Redirs? {
        ArgsOk(text, more.pos, args + [Span(t.q, t.eq)], list + more.list);
      }
    }
  }

  lemma {:induction false} ExecOk(text: string, pos: nat)
    requires pos <= |text| && NoNul(text)
    ensures var r := ExecAt(text, pos); r.Done? ==> SpansOk(text, r.cmd)
    decreases |text| - pos, 1
  {
    var p := Skip(text, pos);
    if At(text, p) == '(' {
      BlockOk(text, p);
    } else {
      RedirsOk(text, p);
      var first := RedirsAt(text, p);
      if first.Redirs? {
        ArgsOk(text, first.pos, [], first.list);
      }
    }
  }

  lemma {:induction false} BlockOk(text: string, pos: nat)
    requires pos <= |text| && NoNul(text) && At(text, pos) == '('
    ensures var r := BlockAt(text, pos); r.Done? ==> SpansOk(text, r.cmd)
    decreases |text| - pos, 0
  {
    var t := GetToken(text, pos);
    LineOk(text, t.next);
    var line := LineAt(text, t.next);
    if line.Done? {
      var p := Skip(text, line.pos);
      if At(text, p) == ')' {
        var next := GetToken(text, p).next;
        RedirsOk(text, next);
        var list := RedirsAt(text, next);
        if list.Redirs? {
          WrapOk(text, line.cmd, list.list);
        }
      }
    }
  }

  lemma {:induction false} PipeOk(text: string, pos: nat)
    requires pos <= |text| && NoNul(text)
    ensures var r := PipeAt(text, pos); r.Done? ==> SpansOk(text, r.cmd)
    decreases |text| - pos, 2
  {
    ExecOk(text, pos);
    var first := ExecAt(text, pos);
    if first.Done? {
      var p := Skip(text, first.pos);
      if At(text, p) == '|' {
        PipeOk(text, GetToken(text, p).next);
      }
    }
  }

  lemma {:induction false} BacksOk(text: string, cmd: Cmd, pos: nat)
    requires pos <= |text| && SpansOk(text, cmd)
    ensures SpansOk(text, BacksAt(text, cmd, pos).cmd)
    decreases |text| - pos
  {
    var p := Skip(text, pos);
    if At(text, p) == '&' {
      BacksOk(text, Back(cmd), GetToken(text, p).next);
    }
  }

  /** Every argument and file name that the parser records is a whole word of the line. */
  lemma {:induction false} LineOk(text: string, pos: nat)
    requires pos <= |text| && NoNul(text)
    ensures var r := LineAt(text, pos); r.Done? ==> SpansOk(text, r.cmd)
    decreases |text| - pos, 3
  {
    PipeOk(text, pos);
    var first := PipeAt(text, pos);
    if first.Done? {
      BacksOk(text, first.cmd, first.pos);
      var p := Skip(text, BacksAt(text, first.cmd, first.pos).pos);
      if At(text, p) == ';' {
        LineOk(text, GetToken(text, p).next);
      }
    }
  }

  /** Where nulterminate puts its NULs. */
  ghost function Ends(cmd: Cmd): set<nat> {
    match cmd
    case Exec(args) => set i | 0 <= i < |args| :: args[i].eq
    case Redir(c, file, _) => Ends(c) + {file.eq}
    case Pipe(left, right) => Ends(left) + Ends(right)
    case List(left, right) => Ends(left) + Ends(right)
    case Back(c) => Ends(c)
  }

  /** No end of a word lies inside a word. */
  lemma {:induction false} EndsOutside(text: string, cmd: Cmd, s: Span)
    requires SpansOk(text, cmd) && SpanOk(text, s)
    ensures forall k :: s.q <= k < s.eq ==> k !in Ends(cmd)
    decreases cmd
  {
    match cmd {
      case Exec(args) =>
      case Redir(c, file, _) => EndsOutside(text, c, s);
      case Pipe(left, right) =>
        EndsOutside(text, left, s);
        EndsOutside(text, right, s);
      case List(left, right) =>
        EndsOutside(text, left, s);
        EndsOutside(text, right, s);
      case Back(c) => EndsOutside(text, c, s);
    }
  }

  /** The line with NULs at the ends of cmd's words. */
  ghost predicate Struck(b0: seq<char>, b: seq<char>, ends: set<nat>) {
    |b| == |b0| && forall j :: 0 <= j < |b| ==> b[j] == if j in ends then NUL else b0[j]
  }

  /** What a C program reads from q on. */
  ghost function CString(b: seq<char>, q: nat): string
    decreases |b| - q
  {
    if q >= |b| || b[q] == NUL then "" else [b[q]] + CString(b, q + 1)
  }

  lemma {:induction false} CStringIs(b: seq<char>, q: nat, eq: nat)
    requires q <= eq < |b| && b[eq] == NUL && forall k :: q <= k < eq ==> b[k] != NUL
    ensures CString(b, q) == b[q..eq]
    decreases eq - q
  {
    if q < eq {
      CStringIs(b, q + 1, eq);
    }
  }

  /** After nulterminate the C string at the start of a recorded word is exactly that word. */
  lemma {:induction false} WordsTerminated(text: string, b: seq<char>, cmd: Cmd, s: Span)
    requires NoNul(text) && SpansOk(text, cmd) && SpanOk(text, s) && s.eq in Ends(cmd)
             && Struck(text + [NUL], b, Ends(cmd))
    ensures CString(b, s.q) == text[s.q..s.eq]
  {
    EndsOutside(text, cmd, s);
    forall k | s.q <= k < s.eq ensures b[k] == text[k] && b[k] != NUL {
      assert WordChar(text[k]);
    }
    CStringIs(b, s.q, s.eq);
    assert b[s.q..s.eq] == text[s.q..s.eq];
  }
}
