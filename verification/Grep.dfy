/** The regular-expression matcher of user/grep.c, against an independent definition of the language of an
expression: a string belongs to it if it can be cut into pieces, one for each item. */
module Grep {
  /** What an expression consists of.  `.` stands for any character, also under a star. */
  datatype Item = One(c: char) | Star(c: char) | End

  /** Reading an expression: a star goes with the character before it, whatever that is; `$` is special
      only as the last character. */
  function Items(re: string): seq<Item> {
    if re == "" then []
    else if |re| > 1 && re[1] == '*' then [Star(re[0])] + Items(re[2..])
    else if re == "$" then [End]
    else [One(re[0])] + Items(re[1..])
  }

  predicate Accepts(c: char, x: char) {
    c == '.' || c == x
  }

  /** The pieces that an item stands for; `last` says that the string ends where the text ends. */
  ghost predicate PieceOk(item: Item, piece: string, last: bool) {
    match item
    case One(c) => |piece| == 1 && Accepts(c, piece[0])
    case Star(c) => forall i :: 0 <= i < |piece| ==> Accepts(c, piece[i])
    case End => piece == "" && last
  }

  ghost function Concat(pieces: seq<string>): string {
    if pieces == [] then "" else pieces[0] + Concat(pieces[1..])
  }

  ghost predicate Fits(items: seq<Item>, pieces: seq<string>, last: bool) {
    |pieces| == |items| && forall i :: 0 <= i < |items| ==> PieceOk(items[i], pieces[i], last)
  }

  /** s is in the language of the items. */
  ghost predicate InLanguage(items: seq<Item>, s: string, last: bool) {
    exists pieces :: Fits(items, pieces, last) && Concat(pieces) == s
  }

  /** The text begins with a string of the language. */
  ghost predicate Begins(items: seq<Item>, text: string) {
    exists n :: 0 <= n <= |text| && InLanguage(items, text[..n], n == |text|)
  }

  /** What match promises: with `^` the text begins with a string of the language, otherwise it contains one. */
  ghost predicate Contains(re: string, text: string) {
    if |re| > 0 && re[0] == '^' then Begins(Items(re[1..]), text)
    else exists i :: 0 <= i <= |text| && Begins(Items(re), text[i..])
  }

  // ---- The language, one item at a time -----------------------------------------------------------

  lemma NoItems(text: string)
    ensures Begins([], text)
  {
    assert Fits([], [], 0 == |text|) && Concat([]) == text[..0];
    assert InLanguage([], text[..0], 0 == |text|);
  }

  lemma LanguageCons(x: Item, rest: seq<Item>, k: nat, s: string, last: bool)
    requires k <= |s| && PieceOk(x, s[..k], last) && InLanguage(rest, s[k..], last)
    ensures InLanguage([x] + rest, s, last)
  {
    var pieces :| Fits(rest, pieces, last) && Concat(pieces) == s[k..];
    var all := [s[..k]] + pieces;
    assert all[1..] == pieces && Concat(all) == s;
    assert Fits([x] + rest, all, last);
  }

  lemma LanguageUncons(x: Item, rest: seq<Item>, s: string, last: bool) returns (k: nat)
    requires InLanguage([x] + rest, s, last)
    ensures k <= |s| && PieceOk(x, s[..k], last) && InLanguage(rest, s[k..], last)
  {
    var pieces :| Fits([x] + rest, pieces, last) && Concat(pieces) == s;
    k := |pieces[0]|;
    assert PieceOk(([x] + rest)[0], pieces[0], last) && s[..k] == pieces[0] && s[k..] == Concat(pieces[1..]);
    forall i | 0 <= i < |rest| ensures PieceOk(rest[i], pieces[1..][i], last) {
      assert PieceOk(([x] + rest)[i + 1], pieces[i + 1], last);
    }
    assert Fits(rest, pieces[1..], last);
  }

  lemma BeginsCons(x: Item, rest: seq<Item>, k: nat, text: string)
    requires k <= |text| && x != End && PieceOk(x, text[..k], true) && Begins(rest, text[k..])
    ensures Begins([x] + rest, text)
  {
    var n :| 0 <= n <= |text[k..]| && InLanguage(rest, text[k..][..n], n == |text[k..]|);
    var s, last := text[..k + n], k + n == |text|;
    assert s[..k] == text[..k] && s[k..] == text[k..][..n];
    LanguageCons(x, rest, k, s, last);
    assert InLanguage([x] + rest, text[..k + n], k + n == |text|);
  }

  lemma BeginsUncons(x: Item, rest: seq<Item>, text: string) returns (k: nat)
    requires Begins([x] + rest, text) && x != End
    ensures k <= |text| && PieceOk(x, text[..k], true) && Begins(rest, text[k..])
  {
    var n :| 0 <= n <= |text| && InLanguage([x] + rest, text[..n], n == |text|);
    k := LanguageUncons(x, rest, text[..n], n == |text|);
    assert text[..n][..k] == text[..k] && text[..n][k..] == text[k..][..n - k];
    assert InLanguage(rest, text[k..][..n - k], n - k == |text[k..]|);
  }

  // ---- The matcher ----------------------------------------------------------------------------------

  /** matchhere: the text begins with a string of the language of re. */
  method MatchHere(re: string, text: string) returns (r: bool)
    ensures r <==> Begins(Items(re), text)
    decreases |re|, 0
  {
    if re == "" {
      NoItems(text);
      return true;
    }
    if |re| > 1 && re[1] == '*' {
      r := MatchStar(re[0], re[2..], text);
      return;
    }
    if re == "$" {
      AtEnd(text);
      return text == "";
    }
    OneChar(re, text);
    if text != "" && Accepts(re[0], text[0]) {
      r := MatchHere(re[1..], text[1..]);
      return;
    }
    return false;
  }

  lemma AtEnd(text: string)
    ensures Begins([End], text) <==> text == ""
  {
    if text == "" {
      assert Fits([End], [""], true) && Concat([""]) == text[..0];
      assert InLanguage([End], text[..0], 0 == |text|);
    } else if Begins([End], text) {
      assert [End] == [End] + [];
      var n :| 0 <= n <= |text| && InLanguage([End], text[..n], n == |text|);
      var k := LanguageUncons(End, [], text[..n], n == |text|);
    }
  }

  lemma OneChar(re: string, text: string)
    requires re != "" && !(|re| > 1 && re[1] == '*') && re != "$"
    ensures Begins(Items(re), text) <==> text != "" && Accepts(re[0], text[0]) && Begins(Items(re[1..]), text[1..])
  {
    var x, rest := One(re[0]), Items(re[1..]);
    if Begins([x] + rest, text) {
      var k := BeginsUncons(x, rest, text);
    }
    if text != "" && Accepts(re[0], text[0]) && Begins(rest, text[1..]) {
      BeginsCons(x, rest, 1, text);
    }
  }

  /** matchstar: any number of characters that c accepts, and then a string of the language of re. */
  method MatchStar(c: char, re: string, text: string) returns (r: bool)
    ensures r <==> Begins([Star(c)] + Items(re), text)
    decreases |re|, 1
  {
    var i := 0;
    while true
      invariant 0 <= i <= |text| && (forall j :: 0 <= j < i ==> Accepts(c, text[j]))
      invariant forall j :: 0 <= j < i ==> !Begins(Items(re), text[j..])
      decreases |text| - i
    {
      r := MatchHere(re, text[i..]);
      if r {
        BeginsCons(Star(c), Items(re), i, text);
        return;
      }
      if i == |text| || !Accepts(c, text[i]) {
        NoStar(c, re, text, i);
        return;
      }
      i := i + 1;
    }
  }

  lemma NoStar(c: char, re: string, text: string, i: nat)
    requires i <= |text| && (i < |text| ==> !Accepts(c, text[i]))
             && forall j :: 0 <= j <= i ==> !Begins(Items(re), text[j..])
    ensures !Begins([Star(c)] + Items(re), text)
  {
    if Begins([Star(c)] + Items(re), text) {
      var k := BeginsUncons(Star(c), Items(re), text);
    }
  }

  /** match: the text contains a string of the language of re. */
  method Match(re: string, text: string) returns (r: bool)
    ensures r <==> Contains(re, text)
  {
    if |re| > 0 && re[0] == '^' {
      r := MatchHere(re[1..], text);
      return;
    }
    var i := 0;
    while true
      invariant 0 <= i <= |text| && forall j :: 0 <= j < i ==> !Begins(Items(re), text[j..])
      decreases |text| - i
    {
      r := MatchHere(re, text[i..]);
      if r || i == |text| { return; }
      i := i + 1;
    }
  }
}
