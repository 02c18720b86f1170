/** The tokenizer on every command string: plain characters, backslashes and quotes, in any mixture. */
module CmdLineTokens {
  import opened CmdLine

  /** How a character of a command string is spelled: as itself, behind a backslash, or as a quote that opens or
      closes. */
  datatype Symbol = Char(c: char) | Escaped(c: char) | QuoteMark

  type Word = seq<Symbol>

  function Spelling(a: Symbol): string {
    match a case Char(c) => [c] case Escaped(c) => ['\\', c] case QuoteMark => "\""
  }

  /** The word as written, and what it stands for. */
  function Text(w: Word): string {
    if w == [] then [] else Spelling(w[0]) + Text(w[1..])
  }

  function Meaning(w: Word): string {
    if w == [] then [] else StandsFor(w[0]) + Meaning(w[1..])
  }

  function StandsFor(a: Symbol): string {
    if a.QuoteMark? then "" else [a.c]
  }

  function Turned(a: Symbol, inQuote: bool): bool {
    if a.QuoteMark? then !inQuote else inQuote
  }

  /** Whether a quote is open behind the word. */
  function OpenAfter(w: Word, inQuote: bool): bool {
    if w == [] then inQuote else OpenAfter(w[1..], Turned(w[0], inQuote))
  }

  /** Quotes and backslashes stand for themselves only behind a backslash, a blank also inside quotes. */
  predicate Legible(w: Word, inQuote: bool) {
    w == [] ||
    match w[0]
    case Char(c) => c != '"' && c != '\\' && (c != ' ' || inQuote) && Legible(w[1..], inQuote)
    case Escaped(_) => Legible(w[1..], inQuote)
    case QuoteMark => Legible(w[1..], !inQuote)
  }

  predicate IsWord(w: Word) {
    Legible(w, false) && !OpenAfter(w, false)
  }

  lemma {:induction false} ScanText(w: Word, rest: string, buf: string, inQuote: bool, args: seq<string>)
    requires Legible(w, inQuote)
    ensures Scan(Text(w) + rest, buf, inQuote, args) == Scan(rest, buf + Meaning(w), OpenAfter(w, inQuote), args)
    decreases |w|
  {
    if w == [] {
      assert Text(w) + rest == rest && buf + Meaning(w) == buf;
    } else {
      var tail := Text(w[1..]) + rest;
      ScanSymbol(w[0], tail, buf, inQuote, args);
      ScanText(w[1..], rest, buf + StandsFor(w[0]), Turned(w[0], inQuote), args);
      TextJoins(w, rest, buf);
    }
  }

  lemma TextJoins(w: Word, rest: string, buf: string)
    requires w != []
    ensures Text(w) + rest == Spelling(w[0]) + (Text(w[1..]) + rest)
    ensures buf + Meaning(w) == buf + StandsFor(w[0]) + Meaning(w[1..])
  {
  }

  lemma ScanSymbol(a: Symbol, tail: string, buf: string, inQuote: bool, args: seq<string>)
    requires a.Char? ==> a.c != '"' && a.c != '\\' && (a.c != ' ' || inQuote)
    ensures Scan(Spelling(a) + tail, buf, inQuote, args)
         == Scan(tail, buf + StandsFor(a), Turned(a, inQuote), args)
  {
    var s := Spelling(a) + tail;
    match a {
      case Char(c) => assert s[0] == c && s[1..] == tail;
      case Escaped(c) => assert s[0] == '\\' && s[1] == c && s[2..] == tail;
      case QuoteMark => assert s[0] == '"' && s[1..] == tail && buf + "" == buf;
    }
  }

  // ---------------------------------------------------------------- words separated by blanks

  function Spaced(words: seq<Word>): string {
    if words == [] then [] else if |words| == 1 then Text(words[0]) else Text(words[0]) + " " + Spaced(words[1..])
  }

  function Meanings(words: seq<Word>): (ms: seq<string>)
    ensures |ms| == |words| && forall i :: 0 <= i < |ms| ==> ms[i] == Meaning(words[i])
  {
    if words == [] then [] else [Meaning(words[0])] + Meanings(words[1..])
  }

  lemma {:induction false} ScanSpaced(words: seq<Word>, done: seq<string>)
    requires forall w :: w in words ==> IsWord(w)
    ensures Scan(Spaced(words), "", false, done) == Tokens(done + Recorded(Meanings(words)))
    decreases |words|
  {
    if words == [] {
      assert done + Meanings(words) == done;
    } else if |words| == 1 {
      ScanLast(words[0], done);
      assert Meanings(words) == [Meaning(words[0])];
      assert done + Meanings(words)[..0] == done;
    } else {
      ScanFirst(words[0], Spaced(words[1..]), done);
      ScanSpaced(words[1..], done + [Meaning(words[0])]);
      assert Meanings(words)[1..] == Meanings(words[1..]);
      RecordedTail(Meanings(words), done);
    }
  }

  lemma ScanLast(w: Word, done: seq<string>)
    requires IsWord(w)
    ensures Scan(Text(w), "", false, done) == Tokens(if Meaning(w) != [] then done + [Meaning(w)] else done)
  {
    assert Text(w) + "" == Text(w) && "" + Meaning(w) == Meaning(w);
    ScanText(w, "", "", false, done);
  }

  lemma ScanFirst(w: Word, rest: string, done: seq<string>)
    requires IsWord(w)
    ensures Scan(Text(w) + " " + rest, "", false, done) == Scan(rest, "", false, done + [Meaning(w)])
  {
    var tail := " " + rest;
    assert Text(w) + " " + rest == Text(w) + tail && "" + Meaning(w) == Meaning(w) && tail[1..] == rest;
    ScanText(w, tail, "", false, done);
  }

  /** Words separated by single blanks are read as what they stand for, if and only if the last one stands for something
      (or there are none). */
  lemma TokenizeReadsExactly(words: seq<Word>)
    requires forall w :: w in words ==> IsWord(w)
    ensures Tokenize(Spaced(words)) == Tokens(Meanings(words)) <==> words == [] || Meaning(words[|words| - 1]) != ""
  {
    ScanSpaced(words, []);
    assert [] + Recorded(Meanings(words)) == Recorded(Meanings(words));
  }

  // ---------------------------------------------------------------- plain words

  function Plainly(s: string): Word {
    if s == [] then [] else [Char(s[0])] + Plainly(s[1..])
  }

  predicate IsPlain(s: string) {
    ' ' !in s && '"' !in s && '\\' !in s
  }

  lemma {:induction false} PlainlyIs(s: string)
    requires IsPlain(s)
    ensures IsWord(Plainly(s)) && Text(Plainly(s)) == s && Meaning(Plainly(s)) == s
    decreases |s|
  {
    if s != [] {
      PlainlyIs(s[1..]);
      var w := Plainly(s);
      assert w[0] == Char(s[0]) && w[1..] == Plainly(s[1..]);
      assert s == [s[0]] + s[1..];
    }
  }

  function JoinedBySpace(words: seq<string>): string {
    if words == [] then [] else if |words| == 1 then words[0] else words[0] + " " + JoinedBySpace(words[1..])
  }

  lemma {:induction false} PlainSpaced(words: seq<string>) returns (ws: seq<Word>)
    requires forall s :: s in words ==> IsPlain(s)
    ensures (forall w :: w in ws ==> IsWord(w)) && Spaced(ws) == JoinedBySpace(words) && Meanings(ws) == words
    decreases |words|
  {
    if words == [] {
      ws := [];
    } else {
      PlainlyIs(words[0]);
      var tail := PlainSpaced(words[1..]);
      ws := [Plainly(words[0])] + tail;
      assert ws[1..] == tail && words == [words[0]] + words[1..];
      assert |ws| == |words|;
    }
  }

  /** In particular command lines as they are commonly written. */
  lemma PlainWordsExactly(words: seq<string>)
    requires forall s :: s in words ==> IsPlain(s)
    ensures Tokenize(JoinedBySpace(words)) == Tokens(words) <==> words == [] || words[|words| - 1] != ""
  {
    var ws := PlainSpaced(words);
    TokenizeReadsExactly(ws);
  }

  // ---------------------------------------------------------------- malformed strings

  /** A quote that is still open at the end is an error, and so is a backslash with nothing behind it, inside quotes
      or not. */
  lemma Malformed(words: seq<Word>, w: Word)
    requires (forall v :: v in words ==> IsWord(v)) && Legible(w, false)
    ensures OpenAfter(w, false) ==> Tokenize(Spaced(words + [w])) == OpenQuote
    ensures Tokenize(Spaced(words + [w]) + "\\") == BackslashAtEnd
  {
    BehindWords(words, w, "", []);
    BehindWords(words, w, "\\", []);
    assert Spaced(words + [w]) + "" == Spaced(words + [w]);
    ScanText(w, "", "", false, Meanings(words));
    ScanText(w, "\\", "", false, Meanings(words));
    assert [] + Meanings(words) == Meanings(words);
  }

  lemma {:induction false} BehindWords(words: seq<Word>, w: Word, rest: string, done: seq<string>)
    requires forall v :: v in words ==> IsWord(v)
    ensures Scan(Spaced(words + [w]) + rest, "", false, done) == Scan(Text(w) + rest, "", false, done + Meanings(words))
    decreases |words|
  {
    if words == [] {
      assert words + [w] == [w] && done + Meanings(words) == done;
    } else {
      var tail := Spaced(words[1..] + [w]) + rest;
      assert (words + [w])[1..] == words[1..] + [w];
      assert Spaced(words + [w]) + rest == Text(words[0]) + " " + tail;
      ScanFirst(words[0], tail, done);
      BehindWords(words[1..], w, rest, done + [Meaning(words[0])]);
      assert done + [Meaning(words[0])] + Meanings(words[1..]) == done + Meanings(words);
    }
  }

  // ---------------------------------------------------------------- nothing else is accepted

  /** Every string that is accepted consists of words separated by single blanks. */
  lemma AcceptedIsWords(s: string) returns (words: seq<Word>)
    requires Tokenize(s).Tokens?
    ensures words != [] && (forall w :: w in words ==> IsWord(w)) && Spaced(words) == s
  {
    var first, rest := Decompose(s, "", false, []);
    words := [first] + rest;
    assert words[1..] == rest;
  }

  lemma {:induction false} Decompose(s: string, buf: string, inQuote: bool, args: seq<string>)
    returns (first: Word, rest: seq<Word>)
    requires Scan(s, buf, inQuote, args).Tokens?
    ensures Legible(first, inQuote) && !OpenAfter(first, inQuote) && forall w :: w in rest ==> IsWord(w)
    ensures s == if rest == [] then Text(first) else Text(first) + " " + Spaced(rest)
    decreases |s|
  {
    if s == [] {
      first, rest := [], [];
    } else if s[0] == ' ' && !inQuote {
      var w, more := Decompose(s[1..], "", false, args + [buf]);
      first, rest := [], [w] + more;
      assert rest[1..] == more;
      assert s == " " + s[1..];
    } else {
      var a := FirstSymbol(s);
      var tail := s[|Spelling(a)|..];
      SymbolScanned(s, buf, inQuote, args);
      var w;
      w, rest := Decompose(tail, buf + StandsFor(a), Turned(a, inQuote), args);
      first := [a] + w;
      Prepended(s, a, w, rest, tail);
    }
  }

  function FirstSymbol(s: string): Symbol
    requires s != [] && (s[0] == '\\' ==> |s| > 1)
  {
    if s[0] == '"' then QuoteMark else if s[0] == '\\' then Escaped(s[1]) else Char(s[0])
  }

  lemma SymbolScanned(s: string, buf: string, inQuote: bool, args: seq<string>)
    requires s != [] && (s[0] == ' ' ==> inQuote) && Scan(s, buf, inQuote, args).Tokens?
    ensures s[0] == '\\' ==> |s| > 1
    ensures var a := FirstSymbol(s);
            && |Spelling(a)| <= |s| && s == Spelling(a) + s[|Spelling(a)|..]
            && Scan(s[|Spelling(a)|..], buf + StandsFor(a), Turned(a, inQuote), args).Tokens?
  {
    assert buf + "" == buf;
  }

  lemma Prepended(s: string, a: Symbol, w: Word, rest: seq<Word>, tail: string)
    requires s == Spelling(a) + tail
    requires tail == if rest == [] then Text(w) else Text(w) + " " + Spaced(rest)
    ensures ([a] + w)[0] == a && ([a] + w)[1..] == w
    ensures s == if rest == [] then Text([a] + w) else Text([a] + w) + " " + Spaced(rest)
  {
    TextCons(a, w);
    if rest != [] {
      assert Spelling(a) + (Text(w) + " " + Spaced(rest)) == (Spelling(a) + Text(w)) + " " + Spaced(rest);
    }
  }

  lemma TextCons(a: Symbol, w: Word)
    ensures Text([a] + w) == Spelling(a) + Text(w)
  {
    assert ([a] + w)[1..] == w;
  }
}
