/** The text of Cloudflare filter expressions: string quoting as the builders write it, and the tokens a reader sees. */
module FilterText {
  import opened Text

  datatype Token = Word(w: string) | Quoted(s: string) | Open | Close | LeftBrace | RightBrace | Comma

  /** Characters of field and function names, keywords, subscripts and address ranges. */
  predicate WordChar(c: char) {
    'a' <= c <= 'z' || 'A' <= c <= 'Z' || '0' <= c <= '9' || c == '.' || c == '_' || c == '[' || c == ']' || c == '*'
    || c == ':' || c == '/'
  }

  /** One character as a literal holds it. */
  function EscapeOne(c: char): string {
    if c == '"' || c == '\\' then ['\\', c] else [c]
  }

  function Escape(s: string): string {
    if s == [] then []
    else EscapeOne(s[0]) + Escape(s[1..])
  }

  /** A string literal, as Go's `%q` prints printable text. */
  function Quote(s: string): string {
    ['"'] + (Escape(s) + ['"'])
  }

  /** Without a quote or a backslash, quoting only adds the quotes. */
  lemma {:induction false} EscapePlain(s: string)
    requires '"' !in s && '\\' !in s
    ensures Escape(s) == s
  {
    if s != [] {
      EscapePlain(s[1..]);
      assert s == [s[0]] + s[1..];
    }
  }

  /** The literal after its opening quote, and what follows the closing one. */
  function ReadString(s: string): (r: Option<(string, string)>)
    ensures r.Some? ==> |r.value.1| < |s|
  {
    if s == [] then None
    else if s[0] == '"' then Some(([], s[1..]))
    else if s[0] == '\\' then
      if |s| < 2 then None
      else
        var r := ReadString(s[2..]);
        if r.None? then None else Some(([s[1]] + r.value.0, r.value.1))
    else
      var r := ReadString(s[1..]);
      if r.None? then None else Some(([s[0]] + r.value.0, r.value.1))
  }

  function WordLength(s: string): (n: nat)
    ensures n <= |s|
    ensures forall i :: 0 <= i < n ==> WordChar(s[i])
    ensures n < |s| ==> !WordChar(s[n])
  {
    if s == [] || !WordChar(s[0]) then 0 else 1 + WordLength(s[1..])
  }

  function Cons(t: Token, rest: Option<seq<Token>>): Option<seq<Token>> {
    if rest.None? then None else Some([t] + rest.value)
  }

  function Punctuation(c: char): Option<Token> {
    match c
    case '(' => Some(Open)
    case ')' => Some(Close)
    case '{' => Some(LeftBrace)
    case '}' => Some(RightBrace)
    case ',' => Some(Comma)
    case _ => None
  }

  function Lex(s: string): Option<seq<Token>>
    decreases |s|
  {
    if s == [] then Some([])
    else if s[0] == ' ' then Lex(s[1..])
    else if Punctuation(s[0]).Some? then Cons(Punctuation(s[0]).value, Lex(s[1..]))
    else if s[0] == '"' then
      var r := ReadString(s[1..]);
      if r.None? then None else Cons(Quoted(r.value.0), Lex(r.value.1))
    else if WordChar(s[0]) then Cons(Word(s[..WordLength(s)]), Lex(s[WordLength(s)..]))
    else None
  }

  lemma {:induction false} ReadAppend(s: string, t: string)
    requires ReadString(s).Some?
    ensures ReadString(s + t) == Some((ReadString(s).value.0, ReadString(s).value.1 + t))
  {
    if s[0] == '"' {
      assert (s + t)[1..] == s[1..] + t;
    } else if s[0] == '\\' {
      assert (s + t)[2..] == s[2..] + t;
      ReadAppend(s[2..], t);
    } else {
      assert (s + t)[1..] == s[1..] + t;
      ReadAppend(s[1..], t);
    }
  }

  /** Two texts meet between tokens. */
  predicate Separate(s: string, t: string) {
    s == [] || t == [] || !WordChar(s[|s| - 1]) || !WordChar(t[0])
  }

  lemma {:induction false} WordAppend(s: string, t: string)
    requires WordLength(s) < |s| || t == [] || !WordChar(t[0])
    ensures WordLength(s + t) == WordLength(s)
  {
    if s == [] {
      assert s + t == t;
    } else if WordChar(s[0]) {
      assert (s + t)[1..] == s[1..] + t;
      WordAppend(s[1..], t);
    }
  }

  lemma LexEmpty(t: Token)
    ensures Cons(t, Lex("")) == Some([t])
  {
    assert [t] + [] == [t];
  }

  lemma ConsAppend(t: Token, a: seq<Token>, rest: Option<seq<Token>>)
    ensures Cons(t, ReadOn(a, rest)) == ReadOn(Cons(t, Some(a)).value, rest)
  {
    if rest.Some? {
      assert [t] + (a + rest.value) == [t] + a + rest.value;
    }
  }

  lemma LexWordStep(s: string)
    requires s != [] && WordChar(s[0])
    ensures WordLength(s) >= 1
    ensures Lex(s) == Cons(Word(s[..WordLength(s)]), Lex(s[WordLength(s)..]))
  {
  }

  lemma LexStringStep(s: string)
    requires s != [] && s[0] == '"' && ReadString(s[1..]).Some?
    ensures Lex(s) == Cons(Quoted(ReadString(s[1..]).value.0), Lex(ReadString(s[1..]).value.1))
  {
  }

  /** What two texts that meet between tokens are read as, when the first can be read. */
  function ReadOn(a: seq<Token>, rest: Option<seq<Token>>): Option<seq<Token>> {
    if rest.None? then None else Some(a + rest.value)
  }

  /** Texts that meet between tokens are read one after the other. */
  lemma {:induction false} LexAppend(s: string, t: string)
    requires Lex(s).Some? && Separate(s, t)
    ensures Lex(s + t) == ReadOn(Lex(s).value, Lex(t))
    decreases |s|, 1
  {
    if s == [] {
      assert s + t == t;
      assert Lex(t).Some? ==> [] + Lex(t).value == Lex(t).value;
    } else if s[0] == ' ' || Punctuation(s[0]).Some? {
      assert (s + t)[0] == s[0] && (s + t)[1..] == s[1..] + t;
      LexAppend(s[1..], t);
      if s[0] != ' ' {
        ConsAppend(Punctuation(s[0]).value, Lex(s[1..]).value, Lex(t));
      }
    } else if s[0] == '"' {
      LexAppendString(s, t);
    } else {
      LexAppendWord(s, t);
    }
  }

  lemma {:induction false} LexAppendString(s: string, t: string)
    requires Lex(s).Some? && Separate(s, t) && s != [] && s[0] == '"'
    ensures Lex(s + t) == ReadOn(Lex(s).value, Lex(t))
    decreases |s|, 0
  {
    var rest, text := ReadString(s[1..]).value.1, ReadString(s[1..]).value.0;
    assert (s + t)[1..] == s[1..] + t;
    ReadAppend(s[1..], t);
    ReadRest(s[1..]);
    LexStringStep(s);
    LexStringStep(s + t);
    hide ReadString, Lex;
    assert rest != [] ==> rest[|rest| - 1] == s[|s| - 1];
    LexAppend(rest, t);
    ConsAppend(Quoted(text), Lex(rest).value, Lex(t));
  }

  lemma {:induction false} LexAppendWord(s: string, t: string)
    requires Lex(s).Some? && Separate(s, t) && s != [] && WordChar(s[0])
    ensures Lex(s + t) == ReadOn(Lex(s).value, Lex(t))
    decreases |s|, 0
  {
    var n := WordLength(s);
    LexWordStep(s);
    LexWordStep(s + t);
    WordAppend(s, t);
    hide *;
    SplitConcat(s, t, n);
    LexAppend(s[n..], t);
    ConsAppend(Word(s[..n]), Lex(s[n..]).value, Lex(t));
    ConsSome(s, n);
  }

  lemma ConsSome(s: string, n: nat)
    requires n <= |s| && Lex(s[n..]).Some?
    ensures Cons(Word(s[..n]), Lex(s[n..])) == Cons(Word(s[..n]), Some(Lex(s[n..]).value))
    ensures Cons(Word(s[..n]), Lex(s[n..])).Some?
  {
  }

  lemma SplitConcat(s: string, t: string, n: nat)
    requires n <= |s| && Separate(s, t)
    ensures (s + t)[..n] == s[..n] && (s + t)[n..] == s[n..] + t
    ensures Separate(s[n..], t)
  {
  }

  lemma {:induction false} ReadRest(s: string)
    requires ReadString(s).Some?
    ensures HasSuffix(s, ReadString(s).value.1)
  {
    if s[0] == '\\' {
      ReadRest(s[2..]);
      SuffixTransitive(s, s[2..], ReadString(s).value.1);
    } else if s[0] != '"' {
      ReadRest(s[1..]);
      SuffixTransitive(s, s[1..], ReadString(s).value.1);
    }
  }

  lemma ReadOne(c: char, tail: string)
    requires ReadString(tail).Some?
    ensures ReadString(EscapeOne(c) + tail) == Some(([c] + ReadString(tail).value.0, ReadString(tail).value.1))
  {
    var text, n := EscapeOne(c) + tail, |EscapeOne(c)|;
    assert text[0] == EscapeOne(c)[0] && text[n..] == tail;
  }

  lemma {:induction false} ReadEscape(s: string, t: string)
    ensures ReadString(Escape(s) + (['"'] + t)) == Some((s, t))
  {
    if s == [] {
      assert Escape(s) + (['"'] + t) == ['"'] + t;
      assert (['"'] + t)[1..] == t;
    } else {
      ReadEscape(s[1..], t);
      ReadOne(s[0], Escape(s[1..]) + (['"'] + t));
      hide ReadString;
      assert Escape(s) + (['"'] + t) == EscapeOne(s[0]) + (Escape(s[1..]) + (['"'] + t));
      assert [s[0]] + s[1..] == s;
    }
  }

  /** Reading undoes quoting, for every string. */
  lemma LexQuote(s: string)
    ensures Lex(Quote(s)) == Some([Quoted(s)])
    ensures Quote(s)[0] == '"' && Quote(s)[|Quote(s)| - 1] == '"'
  {
    ReadEscape(s, []);
    assert Quote(s)[1..] == Escape(s) + ['"'] == Escape(s) + (['"'] + []);
    LexStringStep(Quote(s));
    LexEmpty(Quoted(s));
  }

  lemma {:induction false} WholeWord(w: string)
    requires forall i :: 0 <= i < |w| ==> WordChar(w[i])
    ensures WordLength(w) == |w|
  {
    if w != [] {
      WholeWord(w[1..]);
    }
  }

  lemma LexWord(w: string)
    requires w != [] && forall i :: 0 <= i < |w| ==> WordChar(w[i])
    ensures Lex(w) == Some([Word(w)])
  {
    WholeWord(w);
    LexWordStep(w);
    LexEmpty(Word(w));
    hide WordLength, Lex, Cons;
    assert w[..|w|] == w && w[|w|..] == "";
  }

  /** Texts known to be read as some tokens. */
  ghost predicate Reads(text: string, tokens: seq<Token>) {
    Lex(text) == Some(tokens)
  }

  lemma ReadsAppend(s: string, a: seq<Token>, t: string, b: seq<Token>)
    requires Reads(s, a) && Reads(t, b) && Separate(s, t)
    ensures Reads(s + t, a + b)
  {
    LexAppend(s, t);
  }

  lemma ReadsSpace(t: string, b: seq<Token>)
    requires Reads(t, b)
    ensures Reads(" " + t, b)
  {
    assert (" " + t)[1..] == t;
  }

  /** Two texts with a space between them. */
  lemma ReadsSpaced(s: string, a: seq<Token>, t: string, b: seq<Token>)
    requires Reads(s, a) && Reads(t, b)
    ensures Reads(s + " " + t, a + b)
  {
    ReadsSpace(t, b);
    ReadsAppend(s, a, " " + t, b);
    assert s + " " + t == s + (" " + t);
  }

  lemma ReadsMark(c: char, t: string, b: seq<Token>)
    requires Reads(t, b) && Punctuation(c).Some?
    ensures Reads([c] + t, [Punctuation(c).value] + b)
  {
    assert ([c] + t)[1..] == t;
  }

  lemma ReadsMarkAfter(s: string, a: seq<Token>, c: char)
    requires Reads(s, a) && Punctuation(c).Some?
    ensures Reads(s + [c], a + [Punctuation(c).value])
  {
    assert Reads([], []);
    ReadsMark(c, [], []);
    assert [c] + [] == [c] && [Punctuation(c).value] + [] == [Punctuation(c).value];
    ReadsAppend(s, a, [c], [Punctuation(c).value]);
  }

  /** Two texts with a punctuation mark between them. */
  lemma ReadsMarked(s: string, a: seq<Token>, c: char, t: string, b: seq<Token>)
    requires Reads(s, a) && Reads(t, b) && Punctuation(c).Some?
    ensures Reads(s + [c] + t, a + [Punctuation(c).value] + b)
  {
    ReadsMarkAfter(s, a, c);
    ReadsAppend(s + [c], a + [Punctuation(c).value], t, b);
  }

  /** A text in parentheses. */
  lemma ReadsGroup(s: string, a: seq<Token>)
    requires Reads(s, a)
    ensures Reads("(" + s + ")", [Open] + a + [Close])
  {
    ReadsMark('(', s, a);
    ReadsMarkAfter("(" + s, [Open] + a, ')');
  }
}
