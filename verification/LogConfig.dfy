/**
 The text that sets log levels per submodule, `{name:level,name:level,...}`: its lexer and its parser as
 functions of the text still to read. The theorems say which texts are accepted and what they mean.
 */
module LogConfig {
  import opened Prelude

  datatype Token = Invalid | LeftBrace | RightBrace | Variable | Number | Comma | Colon | EndOfString

  predicate IsAlpha(ch: char) { 'A' <= ch <= 'Z' || 'a' <= ch <= 'z' }

  predicate IsDigit(ch: char) { '0' <= ch <= '9' }

  predicate IsBlank(ch: char) { ch == ' ' || ch == '\t' }

  predicate IsWord(ch: char) { IsAlpha(ch) || IsDigit(ch) || ch == '_' }

  predicate All(s: string, p: char -> bool) {
    forall i :: 0 <= i < |s| ==> p(s[i])
  }

  /** The length of the longest prefix made of such characters. */
  function Span(s: string, p: char -> bool): (n: nat)
    ensures n <= |s| && All(s[..n], p) && (n < |s| ==> !p(s[n]))
  {
    if s == [] || !p(s[0]) then 0 else 1 + Span(s[1..], p)
  }

  /** A prefix after which such characters stop is the longest one. */
  lemma {:induction false} SpanIs(a: string, b: string, p: char -> bool)
    requires All(a, p) && (b == [] || !p(b[0]))
    ensures Span(a + b, p) == |a|
  {
    if a == [] {
      assert a + b == b;
    } else {
      assert p(a[0]) && (a + b)[1..] == a[1..] + b;
      SpanIs(a[1..], b, p);
    }
  }

  datatype Lexed = Lexed(token: Token, text: string, rest: string)

  /** The punctuation marks, which are neither blank nor part of a name or a number. */
  function Single(ch: char): (r: Option<Token>)
    ensures r.Some? ==> !IsBlank(ch) && !IsWord(ch)
    ensures r.Some? ==> !r.value.Invalid? && !r.value.Variable? && !r.value.Number?
  {
    match ch
    case '{' => Some(LeftBrace)
    case '}' => Some(RightBrace)
    case ',' => Some(Comma)
    case ':' => Some(Colon)
    case '\0' => Some(EndOfString)
    case _ => None
  }

  /** The token at the front of a text that does not start with a blank. */
  function Head(s: string): (l: Lexed)
    ensures |l.rest| <= |s| && (l.token.Variable? || l.token.Number? || l.token.Comma? ==> |l.rest| < |s|)
  {
    if s == [] then Lexed(EndOfString, "\0", [])
    else if Single(s[0]).Some? then Lexed(Single(s[0]).value, [s[0]], s[1..])
    else if IsAlpha(s[0]) then
      var n := Span(s, IsWord);
      assert n >= 1;
      Lexed(Variable, s[..n], s[n..])
    else if IsDigit(s[0]) then
      var n := Span(s, IsDigit);
      Lexed(Number, s[..n], s[n..])
    else Lexed(Invalid, [], s)
  }

  /** The next token, its text and what is left to read. */
  function Next(s: string): (l: Lexed)
    ensures |l.rest| <= |s| && (l.token.Variable? || l.token.Number? || l.token.Comma? ==> |l.rest| < |s|)
  {
    Head(s[Span(s, IsBlank)..])
  }

  /** The entries after an opening brace, added to `levels`; nothing when the text is malformed. */
  function ParseEntries(s: string, levels: map<string, string>): Option<map<string, string>>
    decreases |s|
  {
    var key := Next(s);
    var colon := Next(key.rest);
    var value := Next(colon.rest);
    var end := Next(value.rest);
    if !key.token.Variable? || !colon.token.Colon? || !value.token.Number? then None
    else if end.token.Comma? then ParseEntries(end.rest, levels[key.text := value.text])
    else if end.token.RightBrace? then Some(levels[key.text := value.text])
    else None
  }

  function Parse(text: string): map<string, string> {
    var first := Next(text);
    if !first.token.LeftBrace? then map[]
    else
      var levels := ParseEntries(first.rest, map[]);
      if levels.Some? then levels.value else map[]
  }

  // ---------------------------------------------------------------- grammar

  const UPPER: string := "ABCDEFGHIJKLMNOPQRSTUVWXYZ"
  const LOWER: string := "abcdefghijklmnopqrstuvwxyz"
  const LETTERS: string := UPPER + LOWER
  const DIGITS: string := "0123456789"
  const BLANKS: string := " \t"

  /** Every character of `s` is one of `chars`. */
  predicate Only(s: string, chars: string) {
    forall i :: 0 <= i < |s| ==> s[i] in chars
  }

  /** One entry as written: a name and a level, with blanks anywhere around them. */
  datatype Entry = Entry(b0: string, key: string, b1: string, b2: string, level: string, b3: string)
  {
    /** A name is a letter followed by letters, digits and underscores; a level is digits; blanks are spaces and tabs. */
    predicate Valid() {
      && Only(b0, BLANKS) && Only(b1, BLANKS) && Only(b2, BLANKS) && Only(b3, BLANKS)
      && key != [] && key[0] in LETTERS && Only(key, LETTERS + DIGITS + "_")
      && level != [] && Only(level, DIGITS)
    }

    /** The same in the lexer's terms. */
    predicate Lexical() {
      && All(b0, IsBlank) && All(b1, IsBlank) && All(b2, IsBlank) && All(b3, IsBlank)
      && key != [] && IsAlpha(key[0]) && All(key, IsWord)
      && level != [] && All(level, IsDigit)
    }

    function Text(): string { b0 + key + b1 + ":" + b2 + level + b3 }
  }

  lemma UpperClass(ch: char)
    ensures 'A' <= ch <= 'Z' <==> ch in UPPER
  {
    if 'A' <= ch <= 'Z' {
      assert UPPER[ch as int - 'A' as int] == ch;
    }
  }

  lemma LowerClass(ch: char)
    ensures 'a' <= ch <= 'z' <==> ch in LOWER
  {
    if 'a' <= ch <= 'z' {
      assert LOWER[ch as int - 'a' as int] == ch;
    }
  }

  lemma LetterClass(ch: char)
    ensures IsAlpha(ch) <==> ch in LETTERS
  {
    UpperClass(ch);
    LowerClass(ch);
    InEither(ch, UPPER, LOWER);
  }

  lemma InEither(ch: char, a: string, b: string)
    ensures ch in a + b <==> ch in a || ch in b
  {
  }

  lemma DigitClass(ch: char)
    ensures IsDigit(ch) <==> ch in DIGITS
  {
    if IsDigit(ch) {
      assert DIGITS[ch as int - '0' as int] == ch;
    }
  }

  lemma BlankClass(ch: char)
    ensures IsBlank(ch) <==> ch in BLANKS
  {
    assert BLANKS[0] == ' ' && BLANKS[1] == '\t';
  }

  lemma WordClass(ch: char)
    ensures IsWord(ch) <==> ch in LETTERS + DIGITS + "_"
  {
    LetterClass(ch);
    DigitClass(ch);
    InEither(ch, LETTERS, DIGITS);
    InEither(ch, LETTERS + DIGITS, "_");
  }

  /** The lexer's character classes are the grammar's. */
  lemma Classes(s: string)
    ensures All(s, IsBlank) <==> Only(s, BLANKS)
    ensures All(s, IsDigit) <==> Only(s, DIGITS)
    ensures All(s, IsWord) <==> Only(s, LETTERS + DIGITS + "_")
  {
    hide IsBlank, IsDigit, IsWord;
    forall i | 0 <= i < |s|
      ensures IsBlank(s[i]) <==> s[i] in BLANKS
      ensures IsDigit(s[i]) <==> s[i] in DIGITS
      ensures IsWord(s[i]) <==> s[i] in LETTERS + DIGITS + "_"
    {
      BlankClass(s[i]);
      DigitClass(s[i]);
      WordClass(s[i]);
    }
  }

  lemma EntryClasses(e: Entry)
    ensures e.Valid() <==> e.Lexical()
  {
    hide All, Only, IsBlank, IsDigit, IsWord, IsAlpha;
    Classes(e.b0);
    Classes(e.b1);
    Classes(e.b2);
    Classes(e.b3);
    Classes(e.key);
    Classes(e.level);
    if e.key != [] {
      LetterClass(e.key[0]);
    }
  }

  predicate Valid(es: seq<Entry>) {
    forall i :: 0 <= i < |es| ==> es[i].Valid()
  }

  predicate Lexical(es: seq<Entry>) {
    forall i :: 0 <= i < |es| ==> es[i].Lexical()
  }

  lemma EntriesClasses(es: seq<Entry>)
    ensures Valid(es) <==> Lexical(es)
  {
    hide Entry.Valid, Entry.Lexical;
    forall i | 0 <= i < |es| ensures es[i].Valid() <==> es[i].Lexical() {
      EntryClasses(es[i]);
    }
  }

  /** Entries separated by commas and closed by a brace. */
  function Items(es: seq<Entry>): string
    requires es != []
  {
    if |es| == 1 then es[0].Text() + "}" else es[0].Text() + "," + Items(es[1..])
  }

  function Print(lead: string, es: seq<Entry>): string
    requires es != []
  {
    lead + "{" + Items(es)
  }

  /** Later entries win. */
  function Overlay(levels: map<string, string>, es: seq<Entry>): map<string, string>
    decreases |es|
  {
    if es == [] then levels else Overlay(levels[es[0].key := es[0].level], es[1..])
  }

  /** `text` starts with a well-formed configuration. */
  ghost predicate Starts(text: string, lead: string, es: seq<Entry>, tail: string) {
    es != [] && Only(lead, BLANKS) && Valid(es) && text == Print(lead, es) + tail
  }

  // ------------------------------------------------- what is written is read

  lemma BlanksSkipped(b: string, s: string)
    requires All(b, IsBlank) && (s == [] || !IsBlank(s[0]))
    ensures Next(b + s) == Head(s)
  {
    SpanIs(b, s, IsBlank);
    assert (b + s)[|b|..] == s;
  }

  lemma NextSingle(b: string, ch: char, s: string)
    requires All(b, IsBlank) && Single(ch).Some?
    ensures Next(b + [ch] + s) == Lexed(Single(ch).value, [ch], s)
  {
    assert b + [ch] + s == b + ([ch] + s);
    BlanksSkipped(b, [ch] + s);
  }

  /** What follows a blank or a punctuation mark cannot prolong a name or a number. */
  lemma Stops(b: string, ch: char, s: string)
    requires All(b, IsBlank) && Single(ch).Some?
    ensures var t := b + [ch] + s; !IsWord(t[0])
  {
    if b != [] {
      assert (b + [ch] + s)[0] == b[0];
    }
  }

  lemma NextName(b: string, name: string, s: string)
    requires All(b, IsBlank) && name != [] && IsAlpha(name[0]) && All(name, IsWord) && (s == [] || !IsWord(s[0]))
    ensures Next(b + name + s) == Lexed(Variable, name, s)
  {
    hide Next, All, Span, Single;
    var t := name + s;
    assert b + name + s == b + t && t[0] == name[0];
    SpanIs(name, s, IsWord);
    assert t[..|name|] == name && t[|name|..] == s;
    BlanksSkipped(b, t);
  }

  lemma NextNumber(b: string, digits: string, s: string)
    requires All(b, IsBlank) && digits != [] && All(digits, IsDigit) && (s == [] || !IsDigit(s[0]))
    ensures Next(b + digits + s) == Lexed(Number, digits, s)
  {
    assert IsDigit(digits[0]);
    hide Next, All, Span, Single;
    var t := digits + s;
    assert b + digits + s == b + t && t[0] == digits[0];
    SpanIs(digits, s, IsDigit);
    assert t[..|digits|] == digits && t[|digits|..] == s;
    BlanksSkipped(b, t);
  }

  /** The four tokens of an entry and the mark after it. */
  lemma EntryRead(e: Entry, ch: char, s: string)
    requires e.Lexical() && (ch == ',' || ch == '}')
    ensures var key := Next(e.Text() + [ch] + s);
      var colon := Next(key.rest);
      var value := Next(colon.rest);
      var end := Next(value.rest);
      && key.token == Variable && key.text == e.key && colon.token == Colon
      && value.token == Number && value.text == e.level
      && end.token == (if ch == ',' then Comma else RightBrace) && end.rest == s
  {
    hide Next, IsWord;
    var afterValue := e.b3 + [ch] + s;
    var afterColon := e.b2 + e.level + afterValue;
    var afterKey := e.b1 + [':'] + afterColon;
    assert e.Text() + [ch] + s == e.b0 + e.key + afterKey;
    Stops(e.b1, ':', afterColon);
    NextName(e.b0, e.key, afterKey);
    NextSingle(e.b1, ':', afterColon);
    Stops(e.b3, ch, s);
    assert !IsDigit(afterValue[0]) by { NotWordNotDigit(afterValue[0]); }
    NextNumber(e.b2, e.level, afterValue);
    NextSingle(e.b3, ch, s);
  }

  lemma NotWordNotDigit(ch: char)
    requires !IsWord(ch)
    ensures !IsDigit(ch)
  {
  }

  lemma {:induction false} ItemsRead(es: seq<Entry>, tail: string, levels: map<string, string>)
    requires es != [] && Lexical(es)
    ensures ParseEntries(Items(es) + tail, levels) == Some(Overlay(levels, es))
    decreases |es|
  {
    hide Next, Entry.Text, Entry.Lexical;
    var e := es[0];
    if |es| == 1 {
      assert Items(es) + tail == e.Text() + ['}'] + tail;
      EntryRead(e, '}', tail);
      assert Overlay(levels, es) == levels[e.key := e.level] by { assert es[1..] == []; }
    } else {
      var more := Items(es[1..]) + tail;
      assert Items(es) + tail == e.Text() + [','] + more;
      EntryRead(e, ',', more);
      ItemsRead(es[1..], tail, levels[e.key := e.level]);
    }
  }

  /** Whatever follows the closing brace, a well-formed configuration is read back entry by entry. */
  lemma ParseLaw(text: string, lead: string, es: seq<Entry>, tail: string)
    requires Starts(text, lead, es, tail)
    ensures Parse(text) == Overlay(map[], es)
  {
    hide Next, ParseEntries, Items, Overlay, Valid, Lexical, All, Only;
    Classes(lead);
    EntriesClasses(es);
    assert text == lead + ['{'] + (Items(es) + tail);
    NextSingle(lead, '{', Items(es) + tail);
    ItemsRead(es, tail, map[]);
  }

  // -------------------------------------------- what is read was so written

  /** The blanks a token stands behind. */
  function Lead(s: string): (b: string)
    ensures All(b, IsBlank)
  {
    s[..Span(s, IsBlank)]
  }

  lemma SplitLead(s: string, l: Lexed)
    requires l == Next(s)
    ensures exists t :: s == Lead(s) + t && l == Head(t)
  {
    assert s == Lead(s) + s[Span(s, IsBlank)..];
  }

  lemma HeadName(t: string)
    requires Head(t).token == Variable
    ensures var l := Head(t); t == l.text + l.rest && l.text != [] && IsAlpha(l.text[0]) && All(l.text, IsWord)
  {
    hide Single, IsBlank, All, Span;
    var l := Head(t);
    assert t == l.text + l.rest;
  }

  lemma HeadNumber(t: string)
    requires Head(t).token == Number
    ensures var l := Head(t); t == l.text + l.rest && l.text != [] && All(l.text, IsDigit)
  {
    hide Single, IsBlank, IsAlpha, All, Span;
    var l := Head(t);
    assert t == l.text + l.rest;
  }

  /** A name stands in the text behind blanks. */
  lemma NameShape(s: string)
    requires Next(s).token == Variable
    ensures var l := Next(s);
      s == Lead(s) + l.text + l.rest && l.text != [] && IsAlpha(l.text[0]) && All(l.text, IsWord)
  {
    var l := Next(s);
    SplitLead(s, l);
    hide Next, Head, Lead, IsBlank, IsAlpha, IsWord, All;
    var t :| s == Lead(s) + t && l == Head(t);
    HeadName(t);
  }

  lemma NumberShape(s: string)
    requires Next(s).token == Number
    ensures var l := Next(s); s == Lead(s) + l.text + l.rest && l.text != [] && All(l.text, IsDigit)
  {
    var l := Next(s);
    SplitLead(s, l);
    hide Next, Head, Lead, IsBlank, IsDigit, All;
    var t :| s == Lead(s) + t && l == Head(t);
    HeadNumber(t);
  }

  lemma SingleInjective(a: char, b: char)
    requires Single(a) == Single(b) && Single(a).Some?
    ensures a == b
  {
  }

  lemma SingleShape(s: string, ch: char)
    requires ch != '\0' && Single(ch) == Some(Next(s).token)
    ensures s == Lead(s) + [ch] + Next(s).rest
  {
    var l := Next(s);
    SplitLead(s, l);
    hide Next, Lead, IsBlank, IsAlpha, IsDigit, IsWord, Span, All, Single;
    var t :| s == Lead(s) + t && l == Head(t);
    assert t != [] && Single(t[0]) == Single(ch);
    SingleInjective(t[0], ch);
    assert t == [ch] + l.rest;
  }

  lemma EntryWritten(s: string) returns (e: Entry, ch: char)
    requires var colon := Next(Next(s).rest); var value := Next(colon.rest); var end := Next(value.rest);
      && Next(s).token == Variable && colon.token == Colon && value.token == Number
      && (end.token == Comma || end.token == RightBrace)
    ensures var value := Next(Next(Next(s).rest).rest); var end := Next(value.rest);
      && e.Lexical() && e.key == Next(s).text && e.level == value.text
      && ch == (if end.token == Comma then ',' else '}') && s == e.Text() + [ch] + end.rest
  {
    hide Next, IsWord, IsAlpha, IsDigit, IsBlank, All, Lead;
    var key := Next(s);
    var colon := Next(key.rest);
    var value := Next(colon.rest);
    var end := Next(value.rest);
    ch := if end.token == Comma then ',' else '}';
    NameShape(s);
    SingleShape(key.rest, ':');
    NumberShape(colon.rest);
    SingleShape(value.rest, ch);
    e := Entry(Lead(s), key.text, Lead(key.rest), Lead(colon.rest), value.text, Lead(value.rest));
    FourParts(e, ch, s, key.rest, colon.rest, value.rest, end.rest);
  }

  lemma FourParts(e: Entry, ch: char, s0: string, s1: string, s2: string, s3: string, s4: string)
    requires s0 == e.b0 + e.key + s1 && s1 == e.b1 + [':'] + s2 && s2 == e.b2 + e.level + s3
    requires s3 == e.b3 + [ch] + s4
    ensures s0 == e.Text() + [ch] + s4
  {
    assert s2 == e.b2 + e.level + e.b3 + [ch] + s4;
    assert s1 == e.b1 + ":" + e.b2 + e.level + e.b3 + [ch] + s4;
  }

  lemma {:induction false} ItemsWritten(s: string, levels: map<string, string>) returns (es: seq<Entry>, tail: string)
    requires ParseEntries(s, levels).Some?
    ensures es != [] && Lexical(es) && s == Items(es) + tail
    decreases |s|
  {
    hide Next, Entry.Text, Entry.Lexical;
    var e, ch := EntryWritten(s);
    var value := Next(Next(Next(s).rest).rest);
    var end := Next(value.rest);
    if end.token == Comma {
      var more;
      more, tail := ItemsWritten(end.rest, levels[e.key := value.text]);
      es := [e] + more;
      assert es[1..] == more;
      assert s == e.Text() + "," + (Items(more) + tail);
    } else {
      es, tail := [e], end.rest;
    }
  }

  /** Adding entries never empties the table. */
  lemma {:induction false} OverlayKeeps(levels: map<string, string>, es: seq<Entry>)
    ensures levels.Keys <= Overlay(levels, es).Keys
    ensures es != [] ==> es[0].key in Overlay(levels, es)
    decreases |es|
  {
    if es != [] {
      OverlayKeeps(levels[es[0].key := es[0].level], es[1..]);
    }
  }

  /** A text means something if and only if it starts with a well-formed configuration. */
  lemma AcceptLaw(text: string)
    ensures Parse(text) != map[] <==> exists lead, es, tail :: Starts(text, lead, es, tail)
  {
    hide Next, ParseEntries, Items, Overlay, Valid, Lexical, All, Only;
    if Parse(text) != map[] {
      var first := Next(text);
      SingleShape(text, '{');
      var lead := Lead(text);
      var es, tail := ItemsWritten(first.rest, map[]);
      Classes(lead);
      EntriesClasses(es);
      assert text == Print(lead, es) + tail;
      assert Starts(text, lead, es, tail);
    }
    forall lead, es, tail | Starts(text, lead, es, tail) ensures Parse(text) != map[] {
      ParseLaw(text, lead, es, tail);
      OverlayKeeps(map[], es);
    }
  }

  /** The value of a key is that of its last entry. */
  lemma {:induction false} OverlayAgrees(levels: map<string, string>, es: seq<Entry>, m: map<string, string>)
    requires forall i :: 0 <= i < |es| ==> es[i].key in m && m[es[i].key] == es[i].level
    requires forall k :: k in levels ==> k in m && levels[k] == m[k]
    ensures forall k :: k in Overlay(levels, es) ==> k in m && Overlay(levels, es)[k] == m[k]
    ensures forall i :: 0 <= i < |es| ==> es[i].key in Overlay(levels, es)
    decreases |es|
  {
    if es != [] {
      var now := levels[es[0].key := es[0].level];
      OverlayAgrees(now, es[1..], m);
      OverlayKeeps(now, es[1..]);
      forall i | 0 <= i < |es| ensures es[i].key in Overlay(levels, es) {
        if i > 0 {
          assert es[i] == es[1..][i - 1];
        }
      }
    }
  }

  /** Any listing of a table, in any order and with any blanks, parses to that table. */
  lemma RoundTrip(m: map<string, string>, lead: string, es: seq<Entry>, tail: string)
    requires es != [] && Only(lead, BLANKS) && Valid(es)
    requires forall i :: 0 <= i < |es| ==> es[i].key in m && m[es[i].key] == es[i].level
    requires forall k :: k in m ==> exists i :: 0 <= i < |es| && es[i].key == k
    ensures Parse(Print(lead, es) + tail) == m
  {
    hide Parse, Print, Overlay;
    ParseLaw(Print(lead, es) + tail, lead, es, tail);
    OverlayAgrees(map[], es, m);
  }
}
