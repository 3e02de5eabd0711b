/** The log configuration as the program reads it: a cursor in the text, token by token, into a table of levels. */
module LogAdapter {
  import opened LogConfig
  import opened Prelude

  class LogConfigLexer {
    const buffer: string
    var cur: nat

    constructor (text: string)
      ensures Rest() == text
    {
      buffer, cur := text, 0;
    }

    /** What is left to read; the cursor may have run past the end. */
    ghost function Rest(): string
      reads this
    {
      if cur <= |buffer| then buffer[cur..] else []
    }

    method SkipWhiteSpace() returns (ch: char)
      modifies `cur
      ensures Rest() == old(Rest())[Span(old(Rest()), IsBlank)..]
      ensures ch == if Rest() == [] then '\0' else Rest()[0]
      ensures Rest() != [] ==> cur < |buffer| && !IsBlank(Rest()[0])
    {
      hide All, Span;
      ghost var before, skipped: string := Rest(), [];
      AllSnoc(skipped, ' ', IsBlank);
      while cur < |buffer|
        invariant All(skipped, IsBlank) && before == skipped + Rest()
      {
        ch := buffer[cur];
        if ch == ' ' || ch == '\t' {
          AllSnoc(skipped, ch, IsBlank);
          OneFurther(skipped, buffer, cur);
          skipped := skipped + [ch];
          cur := cur + 1;
          continue;
        }
        SpanIs(skipped, Rest(), IsBlank);
        return ch;
      }
      SpanIs(skipped, Rest(), IsBlank);
      return '\0';
    }

    /** Reads the longest run of such characters, of which the first is already known to be one. */
    method TakeRun(p: char -> bool) returns (text: string)
      requires cur < |buffer| && p(buffer[cur])
      modifies `cur
      ensures var n := Span(old(Rest()), p); text == old(Rest())[..n] && Rest() == old(Rest())[n..]
    {
      hide All, Span;
      ghost var before := Rest();
      AllSnoc([], buffer[cur], p);
      OneFurther([], buffer, cur);
      text := [buffer[cur]];
      assert [] + text == text;
      cur := cur + 1;
      while cur < |buffer| && p(buffer[cur])
        invariant cur <= |buffer| && All(text, p) && before == text + Rest()
      {
        AllSnoc(text, buffer[cur], p);
        OneFurther(text, buffer, cur);
        text := text + [buffer[cur]];
        cur := cur + 1;
      }
      SpanIs(text, Rest(), p);
    }

    method GetNext() returns (token: Token, text: string)
      modifies `cur
      ensures Lexed(token, text, Rest()) == Next(old(Rest()))
    {
      hide Span, Single;
      var ch := SkipWhiteSpace();
      NulIsSingle();
      if Single(ch).Some? {
        token, text := Single(ch).value, [ch];
        cur := cur + 1;
      } else if IsAlpha(ch) {
        text := TakeRun(IsWord);
        token := Variable;
      } else if IsDigit(ch) {
        text := TakeRun(IsDigit);
        token := Number;
      } else {
        token, text := Invalid, [];
      }
    }
  }

  lemma AllSnoc(s: string, ch: char, p: char -> bool)
    ensures All([], p)
    ensures All(s, p) && p(ch) ==> All(s + [ch], p)
  {
  }

  /** Moving the cursor by one moves one character from what is left to what was read. */
  lemma OneFurther(read: string, buffer: string, cur: nat)
    requires cur < |buffer|
    ensures read + buffer[cur..] == (read + [buffer[cur]]) + buffer[cur + 1..]
  {
    assert buffer[cur..] == [buffer[cur]] + buffer[cur + 1..];
  }

  lemma NulIsSingle()
    ensures Single('\0') == Some(EndOfString)
  {
  }

  class LogConfigParser {
    const lexer: LogConfigLexer

    constructor (cfg: string)
      ensures lexer.Rest() == cfg && fresh(lexer)
    {
      lexer := new LogConfigLexer(cfg);
    }

    /** One entry and the token behind it; `ok` is false at the first unexpected token. */
    method ParseEntry() returns (ok: bool, key: string, value: string, token: Token)
      modifies lexer
      ensures var k := Next(old(lexer.Rest()));
        var c := Next(k.rest);
        var v := Next(c.rest);
        var e := Next(v.rest);
        && (ok <==> k.token.Variable? && c.token.Colon? && v.token.Number?)
        && (ok ==> key == k.text && value == v.text && token == e.token && lexer.Rest() == e.rest)
    {
      hide Next;
      ok, value := false, [];
      token, key := lexer.GetNext();
      if token != Variable {
        return;
      }
      var text;
      token, text := lexer.GetNext();
      if token != Colon {
        return;
      }
      token, value := lexer.GetNext();
      if token != Number {
        return;
      }
      token, text := lexer.GetNext();
      ok := true;
    }

    method Parse() returns (levels: map<string, string>)
      modifies lexer
      ensures levels == LogConfig.Parse(old(lexer.Rest()))
    {
      hide Next;
      levels := map[];
      var token, text := lexer.GetNext();
      if token == EndOfString || token != LeftBrace {
        return;
      }
      ghost var entries := lexer.Rest();
      var ok, more := true, true;
      while more
        invariant more ==> ok && ParseEntries(lexer.Rest(), levels) == ParseEntries(entries, map[])
        invariant !more && ok ==> ParseEntries(entries, map[]) == if token == RightBrace then Some(levels) else None
        invariant !ok ==> ParseEntries(entries, map[]) == None
        decreases more, |lexer.Rest()|
      {
        var key, value;
        ok, key, value, token := ParseEntry();
        if ok {
          levels := levels[key := value];
        }
        more := ok && token == Comma;
      }
      if !ok || token != RightBrace {
        levels := map[];
      }
    }
  }

  // ------------------------------------------------------------ level table

  const DEBUG: nat := 0
  const ERROR: nat := 3

  /** A level is one of four digits. */
  function ParseLogLevel(level: string): (r: Option<nat>)
    ensures r.Some? <==> level == "0" || level == "1" || level == "2" || level == "3"
    ensures r.Some? ==> r.value <= ERROR && level == ['0' + r.value as char]
  {
    if |level| == 1 && DEBUG <= level[0] as int - '0' as int <= ERROR then Some(level[0] as int - '0' as int) else None
  }

  /** The index of the first submodule of that name, or the number of submodules. */
  function IndexOf(names: seq<string>, name: string): (i: nat)
    ensures i <= |names| && (i < |names| ==> names[i] == name) && forall j :: 0 <= j < i ==> names[j] != name
  {
    if names == [] || names[0] == name then 0 else 1 + IndexOf(names[1..], name)
  }

  const SUBMODULES: seq<string> := [
    "UNKNOWN", "CORE", "ANALYZER", "COMMON", "DEBUG", "DEVICE", "GE_ADPT", "IR", "KERNEL", "MD", "ME", "ONNX",
    "OPTIMIZER", "PARALLEL", "PARSER", "PIPELINE", "PRE_ACT", "PYNATIVE", "SESSION", "UTILS", "VM", "PROFILER",
    "PS", "LITE"
  ]

  /** No two submodules share a name, so each can be configured. */
  lemma SubmodulesDistinct(i: nat, j: nat)
    requires i < j < |SUBMODULES|
    ensures SUBMODULES[i] != SUBMODULES[j]
  {
  }

  /** Every submodule's name is one that the configuration can be written with. */
  lemma SubmoduleIsName(i: nat)
    requires i < |SUBMODULES|
    ensures var name := SUBMODULES[i]; name != [] && IsAlpha(name[0]) && All(name, IsWord)
  {
  }

  /** Each submodule can be given each level: the text that says so means just that. */
  lemma SubmoduleLaw(i: nat, d: char)
    requires i < |SUBMODULES| && d in DIGITS
    ensures Parse("{" + SUBMODULES[i] + ":" + [d] + "}") == map[SUBMODULES[i] := [d]]
  {
    SubmoduleIsName(i);
    DigitClass(d);
    NameAndDigit(SUBMODULES[i], d);
  }

  lemma NameAndDigit(name: string, d: char)
    requires name != [] && IsAlpha(name[0]) && All(name, IsWord) && IsDigit(d)
    ensures Parse("{" + name + ":" + [d] + "}") == map[name := [d]]
  {
    hide IsAlpha, IsWord, IsDigit, Parse;
    var e := Entry([], name, [], [], [d], []);
    EntryClasses(e);
    OneEntry(e);
    assert e.Text() == name + ":" + [d];
    assert "{" + name + ":" + [d] + "}" == "{" + (e.Text() + "}");
  }

  lemma OneEntry(e: Entry)
    requires e.Valid()
    ensures Parse("{" + (e.Text() + "}")) == map[e.key := e.level]
  {
    hide Parse, Entry.Text, Entry.Valid;
    var text := "{" + (e.Text() + "}");
    assert text == Print([], [e]) + [];
    assert Starts(text, [], [e], []);
    ParseLaw(text, [], [e], []);
    assert [e][1..] == [];
    assert Overlay(map[], [e]) == map[e.key := e.level];
  }

  /** What submodule `i` gets: its own configured level when that is legal, else the global one. */
  function LevelOf(names: seq<string>, i: nat, configs: map<string, string>, globalLevel: nat): nat
    requires i < |names|
  {
    if names[i] in configs && IndexOf(names, names[i]) == i && ParseLogLevel(configs[names[i]]).Some?
    then ParseLogLevel(configs[names[i]]).value
    else globalLevel
  }

  ghost predicate Configured(levels: seq<nat>, names: seq<string>, configs: map<string, string>, globalLevel: nat) {
    |levels| == |names| && forall i :: 0 <= i < |names| ==> levels[i] == LevelOf(names, i, configs, globalLevel)
  }

  /** Treating one more configured name sets at most the level of its submodule. */
  lemma ConfiguredNext(levels: seq<nat>, names: seq<string>, configs: map<string, string>, globalLevel: nat,
                       name: string, text: string)
    requires Configured(levels, names, configs, globalLevel) && name !in configs
    ensures var k, level := IndexOf(names, name), ParseLogLevel(text);
      Configured(if k < |names| && level.Some? then levels[k := level.value] else levels,
                 names, configs[name := text], globalLevel)
  {
    var k, level := IndexOf(names, name), ParseLogLevel(text);
    forall i | 0 <= i < |names| && i != k
      ensures LevelOf(names, i, configs[name := text], globalLevel) == LevelOf(names, i, configs, globalLevel)
    {
    }
    assert k < |names| ==> levels[k] == globalLevel;
  }

  /** The level text of the last entry of that name. */
  function LastLevel(es: seq<Entry>, name: string): Option<string> {
    if es == [] then None
    else if es[|es| - 1].key == name then Some(es[|es| - 1].level)
    else LastLevel(es[..|es| - 1], name)
  }

  lemma {:induction false} LastLevelFront(es: seq<Entry>, name: string)
    requires es != []
    ensures LastLevel(es, name) ==
      if LastLevel(es[1..], name).Some? then LastLevel(es[1..], name)
      else if es[0].key == name then Some(es[0].level) else None
  {
    if |es| > 1 {
      assert es[..|es| - 1][1..] == es[1..][..|es| - 2];
      LastLevelFront(es[..|es| - 1], name);
    }
  }

  lemma {:induction false} OverlayLast(levels: map<string, string>, es: seq<Entry>, name: string)
    ensures name in Overlay(levels, es) <==> name in levels || LastLevel(es, name).Some?
    ensures LastLevel(es, name).Some? ==> Overlay(levels, es)[name] == LastLevel(es, name).value
    ensures LastLevel(es, name).None? && name in levels ==> Overlay(levels, es)[name] == levels[name]
    decreases |es|
  {
    if es != [] {
      hide LastLevel;
      LastLevelFront(es, name);
      OverlayLast(levels[es[0].key := es[0].level], es[1..], name);
    }
  }

  /** From text to table: a submodule has the level of the last entry that names it, when that is legal. */
  lemma LevelLaw(levels: seq<nat>, globalLevel: nat, text: string, lead: string, es: seq<Entry>, tail: string, i: nat)
    requires Configured(levels, SUBMODULES, Parse(text), globalLevel) && Starts(text, lead, es, tail)
    requires i < |SUBMODULES|
    ensures var last := LastLevel(es, SUBMODULES[i]);
      levels[i] == if last.Some? && ParseLogLevel(last.value).Some? then ParseLogLevel(last.value).value else globalLevel
  {
    var name, index := SUBMODULES[i], IndexOf(SUBMODULES, SUBMODULES[i]);
    assert index == i by {
      hide ParseLogLevel, Parse, Starts, LastLevel;
      if index < i {
        SubmodulesDistinct(index, i);
      }
    }
    hide ParseLogLevel, Parse, IndexOf, Starts, LastLevel;
    ParseLaw(text, lead, es, tail);
    OverlayLast(map[], es, name);
  }

  /** Fills the table: every submodule starts at the global level, and legal entries of the text replace it. */
  method InitSubModulesLogLevel(levels: array<nat>, names: seq<string>, globalLevel: nat, text: string)
    requires levels.Length == |names|
    modifies levels
    ensures Configured(levels[..], names, Parse(text), globalLevel)
  {
    for i := 0 to levels.Length
      invariant forall j :: 0 <= j < i ==> levels[j] == globalLevel
    {
      levels[i] := globalLevel;
    }
    var parser := new LogConfigParser(text);
    var configs := parser.Parse();
    FillLevels(levels, names, globalLevel, configs);
  }

  method FindModule(names: seq<string>, name: string) returns (k: int)
    ensures k == if IndexOf(names, name) < |names| then IndexOf(names, name) else -1
  {
    for i := 0 to |names|
      invariant forall j :: 0 <= j < i ==> names[j] != name
    {
      if name == names[i] {
        return i;
      }
    }
    return -1;
  }

  method FillLevels(levels: array<nat>, names: seq<string>, globalLevel: nat, configs: map<string, string>)
    requires Configured(levels[..], names, map[], globalLevel)
    modifies levels
    ensures Configured(levels[..], names, configs, globalLevel)
  {
    hide Configured, LevelOf, IndexOf, ParseLogLevel;
    var done: map<string, string> := map[];
    var rest := configs.Keys;
    ConfiguredSize(levels[..], names, map[], globalLevel);
    while rest != {}
      invariant rest <= configs.Keys && done == map k | k in configs && k !in rest :: configs[k]
      invariant Configured(levels[..], names, done, globalLevel)
      decreases |rest|
    {
      Inhabited(rest);
      var name :| name in rest;
      ghost var before := levels[..];
      var k := FindModule(names, name);
      var level := ParseLogLevel(configs[name]);
      if k >= 0 && level.Some? {
        levels[k] := level.value;
        assert levels[..] == before[k := level.value];
      }
      ConfiguredNext(before, names, done, globalLevel, name, configs[name]);
      done, rest := done[name := configs[name]], rest - {name};
    }
    assert done == configs;
  }

  lemma ConfiguredSize(levels: seq<nat>, names: seq<string>, configs: map<string, string>, globalLevel: nat)
    requires Configured(levels, names, configs, globalLevel)
    ensures |levels| == |names|
  {
  }
}
