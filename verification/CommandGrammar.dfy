/** The language command text is written in, and that the tokenizer reads exactly that language. */
module CommandGrammar {
  import opened CommandSyntax

  /** A character inside quotes, as it is or behind a backslash. */
  datatype Inner = Literal(c: char) | Escaped(c: char)

  /** What unquoted text is made of. */
  datatype Item = Blank(c: char) | Plain(c: char) | Escape(c: char) | Quoted(mark: char, inner: seq<Inner>)

  const BLANKS := "\t\U{000b}\U{000c} \U{00a0}\U{1680}\U{2000}\U{2001}\U{2002}\U{2003}\U{2004}\U{2005}\U{2006}\U{2007}\U{2008}\U{2009}\U{200a}\U{2028}\U{2029}\U{202f}\U{205f}\U{3000}\U{feff}"
  const LINE_ENDS := "\n\r"
  const SHELL := ";|&<>`$(){}[]*?~!#"

  predicate ValidInner(mark: char, inner: seq<Inner>) {
    forall x :: x in inner && x.Literal? ==> x.c != mark && x.c != '\\'
  }

  predicate Valid(item: Item) {
    match item
    case Blank(c) => c in BLANKS
    case Plain(c) => c !in BLANKS && c !in LINE_ENDS && c !in SHELL && c != '\\' && c != '\'' && c != '\"'
    case Escape(_) => true
    case Quoted(mark, inner) => (mark == '\'' || mark == '\"') && ValidInner(mark, inner)
  }

  predicate AllValid(items: seq<Item>) { forall x :: x in items ==> Valid(x) }

  function InnerText(inner: seq<Inner>): string {
    if inner == [] then "" else (if inner[0].Literal? then [inner[0].c] else ['\\', inner[0].c]) + InnerText(inner[1..])
  }

  function InnerValue(inner: seq<Inner>): string {
    if inner == [] then "" else [inner[0].c] + InnerValue(inner[1..])
  }

  function ItemText(item: Item): string {
    match item
    case Blank(c) => [c]
    case Plain(c) => [c]
    case Escape(c) => ['\\', c]
    case Quoted(mark, inner) => [mark] + InnerText(inner) + [mark]
  }

  function Spelled(items: seq<Item>): string {
    if items == [] then "" else ItemText(items[0]) + Spelled(items[1..])
  }

  /** What an item adds to its word. */
  function Value(item: Item): string {
    match item
    case Blank(_) => ""
    case Plain(c) => [c]
    case Escape(c) => [c]
    case Quoted(_, inner) => InnerValue(inner)
  }

  /** The unbroken runs of items that are not blank. */
  function WordsOf(items: seq<Item>): (r: seq<string>)
    ensures items != [] && !items[0].Blank? ==> r != []
    decreases items, 0
  {
    if items == [] then []
    else if items[0].Blank? then WordsOf(items[1..])
    else Joined(Value(items[0]), items[1..])
  }

  /** A word under way, then the items. */
  function Joined(word: string, items: seq<Item>): (r: seq<string>)
    ensures r != []
    decreases items, 1
  {
    if items == [] || items[0].Blank? then [word] + WordsOf(items)
    else [word + WordsOf(items)[0]] + WordsOf(items)[1..]
  }

  /** What cannot come next, and the complaint. */
  ghost predicate Breaks(rest: string, error: SyntaxError) {
    || (rest == "\\" && error == TrailingBackslash)
    || (rest != "" && rest[0] in LINE_ENDS && error == CommandChaining)
    || (rest != "" && rest[0] in SHELL && error == ShellCharacter(rest[0]))
    || (exists mark, inner :: UnclosedAt(rest, mark, inner, error))
  }

  ghost predicate UnclosedAt(rest: string, mark: char, inner: seq<Inner>, error: SyntaxError) {
    && (mark == '\'' || mark == '\"') && ValidInner(mark, inner)
    && ((rest == [mark] + InnerText(inner) && error == UnterminatedQuote)
        || (rest == [mark] + InnerText(inner) + "\\" && error == TrailingBackslash))
  }

  // ---------------------------------------------------------------- what is spelled is read

  lemma Spaces(c: char)
    ensures IsSpace(c) <==> c in BLANKS || c in LINE_ENDS
    ensures IsShell(c) <==> c in SHELL
  {
    assert BLANKS[0] == '\t' && BLANKS[1] == '\U{000b}' && BLANKS[2] == '\U{000c}' && BLANKS[3] == ' ' && BLANKS[4] == '\U{00a0}'
           && BLANKS[5] == '\U{1680}' && BLANKS[6] == '\U{2000}' && BLANKS[7] == '\U{2001}' && BLANKS[8] == '\U{2002}'
           && BLANKS[9] == '\U{2003}' && BLANKS[10] == '\U{2004}' && BLANKS[11] == '\U{2005}' && BLANKS[12] == '\U{2006}'
           && BLANKS[13] == '\U{2007}' && BLANKS[14] == '\U{2008}' && BLANKS[15] == '\U{2009}' && BLANKS[16] == '\U{200a}'
           && BLANKS[17] == '\U{2028}' && BLANKS[18] == '\U{2029}' && BLANKS[19] == '\U{202f}' && BLANKS[20] == '\U{205f}'
           && BLANKS[21] == '\U{3000}' && BLANKS[22] == '\U{feff}';
    assert LINE_ENDS[0] == '\n' && LINE_ENDS[1] == '\r';
  }

  function InnerSpelled(x: Inner): string { if x.Literal? then [x.c] else ['\\', x.c] }

  lemma ScanOneInner(mark: char, x: Inner, tail: string, word: string, words: seq<string>)
    requires mark != '\\' && (x.Literal? ==> x.c != mark && x.c != '\\')
    ensures Scan(InnerSpelled(x) + tail, word, Within(mark), true, words) == Scan(tail, word + [x.c], Within(mark), true, words)
  {
    hide IsSpace, IsShell;
    var text := InnerSpelled(x) + tail;
    if x.Literal? {
      assert text[1..] == tail;
    } else {
      assert text[2..] == tail;
    }
  }

  lemma InnerParts(inner: seq<Inner>, rest: string, word: string)
    requires inner != []
    ensures InnerText(inner) + rest == InnerSpelled(inner[0]) + (InnerText(inner[1..]) + rest)
    ensures word + [inner[0].c] + InnerValue(inner[1..]) == word + InnerValue(inner)
  {
    InnerUnfolds(inner);
    hide InnerText, InnerValue, InnerSpelled;
    Regroup(InnerSpelled(inner[0]), InnerText(inner[1..]), rest);
    Regroup(word, [inner[0].c], InnerValue(inner[1..]));
  }

  lemma InnerUnfolds(inner: seq<Inner>)
    requires inner != []
    ensures InnerText(inner) == InnerSpelled(inner[0]) + InnerText(inner[1..])
    ensures InnerValue(inner) == [inner[0].c] + InnerValue(inner[1..])
  {
  }

  lemma Regroup(a: string, b: string, c: string)
    ensures (a + b) + c == a + (b + c)
  {
  }

  lemma {:induction false} ScanInner(mark: char, inner: seq<Inner>, rest: string, word: string, words: seq<string>)
    requires ValidInner(mark, inner) && mark != '\\'
    ensures Scan(InnerText(inner) + rest, word, Within(mark), true, words)
            == Scan(rest, word + InnerValue(inner), Within(mark), true, words)
  {
    if inner == [] {
      assert "" + rest == rest && word + "" == word;
    } else {
      hide Scan, InnerText, InnerValue, InnerSpelled;
      assert inner[0] in inner;
      ScanOneInner(mark, inner[0], InnerText(inner[1..]) + rest, word, words);
      ScanInner(mark, inner[1..], rest, word + [inner[0].c], words);
      InnerParts(inner, rest, word);
    }
  }

  lemma ScanQuotes(mark: char, inner: seq<Inner>, rest: string, word: string, started: bool, words: seq<string>)
    requires (mark == '\'' || mark == '\"') && ValidInner(mark, inner)
    ensures Scan([mark] + InnerText(inner) + [mark] + rest, word, Bare, started, words)
            == Scan(rest, word + InnerValue(inner), Bare, true, words)
  {
    hide ValidInner, InnerText, InnerValue;
    var text, closed := [mark] + InnerText(inner) + [mark] + rest, [mark] + rest;
    assert text[1..] == InnerText(inner) + closed;
    ScanInner(mark, inner, closed, word, words);
    assert closed[1..] == rest;
  }

  lemma ScanItem(item: Item, rest: string, word: string, started: bool, words: seq<string>)
    requires Valid(item)
    ensures Scan(ItemText(item) + rest, word, Bare, started, words)
            == if item.Blank? then Scan(rest, "", Bare, false, if started then words + [word] else words)
               else Scan(rest, word + Value(item), Bare, true, words)
  {
    hide InnerText, InnerValue, IsSpace, IsShell;
    var text := ItemText(item) + rest;
    match item
    case Blank(c) =>
      Spaces(c);
      BlankIsOnlyBlank(c);
      assert text[1..] == rest;
    case Plain(c) =>
      Spaces(c);
      assert text[1..] == rest;
    case Escape(c) =>
      assert text[2..] == rest;
    case Quoted(mark, inner) =>
      ScanQuotes(mark, inner, rest, word, started, words);
  }

  lemma BlankIsOnlyBlank(c: char)
    requires c in BLANKS
    ensures c != '\'' && c != '\"' && c != '\\' && c !in LINE_ENDS
  {
  }

  /** The words when `items` are still to come. */
  function Coming(word: string, started: bool, items: seq<Item>): seq<string> {
    if started then Joined(word, items) else WordsOf(items)
  }

  lemma {:induction false} ScanItems(items: seq<Item>, word: string, started: bool, words: seq<string>)
    requires AllValid(items) && (!started ==> word == "")
    ensures Scan(Spelled(items), word, Bare, started, words) == Words(words + Coming(word, started, items))
  {
    if items == [] {
      assert words + [] == words && [word] + [] == [word];
    } else {
      hide Scan, Valid, Coming, Value, ItemText;
      var item, rest := items[0], items[1..];
      ScanItem(item, Spelled(rest), word, started, words);
      assert items == [item] + rest;
      if item.Blank? {
        AfterBlank(item, rest, word, started, words);
        ScanItems(rest, "", false, if started then words + [word] else words);
      } else {
        AfterOther(item, rest, word, started);
        ScanItems(rest, word + Value(item), true, words);
      }
    }
  }

  lemma AfterBlank(item: Item, rest: seq<Item>, word: string, started: bool, words: seq<string>)
    requires item.Blank?
    ensures (if started then words + [word] else words) + Coming("", false, rest) == words + Coming(word, started, [item] + rest)
  {
    var items := [item] + rest;
    assert items[0] == item && items[1..] == rest;
    assert WordsOf(items) == WordsOf(rest);
    assert Coming(word, started, items) == if started then [word] + WordsOf(items) else WordsOf(items);
    assert words + [word] + WordsOf(rest) == words + ([word] + WordsOf(rest));
  }

  lemma AfterOther(item: Item, rest: seq<Item>, word: string, started: bool)
    requires !item.Blank? && (!started ==> word == "")
    ensures Coming(word + Value(item), true, rest) == Coming(word, started, [item] + rest)
  {
    hide Value;
    var items := [item] + rest;
    assert items[1..] == rest;
    assert WordsOf(items) == Joined(Value(item), rest);
    assert !started ==> word + Value(item) == Value(item);
    if rest != [] && !rest[0].Blank? {
      assert word + (Value(item) + WordsOf(rest)[0]) == word + Value(item) + WordsOf(rest)[0];
    }
  }

  lemma SpelledStep(items: seq<Item>, rest: string)
    requires items != []
    ensures Spelled(items) + rest == ItemText(items[0]) + (Spelled(items[1..]) + rest)
  {
    hide ItemText;
  }

  lemma {:induction false} ScanBroken(items: seq<Item>, rest: string, error: SyntaxError, word: string, started: bool, words: seq<string>)
    requires AllValid(items) && Breaks(rest, error)
    ensures Scan(Spelled(items) + rest, word, Bare, started, words) == Invalid(error)
  {
    if items == [] {
      assert "" + rest == rest;
      ScanBreak(rest, error, word, started, words);
    } else {
      hide Scan, Valid, Breaks, Value;
      var item := items[0];
      SpelledStep(items, rest);
      hide Spelled, ItemText;
      ScanItem(item, Spelled(items[1..]) + rest, word, started, words);
      if item.Blank? {
        ScanBroken(items[1..], rest, error, "", false, if started then words + [word] else words);
      } else {
        ScanBroken(items[1..], rest, error, word + Value(item), true, words);
      }
    }
  }

  lemma ScanBreak(rest: string, error: SyntaxError, word: string, started: bool, words: seq<string>)
    requires Breaks(rest, error)
    ensures Scan(rest, word, Bare, started, words) == Invalid(error)
  {
    hide Scan;
    if mark, inner :| UnclosedAt(rest, mark, inner, error) {
      ScanUnclosed(rest, mark, inner, error, word, started, words);
    } else {
      ScanBreakOff(rest, error, word, started, words);
    }
  }

  lemma ScanBreakOff(rest: string, error: SyntaxError, word: string, started: bool, words: seq<string>)
    requires rest != ""
    requires || (rest == "\\" && error == TrailingBackslash)
             || (rest[0] in LINE_ENDS && error == CommandChaining)
             || (rest[0] in SHELL && error == ShellCharacter(rest[0]))
    ensures Scan(rest, word, Bare, started, words) == Invalid(error)
  {
    hide IsSpace, IsShell;
    Spaces(rest[0]);
    BreaksApart(rest[0]);
  }

  lemma BreaksApart(c: char)
    ensures c in LINE_ENDS ==> c == '\n' || c == '\r'
    ensures c in SHELL ==> c !in BLANKS && c !in LINE_ENDS && c != '\'' && c != '\"' && c != '\\'
  {
    hide BLANKS, SHELL;
    BlanksLie(c);
    ShellLies(c);
  }

  lemma BlanksLie(c: char)
    ensures c in BLANKS ==> c <= ' ' || c >= '\U{00a0}'
  {
  }

  lemma ShellLies(c: char)
    ensures c in SHELL ==> '!' <= c <= '~' && c != '\'' && c != '\"' && c != '\\'
  {
  }

  lemma ScanUnclosed(rest: string, mark: char, inner: seq<Inner>, error: SyntaxError, word: string, started: bool, words: seq<string>)
    requires UnclosedAt(rest, mark, inner, error)
    ensures Scan(rest, word, Bare, started, words) == Invalid(error)
  {
    hide InnerText, InnerValue, ValidInner, IsSpace, IsShell;
    var tail := if error == TrailingBackslash then "\\" else "";
    assert rest[1..] == InnerText(inner) + tail;
    ScanInner(mark, inner, tail, word, words);
  }

  // ---------------------------------------------------------------- and everything is spelled

  lemma InnerStep(x: Inner, inner: seq<Inner>, mark: char, rest: string)
    requires ValidInner(mark, inner) && (x.Literal? ==> x.c != mark && x.c != '\\')
    ensures ValidInner(mark, [x] + inner)
    ensures InnerText([x] + inner) + rest == (if x.Literal? then [x.c] else ['\\', x.c]) + (InnerText(inner) + rest)
  {
    assert ([x] + inner)[1..] == inner;
  }

  lemma {:induction false} ReadInner(text: string, mark: char) returns (inner: seq<Inner>, rest: string)
    requires mark == '\'' || mark == '\"'
    ensures ValidInner(mark, inner) && text == InnerText(inner) + rest
    ensures rest == "" || rest == "\\" || rest[0] == mark
    decreases |text|
  {
    if text == "" || text == "\\" || text[0] == mark {
      inner, rest := [], text;
      assert text == "" + text;
    } else if text[0] == '\\' {
      hide ValidInner, InnerText;
      assert |text| > 1;
      inner, rest := ReadInner(text[2..], mark);
      InnerStep(Escaped(text[1]), inner, mark, rest);
      inner := [Escaped(text[1])] + inner;
      assert text == ['\\', text[1]] + text[2..];
    } else {
      inner, rest := ReadInner(text[1..], mark);
      InnerStep(Literal(text[0]), inner, mark, rest);
      inner := [Literal(text[0])] + inner;
      assert text == [text[0]] + text[1..];
    }
  }

  lemma FirstQuoted(text: string) returns (item: Item, rest: string, error: SyntaxError, broken: bool)
    requires text != "" && (text[0] == '\'' || text[0] == '\"')
    ensures broken ==> Breaks(text, error)
    ensures !broken ==> Valid(item) && text == ItemText(item) + rest && |rest| < |text|
  {
    hide InnerText, ValidInner, BLANKS, SHELL, LINE_ENDS;
    var mark := text[0];
    var inner, tail := ReadInner(text[1..], mark);
    item, rest, error := Quoted(mark, inner), "", if tail == "" then UnterminatedQuote else TrailingBackslash;
    broken := tail == "" || tail == "\\";
    assert text == [mark] + InnerText(inner) + tail;
    if broken {
      assert UnclosedAt(text, mark, inner, error);
    } else {
      rest := tail[1..];
      assert tail == [mark] + rest;
    }
  }

  lemma FirstItem(text: string) returns (item: Item, rest: string, error: SyntaxError, broken: bool)
    requires text != ""
    ensures broken ==> Breaks(text, error)
    ensures !broken ==> Valid(item) && text == ItemText(item) + rest && |rest| < |text|
  {
    hide BLANKS, SHELL, LINE_ENDS, UnclosedAt;
    var c := text[0];
    item, rest, error, broken := Plain(c), text[1..], ShellCharacter(c), false;
    assert text == [c] + text[1..];
    if c == '\'' || c == '\"' {
      item, rest, error, broken := FirstQuoted(text);
    } else if c == '\\' {
      if |text| == 1 {
        broken, error := true, TrailingBackslash;
      } else {
        item, rest := Escape(text[1]), text[2..];
        assert text == ['\\', text[1]] + rest;
      }
    } else if c in LINE_ENDS {
      broken, error := true, CommandChaining;
    } else if c in BLANKS {
      item := Blank(c);
    } else if c in SHELL {
      broken := true;
    }
  }

  lemma {:induction false} Spelling(text: string) returns (items: seq<Item>, rest: string, error: SyntaxError)
    ensures AllValid(items) && text == Spelled(items) + rest
    ensures rest == "" || Breaks(rest, error)
    decreases |text|
  {
    items, rest, error := [], text, CommandChaining;
    assert text == "" + text;
    if text != "" {
      var item, tail, e, broken := FirstItem(text);
      if broken {
        error := e;
      } else {
        items, rest, error := Spelling(tail);
        assert ItemText(item) + (Spelled(items) + rest) == ItemText(item) + Spelled(items) + rest;
        items := [item] + items;
        assert items[1..] == items[1..];
      }
    }
  }

  /** Text is accepted exactly when it can be spelled out item by item, as the words those items make; and what is
      rejected is rejected for what breaks it off. */
  lemma TokenizeReadsTheGrammar(text: string)
    ensures forall items :: AllValid(items) && text == Spelled(items) ==> TokenizeCommandText(text) == Words(WordsOf(items))
    ensures forall items, rest, error :: AllValid(items) && Breaks(rest, error) && text == Spelled(items) + rest ==>
              TokenizeCommandText(text) == Invalid(error)
    ensures TokenizeCommandText(text).Words? <==> exists items :: AllValid(items) && text == Spelled(items)
    ensures TokenizeCommandText(text).Invalid? <==>
              exists items, rest, error :: AllValid(items) && Breaks(rest, error) && text == Spelled(items) + rest
  {
    hide Scan, AllValid, Breaks, Spelled;
    forall items | AllValid(items) && text == Spelled(items) ensures TokenizeCommandText(text) == Words(WordsOf(items)) {
      ScanItems(items, "", false, []);
      assert [] + WordsOf(items) == WordsOf(items);
    }
    forall items, rest, error | AllValid(items) && Breaks(rest, error) && text == Spelled(items) + rest
      ensures TokenizeCommandText(text) == Invalid(error)
    {
      ScanBroken(items, rest, error, "", false, []);
    }
    var items, rest, error := Spelling(text);
    assert rest == "" ==> Spelled(items) + rest == Spelled(items);
  }
}
