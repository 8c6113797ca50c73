/** Quoting and tokenizing command text. */
module CommandSyntax {

  datatype SyntaxError = TrailingBackslash | CommandChaining | ShellCharacter(c: char) | UnterminatedQuote

  datatype Tokens = Words(words: seq<string>) | Invalid(error: SyntaxError)

  datatype Quote = Bare | Within(mark: char)

  const BACKSLASH: char := '\\'
  const DOUBLE: char := '\"'
  const SINGLE: char := '\''

  /** The characters a regular expression counts as white space. */
  predicate IsSpace(c: char) {
    || '\t' <= c <= '\r'
    || c == ' ' || c == '\U{00a0}' || c == '\U{1680}'
    || '\U{2000}' <= c <= '\U{200a}'
    || c == '\U{2028}' || c == '\U{2029}' || c == '\U{202f}' || c == '\U{205f}' || c == '\U{3000}' || c == '\U{feff}'
  }

  predicate IsShell(c: char) {
    c in ";|&<>`$(){}[]*?~!#"
  }

  /** Tokenize what is left of the text, given the word under construction and the open quote. */
  function Scan(text: string, word: string, quote: Quote, started: bool, words: seq<string>): Tokens {
    if text == [] then
      if quote.Within? then Invalid(UnterminatedQuote)
      else Words(if started then words + [word] else words)
    else
      var c := text[0];
      if quote.Within? then
        if c == quote.mark then Scan(text[1..], word, Bare, true, words)
        else if c == BACKSLASH then
          if |text| == 1 then Invalid(TrailingBackslash)
          else Scan(text[2..], word + [text[1]], quote, true, words)
        else Scan(text[1..], word + [c], quote, true, words)
      else if c == SINGLE || c == DOUBLE then Scan(text[1..], word, Within(c), true, words)
      else if c == BACKSLASH then
        if |text| == 1 then Invalid(TrailingBackslash)
        else Scan(text[2..], word + [text[1]], Bare, true, words)
      else if IsSpace(c) then
        if c == '\n' || c == '\r' then Invalid(CommandChaining)
        else Scan(text[1..], "", Bare, false, if started then words + [word] else words)
      else if IsShell(c) then Invalid(ShellCharacter(c))
      else Scan(text[1..], word + [c], Bare, true, words)
  }

  function TokenizeCommandText(text: string): Tokens {
    Scan(text, "", Bare, false, [])
  }

  /** The index loop of the tokenizer. */
  method Tokenize(text: string) returns (r: Tokens)
    ensures r == TokenizeCommandText(text)
  {
    var words: seq<string> := [];
    var word := "";
    var quote := Bare;
    var started := false;
    var index := 0;
    while index < |text|
      invariant 0 <= index <= |text|
      invariant Scan(text[index..], word, quote, started, words) == TokenizeCommandText(text)
    {
      var c := text[index];
      assert text[index..][1..] == text[index + 1..];
      if quote.Within? {
        if c == quote.mark {
          quote := Bare;
        } else if c == BACKSLASH {
          index := index + 1;
          if index >= |text| {
            return Invalid(TrailingBackslash);
          }
          assert text[index - 1..][2..] == text[index + 1..];
          word := word + [text[index]];
        } else {
          word := word + [c];
        }
        started := true;
      } else if c == SINGLE || c == DOUBLE {
        quote := Within(c);
        started := true;
      } else if c == BACKSLASH {
        index := index + 1;
        if index >= |text| {
          return Invalid(TrailingBackslash);
        }
        assert text[index - 1..][2..] == text[index + 1..];
        word := word + [text[index]];
        started := true;
      } else if IsSpace(c) {
        if c == '\n' || c == '\r' {
          return Invalid(CommandChaining);
        }
        if started {
          words := words + [word];
        }
        word := "";
        started := false;
      } else if IsShell(c) {
        return Invalid(ShellCharacter(c));
      } else {
        word := word + [c];
        started := true;
      }
      index := index + 1;
    }
    if quote.Within? {
      return Invalid(UnterminatedQuote);
    }
    if started {
      words := words + [word];
    }
    r := Words(words);
  }

  // ---------------------------------------------------------------- quoting

  function Escape(value: string): string {
    if value == "" then ""
    else (if value[0] == BACKSLASH || value[0] == DOUBLE then [BACKSLASH, value[0]] else [value[0]]) + Escape(value[1..])
  }

  function QuoteCommandToken(value: string): string {
    [DOUBLE] + Escape(value) + [DOUBLE]
  }

  /** Quoted tokens separated by single blanks. */
  function QuoteAll(tokens: seq<string>): string {
    if tokens == [] then ""
    else if |tokens| == 1 then QuoteCommandToken(tokens[0])
    else QuoteCommandToken(tokens[0]) + " " + QuoteAll(tokens[1..])
  }

  /** Inside double quotes an escaped value is read back character by character. */
  lemma {:induction false} ScanEscaped(value: string, rest: string, word: string, words: seq<string>)
    ensures Scan(Escape(value) + [DOUBLE] + rest, word, Within(DOUBLE), true, words)
            == Scan(rest, word + value, Bare, true, words)
  {
    var text := Escape(value) + [DOUBLE] + rest;
    if value == "" {
      assert text[1..] == rest;
      assert word + value == word;
    } else {
      var tail := Escape(value[1..]) + [DOUBLE] + rest;
      ScanEscaped(value[1..], rest, word + [value[0]], words);
      assert word + [value[0]] + value[1..] == word + value;
      if value[0] == BACKSLASH || value[0] == DOUBLE {
        assert text == [BACKSLASH, value[0]] + tail;
        assert text[2..] == tail;
      } else {
        assert text == [value[0]] + tail;
        assert text[1..] == tail;
      }
    }
  }

  lemma ScanQuoted(value: string, rest: string, words: seq<string>)
    ensures Scan(QuoteCommandToken(value) + rest, "", Bare, false, words) == Scan(rest, value, Bare, true, words)
  {
    var text := QuoteCommandToken(value) + rest;
    assert text[1..] == Escape(value) + [DOUBLE] + rest;
    ScanEscaped(value, rest, "", words);
    assert "" + value == value;
  }

  lemma {:induction false} ScanQuotedList(tokens: seq<string>, words: seq<string>)
    requires tokens != []
    ensures Scan(QuoteAll(tokens), "", Bare, false, words) == Words(words + tokens)
  {
    if |tokens| == 1 {
      assert QuoteCommandToken(tokens[0]) + "" == QuoteCommandToken(tokens[0]);
      ScanQuoted(tokens[0], "", words);
      assert tokens == [tokens[0]];
    } else {
      var rest := " " + QuoteAll(tokens[1..]);
      assert QuoteAll(tokens) == QuoteCommandToken(tokens[0]) + rest;
      ScanQuoted(tokens[0], rest, words);
      assert rest[1..] == QuoteAll(tokens[1..]);
      ScanQuotedList(tokens[1..], words + [tokens[0]]);
      assert words + [tokens[0]] + tokens[1..] == words + tokens;
    }
  }

  /** Tokenizing undoes quoting for every list of strings: empty ones, and ones holding blanks,
      newlines, quotes, backslashes or shell characters. */
  lemma TokenizeUndoesQuote(tokens: seq<string>)
    ensures TokenizeCommandText(QuoteAll(tokens)) == Words(tokens)
  {
    if tokens != [] {
      ScanQuotedList(tokens, []);
      assert [] + tokens == tokens;
    }
  }

  /** So different lists are never written the same way. */
  lemma QuotingIsInjective(a: seq<string>, b: seq<string>)
    requires QuoteAll(a) == QuoteAll(b)
    ensures a == b
  {
    TokenizeUndoesQuote(a);
    TokenizeUndoesQuote(b);
  }
}
