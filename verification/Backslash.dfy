/** The tokenizer of backslash commands in the interactive shell. Offsets count
    characters; error messages are left out. */
module Backslash {
  import opened Wrappers

  datatype Item =
    | Command(value: string)
    | Argument(value: string)
    | Error
    | Incomplete
    | Semicolon
    | Newline

  datatype Token = Token(item: Item, start: nat, end: nat)

  predicate IsBlank(c: char) {
    c == ' ' || c == '\t'
  }

  predicate IsQuote(c: char) {
    c == '\'' || c == '"' || c == '`'
  }

  /** Characters that end a word outside quotes. */
  predicate IsBreak(c: char) {
    c == ' ' || c == '\t' || c == '\r' || c == '\n' || c == ';'
  }

  // ------------------------------------------------------------ scanning

  /** The first position that is not blank. */
  function SkipBlanks(data: string, from: nat): (k: nat)
    requires from <= |data|
    ensures from <= k <= |data|
    ensures forall j :: from <= j < k ==> IsBlank(data[j])
    ensures k < |data| ==> !IsBlank(data[k])
    decreases |data| - from
  {
    if from < |data| && IsBlank(data[from]) then SkipBlanks(data, from + 1) else from
  }

  /** Where a quoted part ends: after its closing quote, at a line break, or nowhere. */
  datatype Quoted = Closed(after: nat) | Broken(at: nat) | Open

  function ScanQuoted(data: string, from: nat, quote: char): (q: Quoted)
    requires from <= |data|
    ensures q.Closed? ==> from < q.after <= |data| && data[q.after - 1] == quote
    ensures q.Broken? ==> from <= q.at < |data| && (data[q.at] == '\n' || data[q.at] == '\r')
    decreases |data| - from
  {
    if from == |data| then Open
    else if data[from] == quote then Closed(from + 1)
    else if data[from] == '\n' || data[from] == '\r' then Broken(from)
    else ScanQuoted(data, from + 1, quote)
  }

  /** How a word ends: before a break character or the end of input, in a quoted part
      that a line break cut, or in a quoted part that nothing closed. */
  datatype Word = Ends(end: nat) | Cut(quote: nat, at: nat) | Unclosed

  function ScanWord(data: string, from: nat): (w: Word)
    requires from <= |data|
    ensures w.Ends? ==> from <= w.end <= |data| && (w.end < |data| ==> IsBreak(data[w.end]))
    ensures w.Cut? ==> from <= w.quote < w.at < |data|
    decreases |data| - from
  {
    if from == |data| then Ends(from)
    else if IsQuote(data[from]) then
      match ScanQuoted(data, from + 1, data[from])
      case Closed(after) => ScanWord(data, after)
      case Broken(at) => Cut(from, at)
      case Open => Unclosed
    else if IsBreak(data[from]) then Ends(from)
    else ScanWord(data, from + 1)
  }

  /** The token that starts at a position that is not blank. */
  function TokenAt(data: string, start: nat, first: bool): (t: Token)
    requires start < |data| && !IsBlank(data[start])
    ensures start <= t.start < t.end <= |data|
  {
    if data[start] == ';' then Token(Semicolon, start, start + 1)
    else if data[start] == '\n' then Token(Newline, start, start + 1)
    else if data[start] == '\r' then
      Token(Newline, start, if start + 1 < |data| && data[start + 1] == '\n' then start + 2 else start + 1)
    else
      match ScanWord(data, start)
      case Unclosed => Token(Incomplete, start, |data|)
      case Cut(quote, at) => Token(Error, quote, at)
      case Ends(end) =>
        WordIsNotEmpty(data, start);
        var value := data[start..end];
        if !first then Token(Argument(value), start, end)
        else if data[start] != '\\' then Token(Error, start, start + 1)
        else if |value| >= 2 && value[1] == '-' then Token(Error, start + 1, start + 2)
        else Token(Command(value), start, end)
  }

  lemma WordIsNotEmpty(data: string, start: nat)
    requires start < |data| && !IsBreak(data[start])
    ensures ScanWord(data, start).Ends? ==> ScanWord(data, start).end > start
  {
  }

  /** Parser::token. */
  function NextToken(data: string, offset: nat, first: bool): (t: Option<Token>)
    requires offset <= |data|
    ensures t.Some? ==> offset <= t.value.start < t.value.end <= |data|
    ensures t.None? <==> forall k :: offset <= k < |data| ==> IsBlank(data[k])
  {
    var start := SkipBlanks(data, offset);
    if start == |data| then None else Some(TokenAt(data, start, first))
  }

  /** The tokens the iterator yields from a parser state. */
  function Tokens(data: string, offset: nat, first: bool): (ts: seq<Token>)
    requires offset <= |data|
    ensures forall k :: 0 <= k < |ts| ==> offset <= ts[k].start < ts[k].end <= |data|
    ensures forall j, k :: 0 <= j < k < |ts| ==> ts[j].end <= ts[k].start
    decreases |data| - offset
  {
    match NextToken(data, offset, first)
    case None => []
    case Some(t) => [t] + Tokens(data, t.end, false)
  }

  predicate IsStop(t: Token) {
    t.item == Semicolon || t.item == Newline
  }

  /** full_statement from a parser state: the end of the first separator. */
  function StatementEnd(data: string, offset: nat, first: bool): (n: nat)
    requires offset <= |data|
    ensures n <= |data|
    decreases |data| - offset
  {
    match NextToken(data, offset, first)
    case None => |data|
    case Some(t) => if IsStop(t) then t.end else StatementEnd(data, t.end, false)
  }

  // -------------------------------------------------- what words are

  /** The quote that is open before position k of a text read from a position on. */
  function OpenQuote(data: string, from: nat, k: nat): Option<char>
    requires from <= k <= |data|
    decreases k
  {
    if k == from then None
    else
      match OpenQuote(data, from, k - 1)
      case None => if data[k - 1] == '\'' || data[k - 1] == '"' || data[k - 1] == '`' then Some(data[k - 1]) else None
      case Some(quote) => if data[k - 1] == quote then None else Some(quote)
  }

  /** The characters up to k belong to one word: outside quotes no blank, semicolon or line
      break, inside quotes no line break. */
  ghost predicate InWord(data: string, from: nat, k: nat)
    requires from <= k <= |data|
  {
    forall j :: from <= j < k ==>
      && data[j] != '\n' && data[j] != '\r'
      && (OpenQuote(data, from, j).None? ==> data[j] != ' ' && data[j] != '\t' && data[j] != ';')
  }

  /** Reading can start again wherever no quote is open. */
  lemma {:induction false} OpenQuoteFrom(data: string, from: nat, mid: nat, k: nat)
    requires from <= mid <= k <= |data| && OpenQuote(data, from, mid).None?
    ensures OpenQuote(data, from, k) == OpenQuote(data, mid, k)
    decreases k
  {
    if mid < k {
      OpenQuoteFrom(data, from, mid, k - 1);
    }
  }

  lemma InWordFrom(data: string, from: nat, mid: nat, k: nat)
    requires from <= mid <= k <= |data| && OpenQuote(data, from, mid).None?
    requires InWord(data, from, mid) && InWord(data, mid, k)
    ensures InWord(data, from, k) && OpenQuote(data, from, k) == OpenQuote(data, mid, k)
  {
    OpenQuoteFrom(data, from, mid, k);
    forall j | mid <= j < k ensures OpenQuote(data, from, j) == OpenQuote(data, mid, j) {
      OpenQuoteFrom(data, from, mid, j);
    }
  }

  /** From an opening quote on: the quote stays open up to its end, a line break, or the end
      of input. */
  lemma {:induction false} QuotedIs(data: string, from: nat, k: nat)
    requires from < k <= |data| && IsQuote(data[from])
    requires OpenQuote(data, from, k) == Some(data[from]) && InWord(data, from, k)
    requires forall j :: from < j <= k ==> OpenQuote(data, from, j) == Some(data[from])
    ensures
      match ScanQuoted(data, k, data[from])
      case Closed(after) => from < after && OpenQuote(data, from, after).None? && InWord(data, from, after)
      case Broken(at) =>
        && k <= at && InWord(data, from, at)
        && forall j :: from < j <= at ==> OpenQuote(data, from, j) == Some(data[from])
      case Open => OpenQuote(data, from, |data|) == Some(data[from]) && InWord(data, from, |data|)
    decreases |data| - k
  {
    if k < |data| && data[k] != data[from] && data[k] != '\n' && data[k] != '\r' {
      QuotedIs(data, from, k + 1);
    }
  }

  /** Where a word ends: outside quotes before a blank, a semicolon, a line break or the end
      of input; at the line break that cuts a quoted part; or nowhere. */
  ghost predicate IsWord(data: string, from: nat, w: Word) {
    match w
    case Ends(end) =>
      && from <= end <= |data| && InWord(data, from, end) && OpenQuote(data, from, end).None?
      && (end == |data| || data[end] in " \t\r\n;")
    case Cut(quote, at) =>
      && from <= quote < at < |data| && InWord(data, from, at) && data[at] in "\r\n"
      && OpenQuote(data, from, quote).None?
      && forall j :: quote < j <= at ==> OpenQuote(data, from, j) == Some(data[quote])
    case Unclosed => from <= |data| && InWord(data, from, |data|) && OpenQuote(data, from, |data|).Some?
  }

  lemma {:induction false} WordIs(data: string, from: nat)
    requires from <= |data|
    ensures IsWord(data, from, ScanWord(data, from))
    decreases |data| - from
  {
    if from < |data| {
      if IsQuote(data[from]) {
        assert OpenQuote(data, from, from + 1) == Some(data[from]);
        QuotedIs(data, from, from + 1);
        var quoted := ScanQuoted(data, from + 1, data[from]);
        if quoted.Closed? {
          WordFrom(data, from, quoted.after);
        }
      } else if !IsBreak(data[from]) {
        assert OpenQuote(data, from, from + 1).None?;
        WordFrom(data, from, from + 1);
      }
    }
  }

  /** The word that starts at `from` goes on at `mid`. */
  lemma WordFrom(data: string, from: nat, mid: nat)
    requires from < mid <= |data| && OpenQuote(data, from, mid).None? && InWord(data, from, mid)
    requires ScanWord(data, from) == ScanWord(data, mid)
    ensures IsWord(data, from, ScanWord(data, from))
    decreases |data| - from, 0
  {
    WordIs(data, mid);
    match ScanWord(data, mid) {
      case Ends(end) => InWordFrom(data, from, mid, end);
      case Cut(quote, at) =>
        InWordFrom(data, from, mid, at);
        forall j | mid <= j <= at ensures OpenQuote(data, from, j) == OpenQuote(data, mid, j) {
          OpenQuoteFrom(data, from, mid, j);
        }
      case Unclosed => InWordFrom(data, from, mid, |data|);
    }
  }

  // ------------------------------------------------- what tokens are

  /** What a token stands for, when reading goes on at an offset. Only a first token is a
      command, and a first token is no argument. */
  ghost predicate IsTokenOf(data: string, offset: nat, first: bool, t: Token)
    requires offset <= |data|
  {
    var start := SkipBlanks(data, offset);
    && start < |data| && t.start < t.end <= |data|
    && (t.item != Error ==> t.start == start)
    && match t.item
       case Semicolon => data[t.start..t.end] == ";"
       case Newline =>
         || data[t.start..t.end] == "\n" || data[t.start..t.end] == "\r\n"
         || (data[t.start..t.end] == "\r" && (t.end == |data| || data[t.end] != '\n'))
       case Command(value) =>
         && first && value == data[t.start..t.end] && ScanWord(data, start) == Ends(t.end)
         && value[0] == '\\' && (|value| == 1 || value[1] != '-')
       case Argument(value) =>
         !first && value == data[t.start..t.end] && !IsBreak(value[0]) && ScanWord(data, start) == Ends(t.end)
       case Incomplete => t.end == |data| && ScanWord(data, start).Unclosed?
       case Error =>
         || ScanWord(data, start) == Cut(t.start, t.end)
         || (first && ScanWord(data, start).Ends? && !IsBreak(data[start]) && IsBadStart(data, start, t))
  }

  /** A first word that is no command: its first character is in error, or the hyphen after
      its backslash. */
  predicate IsBadStart(data: string, start: nat, t: Token)
    requires start < |data|
  {
    && t.end == t.start + 1
    && if data[start] != '\\' then t.start == start
       else t.start == start + 1 && t.end <= |data| && data[t.start] == '-'
  }

  lemma NextTokenIs(data: string, offset: nat, first: bool)
    requires offset <= |data|
    ensures NextToken(data, offset, first).Some? ==>
      IsTokenOf(data, offset, first, NextToken(data, offset, first).value)
  {
    var start := SkipBlanks(data, offset);
    if start < |data| && !IsBreak(data[start]) {
      WordIsNotEmpty(data, start);
    }
  }

  /** Token k stands for the text where it is. */
  ghost predicate StandsAt(data: string, offset: nat, first: bool, ts: seq<Token>, k: nat)
    requires k < |ts|
  {
    var from := if k == 0 then offset else ts[k - 1].end;
    from <= |data| && IsTokenOf(data, from, first && k == 0, ts[k])
  }

  /** Where the tokens end. */
  function EndOf(ts: seq<Token>, offset: nat): nat {
    if ts == [] then offset else ts[|ts| - 1].end
  }

  /** Every token stands for the text where it is, and only blanks are left after the last. */
  lemma {:induction false} TokensAre(data: string, offset: nat, first: bool)
    requires offset <= |data|
    ensures forall k: nat :: k < |Tokens(data, offset, first)| ==>
      StandsAt(data, offset, first, Tokens(data, offset, first), k)
    ensures forall j :: EndOf(Tokens(data, offset, first), offset) <= j < |data| ==> IsBlank(data[j])
    decreases |data| - offset
  {
    NextTokenIs(data, offset, first);
    match NextToken(data, offset, first) {
      case None =>
      case Some(t) =>
        TokensAre(data, t.end, false);
        assert Tokens(data, offset, first) == [t] + Tokens(data, t.end, false);
        TokensFollow(data, offset, first, t, Tokens(data, t.end, false));
    }
  }

  lemma TokensFollow(data: string, offset: nat, first: bool, t: Token, rest: seq<Token>)
    requires offset <= |data| && IsTokenOf(data, offset, first, t)
    requires forall k: nat :: k < |rest| ==> StandsAt(data, t.end, false, rest, k)
    ensures forall k: nat :: k < |rest| + 1 ==> StandsAt(data, offset, first, [t] + rest, k)
    ensures EndOf([t] + rest, offset) == EndOf(rest, t.end)
  {
    var ts := [t] + rest;
    forall k: nat | k < |ts| ensures StandsAt(data, offset, first, ts, k) {
      if k > 0 {
        assert StandsAt(data, t.end, false, rest, k - 1);
        assert ts[k] == rest[k - 1] && (k > 1 ==> ts[k - 1] == rest[k - 2]);
      }
    }
  }

  /** Of a whole input only the first token can be a command, and it is one exactly when
      the input starts, after blanks, with a complete word that starts with a backslash
      not followed by a hyphen. Words are the text they span, and separators are known by
      their characters. */
  lemma OnlyTheFirstIsACommand(data: string)
    ensures forall k: nat :: k < |Tokens(data, 0, true)| ==> TokenFacts(data, k == 0, Tokens(data, 0, true)[k])
    ensures
      var ts, start := Tokens(data, 0, true), SkipBlanks(data, 0);
      (ts != [] && ts[0].item.Command?) <==>
        && start < |data| && data[start] == '\\'
        && ScanWord(data, start).Ends?
        && !(start + 1 < ScanWord(data, start).end && data[start + 1] == '-')
  {
    TokensAre(data, 0, true);
    var ts := Tokens(data, 0, true);
    forall k: nat | k < |ts| ensures TokenFacts(data, k == 0, ts[k]) {
      assert StandsAt(data, 0, true, ts, k);
      HasTokenFacts(data, if k == 0 then 0 else ts[k - 1].end, k == 0, ts[k]);
    }
    if ts != [] {
      assert ts[0] == NextToken(data, 0, true).value;
    }
  }

  /** What the kind of a token says about its place and its text. */
  ghost predicate TokenFacts(data: string, first: bool, t: Token) {
    && t.start < t.end <= |data|
    && (t.item.Command? ==> first)
    && (t.item.Argument? ==> !first)
    && (t.item.Command? || t.item.Argument? ==> t.item.value == data[t.start..t.end])
    && (t.item.Semicolon? <==> data[t.start] == ';')
    && (t.item.Newline? <==> data[t.start] in "\r\n")
  }

  lemma HasTokenFacts(data: string, offset: nat, first: bool, t: Token)
    requires offset <= |data| && IsTokenOf(data, offset, first, t)
    ensures TokenFacts(data, first, t)
  {
    assert data[t.start..t.end][0] == data[t.start];
    if t.item == Error {
      WordIs(data, SkipBlanks(data, offset));
    }
  }

  /** The first semicolon or line break among the tokens. */
  predicate IsFirstStop(ts: seq<Token>, k: nat) {
    && k < |ts| && (ts[k].item == Semicolon || ts[k].item == Newline)
    && forall j: nat :: j < k ==> ts[j].item != Semicolon && ts[j].item != Newline
  }

  /** The first separator ends there, or there is none and the whole text is meant. */
  ghost predicate EndsStatement(ts: seq<Token>, size: nat, n: nat) {
    || (exists k: nat :: IsFirstStop(ts, k) && ts[k].end == n)
    || ((forall k: nat :: !IsFirstStop(ts, k)) && n == size)
  }

  lemma FirstStopLater(t: Token, rest: seq<Token>, k: nat)
    requires t.item != Semicolon && t.item != Newline
    ensures IsFirstStop(rest, k) <==> IsFirstStop([t] + rest, k + 1)
  {
    var ts := [t] + rest;
    assert forall j :: 0 <= j < |rest| ==> ts[j + 1] == rest[j];
    if IsFirstStop(ts, k + 1) {
      assert forall j: nat :: j < k ==> rest[j] == ts[j + 1];
    }
  }

  lemma EndsStatementLater(t: Token, rest: seq<Token>, size: nat, n: nat)
    requires t.item != Semicolon && t.item != Newline && EndsStatement(rest, size, n)
    ensures EndsStatement([t] + rest, size, n)
  {
    var ts := [t] + rest;
    if k: nat :| IsFirstStop(rest, k) && rest[k].end == n {
      FirstStopLater(t, rest, k);
      assert ts[k + 1].end == n;
    } else {
      forall k: nat ensures !IsFirstStop(ts, k) {
        if k > 0 {
          FirstStopLater(t, rest, k - 1);
        }
      }
    }
  }

  /** A statement ends with the first semicolon or line break among the tokens. */
  lemma {:induction false} StatementEndsAtFirstStop(data: string, offset: nat, first: bool)
    requires offset <= |data|
    ensures EndsStatement(Tokens(data, offset, first), |data|, StatementEnd(data, offset, first))
    decreases |data| - offset
  {
    match NextToken(data, offset, first) {
      case None =>
      case Some(t) =>
        var rest := Tokens(data, t.end, false);
        assert Tokens(data, offset, first) == [t] + rest;
        if IsStop(t) {
          assert IsFirstStop([t] + rest, 0);
        } else {
          StatementEndsAtFirstStop(data, t.end, false);
          EndsStatementLater(t, rest, |data|, StatementEnd(data, t.end, false));
        }
    }
  }

  // ------------------------------------------------------------- the parser

  class Parser {
    const data: string
    var firstItem: bool
    var offset: nat

    ghost predicate Valid()
      reads this
    {
      offset <= |data|
    }

    constructor (data: string)
      ensures this.data == data && Valid() && offset == 0 && firstItem
    {
      this.data, firstItem, offset := data, true, 0;
    }

    /** Skips leading blanks, as trim_start_matches does. */
    method TrimStart() returns (start: nat)
      requires Valid()
      ensures start == SkipBlanks(data, offset)
    {
      start := offset;
      while start < |data| && IsBlank(data[start])
        invariant offset <= start <= |data|
        invariant SkipBlanks(data, start) == SkipBlanks(data, offset)
      {
        start := start + 1;
      }
    }

    /** The inner loop over a quoted part. */
    method Quote(from: nat, quote: char) returns (quoted: Quoted)
      requires from <= |data|
      ensures quoted == ScanQuoted(data, from, quote)
    {
      var k := from;
      while k < |data|
        invariant from <= k <= |data|
        invariant ScanQuoted(data, k, quote) == ScanQuoted(data, from, quote)
      {
        if data[k] == quote {
          return Closed(k + 1);
        }
        if data[k] == '\n' || data[k] == '\r' {
          return Broken(k);
        }
        k := k + 1;
      }
      return Open;
    }

    /** The outer loop: to the end of the word, over its quoted parts. */
    method Scan(start: nat) returns (word: Word)
      requires start <= |data|
      ensures word == ScanWord(data, start)
    {
      var k := start;
      while k < |data|
        invariant start <= k <= |data|
        invariant ScanWord(data, k) == ScanWord(data, start)
      {
        var c := data[k];
        if IsQuote(c) {
          var quoted := Quote(k + 1, c);
          match quoted {
            case Closed(after) => k := after;
            case Broken(at) => return Cut(k, at);
            case Open => return Unclosed;
          }
        } else if IsBreak(c) {
          return Ends(k);
        } else {
          k := k + 1;
        }
      }
      return Ends(k);
    }

    /** Parser::token: separators stand alone, anything else is a word. */
    method CurrentToken() returns (token: Option<Token>)
      requires Valid()
      ensures token == NextToken(data, offset, firstItem)
    {
      var start := TrimStart();
      if start == |data| {
        return None;
      }
      if data[start] == ';' {
        return Some(Token(Semicolon, start, start + 1));
      }
      if data[start] == '\n' {
        return Some(Token(Newline, start, start + 1));
      }
      if data[start] == '\r' {
        var length := if start + 1 < |data| && data[start + 1] == '\n' then 2 else 1;
        return Some(Token(Newline, start, start + length));
      }
      var word := Scan(start);
      match word {
        case Unclosed => return Some(Token(Incomplete, start, |data|));
        case Cut(quote, at) => return Some(Token(Error, quote, at));
        case Ends(end) =>
          WordIsNotEmpty(data, start);
          var value := data[start..end];
          if firstItem && data[start] != '\\' {
            return Some(Token(Error, start, start + 1));
          }
          if firstItem && |value| >= 2 && value[1] == '-' {
            return Some(Token(Error, start + 1, start + 2));
          }
          return Some(Token(if firstItem then Command(value) else Argument(value), start, end));
      }
    }

    /** Iterator::next. */
    method Next() returns (token: Option<Token>)
      requires Valid()
      modifies this
      ensures Valid()
      ensures token == NextToken(data, old(offset), old(firstItem))
      ensures token.Some? ==> offset == token.value.end > old(offset) && !firstItem
      ensures token.None? ==> offset == old(offset) && firstItem == old(firstItem)
    {
      token := CurrentToken();
      if token.Some? {
        firstItem := false;
        offset := token.value.end;
      }
    }
  }

  method FullStatement(s: string) returns (n: nat)
    ensures n == StatementEnd(s, 0, true)
  {
    var parser := new Parser(s);
    while true
      invariant parser.Valid() && parser.data == s
      invariant StatementEnd(s, parser.offset, parser.firstItem) == StatementEnd(s, 0, true)
      decreases |s| - parser.offset
    {
      var token := parser.Next();
      if token.None? {
        return |s|;
      }
      if IsStop(token.value) {
        return token.value.end;
      }
    }
  }

  // -------------------------------------------------------------- locality

  /** The two inputs agree on the first n characters. */
  predicate Agree(s: string, t: string, n: nat) {
    n <= |s| && n <= |t| && s[..n] == t[..n]
  }

  lemma AgreeAt(s: string, t: string, n: nat, k: nat)
    requires Agree(s, t, n) && k < n
    ensures s[k] == t[k]
  {
    assert s[..n][k] == t[..n][k];
  }

  lemma {:induction false} BlanksAgree(s: string, t: string, n: nat, from: nat)
    requires Agree(s, t, n) && from <= |s| && SkipBlanks(s, from) < n
    ensures from <= |t| && SkipBlanks(t, from) == SkipBlanks(s, from)
    decreases |s| - from
  {
    AgreeAt(s, t, n, from);
    if IsBlank(s[from]) {
      BlanksAgree(s, t, n, from + 1);
    }
  }

  lemma {:induction false} QuotedAgrees(s: string, t: string, n: nat, from: nat, quote: char)
    requires Agree(s, t, n) && from <= n
    requires
      match ScanQuoted(s, from, quote)
      case Closed(after) => after <= n
      case Broken(at) => at < n
      case Open => false
    ensures ScanQuoted(t, from, quote) == ScanQuoted(s, from, quote)
    decreases n - from
  {
    AgreeAt(s, t, n, from);
    if s[from] != quote && s[from] != '\n' && s[from] != '\r' {
      QuotedAgrees(s, t, n, from + 1, quote);
    }
  }

  lemma {:induction false} WordAgrees(s: string, t: string, n: nat, from: nat)
    requires Agree(s, t, n) && from <= n
    requires
      match ScanWord(s, from)
      case Ends(end) => end < n
      case Cut(_, at) => at < n
      case Unclosed => false
    ensures ScanWord(t, from) == ScanWord(s, from)
    decreases n - from
  {
    AgreeAt(s, t, n, from);
    if IsQuote(s[from]) {
      QuotedAgrees(s, t, n, from + 1, s[from]);
      if ScanQuoted(s, from + 1, s[from]).Closed? {
        WordAgrees(s, t, n, ScanQuoted(s, from + 1, s[from]).after);
      }
    } else if !IsBreak(s[from]) {
      WordAgrees(s, t, n, from + 1);
    }
  }

  // ------------------------------------------------- where a statement ends

  /** The end of the first separator, if there is one. */
  function StopOf(data: string, offset: nat, first: bool): (n: Option<nat>)
    requires offset <= |data|
    ensures n.Some? ==> offset < n.value <= |data|
    ensures StatementEnd(data, offset, first) == if n.Some? then n.value else |data|
    decreases |data| - offset
  {
    match NextToken(data, offset, first)
    case None => None
    case Some(t) => if IsStop(t) then Some(t.end) else StopOf(data, t.end, false)
  }

  /** The statement ends right after a semicolon or a line feed. */
  predicate StopsAt(s: string, n: nat) {
    StopOf(s, 0, true) == Some(n) && 0 < n <= |s| && (s[n - 1] == ';' || s[n - 1] == '\n')
  }

  lemma SeparatorAgrees(s: string, t: string, n: nat, start: nat, first: bool)
    requires Agree(s, t, n) && start < n && !IsBlank(s[start]) && !IsBlank(t[start])
    requires IsStop(TokenAt(s, start, first)) && TokenAt(s, start, first).end == n
    requires s[n - 1] == ';' || s[n - 1] == '\n'
    ensures TokenAt(t, start, first) == TokenAt(s, start, first)
  {
    AgreeAt(s, t, n, start);
    AgreeAt(s, t, n, n - 1);
  }

  /** An argument or error that ends before n is the same token in both inputs. */
  lemma TokenAgrees(s: string, t: string, n: nat, start: nat)
    requires Agree(s, t, n) && start < n && !IsBlank(s[start]) && !IsBlank(t[start])
    requires !IsStop(TokenAt(s, start, false)) && TokenAt(s, start, false).end < n
    ensures TokenAt(t, start, false) == TokenAt(s, start, false)
  {
    AgreeAt(s, t, n, start);
    var end := TokenAt(s, start, false).end;
    WordAgrees(s, t, n, start);
    assert s[start..end] == t[start..end] by {
      assert s[..n][start..end] == t[..n][start..end];
    }
  }

  lemma {:induction false} RestAgrees(s: string, t: string, n: nat, offset: nat)
    requires Agree(s, t, n) && offset <= n && StopOf(s, offset, false) == Some(n)
    requires s[n - 1] == ';' || s[n - 1] == '\n'
    ensures StopOf(t, offset, false) == Some(n)
    decreases n - offset
  {
    var start := SkipBlanks(s, offset);
    var token := TokenAt(s, start, false);
    BlanksAgree(s, t, n, offset);
    AgreeAt(s, t, n, start);
    if IsStop(token) {
      SeparatorAgrees(s, t, n, start, false);
    } else {
      TokenAgrees(s, t, n, start);
      RestAgrees(s, t, n, token.end);
    }
  }

  /** A word that runs to the end of input does not end in a break character. */
  lemma {:induction false} WordToEnd(u: string, from: nat)
    requires from < |u| && ScanWord(u, from) == Ends(|u|)
    ensures !IsBreak(u[|u| - 1])
    decreases |u| - from
  {
    if IsQuote(u[from]) {
      var after := ScanQuoted(u, from + 1, u[from]).after;
      if after < |u| {
        WordToEnd(u, after);
      }
    } else if from + 1 < |u| {
      WordToEnd(u, from + 1);
    }
  }

  /** The first token, when the statement by itself does not start with an open quote. */
  lemma FirstAgrees(s: string, t: string, n: nat)
    requires Agree(s, t, n) && StopsAt(s, n)
    requires NextToken(s[..n], 0, true).Some? && NextToken(s[..n], 0, true).value.item != Incomplete
    ensures NextToken(t, 0, true) == NextToken(s, 0, true)
  {
    var u := s[..n];
    var start := SkipBlanks(s, 0);
    BlanksAgree(s, t, n, 0);
    BlanksAgree(s, u, n, 0);
    AgreeAt(s, t, n, start);
    AgreeAt(s, u, n, start);
    if IsStop(TokenAt(s, start, true)) {
      SeparatorAgrees(s, t, n, start, true);
    } else {
      FirstWordAgrees(s, u, n, start);
      FirstWordAgrees(t, u, n, start);
    }
  }

  /** A word that is complete within the first n characters is the same token in every
      input that starts with them. */
  lemma FirstWordAgrees(s: string, u: string, n: nat, start: nat)
    requires Agree(s, u, n) && n == |u| && start < n && !IsBreak(u[start])
    requires u[n - 1] == ';' || u[n - 1] == '\n'
    requires TokenAt(u, start, true).item != Incomplete
    ensures !IsBlank(s[start]) && TokenAt(s, start, true) == TokenAt(u, start, true)
  {
    AgreeAt(s, u, n, start);
    if ScanWord(u, start) == Ends(n) {
      WordToEnd(u, start);
    }
    WordAgrees(u, s, n, start);
    var word := ScanWord(u, start);
    if word.Ends? {
      WordIsNotEmpty(u, start);
      assert s[start..word.end] == u[start..word.end] by {
        assert u[..n][start..word.end] == s[..n][start..word.end];
      }
    }
  }

  /** The text begins with a word whose quote is still open at its end. */
  predicate StartsOpen(u: string) {
    match NextToken(u, 0, true)
    case None => false
    case Some(token) => token.item == Incomplete
  }

  lemma FirstTokenExists(s: string, n: nat)
    requires StopsAt(s, n)
    ensures NextToken(s[..n], 0, true).Some?
  {
    var start := SkipBlanks(s, 0);
    assert !IsBlank(s[..n][start]);
  }

  /** The boundary survives whatever follows when the statement does not start with an
      open quote. */
  lemma ClosedStartIsStable(s: string, t: string, n: nat)
    requires Agree(s, t, n) && StopsAt(s, n)
    requires !StartsOpen(s[..n])
    ensures StatementEnd(t, 0, true) == n
  {
    FirstTokenExists(s, n);
    FirstAgrees(s, t, n);
    var token := NextToken(s, 0, true).value;
    if !IsStop(token) {
      RestAgrees(s, t, n, token.end);
    }
  }

  // ---------------------------------------- quotes that nothing closed yet

  lemma {:induction false} OpenQuoteIsCut(u: string, from: nat, quote: char)
    requires from <= |u| && ScanQuoted(u, from, quote) == Open && IsQuote(quote)
    ensures ScanQuoted(u + "\n", from, quote) == Broken(|u|)
    decreases |u| - from
  {
    if from < |u| {
      OpenQuoteIsCut(u, from + 1, quote);
    }
  }

  lemma {:induction false} ClosedQuoteStays(u: string, from: nat, quote: char)
    requires from <= |u| && ScanQuoted(u, from, quote).Closed?
    ensures ScanQuoted(u + "\n", from, quote) == ScanQuoted(u, from, quote)
    decreases |u| - from
  {
    if u[from] != quote {
      ClosedQuoteStays(u, from + 1, quote);
    }
  }

  lemma {:induction false} UnclosedIsCut(u: string, from: nat)
    requires from <= |u| && ScanWord(u, from) == Unclosed
    ensures ScanWord(u + "\n", from).Cut? && ScanWord(u + "\n", from).at == |u|
    decreases |u| - from
  {
    if IsQuote(u[from]) {
      if ScanQuoted(u, from + 1, u[from]).Open? {
        OpenQuoteIsCut(u, from + 1, u[from]);
      } else {
        ClosedQuoteStays(u, from + 1, u[from]);
        UnclosedIsCut(u, ScanQuoted(u, from + 1, u[from]).after);
      }
    } else {
      UnclosedIsCut(u, from + 1);
    }
  }

  /** A line feed moves the boundary of a statement that starts with an open quote. */
  lemma OpenStartIsUnstable(u: string)
    requires StartsOpen(u)
    ensures StatementEnd(u + "\n", 0, true) == |u| + 1
  {
    var t := u + "\n";
    var start := SkipBlanks(u, 0);
    BlanksAgree(u, t, |u|, 0);
    UnclosedIsCut(u, start);
    var cut := TokenAt(t, start, true);
    assert NextToken(t, 0, true) == Some(cut) && cut.item == Error && cut.end == |u|;
    assert t[|u|] == '\n' && SkipBlanks(t, |u|) == |u|;
  }

  /** full_statement stops at a semicolon or line feed. Its answer depends on the text of
      the statement alone exactly when that text does not start with an open quote. */
  lemma BoundaryIsStableIff(s: string, n: nat)
    requires StopsAt(s, n)
    ensures (forall t :: Agree(s, t, n) ==> StatementEnd(t, 0, true) == n)
      <==> !StartsOpen(s[..n])
  {
    var u := s[..n];
    if StartsOpen(u) {
      OpenStartIsUnstable(u);
      assert Agree(s, u + "\n", n) by {
        assert (u + "\n")[..n] == u;
      }
    } else {
      forall t | Agree(s, t, n) ensures StatementEnd(t, 0, true) == n {
        ClosedStartIsStable(s, t, n);
      }
    }
  }

  /** A quoted word that closes is not a command: the first token is its quote, and the
      semicolon inside ends the statement. */
  lemma ClosedQuoteExample()
    ensures StopsAt("'b;c'", 3)
  {
    var s := "'b;c'";
    assert ScanQuoted(s, 4, '\'') == Closed(5) && ScanQuoted(s, 3, '\'') == Closed(5);
    assert ScanQuoted(s, 2, '\'') == Closed(5) && ScanQuoted(s, 1, '\'') == Closed(5);
    assert ScanWord(s, 5) == Ends(5) && ScanWord(s, 0) == Ends(5);
    assert NextToken(s, 0, true) == Some(Token(Error, 0, 1));
    assert ScanWord(s, 2) == Ends(2) && ScanWord(s, 1) == Ends(2);
    assert NextToken(s, 1, false) == Some(Token(Argument(s[1..2]), 1, 2));
    assert NextToken(s, 2, false) == Some(Token(Semicolon, 2, 3));
    assert StopOf(s, 2, false) == Some(3) && StopOf(s, 1, false) == Some(3);
  }

  /** The same characters cut by a line feed are an error up to it. */
  lemma CutQuoteExample()
    ensures StatementEnd("'b;\n", 0, true) == 4
  {
    var t := "'b;\n";
    assert ScanQuoted(t, 3, '\'') == Broken(3) && ScanQuoted(t, 2, '\'') == Broken(3);
    assert ScanQuoted(t, 1, '\'') == Broken(3);
    assert ScanWord(t, 0) == Cut(0, 3);
    assert NextToken(t, 0, true) == Some(Token(Error, 0, 3));
    assert NextToken(t, 3, false) == Some(Token(Newline, 3, 4));
    assert StatementEnd(t, 3, false) == 4;
  }

  /** The stop can lie inside what the first token first took for a quoted part. */
  lemma QuotedStartExample()
    ensures StopsAt("'b;c'", 3) && StatementEnd("'b;\n", 0, true) == 4
  {
    ClosedQuoteExample();
    CutQuoteExample();
  }

  /** A command and a quoted argument, whatever the kind of quote. */
  lemma QuotedArgumentExample(quote: char)
    requires quote == '\'' || quote == '"' || quote == '`'
    ensures
      var text := "\\x\t " + [quote, ' ', quote];
      Tokens(text, 0, true) == [Token(Command("\\x"), 0, 2), Token(Argument([quote, ' ', quote]), 4, 7)]
  {
    var text := "\\x\t " + [quote, ' ', quote];
    assert ScanWord(text, 2) == Ends(2) && ScanWord(text, 1) == Ends(2);
    assert text[0..2] == "\\x" && NextToken(text, 0, true) == Some(Token(Command(text[0..2]), 0, 2));
    assert ScanQuoted(text, 6, quote) == Closed(7) && ScanQuoted(text, 5, quote) == Closed(7);
    assert ScanWord(text, 7) == Ends(7) && ScanWord(text, 4) == Ends(7);
    assert SkipBlanks(text, 4) == 4 && SkipBlanks(text, 3) == 4 && SkipBlanks(text, 2) == 4;
    assert text[4..7] == [quote, ' ', quote];
    assert NextToken(text, 2, false) == Some(Token(Argument(text[4..7]), 4, 7));
    assert Tokens(text, 7, false) == [];
  }

  // ------------------------------------------- statements that do not quote

  /** What becomes of an open quote when more text follows. */
  lemma {:induction false} OpenQuoteExtends(u: string, s: string, from: nat, quote: char)
    requires Agree(u, s, |u|) && from <= |u| && ScanQuoted(u, from, quote) == Open
    ensures
      match ScanQuoted(s, from, quote)
      case Closed(after) => after > |u|
      case Broken(at) => at >= |u|
      case Open => true
    decreases |u| - from
  {
    if from < |u| {
      AgreeAt(u, s, |u|, from);
      OpenQuoteExtends(u, s, from + 1, quote);
    }
  }

  predicate EndsBeyond(w: Word, n: nat) {
    match w
    case Ends(end) => end >= n
    case Cut(_, at) => at >= n
    case Unclosed => true
  }

  lemma {:induction false} UnclosedExtends(u: string, s: string, from: nat)
    requires Agree(u, s, |u|) && from <= |u| && ScanWord(u, from) == Unclosed
    ensures EndsBeyond(ScanWord(s, from), |u|)
    decreases |u| - from
  {
    AgreeAt(u, s, |u|, from);
    if IsQuote(u[from]) {
      if ScanQuoted(u, from + 1, u[from]).Open? {
        OpenQuoteExtends(u, s, from + 1, u[from]);
      } else {
        QuotedAgrees(u, s, |u|, from + 1, u[from]);
        UnclosedExtends(u, s, ScanQuoted(u, from + 1, u[from]).after);
      }
    } else {
      UnclosedExtends(u, s, from + 1);
    }
  }

  /** No separator is found before the end of a word that is still open. */
  lemma OpenWordHidesStops(u: string, s: string, from: nat)
    requires Agree(u, s, |u|) && from <= |u| && ScanWord(u, from) == Unclosed
    ensures from < |u| && !IsBreak(s[from]) && from <= |s|
    ensures StopOf(s, from, false).Some? ==> StopOf(s, from, false).value > |u|
  {
    AgreeAt(u, s, |u|, from);
    UnclosedExtends(u, s, from);
    assert SkipBlanks(s, from) == from;
    var token := TokenAt(s, from, false);
    assert NextToken(s, from, false) == Some(token);
    assert token.end >= |u|;
  }

  /** An open word stays open after an unquoted first character. */
  lemma OpenAfterFirst(u: string, start: nat)
    requires start < |u| && ScanWord(u, start) == Unclosed && !IsQuote(u[start])
    ensures ScanWord(u, start + 1) == Unclosed
  {
  }

  /** The first token of an open word: the whole word, its first character, or the hyphen
      after it. */
  lemma OpenFirstToken(u: string, s: string, start: nat)
    requires Agree(u, s, |u|) && start < |u| && ScanWord(u, start) == Unclosed
    requires !IsBreak(s[start]) && !IsQuote(s[start])
    ensures
      var token := TokenAt(s, start, true);
      !IsStop(token) && (token.end >= |u| || token.end == start + 1 || (token.end == start + 2 && s[start + 1] == '-'))
  {
    UnclosedExtends(u, s, start);
    var word := ScanWord(s, start);
    if word.Ends? && word.end - start >= 2 {
      assert s[start..word.end][1] == s[start + 1];
    }
  }

  /** The same for a first word that does not start with a quote. */
  lemma OpenFirstWordHidesStops(u: string, s: string, start: nat)
    requires Agree(u, s, |u|) && start < |u| && ScanWord(u, start) == Unclosed
    requires !IsBreak(s[start]) && !IsQuote(s[start])
    ensures
      var token := TokenAt(s, start, true);
      && !IsStop(token)
      && (token.end >= |u| || (StopOf(s, token.end, false).Some? ==> StopOf(s, token.end, false).value > |u|))
  {
    AgreeAt(u, s, |u|, start);
    OpenFirstToken(u, s, start);
    OpenAfterFirst(u, start);
    OpenWordHidesStops(u, s, start + 1);
    AgreeAt(u, s, |u|, start + 1);
    if s[start + 1] == '-' {
      OpenAfterFirst(u, start + 1);
      OpenWordHidesStops(u, s, start + 2);
    }
  }

  /** A statement whose first character is not a quote always ends where it did, whatever
      is appended or replaced after it. Every statement that starts with a backslash is
      of this kind. */
  lemma UnquotedBoundaryIsStable(s: string, t: string, n: nat)
    requires StopsAt(s, n) && Agree(s, t, n)
    requires !IsQuote(s[SkipBlanks(s, 0)])
    ensures StatementEnd(t, 0, true) == n
  {
    FirstTokenExists(s, n);
    var u := s[..n];
    var start := SkipBlanks(s, 0);
    BlanksAgree(s, u, n, 0);
    AgreeAt(s, u, n, start);
    if ScanWord(u, start) == Unclosed && !IsBreak(s[start]) {
      OpenFirstWordHidesStops(u, s, start);
    }
    ClosedStartIsStable(s, t, n);
  }
}
