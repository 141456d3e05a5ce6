/** Word wrapping in the cells of the analysis table. The height of a cell and its text
    are computed by two separate automata over the same words; here every character of a
    word is one column wide. */
module WordWrap {

  /** A word that a cell may hold: not empty, and without line breaks. */
  predicate IsWord(word: string) {
    word != "" && '\n' !in word
  }

  ghost predicate AreWords(words: seq<string>) {
    forall k :: 0 <= k < |words| ==> IsWord(words[k])
  }

  function CeilDiv(n: nat, d: nat): nat
    requires d > 0
  {
    (n + d - 1) / d
  }

  // ------------------------------------------------------ what was written

  /** Written text as closed lines and the open last line. */
  datatype Page = Page(lines: seq<string>, last: string)

  function PageOf(text: string): Page {
    if text == "" then Page([], "")
    else
      var before := PageOf(text[..|text| - 1]);
      var c := text[|text| - 1];
      if c == '\n' then Page(before.lines + [before.last], "") else Page(before.lines, before.last + [c])
  }

  /** The lines of a text; a final line break does not open another line. */
  function TextLines(text: string): seq<string> {
    var page := PageOf(text);
    if page.last == "" then page.lines else page.lines + [page.last]
  }

  lemma PageChar(text: string, c: char)
    ensures PageOf(text + [c]) ==
      if c == '\n' then Page(PageOf(text).lines + [PageOf(text).last], "")
      else Page(PageOf(text).lines, PageOf(text).last + [c])
  {
    assert (text + [c])[..|text|] == text;
  }

  /** The last character of an appended word can be appended last. */
  lemma AppendLast(text: string, word: string)
    requires word != ""
    ensures text + word == (text + word[..|word| - 1]) + [word[|word| - 1]]
  {
  }

  lemma {:induction false} PageAppend(text: string, word: string)
    requires '\n' !in word
    ensures PageOf(text + word) == Page(PageOf(text).lines, PageOf(text).last + word)
  {
    if word == "" {
      assert text + word == text && PageOf(text).last + word == PageOf(text).last;
    } else {
      var front, c := word[..|word| - 1], word[|word| - 1];
      PageAppend(text, front);
      PageChar(text + front, c);
      AppendLast(text, word);
      AppendLast(PageOf(text).last, word);
    }
  }

  /** The closed lines, each with its line break. */
  function Closed(lines: seq<string>): string {
    if lines == [] then "" else Closed(lines[..|lines| - 1]) + lines[|lines| - 1] + "\n"
  }

  /** The lines of a page are the text between its line breaks. */
  lemma {:induction false} PageSpells(text: string)
    ensures Closed(PageOf(text).lines) + PageOf(text).last == text
    ensures forall k :: 0 <= k < |PageOf(text).lines| ==> '\n' !in PageOf(text).lines[k]
    ensures '\n' !in PageOf(text).last
  {
    if text != "" {
      var front, c := text[..|text| - 1], text[|text| - 1];
      PageSpells(front);
      var before, page := PageOf(front), PageOf(text);
      assert text == front + [c];
      if c == '\n' {
        assert page.lines[..|before.lines|] == before.lines;
        assert Closed(page.lines) == Closed(before.lines) + before.last + "\n";
      }
    }
  }

  // ------------------------------------------------------ height automaton

  datatype Height = Height(height: nat, column: nat)

  function HeightWord(width: nat, s: Height, item: nat): Height
    requires width > 0
  {
    var space := if s.column == 0 then 0 else 1;
    var wrap := s.column > 0 && s.column + space + item > width;
    var height := if wrap then s.height + 1 else s.height;
    var column := if wrap then item else s.column + space + item;
    if column > width then
      assert CeilDiv(column, width) >= 1;
      Height(height + CeilDiv(column, width) - 1, width)
    else Height(height, column)
  }

  function HeightWords(width: nat, words: seq<string>): Height
    requires words != [] ==> width > 0
  {
    if words == [] then Height(1, 0)
    else HeightWord(width, HeightWords(width, words[..|words| - 1]), |words[|words| - 1]|)
  }

  // -------------------------------------------------------- text automaton

  datatype Printed = Printed(out: string, column: nat)

  /** The text and counter after hard wrapping a word from a counter of zero. */
  function HardWrapped(width: nat, out: string, word: string): (string, nat) {
    if word == "" then (out, 0)
    else
      var (before, counter) := HardWrapped(width, out, word[..|word| - 1]);
      var written := before + [word[|word| - 1]];
      if counter + 1 >= width then (written + "\n", 0) else (written, counter + 1)
  }

  function TextWord(width: nat, s: Printed, word: string): Printed {
    var space := if s.column == 0 then 0 else 1;
    var wrap := s.column > 0 && s.column + space + |word| > width;
    var start := if wrap then s.out + "\n" else if space > 0 then s.out + " " else s.out;
    var column := if wrap then |word| else s.column + space + |word|;
    if column > width then
      var (wrapped, counter) := HardWrapped(width, start, word);
      Printed(if counter > 0 then wrapped + "\n" else wrapped, 0)
    else Printed(start + word, column)
  }

  function TextWords(width: nat, words: seq<string>): Printed {
    if words == [] then Printed("", 0)
    else TextWord(width, TextWords(width, words[..|words| - 1]), words[|words| - 1])
  }

  // ------------------------------------------------------------- printers

  class HeightPrinter {
    const width: nat
    var height: nat
    var column: nat

    ghost function State(): Height
      reads this
    {
      Height(height, column)
    }

    constructor (width: nat)
      ensures this.width == width && State() == Height(1, 0)
    {
      this.width, height, column := width, 1, 0;
    }

    method Word(word: string)
      requires width > 0
      modifies this
      ensures State() == HeightWord(width, old(State()), |word|)
    {
      var itemWidth := |word|;
      var spaceWidth := if column == 0 then 0 else 1;
      if column > 0 && column + spaceWidth + itemWidth > width {
        height := height + 1;
        column := 0;
        spaceWidth := 0;
      }
      column := column + spaceWidth + itemWidth;
      if column > width {
        assert CeilDiv(column, width) >= 1;
        height := height + CeilDiv(column, width) - 1;
        column := width;
      }
    }
  }

  class TextPrinter {
    const width: nat
    var out: string
    var column: nat

    ghost function State(): Printed
      reads this
    {
      Printed(out, column)
    }

    constructor (width: nat)
      ensures this.width == width && State() == Printed("", 0)
    {
      this.width, out, column := width, "", 0;
    }

    /** HardWrap: a line break after every `width` characters of the word. */
    method HardWrap(word: string) returns (counter: nat)
      modifies this`out
      ensures (out, counter) == HardWrapped(width, old(out), word)
    {
      counter := 0;
      for i := 0 to |word|
        invariant (out, counter) == HardWrapped(width, old(out), word[..i])
      {
        assert word[..i + 1][..i] == word[..i];
        out := out + [word[i]];
        counter := counter + 1;
        if counter >= width {
          out := out + "\n";
          counter := 0;
        }
      }
      assert word[..|word|] == word;
    }

    method Word(word: string)
      modifies this
      ensures State() == TextWord(width, old(State()), word)
    {
      var itemWidth := |word|;
      var spaceWidth := if column == 0 then 0 else 1;
      if column > 0 && column + spaceWidth + itemWidth > width {
        out := out + "\n";
        column := 0;
        spaceWidth := 0;
      }
      if spaceWidth > 0 {
        out := out + " ";
      }
      column := column + spaceWidth + itemWidth;
      if column > width {
        var counter := HardWrap(word);
        if counter > 0 {
          out := out + "\n";
        }
        column := 0;
      } else {
        out := out + word;
      }
    }
  }

  /** WordList::height. */
  method CellHeight(words: seq<string>, width: nat) returns (height: nat)
    requires words != [] ==> width > 0
    ensures height == HeightWords(width, words).height
  {
    var printer := new HeightPrinter(width);
    for i := 0 to |words|
      invariant printer.State() == HeightWords(width, words[..i])
    {
      printer.Word(words[i]);
      assert words[..i + 1][..i] == words[..i];
    }
    assert words[..|words|] == words;
    height := printer.height;
  }

  /** WordList::render. */
  method CellText(words: seq<string>, width: nat) returns (text: string)
    ensures text == TextWords(width, words).out
  {
    var printer := new TextPrinter(width);
    for i := 0 to |words|
      invariant printer.State() == TextWords(width, words[..i])
    {
      printer.Word(words[i]);
      assert words[..i + 1][..i] == words[..i];
    }
    assert words[..|words|] == words;
    text := printer.out;
  }

  // ------------------------------------------------------------ simulation

  predicate Fits(lines: seq<string>, width: nat) {
    forall k :: 0 <= k < |lines| ==> |lines[k]| <= width
  }

  /** How the two automata correspond: nothing written, inside a line of the counted
      width, or right after a hard-wrapped word, where the height automaton pretends the
      line is full and the text automaton has already broken it. */
  ghost predicate Corresponds(width: nat, h: Height, t: Printed) {
    var page := PageOf(t.out);
    && Fits(page.lines, width)
    && |page.last| <= width
    && (|| (h == Height(1, 0) && t == Printed("", 0))
        || (t.column > 0 && h.column == t.column == |page.last| && h.height == |page.lines| + 1)
        || (t.column == 0 && page.last == "" && h.column == width && h.height == |page.lines| >= 1))
  }

  /** Hard wrapping fills lines of the exact width and leaves the counted rest open. */
  lemma {:induction false} HardWrapPage(width: nat, out: string, word: string)
    requires width > 0 && '\n' !in word && PageOf(out).last == ""
    ensures
      var (wrapped, counter) := HardWrapped(width, out, word);
      var page := PageOf(wrapped);
      && counter < width
      && |page.last| == counter
      && |word| == width * (|page.lines| - |PageOf(out).lines|) + counter
      && |page.lines| >= |PageOf(out).lines|
      && (Fits(PageOf(out).lines, width) ==> Fits(page.lines, width))
  {
    if word != "" {
      var front := word[..|word| - 1];
      HardWrapPage(width, out, front);
      var (before, counter) := HardWrapped(width, out, front);
      var written := before + [word[|word| - 1]];
      PageChar(before, word[|word| - 1]);
      PageChar(written, '\n');
      assert written + "\n" == written + ['\n'];
      var lines := |PageOf(before).lines| - |PageOf(out).lines|;
      assert width * (lines + 1) == width * lines + width;
    }
  }

  lemma WholeLines(width: nat, item: nat, lines: nat, rest: nat)
    requires width > 0 && rest < width && item == width * lines + rest
    ensures CeilDiv(item, width) == lines + (if rest > 0 then 1 else 0)
  {
    if rest > 0 {
      DivIs(item + width - 1, width, lines + 1, rest - 1);
    } else {
      DivIs(item + width - 1, width, lines, width - 1);
    }
  }

  lemma DivIs(n: nat, d: nat, q: nat, r: nat)
    requires d > 0 && r < d && n == d * q + r
    ensures n / d == q
  {
    var e := n / d - q;
    assert d * (n / d) + n % d == n;
    assert d * e == r - n % d by {
      assert d * (n / d - q) == d * (n / d) - d * q;
    }
    SmallMultiple(d, e);
  }

  lemma SmallMultiple(d: int, e: int)
    requires d > 0 && -d < d * e < d
    ensures e == 0
  {
    if e > 0 {
      ScaleIsMonotone(d, 1, e);
    } else if e < 0 {
      ScaleIsMonotone(d, e, -1);
    }
  }

  lemma ScaleIsMonotone(d: int, a: int, b: int)
    requires d > 0 && a <= b
    ensures d * a <= d * b
  {
  }

  /** The text before a word is written, and its column after it. */
  function StartOf(width: nat, t: Printed, word: string): string {
    var space := if t.column == 0 then 0 else 1;
    if t.column > 0 && t.column + space + |word| > width then t.out + "\n"
    else if space > 0 then t.out + " " else t.out
  }

  lemma StartPage(width: nat, h: Height, t: Printed, word: string)
    requires width > 0 && IsWord(word) && Corresponds(width, h, t)
    ensures
      var page, before := PageOf(StartOf(width, t, word)), PageOf(t.out);
      if t.column == 0 then page == before && page.last == ""
      else if t.column + 1 + |word| > width then page == Page(before.lines + [before.last], "")
      else page == Page(before.lines, before.last + " ")
  {
    PageChar(t.out, '\n');
    PageChar(t.out, ' ');
    assert t.out + "\n" == t.out + ['\n'] && t.out + " " == t.out + [' '];
  }

  lemma ShortWordStep(width: nat, h: Height, t: Printed, word: string)
    requires width > 0 && IsWord(word) && Corresponds(width, h, t) && |word| <= width
    ensures Corresponds(width, HeightWord(width, h, |word|), TextWord(width, t, word))
  {
    StartPage(width, h, t, word);
    PageAppend(StartOf(width, t, word), word);
  }

  lemma LongWordStep(width: nat, h: Height, t: Printed, word: string)
    requires width > 0 && IsWord(word) && Corresponds(width, h, t) && |word| > width
    ensures Corresponds(width, HeightWord(width, h, |word|), TextWord(width, t, word))
  {
    var start := StartOf(width, t, word);
    StartPage(width, h, t, word);
    LongWordPage(width, start, word);
    LongWordText(width, t, word);
    LongWordHeight(width, h, |word|);
    StartLines(width, h, t, word);
  }

  lemma LongWordText(width: nat, t: Printed, word: string)
    requires |word| > width
    ensures
      var (wrapped, counter) := HardWrapped(width, StartOf(width, t, word), word);
      TextWord(width, t, word) == Printed(if counter > 0 then wrapped + "\n" else wrapped, 0)
  {
  }

  lemma LongWordHeight(width: nat, h: Height, item: nat)
    requires 0 < width < item
    ensures CeilDiv(item, width) >= 1
    ensures HeightWord(width, h, item) ==
      Height((if h.column > 0 then h.height + 1 else h.height) + CeilDiv(item, width) - 1, width)
  {
  }

  /** Before a long word the height automaton counts one line more than are closed. */
  lemma StartLines(width: nat, h: Height, t: Printed, word: string)
    requires width > 0 && IsWord(word) && Corresponds(width, h, t) && |word| > width
    ensures
      var page := PageOf(StartOf(width, t, word));
      && page.last == "" && Fits(page.lines, width)
      && |page.lines| + 1 == if h.column > 0 then h.height + 1 else h.height
  {
    StartPage(width, h, t, word);
  }

  lemma LongWordPage(width: nat, start: string, word: string)
    requires width > 0 && IsWord(word) && PageOf(start).last == ""
    ensures
      var (wrapped, counter) := HardWrapped(width, start, word);
      var page := PageOf(if counter > 0 then wrapped + "\n" else wrapped);
      && page.last == ""
      && |page.lines| == |PageOf(start).lines| + CeilDiv(|word|, width)
      && (Fits(PageOf(start).lines, width) ==> Fits(page.lines, width))
  {
    HardWrapPage(width, start, word);
    var (wrapped, counter) := HardWrapped(width, start, word);
    PageChar(wrapped, '\n');
    assert wrapped + "\n" == wrapped + ['\n'];
    WholeLines(width, |word|, |PageOf(wrapped).lines| - |PageOf(start).lines|, counter);
  }

  lemma CorrespondsStep(width: nat, h: Height, t: Printed, word: string)
    requires width > 0 && IsWord(word) && Corresponds(width, h, t)
    ensures Corresponds(width, HeightWord(width, h, |word|), TextWord(width, t, word))
  {
    if |word| <= width {
      ShortWordStep(width, h, t, word);
    } else {
      LongWordStep(width, h, t, word);
    }
  }

  lemma {:induction false} AutomataCorrespond(width: nat, words: seq<string>)
    requires width > 0 && AreWords(words)
    ensures Corresponds(width, HeightWords(width, words), TextWords(width, words))
    ensures words == [] <==> TextWords(width, words).out == ""
  {
    if words != [] {
      var front := words[..|words| - 1];
      AutomataCorrespond(width, front);
      CorrespondsStep(width, HeightWords(width, front), TextWords(width, front), words[|words| - 1]);
    }
  }

  /** The computed height is the number of lines written, except that an empty cell
      counts one line and writes none; no line exceeds the width. */
  lemma HeightIsLineCount(words: seq<string>, width: nat)
    requires width > 0 && AreWords(words)
    ensures
      var text := TextWords(width, words).out;
      && (HeightWords(width, words).height == |TextLines(text)| <==> words != [])
      && (words == [] ==> HeightWords(width, words).height == 1 && TextLines(text) == [])
      && Fits(TextLines(text), width)
  {
    AutomataCorrespond(width, words);
  }

  // ---------------------------------------------------- where lines break

  /** A word that is no longer than a line goes on the open line exactly if it fits there
      after a blank; otherwise it starts the next line. */
  lemma BreaksExactlyWhenFull(width: nat, words: seq<string>, word: string)
    requires width > 0 && AreWords(words) && IsWord(word) && |word| <= width
    ensures
      var before, after := PageOf(TextWords(width, words).out), PageOf(TextWords(width, words + [word]).out);
      if before.last == "" then after == Page(before.lines, word)
      else if |before.last| + 1 + |word| <= width then after == Page(before.lines, before.last + " " + word)
      else after == Page(before.lines + [before.last], word)
  {
    AutomataCorrespond(width, words);
    var h, t := HeightWords(width, words), TextWords(width, words);
    assert (words + [word])[..|words|] == words;
    StartPage(width, h, t, word);
    PageAppend(StartOf(width, t, word), word);
    if PageOf(t.out).last == "" {
      assert "" + word == word;
    }
  }

  // ------------------------------------------------------- nothing is lost

  /** The output is the text with blanks and line breaks put in, and nothing else. */
  ghost predicate Woven(out: string, text: string)
    decreases |out|
  {
    if out == "" then text == ""
    else
      var front, last := out[..|out| - 1], out[|out| - 1];
      || (text != "" && last == text[|text| - 1] && Woven(front, text[..|text| - 1]))
      || ((last == ' ' || last == '\n') && Woven(front, text))
  }

  function Concat(words: seq<string>): string {
    if words == [] then "" else Concat(words[..|words| - 1]) + words[|words| - 1]
  }

  lemma WovenBlank(out: string, text: string, c: char)
    requires Woven(out, text) && (c == ' ' || c == '\n')
    ensures Woven(out + [c], text)
  {
    assert (out + [c])[..|out|] == out;
  }

  lemma WovenChar(out: string, text: string, c: char)
    requires Woven(out, text)
    ensures Woven(out + [c], text + [c])
  {
    assert (out + [c])[..|out|] == out && (text + [c])[..|text|] == text;
  }

  lemma {:induction false} WovenWord(out: string, text: string, word: string)
    requires Woven(out, text)
    ensures Woven(out + word, text + word)
  {
    if word == "" {
      assert out + word == out && text + word == text;
    } else {
      var front, last := word[..|word| - 1], word[|word| - 1];
      WovenWord(out, text, front);
      WovenChar(out + front, text + front, last);
      AppendLast(out, word);
      AppendLast(text, word);
    }
  }

  /** A character, and perhaps a line break after it. */
  lemma HardWrapLast(width: nat, out: string, word: string)
    requires word != ""
    ensures
      var written := HardWrapped(width, out, word[..|word| - 1]).0 + [word[|word| - 1]];
      HardWrapped(width, out, word).0 == written || HardWrapped(width, out, word).0 == written + ['\n']
  {
  }

  lemma {:induction false} WovenHardWrap(width: nat, out: string, text: string, word: string)
    requires Woven(out, text)
    ensures Woven(HardWrapped(width, out, word).0, text + word)
  {
    if word == "" {
      assert text + word == text;
    } else {
      var front, last := word[..|word| - 1], word[|word| - 1];
      var before := HardWrapped(width, out, front).0;
      WovenHardWrap(width, out, text, front);
      HardWrapLast(width, out, word);
      WovenChar(before, text + front, last);
      WovenBlank(before + [last], text + front + [last], '\n');
      AppendLast(text, word);
    }
  }

  /** What one word adds, wherever it is put. */
  lemma WovenStep(width: nat, t: Printed, text: string, word: string)
    requires Woven(t.out, text)
    ensures Woven(TextWord(width, t, word).out, text + word)
  {
    var start := StartOf(width, t, word);
    WovenBlank(t.out, text, '\n');
    WovenBlank(t.out, text, ' ');
    assert t.out + "\n" == t.out + ['\n'] && t.out + " " == t.out + [' '];
    WovenWord(start, text, word);
    WovenHardWrap(width, start, text, word);
    var wrapped := HardWrapped(width, start, word).0;
    WovenBlank(wrapped, text + word, '\n');
    assert wrapped + "\n" == wrapped + ['\n'];
  }

  /** Every character of every word is written once and in order, the blanks inside words
      included; only blanks and line breaks are put in between. */
  lemma {:induction false} TextKeepsWords(width: nat, words: seq<string>)
    ensures Woven(TextWords(width, words).out, Concat(words))
  {
    if words != [] {
      var front, word := words[..|words| - 1], words[|words| - 1];
      TextKeepsWords(width, front);
      WovenStep(width, TextWords(width, front), Concat(front), word);
    }
  }

  // --------------------------------------------------- words that do fit

  function Spaced(words: seq<string>): string {
    if words == [] then ""
    else if |words| == 1 then words[0]
    else Spaced(words[..|words| - 1]) + " " + words[|words| - 1]
  }

  function Unbroken(text: string): string {
    seq(|text|, k requires 0 <= k < |text| => if text[k] == '\n' then ' ' else text[k])
  }

  /** Either separator reads as a blank once line breaks are undone. */
  lemma UnbrokenThen(out: string, separator: string, word: string)
    requires (separator == "\n" || separator == " ") && IsWord(word)
    ensures Unbroken((out + separator) + word) == Unbroken(out) + " " + word
  {
    UnbrokenWord(word);
    UnbrokenAppend(out + separator, word);
    UnbrokenAppend(out, separator);
    assert Unbroken(separator) == " ";
  }

  /** When every word fits the width no word is broken: undoing the line breaks gives the
      words separated by single blanks. */
  lemma {:induction false} FittingWordsStayWhole(width: nat, words: seq<string>)
    requires AreWords(words) && forall k :: 0 <= k < |words| ==> |words[k]| <= width
    ensures Unbroken(TextWords(width, words).out) == Spaced(words)
    ensures words != [] ==> TextWords(width, words).column > 0
  {
    if words != [] {
      var front, word := words[..|words| - 1], words[|words| - 1];
      FittingWordsStayWhole(width, front);
      var t := TextWords(width, front);
      UnbrokenWord(word);
      if |words| == 1 {
        assert front == [] && words == [word];
        assert "" + word == word;
      } else {
        UnbrokenThen(t.out, "\n", word);
        UnbrokenThen(t.out, " ", word);
      }
    }
  }

  lemma UnbrokenWord(word: string)
    requires IsWord(word)
    ensures Unbroken(word) == word
  {
  }

  lemma UnbrokenAppend(a: string, b: string)
    ensures Unbroken(a + b) == Unbroken(a) + Unbroken(b)
  {
  }

  // ---------------------------------------------------------- width bounds

  class WidthPrinter {
    var minWidth: nat
    var width: nat
    var first: bool

    constructor ()
      ensures minWidth == 0 && width == 0 && first
    {
      minWidth, width, first := 0, 0, true;
    }

    method Word(word: string)
      modifies this
      ensures minWidth == (if old(minWidth) >= |word| then old(minWidth) else |word|)
      ensures width == old(width) + |word| + (if old(first) then 0 else 1)
      ensures !first
    {
      var itemWidth := |word|;
      minWidth := if minWidth >= itemWidth then minWidth else itemWidth;
      width := width + itemWidth;
      if first {
        first := false;
      } else {
        width := width + 1;
      }
    }
  }

  /** WordList::width_bounds: the longest word, and the width of all words in one line. */
  method WidthBounds(words: seq<string>) returns (min: nat, max: nat)
    ensures forall k :: 0 <= k < |words| ==> |words[k]| <= min
    ensures min == 0 || exists k :: 0 <= k < |words| && |words[k]| == min
    ensures max == |Spaced(words)| && min <= max
  {
    var printer := new WidthPrinter();
    for i := 0 to |words|
      invariant printer.minWidth <= printer.width
      invariant forall k :: 0 <= k < i ==> |words[k]| <= printer.minWidth
      invariant printer.minWidth == 0 || exists k :: 0 <= k < i && |words[k]| == printer.minWidth
      invariant printer.width == |Spaced(words[..i])| && printer.first == (i == 0)
    {
      printer.Word(words[i]);
      assert words[..i + 1][..i] == words[..i];
    }
    assert words[..|words|] == words;
    min, max := printer.minWidth, printer.width;
  }

  /** At its natural width a cell is written in one line. */
  lemma {:induction false} NaturalWidthIsOneLine(width: nat, words: seq<string>)
    requires AreWords(words) && |Spaced(words)| <= width
    ensures TextWords(width, words) == Printed(Spaced(words), |Spaced(words)|)
  {
    if |words| > 1 {
      var front, word := words[..|words| - 1], words[|words| - 1];
      NaturalWidthIsOneLine(width, front);
      assert Spaced(front) != "" by {
        assert IsWord(front[|front| - 1]);
      }
    } else if |words| == 1 {
      assert words[..0] == [] && "" + words[0] == words[0];
    }
  }
}
