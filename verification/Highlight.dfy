/** Highlighting of backslash commands: the emitted pieces only add styling. The state
    machine that validates tokens is a parameter. */
module Highlight {
  import opened Wrappers
  import opened Text
  import opened Backslash
  import opened Completion

  datatype Style = CommandStyle | ErrorStyle | CommentStyle

  datatype Piece = Bare(text: string) | Styled(style: Style, text: string)

  /** The text without its styles. */
  function Erase(pieces: seq<Piece>): string {
    if pieces == [] then "" else Erase(pieces[..|pieces| - 1]) + pieces[|pieces| - 1].text
  }

  /** The styled pieces that are not comments. */
  function Marks(pieces: seq<Piece>): seq<Piece> {
    if pieces == [] then []
    else
      var last := pieces[|pieces| - 1];
      Marks(pieces[..|pieces| - 1]) + (if last.Styled? && last.style != CommentStyle then [last] else [])
  }

  /** A comment starts with a hash and stays on its line. */
  predicate CommentsOk(pieces: seq<Piece>) {
    forall k :: 0 <= k < |pieces| && pieces[k].Styled? && pieces[k].style == CommentStyle ==>
      |pieces[k].text| > 0 && pieces[k].text[0] == '#' && '\n' !in pieces[k].text
  }

  /** No hash is followed by a line break. */
  predicate NoComment(text: string) {
    forall i, j :: 0 <= i < j < |text| && text[i] == '#' ==> text[j] != '\n'
  }

  /** Every terminated comment is styled up to its line break. */
  predicate CommentsStyled(pieces: seq<Piece>) {
    && (forall k :: 0 <= k < |pieces| && pieces[k].Bare? ==> NoComment(pieces[k].text))
    && ClosedPart(pieces, |pieces| - 1)
  }

  /** Of the first n pieces the bare ones have no hash, and the comments end at a line break. */
  predicate ClosedPart(pieces: seq<Piece>, n: int)
    requires n <= |pieces|
  {
    forall k: nat :: k < n ==> IsClosed(pieces, k)
  }

  predicate IsClosed(pieces: seq<Piece>, k: nat)
    requires k < |pieces|
  {
    if pieces[k].Bare? then '#' !in pieces[k].text
    else pieces[k].style == CommentStyle && k + 1 < |pieces| && pieces[k + 1] == Bare("\n")
  }

  lemma AppendPiece(pieces: seq<Piece>, piece: Piece)
    ensures Erase(pieces + [piece]) == Erase(pieces) + piece.text
    ensures Marks(pieces + [piece]) ==
      Marks(pieces) + (if piece.Styled? && piece.style != CommentStyle then [piece] else [])
  {
    assert (pieces + [piece])[..|pieces|] == pieces;
  }

  /** str::find: the first occurrence at or after a position, or the end. */
  method Find(s: string, from: nat, c: char) returns (k: nat)
    requires from <= |s|
    ensures from <= k <= |s|
    ensures k < |s| ==> s[k] == c
    ensures c !in s[from..k]
  {
    k := from;
    while k < |s| && s[k] != c
      invariant from <= k <= |s|
      invariant forall j :: from <= j < k ==> s[j] != c
    {
      k := k + 1;
    }
  }

  /** The pieces put behind the buffer style every terminated comment. */
  predicate StylesComments(buffer: seq<Piece>, out: seq<Piece>) {
    buffer < out && out[|out| - 1].Bare? && CommentsStyled(out[|buffer|..])
  }

  /** What is in the buffer once the first characters of the text are emitted. */
  ghost predicate Emitted(buffer: seq<Piece>, out: seq<Piece>, text: string, done: nat)
    requires done <= |text|
  {
    && buffer <= out
    && Erase(out) == Erase(buffer) + text[..done] && Marks(out) == Marks(buffer) && CommentsOk(out)
    && ClosedPart(out[|buffer|..], |out| - |buffer|)
  }

  lemma EmittedComment(
      buffer: seq<Piece>, out: seq<Piece>, text: string, done: nat, pos: nat, end: nat, next: seq<Piece>)
    requires done <= pos <= end < |text| && text[end] == '\n' && '#' !in text[done..pos]
    requires Emitted(buffer, out, text, done)
    requires next == out + [Bare(text[done..pos]), Styled(CommentStyle, text[pos..end]), Bare("\n")]
    requires Erase(next) == Erase(out) + (text[done..pos] + text[pos..end] + "\n")
    requires Marks(next) == Marks(out) && CommentsOk(next)
    ensures Emitted(buffer, next, text, end + 1)
  {
    CommentText(Erase(buffer), text, done, pos, end);
    ClosedThenComment(out[|buffer|..], text[done..pos], text[pos..end]);
    assert next[|buffer|..] ==
      out[|buffer|..] + [Bare(text[done..pos]), Styled(CommentStyle, text[pos..end]), Bare("\n")];
  }

  lemma EmittedRest(buffer: seq<Piece>, out: seq<Piece>, text: string, done: nat)
    requires done <= |text| && Emitted(buffer, out, text, done) && NoComment(text[done..])
    ensures
      var all := out + [Bare(text[done..])];
      && Erase(all) == Erase(buffer) + text && Marks(all) == Marks(buffer) && CommentsOk(all)
      && StylesComments(buffer, all)
  {
    AppendPiece(out, Bare(text[done..]));
    Regroup(Erase(buffer), text[..done], text[done..]);
    assert text[..done] + text[done..] == text;
    RestIsStyled(buffer, out, text[done..]);
  }

  lemma RestIsStyled(buffer: seq<Piece>, out: seq<Piece>, rest: string)
    requires buffer <= out && ClosedPart(out[|buffer|..], |out| - |buffer|) && NoComment(rest)
    ensures StylesComments(buffer, out + [Bare(rest)])
  {
    ClosedThenBare(out[|buffer|..], rest);
    assert (out + [Bare(rest)])[|buffer|..] == out[|buffer|..] + [Bare(rest)];
  }

  /** emit_insignificant: terminated comments are styled, their line break is not, and
      nothing else is. */
  method EmitInsignificant(buffer: seq<Piece>, text: string) returns (out: seq<Piece>)
    requires CommentsOk(buffer)
    ensures Erase(out) == Erase(buffer) + text
    ensures Marks(out) == Marks(buffer)
    ensures CommentsOk(out)
    ensures StylesComments(buffer, out)
  {
    out := buffer;
    var done := 0;
    assert Erase(buffer) + text[..0] == Erase(buffer);
    while true
      invariant 0 <= done <= |text|
      invariant Emitted(buffer, out, text, done)
      decreases |text| - done
    {
      var pos := Find(text, done, '#');
      if pos == |text| {
        UnterminatedComment(text, done, pos);
        break;
      }
      var end := Find(text, pos, '\n');
      if end == |text| {
        assert text[pos..end] == text[pos..];
        UnterminatedComment(text, done, pos);
        break;
      }
      ghost var before := out;
      out := EmitComment(out, text[done..pos], text[pos..end]);
      EmittedComment(buffer, before, text, done, pos, end, out);
      done := end + 1;
    }
    EmittedRest(buffer, out, text, done);
    out := out + [Bare(text[done..])];
  }

  /** A hash without a line break after it does not start a comment. */
  lemma UnterminatedComment(text: string, done: nat, pos: nat)
    requires done <= pos <= |text| && '#' !in text[done..pos] && '\n' !in text[pos..]
    ensures NoComment(text[done..])
  {
    assert forall m :: done <= m < pos ==> text[m] == text[done..pos][m - done];
    assert forall m :: pos <= m < |text| ==> text[m] == text[pos..][m - pos];
  }

  lemma ClosedThenBare(pieces: seq<Piece>, text: string)
    requires ClosedPart(pieces, |pieces|) && NoComment(text)
    ensures CommentsStyled(pieces + [Bare(text)])
  {
    var all := pieces + [Bare(text)];
    forall k | 0 <= k < |all| && all[k].Bare? ensures NoComment(all[k].text) {
      if k < |pieces| {
        assert IsClosed(pieces, k);
      }
    }
    forall k: nat | k < |pieces| ensures IsClosed(all, k) {
      assert IsClosed(pieces, k);
    }
  }

  lemma ClosedThenComment(pieces: seq<Piece>, before: string, comment: string)
    requires ClosedPart(pieces, |pieces|) && '#' !in before
    ensures
      var all := pieces + [Bare(before), Styled(CommentStyle, comment), Bare("\n")];
      ClosedPart(all, |all|)
  {
    var all := pieces + [Bare(before), Styled(CommentStyle, comment), Bare("\n")];
    forall k: nat | k < |all| ensures IsClosed(all, k) {
      if k < |pieces| {
        assert IsClosed(pieces, k);
      }
    }
  }

  lemma CommentText(front: string, text: string, done: nat, pos: nat, end: nat)
    requires done <= pos <= end < |text| && text[end] == '\n'
    ensures (front + text[..done]) + (text[done..pos] + text[pos..end] + "\n") == front + text[..end + 1]
  {
    assert text[..done] + (text[done..pos] + text[pos..end] + "\n") == text[..end + 1];
  }

  lemma SliceThen(text: string, from: nat, to: nat)
    requires from <= to <= |text|
    ensures text[..from] + text[from..to] == text[..to] && text[..|text|] == text
  {
  }

  /** The text before a comment, the comment, and its line break. */
  method EmitComment(buffer: seq<Piece>, before: string, comment: string) returns (out: seq<Piece>)
    requires CommentsOk(buffer) && |comment| > 0 && comment[0] == '#' && '\n' !in comment
    ensures Erase(out) == Erase(buffer) + (before + comment + "\n")
    ensures Marks(out) == Marks(buffer) && CommentsOk(out)
    ensures out == buffer + [Bare(before), Styled(CommentStyle, comment), Bare("\n")]
  {
    AppendPiece(buffer, Bare(before));
    var first := buffer + [Bare(before)];
    AppendPiece(first, Styled(CommentStyle, comment));
    var second := first + [Styled(CommentStyle, comment)];
    AppendPiece(second, Bare("\n"));
    out := second + [Bare("\n")];
    Regroup(Erase(buffer), before, comment);
    Regroup(Erase(buffer), before + comment, "\n");
  }

  /** What the validator marks, token by token. */
  function ExpectedMarks<F>(text: string, tokens: seq<Token>, fsm: F,
                            validate: (F, Token) -> ValidationResult, advance: (F, Token) -> F): seq<Piece>
    requires forall k :: 0 <= k < |tokens| ==> tokens[k].start <= tokens[k].end <= |text|
  {
    if tokens == [] then []
    else
      var value := text[tokens[0].start..tokens[0].end];
      Mark(value, validate(fsm, tokens[0]))
      + ExpectedMarks(text, tokens[1..], advance(fsm, tokens[0]), validate, advance)
  }

  /** Valid text is marked as a command and invalid text as an error. */
  function Mark(value: string, verdict: ValidationResult): seq<Piece> {
    match verdict
    case Valid => [Styled(CommandStyle, value)]
    case Invalid => [Styled(ErrorStyle, value)]
    case Unknown => []
  }

  lemma MarkIs(value: string, verdict: ValidationResult)
    ensures Mark(value, verdict) == [Styled(CommandStyle, value)] <==> verdict.Valid?
    ensures Mark(value, verdict) == [Styled(ErrorStyle, value)] <==> verdict.Invalid?
    ensures Mark(value, verdict) == [] <==> verdict.Unknown?
  {
    assert [Styled(CommandStyle, value)][0] != [Styled(ErrorStyle, value)][0];
  }

  lemma MarksSplit<F>(
      text: string, pos: nat, first: bool, fsm: F, validate: (F, Token) -> ValidationResult, advance: (F, Token) -> F)
    requires pos <= |text| && NextToken(text, pos, first).Some?
    ensures
      var token := NextToken(text, pos, first).value;
      ExpectedMarks(text, Tokens(text, pos, first), fsm, validate, advance) ==
        ExpectedMarks(text, [token], fsm, validate, advance)
        + ExpectedMarks(text, Tokens(text, token.end, false), advance(fsm, token), validate, advance)
  {
    var token := NextToken(text, pos, first).value;
    assert Tokens(text, pos, first) == [token] + Tokens(text, token.end, false);
    assert Tokens(text, pos, first)[1..] == Tokens(text, token.end, false);
    assert [token][1..] == [];
  }

  /** The marks still to come complete the ones already emitted. */
  ghost predicate Completes<F>(marks: seq<Piece>, text: string, pos: nat, first: bool, fsm: F, all: seq<Piece>,
                               validate: (F, Token) -> ValidationResult, advance: (F, Token) -> F)
    requires pos <= |text|
  {
    marks + ExpectedMarks(text, Tokens(text, pos, first), fsm, validate, advance) == all
  }

  /** highlight::backslash: for every input, erasing the styles gives the input back, and
      the marks are exactly those of the tokens. */
  method HighlightBackslash<F>(
      text: string, initial: F, validate: (F, Token) -> ValidationResult, advance: (F, Token) -> F)
    returns (out: seq<Piece>)
    ensures Erase(out) == text
    ensures Marks(out) == ExpectedMarks(text, Tokens(text, 0, true), initial, validate, advance)
    ensures CommentsOk(out)
  {
    out := [];
    var fsm := initial;
    var parser := new Parser(text);
    assert text[..0] == "";
    ghost var all := ExpectedMarks(text, Tokens(text, 0, true), initial, validate, advance);
    assert [] + all == all;
    var more := true;
    while more
      invariant parser.Valid() && parser.data == text
      invariant Erase(out) == text[..parser.offset] && CommentsOk(out)
      invariant Completes(Marks(out), text, parser.offset, parser.firstItem, fsm, all, validate, advance)
      invariant !more ==> NextToken(text, parser.offset, parser.firstItem).None?
      decreases |text| - parser.offset, more
    {
      var pos := parser.offset;
      CompletesNext(Marks(out), text, pos, parser.firstItem, fsm, all, validate, advance);
      var token := parser.Next();
      if token.Some? {
        out, fsm := EmitToken(text, out, pos, token.value, fsm, validate, advance);
      } else {
        more := false;
      }
    }
    var rest := text[parser.offset..|text|];
    out := EmitInsignificant(out, rest);
    SliceThen(text, parser.offset, |text|);
  }

  lemma CompletesNext<F>(marks: seq<Piece>, text: string, pos: nat, first: bool, fsm: F, all: seq<Piece>,
                         validate: (F, Token) -> ValidationResult, advance: (F, Token) -> F)
    requires pos <= |text| && Completes(marks, text, pos, first, fsm, all, validate, advance)
    ensures
      match NextToken(text, pos, first)
      case None => marks == all
      case Some(token) =>
        Completes(marks + ExpectedMarks(text, [token], fsm, validate, advance), text, token.end, false,
                  advance(fsm, token), all, validate, advance)
  {
    if NextToken(text, pos, first).Some? {
      MarksSplit(text, pos, first, fsm, validate, advance);
      var token := NextToken(text, pos, first).value;
      var one := ExpectedMarks(text, [token], fsm, validate, advance);
      var rest := ExpectedMarks(text, Tokens(text, token.end, false), advance(fsm, token), validate, advance);
      Regroup(marks, one, rest);
    } else {
      assert marks + [] == marks;
    }
  }

  /** The skipped text before a token, then the token in its style. */
  method EmitToken<F>(text: string, buffer: seq<Piece>, pos: nat, token: Token, fsm: F,
                      validate: (F, Token) -> ValidationResult, advance: (F, Token) -> F)
    returns (out: seq<Piece>, next: F)
    requires pos <= token.start < token.end <= |text|
    requires Erase(buffer) == text[..pos] && CommentsOk(buffer)
    ensures Erase(out) == text[..token.end] && CommentsOk(out)
    ensures next == advance(fsm, token)
    ensures Marks(out) == Marks(buffer) + ExpectedMarks(text, [token], fsm, validate, advance)
  {
    out := buffer;
    if token.start > pos {
      out := EmitInsignificant(out, text[pos..token.start]);
      SliceThen(text, pos, token.start);
    }
    var value := text[token.start..token.end];
    var piece := match validate(fsm, token)
      case Valid => Styled(CommandStyle, value)
      case Invalid => Styled(ErrorStyle, value)
      case Unknown => Bare(value);
    AppendPiece(out, piece);
    out := out + [piece];
    SliceThen(text, token.start, token.end);
    assert [token][1..] == [];
    next := advance(fsm, token);
  }
}
