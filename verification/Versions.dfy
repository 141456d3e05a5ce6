/** The written form of versions and tags: canonical decimals, X.Y.Z, and X.Y.Z with an
    alpha, beta or rc suffix. Parsing is the exact inverse of printing. */
module Versions {
  import opened Wrappers
  import opened Tags

  // ------------------------------------------------------------ decimals

  predicate IsDigit(c: char) {
    '0' <= c <= '9'
  }

  function Digit(n: nat): (c: char)
    requires n < 10
    ensures IsDigit(c) && (c as int) - ('0' as int) == n
  {
    ('0' as int + n) as char
  }

  predicate AllDigits(s: string) {
    forall k :: 0 <= k < |s| ==> IsDigit(s[k])
  }

  /** The pattern 0|[1-9][0-9]*. */
  predicate Canonical(s: string) {
    s != "" && AllDigits(s) && (s[0] == '0' ==> |s| == 1)
  }

  function Value(s: string): nat
    requires AllDigits(s)
  {
    if s == "" then 0
    else Value(s[..|s| - 1]) * 10 + ((s[|s| - 1] as int) - ('0' as int))
  }

  lemma {:induction false} LeadingZero(s: string)
    requires s != "" && AllDigits(s)
    ensures s[0] != '0' ==> Value(s) >= 1
    ensures s == "0" ==> Value(s) == 0
  {
    if |s| == 1 {
      assert s[..0] == "";
    } else {
      assert s[..|s| - 1][0] == s[0];
      LeadingZero(s[..|s| - 1]);
    }
  }

  function Dec(n: nat): (s: string)
    ensures Canonical(s) && Value(s) == n
  {
    if n < 10 then
      assert [Digit(n)][..0] == "";
      [Digit(n)]
    else
      var front := Dec(n / 10);
      assert (front + [Digit(n % 10)])[..|front|] == front;
      LeadingZero(front);
      front + [Digit(n % 10)]
  }

  /** A canonical numeral is the one its value prints as. */
  lemma {:induction false} DecOfValue(s: string)
    requires Canonical(s)
    ensures Dec(Value(s)) == s
  {
    var last := (s[|s| - 1] as int) - ('0' as int);
    if |s| == 1 {
      assert s[..0] == "" && s == [Digit(last)];
    } else {
      var front := s[..|s| - 1];
      DecOfValue(front);
      assert front[0] == s[0];
      LeadingZero(front);
      assert Value(s) / 10 == Value(front) && Value(s) % 10 == last;
      assert s == front + [Digit(last)];
    }
  }

  function DigitRun(s: string): (k: nat)
    ensures k <= |s|
    ensures AllDigits(s[..k])
    ensures k < |s| ==> !IsDigit(s[k])
  {
    if s == "" || !IsDigit(s[0]) then 0
    else
      var k := DigitRun(s[1..]) + 1;
      assert forall j :: 0 < j < k ==> s[..k][j] == s[1..][..k - 1][j - 1];
      k
  }

  predicate StartsWithDigit(s: string) {
    s != "" && IsDigit(s[0])
  }

  lemma {:induction false} DigitRunOf(digits: string, rest: string)
    requires AllDigits(digits) && !StartsWithDigit(rest)
    ensures DigitRun(digits + rest) == |digits|
  {
    if digits == "" {
      assert digits + rest == rest;
    } else {
      assert (digits + rest)[1..] == digits[1..] + rest;
      DigitRunOf(digits[1..], rest);
    }
  }

  /** Splits off a canonical number. */
  function TakeNumber(s: string): Option<(nat, string)> {
    var k := DigitRun(s);
    if Canonical(s[..k]) then Some((Value(s[..k]), s[k..])) else None
  }

  lemma TakePrinted(n: nat, rest: string)
    requires !StartsWithDigit(rest)
    ensures TakeNumber(Dec(n) + rest) == Some((n, rest))
  {
    DigitRunOf(Dec(n), rest);
    assert (Dec(n) + rest)[..|Dec(n)|] == Dec(n) && (Dec(n) + rest)[|Dec(n)|..] == rest;
  }

  lemma TakenIsPrinted(s: string)
    requires TakeNumber(s).Some?
    ensures
      var (n, rest) := TakeNumber(s).value;
      s == Dec(n) + rest && !StartsWithDigit(rest)
  {
    var k := DigitRun(s);
    DecOfValue(s[..k]);
    assert s == s[..k] + s[k..];
  }

  // ------------------------------------------------------------ versions

  function PhaseText(phase: Phase): string {
    match phase
    case Alpha => "alpha"
    case Beta => "beta"
    case Rc => "rc"
  }

  function BaseText(v: Version): string {
    Dec(v.major) + ("." + (Dec(v.minor) + ("." + Dec(v.patch))))
  }

  function SuffixText(phase: Phase, number: nat): string {
    "-" + (PhaseText(phase) + ("." + Dec(number)))
  }

  /** The versions the release tooling accepts. */
  predicate Supported(t: Tag) {
    t.Plain? || (t.Preview? && t.number >= 1)
  }

  function VersionText(t: Tag): string
    requires Supported(t)
  {
    match t
    case Plain(base) => BaseText(base)
    case Preview(base, phase, number) => BaseText(base) + SuffixText(phase, number)
  }

  function TagText(t: Tag): string
    requires Supported(t)
  {
    "v" + VersionText(t)
  }

  function TakeDot(s: string): Option<string> {
    if s != "" && s[0] == '.' then Some(s[1..]) else None
  }

  /** Splits off X.Y.Z. */
  function TakeBase(s: string): Option<(Version, string)> {
    match TakeNumber(s)
    case None => None
    case Some((major, afterMajor)) =>
      match TakeDot(afterMajor)
      case None => None
      case Some(atMinor) =>
        match TakeNumber(atMinor)
        case None => None
        case Some((minor, afterMinor)) =>
          match TakeDot(afterMinor)
          case None => None
          case Some(atPatch) =>
            match TakeNumber(atPatch)
            case None => None
            case Some((patch, rest)) => Some((Version(major, minor, patch), rest))
  }

  predicate HasPrefix(prefix: string, s: string) {
    |prefix| <= |s| && s[..|prefix|] == prefix
  }

  /** Parses a phase suffix that ends the string. */
  function ParseSuffix(s: string): Option<(Phase, nat)> {
    if HasPrefix("-alpha.", s) then ParseCounter(Alpha, s[7..])
    else if HasPrefix("-beta.", s) then ParseCounter(Beta, s[6..])
    else if HasPrefix("-rc.", s) then ParseCounter(Rc, s[4..])
    else None
  }

  function ParseCounter(phase: Phase, s: string): Option<(Phase, nat)> {
    match TakeNumber(s)
    case Some((number, "")) => if number >= 1 then Some((phase, number)) else None
    case _ => None
  }

  /** VERSION_PATTERN. */
  function ParseVersion(s: string): Option<Tag> {
    match TakeBase(s)
    case None => None
    case Some((base, rest)) =>
      if rest == "" then Some(Plain(base))
      else match ParseSuffix(rest)
        case None => None
        case Some((phase, number)) => Some(Preview(base, phase, number))
  }

  /** The rest of TakeBase once the leading dot of a component is due. */
  lemma TakeDotted(n: nat, rest: string)
    requires !StartsWithDigit(rest)
    ensures TakeDot("." + (Dec(n) + rest)) == Some(Dec(n) + rest)
    ensures TakeNumber(Dec(n) + rest) == Some((n, rest))
    ensures !StartsWithDigit("." + (Dec(n) + rest))
  {
    TakePrinted(n, rest);
    assert ("." + (Dec(n) + rest))[1..] == Dec(n) + rest;
  }

  lemma BaseTextThen(v: Version, rest: string)
    ensures BaseText(v) + rest == Dec(v.major) + ("." + (Dec(v.minor) + ("." + (Dec(v.patch) + rest))))
  {
    var tail := "." + (Dec(v.minor) + ("." + Dec(v.patch)));
    assert BaseText(v) + rest == Dec(v.major) + (tail + rest);
    var inner := "." + Dec(v.patch);
    assert tail + rest == "." + (Dec(v.minor) + (inner + rest));
    assert inner + rest == "." + (Dec(v.patch) + rest);
  }

  lemma TakePrintedBase(v: Version, rest: string)
    requires !StartsWithDigit(rest)
    ensures TakeBase(BaseText(v) + rest) == Some((v, rest))
  {
    var minor := "." + (Dec(v.minor) + ("." + (Dec(v.patch) + rest)));
    BaseTextThen(v, rest);
    TakeDotted(v.patch, rest);
    TakeDotted(v.minor, "." + (Dec(v.patch) + rest));
    TakePrinted(v.major, minor);
  }

  lemma DotAndRest(s: string)
    ensures TakeDot(s).Some? ==> s == "." + s[1..] && TakeDot(s).value == s[1..]
  {
  }

  lemma TakenBaseIsPrinted(s: string)
    requires TakeBase(s).Some?
    ensures
      var (v, rest) := TakeBase(s).value;
      s == BaseText(v) + rest && !StartsWithDigit(rest)
  {
    TakenIsPrinted(s);
    var afterMajor := TakeNumber(s).value.1;
    DotAndRest(afterMajor);
    TakenIsPrinted(afterMajor[1..]);
    var afterMinor := TakeNumber(afterMajor[1..]).value.1;
    DotAndRest(afterMinor);
    TakenIsPrinted(afterMinor[1..]);
    var (v, rest) := TakeBase(s).value;
    BaseTextThen(v, rest);
  }

  /** The text before the number of a phase suffix. */
  function PhaseStem(phase: Phase): string {
    match phase
    case Alpha => "-alpha."
    case Beta => "-beta."
    case Rc => "-rc."
  }

  lemma RegroupSuffix(phase: string, number: string)
    ensures "-" + (phase + ("." + number)) == ("-" + phase + ".") + number
  {
  }

  lemma SuffixTextIs(phase: Phase, number: nat)
    ensures SuffixText(phase, number) == PhaseStem(phase) + Dec(number)
  {
    RegroupSuffix(PhaseText(phase), Dec(number));
    assert PhaseStem(phase) == "-" + PhaseText(phase) + ".";
  }

  lemma StemSplits(phase: Phase, counter: string)
    ensures HasPrefix(PhaseStem(phase), PhaseStem(phase) + counter)
    ensures (PhaseStem(phase) + counter)[|PhaseStem(phase)|..] == counter
    ensures forall other: Phase :: other != phase ==> !HasPrefix(PhaseStem(other), PhaseStem(phase) + counter)
  {
    var s := PhaseStem(phase) + counter;
    assert s[1] == PhaseStem(phase)[1];
    forall other: Phase | other != phase
      ensures !HasPrefix(PhaseStem(other), s)
    {
      assert PhaseStem(other)[1] != s[1];
      assert |PhaseStem(other)| <= |s| ==> s[..|PhaseStem(other)|][1] == s[1];
    }
  }

  lemma ParseStem(phase: Phase, counter: string)
    ensures ParseSuffix(PhaseStem(phase) + counter) == ParseCounter(phase, counter)
  {
    StemSplits(phase, counter);
    assert !HasPrefix(PhaseStem(Alpha), PhaseStem(phase) + counter) <==> phase != Alpha;
    assert !HasPrefix(PhaseStem(Beta), PhaseStem(phase) + counter) <==> phase != Beta;
    assert !HasPrefix(PhaseStem(Rc), PhaseStem(phase) + counter) <==> phase != Rc;
  }

  lemma ParsePrintedCounter(phase: Phase, number: nat)
    requires number >= 1
    ensures ParseCounter(phase, Dec(number)) == Some((phase, number))
  {
    assert Dec(number) + "" == Dec(number);
    TakePrinted(number, "");
  }

  lemma ParsePrintedSuffix(phase: Phase, number: nat)
    requires number >= 1
    ensures ParseSuffix(SuffixText(phase, number)) == Some((phase, number))
  {
    SuffixTextIs(phase, number);
    ParseStem(phase, Dec(number));
    ParsePrintedCounter(phase, number);
  }

  lemma ParsedCounterIsPrinted(phase: Phase, s: string)
    requires ParseCounter(phase, s).Some?
    ensures
      var (p, number) := ParseCounter(phase, s).value;
      p == phase && number >= 1 && s == Dec(number)
  {
    TakenIsPrinted(s);
    assert Dec(TakeNumber(s).value.0) + "" == Dec(TakeNumber(s).value.0);
  }

  lemma StemRest(stem: string, s: string)
    requires HasPrefix(stem, s)
    ensures s == stem + s[|stem|..]
  {
  }

  lemma ParsedSuffixIsPrinted(s: string)
    requires ParseSuffix(s).Some?
    ensures ParseSuffix(s).value.1 >= 1 && s == SuffixText(ParseSuffix(s).value.0, ParseSuffix(s).value.1)
  {
    var (phase, number) := ParseSuffix(s).value;
    SuffixTextIs(phase, number);
    if HasPrefix("-alpha.", s) {
      ParsedCounterIsPrinted(Alpha, s[7..]);
      StemRest(PhaseStem(Alpha), s);
    } else if HasPrefix("-beta.", s) {
      ParsedCounterIsPrinted(Beta, s[6..]);
      StemRest(PhaseStem(Beta), s);
    } else {
      ParsedCounterIsPrinted(Rc, s[4..]);
      StemRest(PhaseStem(Rc), s);
    }
  }

  /** The grammar accepts exactly the printed versions, and reads back what was printed. */
  lemma ParseIsInverseOfPrint(s: string, t: Tag)
    ensures ParseVersion(s) == Some(t) <==> Supported(t) && s == VersionText(t)
  {
    if Supported(t) && s == VersionText(t) {
      if t.Plain? {
        assert BaseText(t.base) + "" == s;
        TakePrintedBase(t.base, "");
      } else {
        TakePrintedBase(t.base, SuffixText(t.phase, t.number));
        ParsePrintedSuffix(t.phase, t.number);
      }
    }
    if ParseVersion(s) == Some(t) {
      TakenBaseIsPrinted(s);
      var (base, rest) := TakeBase(s).value;
      if rest == "" {
        assert BaseText(base) + "" == BaseText(base);
      } else {
        ParsedSuffixIsPrinted(rest);
      }
    }
  }

  lemma DecExample()
    ensures Dec(0) == "0" && Dec(2) == "2" && Dec(7) == "7" && Dec(10) == "10"
  {
    assert Dec(1) == "1" && Dec(10) == Dec(1) + "0";
  }

  /** How a version and a preview of it are written. */
  lemma VersionTextExample()
    ensures BaseText(Version(7, 10, 0)) == "7.10.0"
    ensures VersionText(Preview(Version(7, 10, 0), Alpha, 2)) == "7.10.0-alpha.2"
    ensures TagText(Plain(Version(7, 10, 0))) == "v7.10.0"
    ensures Dec(2) == "2"
  {
    DecExample();
    assert "." + Dec(0) == ".0" && Dec(10) + ".0" == "10.0" && "." + "10.0" == ".10.0";
    assert SuffixText(Alpha, 2) == "-alpha.2";
  }

  /** Different versions are written differently. */
  lemma VersionTextIsInjective(a: Tag, b: Tag)
    requires Supported(a) && Supported(b) && VersionText(a) == VersionText(b)
    ensures a == b
  {
    ParseIsInverseOfPrint(VersionText(a), a);
    ParseIsInverseOfPrint(VersionText(a), b);
  }

  // ------------------------------------------------- next_preview_version

  /** A Git tag name as the tag it spells. */
  function ParseTag(name: string): Tag {
    if name != "" && name[0] == 'v' && ParseVersion(name[1..]).Some? then ParseVersion(name[1..]).value
    else Foreign(name)
  }

  function ParseTags(names: seq<string>): seq<Tag> {
    if names == [] then [] else [ParseTag(names[0])] + ParseTags(names[1..])
  }

  lemma PrintedTagParses(t: Tag)
    requires Supported(t)
    ensures ParseTag(TagText(t)) == t
  {
    assert TagText(t)[1..] == VersionText(t);
    ParseIsInverseOfPrint(VersionText(t), t);
  }

  /** A tag name is read as a version exactly when it is the name of that version. */
  lemma ParseTagIs(name: string, t: Tag)
    requires Supported(t)
    ensures ParseTag(name) == t <==> name == TagText(t)
  {
    if name == TagText(t) {
      PrintedTagParses(t);
    }
    if ParseTag(name) == t {
      ParseIsInverseOfPrint(name[1..], t);
      assert name == "v" + name[1..];
    }
  }

  lemma {:induction false} ParseTagsIs(names: seq<string>, t: Tag)
    requires Supported(t)
    ensures t in ParseTags(names) <==> TagText(t) in names
  {
    if names != [] {
      ParseTagIs(names[0], t);
      ParseTagsIs(names[1..], t);
      assert names == [names[0]] + names[1..];
    }
  }

  lemma ParsePhaseIs(s: string, phase: Phase)
    ensures ParsePhase(s) == Some(phase) <==> s == PhaseText(phase)
  {
    assert |PhaseText(Alpha)| == 5 && |PhaseText(Beta)| == 4 && |PhaseText(Rc)| == 2;
  }

  lemma ParseBaseIs(s: string, base: Version)
    ensures ParseBase(s) == Some(base) <==> s == BaseText(base)
  {
    ParseIsInverseOfPrint(s, Plain(base));
  }

  function ParsePhase(s: string): Option<Phase> {
    if s == "alpha" then Some(Alpha)
    else if s == "beta" then Some(Beta)
    else if s == "rc" then Some(Rc)
    else None
  }

  /** _base_parts: a plain X.Y.Z version. */
  function ParseBase(s: string): Option<Version> {
    match ParseVersion(s)
    case Some(Plain(base)) => Some(base)
    case _ => None
  }

  /** The text spells the suffix right after the highest one among the tags. */
  predicate Follows(text: string, tags: seq<Tag>, base: Version, phase: Phase) {
    ParseVersion(text) == Some(Preview(base, phase, Highest(tags, base, phase) + 1))
  }

  /** Some tag name spells the preview with this number. */
  predicate IsTaken(names: seq<string>, base: Version, phase: Phase, number: nat) {
    number >= 1 && TagText(Preview(base, phase, number)) in names
  }

  /** The text spells the preview with this number. */
  predicate Spells(text: string, base: Version, phase: Phase, number: nat) {
    number >= 1 && text == VersionText(Preview(base, phase, number))
  }

  /** The text spells the preview of the base and phase with the number after the largest
      one that is taken. */
  ghost predicate SpellsTheNext(text: string, names: seq<string>, base: Version, phase: Phase) {
    exists n: nat :: Spells(text, base, phase, n + 1) && IsLargest(names, base, phase, n)
  }

  ghost predicate IsLargest(names: seq<string>, base: Version, phase: Phase, n: nat) {
    && (n == 0 || IsTaken(names, base, phase, n))
    && forall m: nat :: IsTaken(names, base, phase, m) ==> m <= n
  }

  lemma FollowingSpellsTheNext(text: string, names: seq<string>, base: Version, phase: Phase)
    requires Follows(text, ParseTags(names), base, phase)
    ensures SpellsTheNext(text, names, base, phase)
  {
    var n := Highest(ParseTags(names), base, phase);
    ParseIsInverseOfPrint(text, Preview(base, phase, n + 1));
    HighestIsLargest(names, base, phase, n);
    assert Spells(text, base, phase, n + 1);
  }

  lemma HighestIsLargest(names: seq<string>, base: Version, phase: Phase, n: nat)
    requires IsHighest(ParseTags(names), base, phase, n)
    ensures IsLargest(names, base, phase, n)
  {
    if n > 0 {
      ParseTagsIs(names, Preview(base, phase, n));
    }
    forall m: nat | IsTaken(names, base, phase, m) ensures m <= n {
      ParseTagsIs(names, Preview(base, phase, m));
    }
  }

  datatype BadRequest = BadBase | BadPhase | EmptySnapshot

  /** next_preview_version on tag names: malformed requests are refused, a published
      phase and snapshot selects nothing, any other selects the suffix after the highest
      one among the tags of this base and phase. */
  method NextPreviewVersion(base: string, phase: string, publishedTags: seq<string>,
                            alreadyPublished: set<(string, string)>, currentSnapshot: string)
    returns (next: Result<Option<string>, BadRequest>)
    ensures next.Failure? <==> ParseBase(base).None? || ParsePhase(phase).None? || currentSnapshot == ""
    ensures next.Success? ==> (next.value.None? <==> (phase, currentSnapshot) in alreadyPublished)
    ensures next.Success? && next.value.Some? ==>
      Follows(next.value.value, ParseTags(publishedTags), ParseBase(base).value, ParsePhase(phase).value)
    ensures next.Success? <==> currentSnapshot != "" && exists b, p :: base == BaseText(b) && phase == PhaseText(p)
    ensures next.Success? && next.value.Some? ==>
      forall b, p :: base == BaseText(b) && phase == PhaseText(p) ==>
        SpellsTheNext(next.value.value, publishedTags, b, p)
  {
    forall b ensures base == BaseText(b) <==> ParseBase(base) == Some(b) {
      ParseBaseIs(base, b);
    }
    forall p ensures phase == PhaseText(p) <==> ParsePhase(phase) == Some(p) {
      ParsePhaseIs(phase, p);
    }
    next := Select(ParseBase(base), ParsePhase(phase), ParseTags(publishedTags),
                   (phase, currentSnapshot) in alreadyPublished, currentSnapshot == "");
    if next.Success? && next.value.Some? {
      FollowingSpellsTheNext(next.value.value, publishedTags, ParseBase(base).value, ParsePhase(phase).value);
    }
  }

  /** The decisions of next_preview_version over what its arguments spell. */
  method Select(base: Option<Version>, phase: Option<Phase>, tags: seq<Tag>, published: bool, noSnapshot: bool)
    returns (next: Result<Option<string>, BadRequest>)
    ensures next.Failure? <==> base.None? || phase.None? || noSnapshot
    ensures next.Success? ==> (next.value.None? <==> published)
    ensures next.Success? && next.value.Some? ==>
      Follows(next.value.value, tags, base.value, phase.value)
  {
    if base.None? {
      return Failure(BadBase);
    }
    if phase.None? {
      return Failure(BadPhase);
    }
    if noSnapshot {
      return Failure(EmptySnapshot);
    }
    if published {
      return Success(None);
    }
    var highest := HighestSuffix(tags, base.value, phase.value);
    var text := PreviewText(base.value, phase.value, highest + 1);
    return Success(Some(text));
  }

  method PreviewText(base: Version, phase: Phase, number: nat) returns (text: string)
    requires number >= 1
    ensures ParseVersion(text) == Some(Preview(base, phase, number))
  {
    text := VersionText(Preview(base, phase, number));
    ParseIsInverseOfPrint(text, Preview(base, phase, number));
  }

  lemma HighestStep(tags: seq<Tag>, tag: Tag, base: Version, phase: Phase, highest: nat)
    requires IsHighest(tags, base, phase, highest)
    ensures IsHighest(tags + [tag], base, phase,
      if tag.Preview? && tag.base == base && tag.phase == phase && tag.number > highest then tag.number else highest)
  {
    forall t ensures t in tags + [tag] <==> t in tags || t == tag {
    }
  }

  /** The loop of next_preview_version: tags of another base, another phase or no preview
      at all do not advance the suffix. */
  method HighestSuffix(tags: seq<Tag>, base: Version, phase: Phase) returns (highest: nat)
    ensures highest == Highest(tags, base, phase)
  {
    highest := 0;
    for i := 0 to |tags|
      invariant IsHighest(tags[..i], base, phase, highest)
    {
      var tag := tags[i];
      assert tags[..i + 1] == tags[..i] + [tag];
      HighestStep(tags[..i], tag, base, phase, highest);
      if tag.Preview? && tag.base == base && tag.phase == phase && tag.number > highest {
        highest := tag.number;
      }
    }
    assert tags[..|tags|] == tags;
  }
}
