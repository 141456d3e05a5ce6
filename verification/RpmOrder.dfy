/** RPM package versions: the version handed to cargo-generate-rpm is ordered by RPM's
    version comparison (rpmvercmp) exactly as releases are by section 11 of Semantic
    Versioning 2.0.0. */
module RpmOrder {
  import opened Wrappers
  import opened Tags
  import opened Versions
  import opened PackageOrder

  /** The version of rpm_command. */
  function RpmVersion(s: string): Option<string> {
    PackageManagerVersion(s)
  }

  // ------------------------------------------------------------- rpmvercmp

  /** Everything but letters, digits, tildes and carets separates segments. */
  predicate IsSeparator(c: char) {
    !IsDigit(c) && !IsLetter(c) && c != '~' && c != '^'
  }

  function SkipSeparators(s: string): (t: string)
    ensures |t| <= |s|
    ensures t != "" ==> !IsSeparator(t[0])
  {
    if s != "" && IsSeparator(s[0]) then SkipSeparators(s[1..]) else s
  }

  function LetterRun(s: string): (k: nat)
    ensures k <= |s|
    ensures k == 0 <==> s == "" || !IsLetter(s[0])
  {
    if s == "" || !IsLetter(s[0]) then 0 else 1 + LetterRun(s[1..])
  }

  function WithoutZeros(digits: string): string {
    if digits != "" && digits[0] == '0' then WithoutZeros(digits[1..]) else digits
  }

  /** Without leading zeros the longer number is greater, and equally long ones compare as
      strings. */
  function CompareDigits(a: string, b: string): int {
    var x, y := WithoutZeros(a), WithoutZeros(b);
    if |x| != |y| then CompareNat(|x|, |y|) else CompareAscii(x, y)
  }

  predicate StartsWith(s: string, c: char) {
    s != "" && s[0] == c
  }

  /** The loop of rpmvercmp: a tilde sorts before everything, a caret after the end of the
      version only, and otherwise runs of digits or letters are compared. */
  function CompareRpm(a: string, b: string): int
    decreases |a| + |b|
  {
    var x, y := SkipSeparators(a), SkipSeparators(b);
    if StartsWith(x, '~') || StartsWith(y, '~') then
      if !StartsWith(x, '~') then 1
      else if !StartsWith(y, '~') then -1
      else CompareRpm(x[1..], y[1..])
    else if StartsWith(x, '^') || StartsWith(y, '^') then
      if x == "" then -1
      else if y == "" then 1
      else if !StartsWith(x, '^') then 1
      else if !StartsWith(y, '^') then -1
      else CompareRpm(x[1..], y[1..])
    else if x == "" && y == "" then 0
    else if x == "" then -1
    else if y == "" then 1
    else if IsDigit(x[0]) then
      var i, j := DigitRun(x), DigitRun(y);
      if j == 0 then 1
      else if CompareDigits(x[..i], y[..j]) != 0 then CompareDigits(x[..i], y[..j])
      else CompareRpm(x[i..], y[j..])
    else
      var i, j := LetterRun(x), LetterRun(y);
      if j == 0 then -1
      else if CompareAscii(x[..i], y[..j]) != 0 then CompareAscii(x[..i], y[..j])
      else CompareRpm(x[i..], y[j..])
  }

  // ------------------------------------------------------- digit strings

  lemma {:induction false} AsciiLast(s: string, t: string, c: char, d: char)
    requires |s| == |t|
    ensures CompareAscii(s + [c], t + [d]) ==
      if CompareAscii(s, t) != 0 then CompareAscii(s, t) else CompareNat(c as nat, d as nat)
  {
    if s == "" {
      assert s + [c] == [c] && t + [d] == [d] && [c][1..] == "" && [d][1..] == "";
    } else {
      assert (s + [c])[1..] == s[1..] + [c] && (t + [d])[1..] == t[1..] + [d];
      AsciiLast(s[1..], t[1..], c, d);
    }
  }

  /** Equally long digit strings compare as their values do. */
  lemma {:induction false} SameLength(s: string, t: string)
    requires AllDigits(s) && AllDigits(t) && |s| == |t|
    ensures CompareAscii(s, t) == CompareNat(Value(s), Value(t))
  {
    if s != "" {
      var n := |s| - 1;
      SameLength(s[..n], t[..n]);
      AsciiLast(s[..n], t[..n], s[n], t[n]);
      assert s == s[..n] + [s[n]] && t == t[..n] + [t[n]];
    }
  }

  function Pow10(n: nat): nat {
    if n == 0 then 1 else 10 * Pow10(n - 1)
  }

  lemma {:induction false} ValueBounds(s: string)
    requires AllDigits(s)
    ensures Value(s) < Pow10(|s|)
    ensures s != "" && s[0] != '0' ==> Pow10(|s| - 1) <= Value(s)
  {
    if s != "" {
      var front := s[..|s| - 1];
      ValueBounds(front);
      if front == "" {
        assert Pow10(0) == 1 && Pow10(1) == 10;
      } else {
        assert front[0] == s[0];
        assert Pow10(|s| - 1) == 10 * Pow10(|s| - 2);
      }
    }
  }

  lemma {:induction false} Pow10Grows(m: nat, n: nat)
    requires m <= n
    ensures Pow10(m) <= Pow10(n)
  {
    if m < n {
      Pow10Grows(m, n - 1);
    }
  }

  /** Fewer digits without a leading zero mean a smaller value. */
  lemma ShorterIsSmaller(s: string, t: string)
    requires AllDigits(s) && AllDigits(t) && |s| < |t| && t[0] != '0'
    ensures Value(s) < Value(t)
  {
    ValueBounds(s);
    ValueBounds(t);
    Pow10Grows(|s|, |t| - 1);
  }

  /** What is compared of a printed number. */
  function Stripped(n: nat): string {
    if n == 0 then "" else Dec(n)
  }

  lemma StrippedIs(n: nat)
    ensures WithoutZeros(Dec(n)) == Stripped(n)
    ensures AllDigits(Stripped(n)) && Value(Stripped(n)) == n
    ensures Stripped(n) != "" ==> Stripped(n)[0] != '0'
  {
    var s := Dec(n);
    if s[0] == '0' {
      assert s == "0" && s[1..] == "";
      LeadingZero(s);
    } else {
      LeadingZero(s);
    }
  }

  /** Printed numbers compare as numbers. */
  lemma CompareDigitsIs(m: nat, n: nat)
    ensures CompareDigits(Dec(m), Dec(n)) == CompareNat(m, n)
  {
    StrippedIs(m);
    StrippedIs(n);
    var x, y := Stripped(m), Stripped(n);
    if |x| < |y| {
      ShorterIsSmaller(x, y);
    } else if |y| < |x| {
      ShorterIsSmaller(y, x);
    } else {
      SameLength(x, y);
    }
  }

  // --------------------------------------------------------- the rounds

  /** Two versions that start with a number. */
  lemma NumberRound(x: nat, r: string, y: nat, s: string)
    requires !StartsWithDigit(r) && !StartsWithDigit(s)
    ensures CompareRpm(Dec(x) + r, Dec(y) + s) == if CompareNat(x, y) != 0 then CompareNat(x, y) else CompareRpm(r, s)
  {
    var a, b := Dec(x) + r, Dec(y) + s;
    assert a[0] == Dec(x)[0] && b[0] == Dec(y)[0];
    DigitRunOf(Dec(x), r);
    DigitRunOf(Dec(y), s);
    SliceOf(Dec(x), r);
    SliceOf(Dec(y), s);
    CompareDigitsIs(x, y);
  }

  lemma SliceOf(front: string, rest: string)
    ensures (front + rest)[..|front|] == front && (front + rest)[|front|..] == rest
  {
  }

  /** A dot before what follows is skipped. */
  lemma DotRound(a: string, b: string)
    requires a != "" && b != "" && !IsSeparator(a[0]) && !IsSeparator(b[0])
    ensures CompareRpm("." + a, "." + b) == CompareRpm(a, b)
  {
    assert ("." + a)[1..] == a && ("." + b)[1..] == b;
    assert SkipSeparators("." + a) == SkipSeparators(a) == a;
    assert SkipSeparators("." + b) == SkipSeparators(b) == b;
  }

  lemma NumberAfterDot(x: nat, r: string, y: nat, s: string)
    requires !StartsWithDigit(r) && !StartsWithDigit(s)
    ensures CompareRpm("." + (Dec(x) + r), "." + (Dec(y) + s)) ==
      if CompareNat(x, y) != 0 then CompareNat(x, y) else CompareRpm(r, s)
  {
    assert (Dec(x) + r)[0] == Dec(x)[0] && (Dec(y) + s)[0] == Dec(y)[0];
    DotRound(Dec(x) + r, Dec(y) + s);
    NumberRound(x, r, y, s);
  }

  /** X.Y.Z followed by anything that does not start with a digit. */
  lemma RpmBases(v: Version, r: string, w: Version, s: string)
    requires !StartsWithDigit(r) && !StartsWithDigit(s)
    ensures CompareRpm(BaseText(v) + r, BaseText(w) + s) ==
      if CompareNat(v.major, w.major) != 0 then CompareNat(v.major, w.major)
      else if CompareNat(v.minor, w.minor) != 0 then CompareNat(v.minor, w.minor)
      else if CompareNat(v.patch, w.patch) != 0 then CompareNat(v.patch, w.patch)
      else CompareRpm(r, s)
  {
    BaseTextThen(v, r);
    BaseTextThen(w, s);
    var p, q := "." + (Dec(v.patch) + r), "." + (Dec(w.patch) + s);
    NumberAfterDot(v.patch, r, w.patch, s);
    var m, n := "." + (Dec(v.minor) + p), "." + (Dec(w.minor) + q);
    NumberAfterDot(v.minor, p, w.minor, q);
    NumberRound(v.major, m, w.major, n);
  }

  lemma {:induction false} LetterRunOf(word: string, rest: string)
    requires (forall k :: 0 <= k < |word| ==> IsLetter(word[k])) && (rest == "" || !IsLetter(rest[0]))
    ensures LetterRun(word + rest) == |word|
  {
    if word == "" {
      assert word + rest == rest;
    } else {
      assert (word + rest)[1..] == word[1..] + rest;
      LetterRunOf(word[1..], rest);
    }
  }

  /** Two phase words after the tilde, then their numbers. */
  lemma WordRound(a: Phase, m: nat, b: Phase, n: nat)
    ensures CompareRpm(PhaseText(a) + ("." + Dec(m)), PhaseText(b) + ("." + Dec(n))) ==
      (var words := CompareAscii(PhaseText(a), PhaseText(b));
       if words != 0 then words else CompareNat(m, n))
  {
    var x, y := "." + Dec(m), "." + Dec(n);
    var s, t := PhaseText(a) + x, PhaseText(b) + y;
    LetterRunOf(PhaseText(a), x);
    LetterRunOf(PhaseText(b), y);
    SliceOf(PhaseText(a), x);
    SliceOf(PhaseText(b), y);
    assert IsLetter(s[0]) && IsLetter(t[0]);
    assert SkipSeparators(s) == s && SkipSeparators(t) == t;
    assert Dec(m) + "" == Dec(m) && Dec(n) + "" == Dec(n);
    NumberAfterDot(m, "", n, "");
  }

  /** The phase suffix as the package manager sees it. */
  function TildeText(phase: Phase, number: nat): string {
    "~" + (PhaseText(phase) + ("." + Dec(number)))
  }

  lemma TildeTextIs(phase: Phase, number: nat)
    ensures PhaseWord(phase) + Dec(number) == TildeText(phase, number)
  {
  }

  lemma TildeRound(a: Phase, m: nat, b: Phase, n: nat)
    ensures CompareRpm(TildeText(a, m), TildeText(b, n)) ==
      (var words := CompareAscii(PhaseText(a), PhaseText(b));
       if words != 0 then words else CompareNat(m, n))
    ensures CompareRpm(TildeText(a, m), "") == -1 && CompareRpm("", TildeText(a, m)) == 1
  {
    var s, t := TildeText(a, m), TildeText(b, n);
    assert s[1..] == PhaseText(a) + ("." + Dec(m)) && t[1..] == PhaseText(b) + ("." + Dec(n));
    WordRound(a, m, b, n);
  }

  /** The suffix after X.Y.Z, which is empty for a plain version. */
  function Suffix(t: Tag): string {
    if t.Preview? then TildeText(t.phase, t.number) else ""
  }

  lemma PackageTextIs(t: Tag)
    requires Supported(t)
    ensures PackageText(t) == BaseText(t.base) + Suffix(t) && !StartsWithDigit(Suffix(t))
  {
    if t.Plain? {
      assert BaseText(t.base) + "" == BaseText(t.base);
    } else {
      TildeTextIs(t.phase, t.number);
    }
  }

  /** For all supported versions RPM's comparison of the emitted strings is precedence. */
  lemma RpmVersionKeepsPrecedence(a: Tag, b: Tag)
    requires Supported(a) && Supported(b)
    ensures RpmVersion(VersionText(a)).Some? && RpmVersion(VersionText(b)).Some?
    ensures CompareRpm(RpmVersion(VersionText(a)).value, RpmVersion(VersionText(b)).value) == Precedence(a, b)
  {
    PackageManagerVersionIs(a);
    PackageManagerVersionIs(b);
    RpmTextKeepsPrecedence(a, b);
  }

  lemma RpmTextKeepsPrecedence(a: Tag, b: Tag)
    requires Supported(a) && Supported(b)
    ensures CompareRpm(PackageText(a), PackageText(b)) == Precedence(a, b)
  {
    PackageTextIs(a);
    PackageTextIs(b);
    RpmBases(a.base, Suffix(a), b.base, Suffix(b));
    if a.Preview? && b.Preview? {
      TildeRound(a.phase, a.number, b.phase, b.number);
      IdentifiersCompare(a, b);
    } else if a.Preview? {
      TildeRound(a.phase, a.number, a.phase, a.number);
    } else if b.Preview? {
      TildeRound(b.phase, b.number, b.phase, b.number);
    } else {
      assert CompareRpm("", "") == 0;
    }
  }
}
