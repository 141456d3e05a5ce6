/** Linux package versions: the rewriting of a release version for package managers
    keeps its order. Precedence by section 11 of Semantic Versioning 2.0.0 coincides with
    the version comparison of section 5.6.12 of the Debian Policy Manual on the strings
    handed to cargo-deb. */
module PackageOrder {
  import opened Wrappers
  import opened Tags
  import opened Versions

  // ------------------------------------------------------- the rewriting

  function IndexOf(s: string, c: char): (k: nat)
    ensures k <= |s|
    ensures k < |s| ==> s[k] == c
    ensures forall j :: 0 <= j < k ==> s[j] != c
  {
    if s == "" || s[0] == c then 0 else 1 + IndexOf(s[1..], c)
  }

  /** The part before the first plus sign. */
  function WithoutBuild(s: string): string {
    s[..IndexOf(s, '+')]
  }

  /** replace("-", "~", 1). */
  function TildeForHyphen(s: string): string {
    var k := IndexOf(s, '-');
    if k < |s| then s[k := '~'] else s
  }

  /** package_manager_version: unsupported versions are refused. */
  function PackageManagerVersion(s: string): Option<string> {
    if ParseVersion(s).None? then None else Some(TildeForHyphen(WithoutBuild(s)))
  }

  /** The --deb-version argument of deb_command. */
  function DebVersion(s: string): Option<string> {
    match PackageManagerVersion(s)
    case None => None
    case Some(v) => Some(v + "-1")
  }

  // ------------------------------- Semantic Versioning 2.0.0, section 11

  /** A prerelease identifier: numeric, or alphanumeric. */
  datatype Identifier = Numeric(n: nat) | Alphanumeric(s: string)

  function Identifiers(t: Tag): seq<Identifier> {
    if t.Preview? then [Alphanumeric(PhaseText(t.phase)), Numeric(t.number)] else []
  }

  function CompareNat(a: nat, b: nat): int {
    if a < b then -1 else if a > b then 1 else 0
  }

  /** Lexical order in ASCII. */
  function CompareAscii(a: string, b: string): int {
    if a == "" && b == "" then 0
    else if a == "" then -1
    else if b == "" then 1
    else if a[0] != b[0] then CompareNat(a[0] as nat, b[0] as nat)
    else CompareAscii(a[1..], b[1..])
  }

  function CompareIdentifier(a: Identifier, b: Identifier): int {
    match (a, b)
    case (Numeric(m), Numeric(n)) => CompareNat(m, n)
    case (Numeric(_), Alphanumeric(_)) => -1
    case (Alphanumeric(_), Numeric(_)) => 1
    case (Alphanumeric(s), Alphanumeric(t)) => CompareAscii(s, t)
  }

  /** Identifier by identifier; a larger set of fields wins when all others are equal. */
  function CompareIdentifiers(a: seq<Identifier>, b: seq<Identifier>): int {
    if a == [] && b == [] then 0
    else if a == [] then -1
    else if b == [] then 1
    else
      var first := CompareIdentifier(a[0], b[0]);
      if first != 0 then first else CompareIdentifiers(a[1..], b[1..])
  }

  /** Precedence: the numbers, then a version with a prerelease below one without. */
  function Precedence(a: Tag, b: Tag): int
    requires Supported(a) && Supported(b)
  {
    var major := CompareNat(a.base.major, b.base.major);
    var minor := CompareNat(a.base.minor, b.base.minor);
    var patch := CompareNat(a.base.patch, b.base.patch);
    if major != 0 then major
    else if minor != 0 then minor
    else if patch != 0 then patch
    else if a.Plain? && b.Preview? then 1
    else if a.Preview? && b.Plain? then -1
    else CompareIdentifiers(Identifiers(a), Identifiers(b))
  }

  /** The position of a phase: releases go through alpha, beta and rc. */
  function Position(phase: Phase): nat {
    match phase
    case Alpha => 0
    case Beta => 1
    case Rc => 2
  }

  /** A version precedes another if its numbers do, or if they are equal and it is a preview
      of an earlier phase, of the same phase with a smaller number, or of a plain version. */
  lemma PrecedenceIs(a: Tag, b: Tag)
    requires Supported(a) && Supported(b)
    ensures Precedence(a, b) == -1 <==>
      || Below(a.base, b.base)
      || (a.base == b.base && a.Preview? && b.Plain?)
      || (a.base == b.base && a.Preview? && b.Preview? && Position(a.phase) < Position(b.phase))
      || (a.base == b.base && a.Preview? && b.Preview? && a.phase == b.phase && a.number < b.number)
    ensures Precedence(a, b) == 0 <==> a == b
    ensures Precedence(b, a) == -Precedence(a, b)
  {
    if a.Preview? && b.Preview? {
      IdentifiersCompare(a, b);
      IdentifiersCompare(b, a);
      ComparePhaseTexts(a.phase, b.phase);
      ComparePhaseTexts(b.phase, a.phase);
    }
  }

  lemma ComparePhaseTexts(a: Phase, b: Phase)
    ensures CompareAscii(PhaseText(a), PhaseText(b)) == CompareNat(Position(a), Position(b))
  {
    SameAscii(PhaseText(a));
  }

  // ----------------------------- Debian Policy Manual, section 5.6.12

  predicate IsLetter(c: char) {
    'a' <= c <= 'z' || 'A' <= c <= 'Z'
  }

  /** A tilde sorts before anything, even the end of a part, which has weight zero;
      letters sort before non-letters. */
  function Weight(c: char): int {
    if c == '~' then -1 else if IsLetter(c) then c as int else c as int + 256
  }

  function CompareWeights(a: int, b: int): int {
    if a < b then -1 else if a > b then 1 else 0
  }

  function CompareNonDigits(a: string, b: string): int {
    if a == "" && b == "" then 0
    else
      var first := CompareWeights(if a == "" then 0 else Weight(a[0]), if b == "" then 0 else Weight(b[0]));
      if first != 0 then first
      else CompareNonDigits(if a == "" then "" else a[1..], if b == "" then "" else b[1..])
  }

  function NonDigitRun(s: string): (k: nat)
    ensures k <= |s|
    ensures forall j :: 0 <= j < k ==> !IsDigit(s[j])
    ensures k < |s| ==> IsDigit(s[k])
  {
    if s == "" || IsDigit(s[0]) then 0 else 1 + NonDigitRun(s[1..])
  }

  /** Non-digit part, then digit part, and again; an absent number counts as zero. */
  function CompareParts(a: string, b: string): int
    decreases |a| + |b|
  {
    if a == "" && b == "" then 0
    else
      var i, j := NonDigitRun(a), NonDigitRun(b);
      var words := CompareNonDigits(a[..i], b[..j]);
      if words != 0 then words
      else
        var a', b' := a[i..], b[j..];
        var m, n := DigitRun(a'), DigitRun(b');
        assert a != "" ==> i + m > 0;
        assert b != "" ==> j + n > 0;
        var numbers := CompareNat(Value(a'[..m]), Value(b'[..n]));
        if numbers != 0 then numbers else CompareParts(a'[m..], b'[n..])
  }

  /** The last hyphen separates the Debian revision. */
  function LastHyphen(s: string): (k: int)
    ensures -1 <= k < |s|
    ensures k >= 0 ==> s[k] == '-'
    ensures forall j :: k < j < |s| ==> s[j] != '-'
  {
    if s == "" then -1
    else if s[|s| - 1] == '-' then |s| - 1
    else LastHyphen(s[..|s| - 1])
  }

  function Upstream(s: string): string {
    if LastHyphen(s) >= 0 then s[..LastHyphen(s)] else s
  }

  function Revision(s: string): string {
    if LastHyphen(s) >= 0 then s[LastHyphen(s) + 1..] else ""
  }

  /** Comparison of versions without an epoch. */
  function CompareDebian(a: string, b: string): int {
    var upstream := CompareParts(Upstream(a), Upstream(b));
    if upstream != 0 then upstream else CompareParts(Revision(a), Revision(b))
  }

  // ------------------------------------------------ what is handed over

  predicate Without(s: string, c: char) {
    c !in s
  }

  lemma {:induction false} DigitsAvoid(s: string, c: char)
    requires AllDigits(s) && !IsDigit(c)
    ensures Without(s, c)
  {
  }

  lemma BaseAvoids(v: Version, c: char)
    requires !IsDigit(c) && c != '.'
    ensures Without(BaseText(v), c)
  {
    DigitsAvoid(Dec(v.major), c);
    DigitsAvoid(Dec(v.minor), c);
    DigitsAvoid(Dec(v.patch), c);
  }

  function PhaseWord(phase: Phase): string {
    "~" + PhaseText(phase) + "."
  }

  /** The upstream version that the package manager sees. */
  function PackageText(t: Tag): string
    requires Supported(t)
  {
    match t
    case Plain(base) => BaseText(base)
    case Preview(base, phase, number) => BaseText(base) + (PhaseWord(phase) + Dec(number))
  }

  lemma TailAvoids(phase: Phase, number: nat, c: char)
    requires c == '+' || c == '-'
    ensures Without(PhaseText(phase) + ("." + Dec(number)), c)
  {
    DigitsAvoid(Dec(number), c);
  }

  lemma IndexOfFirst(front: string, c: char, tail: string)
    requires Without(front, c)
    ensures IndexOf(front + ([c] + tail), c) == |front|
  {
    var s := front + ([c] + tail);
    assert s[|front|] == c;
    assert forall j :: 0 <= j < |front| ==> s[j] == front[j] && front[j] in front;
  }

  lemma WithoutBuildIs(t: Tag)
    requires Supported(t)
    ensures WithoutBuild(VersionText(t)) == VersionText(t)
  {
    var s := VersionText(t);
    BaseAvoids(t.base, '+');
    if t.Preview? {
      TailAvoids(t.phase, t.number, '+');
    }
    assert s[..|s|] == s;
  }

  lemma ReplaceAt(front: string, c: char, tail: string, d: char)
    ensures (front + ([c] + tail))[|front| := d] == front + ([d] + tail)
  {
  }

  lemma TildeForHyphenIs(t: Tag)
    requires Supported(t)
    ensures TildeForHyphen(VersionText(t)) == PackageText(t)
  {
    BaseAvoids(t.base, '-');
    if t.Plain? {
    } else {
      var front, tail := BaseText(t.base), PhaseText(t.phase) + ("." + Dec(t.number));
      assert SuffixText(t.phase, t.number) == ['-'] + tail;
      IndexOfFirst(front, '-', tail);
      ReplaceAt(front, '-', tail, '~');
      assert ['~'] + tail == PhaseWord(t.phase) + Dec(t.number);
    }
  }

  lemma PackageManagerVersionIs(t: Tag)
    requires Supported(t)
    ensures PackageManagerVersion(VersionText(t)) == Some(PackageText(t))
  {
    ParseIsInverseOfPrint(VersionText(t), t);
    WithoutBuildIs(t);
    TildeForHyphenIs(t);
  }

  /** Only supported versions are handed over. */
  lemma OnlySupportedIsPackaged(s: string)
    ensures PackageManagerVersion(s).Some? <==> exists t :: Supported(t) && s == VersionText(t)
  {
    if ParseVersion(s).Some? {
      var t := ParseVersion(s).value;
      ParseIsInverseOfPrint(s, t);
    }
    if t :| Supported(t) && s == VersionText(t) {
      ParseIsInverseOfPrint(s, t);
    }
  }

  lemma PackageTextAvoidsHyphen(t: Tag)
    requires Supported(t)
    ensures Without(PackageText(t), '-')
  {
    BaseAvoids(t.base, '-');
    if t.Preview? {
      DigitsAvoid(Dec(t.number), '-');
    }
  }

  lemma RevisionSplits(v: string)
    requires Without(v, '-')
    ensures Upstream(v + "-1") == v && Revision(v + "-1") == "1"
  {
    var s := v + "-1";
    assert s[|s| - 2] == '-' && s[|s| - 1] == '1' && s[..|s| - 1][|s| - 2] == '-';
    assert LastHyphen(s) == |s| - 2;
  }

  // ------------------------------------------------- comparing the parts

  /** A word without digits, then a number: one round of the Debian comparison. */
  lemma OneRound(v: string, x: nat, r: string, w: string, y: nat, s: string)
    requires (forall c :: c in v ==> !IsDigit(c)) && (forall c :: c in w ==> !IsDigit(c))
    requires !StartsWithDigit(r) && !StartsWithDigit(s)
    ensures CompareParts(v + (Dec(x) + r), w + (Dec(y) + s)) ==
      if CompareNonDigits(v, w) != 0 then CompareNonDigits(v, w)
      else if CompareNat(x, y) != 0 then CompareNat(x, y)
      else CompareParts(r, s)
  {
    var a, b := v + (Dec(x) + r), w + (Dec(y) + s);
    NonDigitRunOf(v, x, r);
    NonDigitRunOf(w, y, s);
    DigitRunOf(Dec(x), r);
    DigitRunOf(Dec(y), s);
    assert a[..|v|] == v && a[|v|..] == Dec(x) + r;
    assert b[..|w|] == w && b[|w|..] == Dec(y) + s;
    assert (Dec(x) + r)[..|Dec(x)|] == Dec(x) && (Dec(x) + r)[|Dec(x)|..] == r;
    assert (Dec(y) + s)[..|Dec(y)|] == Dec(y) && (Dec(y) + s)[|Dec(y)|..] == s;
  }

  lemma NonDigitRunOf(v: string, x: nat, r: string)
    requires forall c :: c in v ==> !IsDigit(c)
    ensures NonDigitRun(v + (Dec(x) + r)) == |v|
  {
    var s := Dec(x) + r;
    assert s[0] == Dec(x)[0];
    NonDigitsFirst(v, s);
  }

  lemma NonDigitsFirst(v: string, s: string)
    requires (forall c :: c in v ==> !IsDigit(c)) && StartsWithDigit(s)
    ensures NonDigitRun(v + s) == |v|
  {
    var a := v + s;
    assert a[|v|] == s[0];
    assert forall j :: 0 <= j < |v| ==> a[j] == v[j] && v[j] in v;
  }

  lemma {:induction false} SameWord(w: string)
    ensures CompareNonDigits(w, w) == 0
  {
    if w != "" {
      SameWord(w[1..]);
    }
  }

  /** X.Y.Z followed by anything that does not start with a digit. */
  lemma CompareBases(v: Version, r: string, w: Version, s: string)
    requires !StartsWithDigit(r) && !StartsWithDigit(s)
    ensures CompareParts(BaseText(v) + r, BaseText(w) + s) ==
      if CompareNat(v.major, w.major) != 0 then CompareNat(v.major, w.major)
      else if CompareNat(v.minor, w.minor) != 0 then CompareNat(v.minor, w.minor)
      else if CompareNat(v.patch, w.patch) != 0 then CompareNat(v.patch, w.patch)
      else CompareParts(r, s)
  {
    BaseTextThen(v, r);
    BaseTextThen(w, s);
    SameWord(".");
    var p, q := "." + (Dec(v.patch) + r), "." + (Dec(w.patch) + s);
    OneRound(".", v.patch, r, ".", w.patch, s);
    var m, n := "." + (Dec(v.minor) + p), "." + (Dec(w.minor) + q);
    OneRound(".", v.minor, p, ".", w.minor, q);
    assert "" + (Dec(v.major) + m) == Dec(v.major) + m && "" + (Dec(w.major) + n) == Dec(w.major) + n;
    OneRound("", v.major, m, "", w.major, n);
  }

  /** The phase words compare as the phases do, and below the end of the version. */
  lemma ComparePhaseWords(a: Phase, b: Phase)
    ensures CompareNonDigits(PhaseWord(a), PhaseWord(b)) == CompareAscii(PhaseText(a), PhaseText(b))
    ensures CompareAscii(PhaseText(a), PhaseText(b)) == 0 <==> a == b
    ensures CompareNonDigits(PhaseWord(a), "") == -1 && CompareNonDigits("", PhaseWord(a)) == 1
    ensures forall c :: c in PhaseWord(a) ==> !IsDigit(c)
  {
    SameWord(PhaseWord(a));
    SameAscii(PhaseText(a));
    assert PhaseWord(a)[1..] == PhaseText(a) + "." && PhaseWord(b)[1..] == PhaseText(b) + ".";
    assert CompareNonDigits(PhaseWord(a), PhaseWord(b)) == CompareNonDigits(PhaseText(a) + ".", PhaseText(b) + ".");
  }

  lemma {:induction false} SameAscii(w: string)
    ensures CompareAscii(w, w) == 0
  {
    if w != "" {
      SameAscii(w[1..]);
    }
  }

  lemma CompareTails(a: Tag, b: Tag)
    requires a.Preview? && b.Preview?
    ensures CompareParts(PhaseWord(a.phase) + Dec(a.number), PhaseWord(b.phase) + Dec(b.number)) ==
      CompareIdentifiers(Identifiers(a), Identifiers(b))
  {
    ComparePhaseWords(a.phase, b.phase);
    ComparePhaseWords(b.phase, a.phase);
    assert Dec(a.number) + "" == Dec(a.number) && Dec(b.number) + "" == Dec(b.number);
    OneRound(PhaseWord(a.phase), a.number, "", PhaseWord(b.phase), b.number, "");
    IdentifiersCompare(a, b);
  }

  lemma IdentifiersCompare(a: Tag, b: Tag)
    requires a.Preview? && b.Preview?
    ensures CompareIdentifiers(Identifiers(a), Identifiers(b)) ==
      (var words := CompareAscii(PhaseText(a.phase), PhaseText(b.phase));
       if words != 0 then words else CompareNat(a.number, b.number))
  {
    var i, j := Identifiers(a), Identifiers(b);
    var k, l := [Numeric(a.number)], [Numeric(b.number)];
    assert i[1..] == k && j[1..] == l && k[1..] == [] && l[1..] == [];
    assert CompareIdentifiers(k, l) == CompareNat(a.number, b.number);
  }

  /** A phase word against the end of a version. */
  lemma CompareTailWithEnd(phase: Phase, number: nat)
    ensures CompareParts(PhaseWord(phase) + Dec(number), "") == -1
    ensures CompareParts("", PhaseWord(phase) + Dec(number)) == 1
  {
    var tail := PhaseWord(phase) + Dec(number);
    ComparePhaseWords(phase, phase);
    assert tail == PhaseWord(phase) + (Dec(number) + "");
    NonDigitRunOf(PhaseWord(phase), number, "");
    assert tail[..|PhaseWord(phase)|] == PhaseWord(phase);
  }

  lemma PackageTextKeepsPrecedence(a: Tag, b: Tag)
    requires Supported(a) && Supported(b)
    ensures CompareParts(PackageText(a), PackageText(b)) == Precedence(a, b)
  {
    var r := if a.Preview? then PhaseWord(a.phase) + Dec(a.number) else "";
    var s := if b.Preview? then PhaseWord(b.phase) + Dec(b.number) else "";
    assert BaseText(a.base) + "" == BaseText(a.base) && BaseText(b.base) + "" == BaseText(b.base);
    CompareBases(a.base, r, b.base, s);
    if a.Preview? && b.Preview? {
      CompareTails(a, b);
    } else if a.Preview? {
      CompareTailWithEnd(a.phase, a.number);
    } else if b.Preview? {
      CompareTailWithEnd(b.phase, b.number);
    }
  }

  lemma DebVersionIs(t: Tag)
    requires Supported(t)
    ensures DebVersion(VersionText(t)) == Some(PackageText(t) + "-1")
    ensures Upstream(PackageText(t) + "-1") == PackageText(t) && Revision(PackageText(t) + "-1") == "1"
  {
    PackageManagerVersionIs(t);
    PackageTextAvoidsHyphen(t);
    RevisionSplits(PackageText(t));
  }

  /** What the package manager sees of a preview. */
  lemma PackageTextExample()
    ensures PackageText(Preview(Version(7, 10, 0), Alpha, 2)) == "7.10.0~alpha.2"
  {
    VersionTextExample();
    assert PhaseWord(Alpha) + "2" == "~alpha.2";
    assert "7.10.0" + "~alpha.2" == "7.10.0~alpha.2";
  }

  /** The package version orders releases exactly as their versions are ordered. */
  lemma DebVersionKeepsPrecedence(a: Tag, b: Tag)
    requires Supported(a) && Supported(b)
    ensures DebVersion(VersionText(a)).Some? && DebVersion(VersionText(b)).Some?
    ensures CompareDebian(DebVersion(VersionText(a)).value, DebVersion(VersionText(b)).value) == Precedence(a, b)
  {
    DebVersionIs(a);
    DebVersionIs(b);
    PackageTextKeepsPrecedence(a, b);
    SameRevision();
  }

  lemma SameRevision()
    ensures CompareParts("1", "1") == 0
  {
    assert "1"[..0] == "" && "1"[0..] == "1" && "1"[1..] == "";
  }
}
