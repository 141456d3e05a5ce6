/** Prefix lookups in the ordered sets of command and setting names: src/completion.rs. */
module Completion {
  import opened Text

  predicate StartsWith(name: string, prefix: string) {
    |prefix| <= |name| && name[..|prefix|] == prefix
  }

  /** How a lookup by prefix ends. */
  datatype Lookup = Unknown | Match(name: string) | Ambiguous

  /** A name that starts with the prefix is not below it. */
  lemma {:induction false} ExtensionIsNotBelow(name: string, prefix: string)
    requires StartsWith(name, prefix)
    ensures !Less(name, prefix)
  {
    if prefix != [] {
      assert name[0] == name[..|prefix|][0];
      assert name[1..][..|prefix| - 1] == name[..|prefix|][1..];
      ExtensionIsNotBelow(name[1..], prefix[1..]);
    }
  }

  /** The names with a prefix are consecutive from the prefix on. */
  lemma {:induction false} PrefixRangeIsConvex(prefix: string, middle: string, last: string)
    requires !Less(middle, prefix) && Less(middle, last) && StartsWith(last, prefix)
    ensures StartsWith(middle, prefix)
  {
    if prefix != [] {
      assert last[0] == last[..|prefix|][0] == prefix[0];
      assert middle != [] && middle[0] == prefix[0];
      assert last[1..][..|prefix| - 1] == last[..|prefix|][1..];
      PrefixRangeIsConvex(prefix[1..], middle[1..], last[1..]);
      assert middle[..|prefix|] == [middle[0]] + middle[1..][..|prefix| - 1];
    }
  }

  /** The prefix itself comes first among the names that start with it. */
  lemma {:induction false} PrefixIsLeast(name: string, prefix: string)
    requires StartsWith(name, prefix) && name != prefix
    ensures Less(prefix, name)
  {
    if prefix != [] {
      assert name[0] == name[..|prefix|][0] == prefix[0];
      assert name[1..][..|prefix| - 1] == name[..|prefix|][1..];
      assert name == [name[0]] + name[1..] && prefix == [prefix[0]] + prefix[1..];
      PrefixIsLeast(name[1..], prefix[1..]);
    }
  }

  /** range_from(prefix).take_while(starts_with): from the first name that is
      not below the prefix, as long as names start with it. */
  method Range(names: seq<string>, prefix: string) returns (low: nat, high: nat)
    requires Increasing(names)
    ensures low <= high <= |names|
    ensures forall k :: 0 <= k < |names| ==> (StartsWith(names[k], prefix) <==> low <= k < high)
  {
    low := 0;
    while low < |names| && Less(names[low], prefix)
      invariant low <= |names|
      invariant forall k :: 0 <= k < low ==> !StartsWith(names[k], prefix)
    {
      if StartsWith(names[low], prefix) {
        ExtensionIsNotBelow(names[low], prefix);
        assert false;
      }
      low := low + 1;
    }
    high := low;
    while high < |names| && StartsWith(names[high], prefix)
      invariant low <= high <= |names|
      invariant forall k :: low <= k < high ==> StartsWith(names[k], prefix)
    {
      high := high + 1;
    }
    forall k | high < k < |names|
      ensures !StartsWith(names[k], prefix)
    {
      if StartsWith(names[k], prefix) {
        if low < high {
          if Less(names[high], prefix) {
            LessIsTransitive(names[low], names[high], prefix);
            assert false;
          }
        }
        PrefixRangeIsConvex(prefix, names[high], names[k]);
      }
    }
  }

  lemma FirstIsThePrefix(names: seq<string>, prefix: string, low: nat)
    requires Increasing(names) && low < |names| && prefix in names && StartsWith(names[low], prefix)
    requires forall k :: 0 <= k < low ==> !StartsWith(names[k], prefix)
    ensures names[low] == prefix
  {
    var k :| 0 <= k < |names| && names[k] == prefix;
    assert StartsWith(names[k], prefix);
    if names[low] != prefix {
      PrefixIsLeast(names[low], prefix);
    }
    LessIsTotal(prefix, names[low]);
  }

  /** The decision of the hint functions: the first name of the range if it is
      the whole input or the only one. */
  method LookUp(names: seq<string>, prefix: string) returns (found: Lookup)
    requires Increasing(names)
    ensures found.Unknown? <==> forall name :: name in names ==> !StartsWith(name, prefix)
    ensures forall name :: found == Match(name) <==>
      && name in names && StartsWith(name, prefix)
      && (name == prefix || forall other :: other in names && StartsWith(other, prefix) ==> other == name)
  {
    var low, high := Range(names, prefix);
    if low == high {
      return Lookup.Unknown;
    }
    var matching := names[low];
    if prefix in names {
      FirstIsThePrefix(names, prefix, low);
    }
    forall other | other in names && StartsWith(other, prefix)
      ensures exists k :: low <= k < high && names[k] == other
    {
      var k :| 0 <= k < |names| && names[k] == other;
    }
    if |prefix| == |matching| || low + 1 == high {
      assert |prefix| == |matching| ==> matching[..|prefix|] == matching;
      return Match(matching);
    }
    LessIsTotal(matching, names[low + 1]);
    assert names[low + 1] in names && StartsWith(names[low + 1], prefix);
    return Ambiguous;
  }

  /** What the highlighter is told about a command word. */
  datatype ValidationResult = Valid | Invalid | Unknown

  /** validate, for a command: only the first name of the range is looked at. */
  method Validate(names: seq<string>, command: string) returns (verdict: ValidationResult)
    requires Increasing(names)
    ensures verdict.Valid? <==> command in names
    ensures verdict.Invalid? <==> forall name :: name in names ==> !StartsWith(name, command)
  {
    var low, high := Range(names, command);
    if command in names {
      assert StartsWith(command, command);
    }
    if low == high {
      return Invalid;
    }
    if command in names {
      FirstIsThePrefix(names, command, low);
    }
    assert |command| == |names[low]| ==> names[low][..|command|] == names[low];
    return if |command| == |names[low]| then Valid else ValidationResult.Unknown;
  }
}
