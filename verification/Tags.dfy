/** Versions, release phases and the Git tags that spell them. */
module Tags {

  datatype Phase = Alpha | Beta | Rc

  datatype Version = Version(major: nat, minor: nat, patch: nat)

  /** A Git tag: a plain stable version, a phase preview, or any other name. */
  datatype Tag =
    | Plain(base: Version)
    | Preview(base: Version, phase: Phase, number: nat)
    | Foreign(name: string)

  predicate Below(a: Version, b: Version) {
    || a.major < b.major
    || (a.major == b.major && a.minor < b.minor)
    || (a.major == b.major && a.minor == b.minor && a.patch < b.patch)
  }

  /** `highest` is the largest suffix in use for a base and phase, or zero. */
  ghost predicate IsHighest(tags: seq<Tag>, base: Version, phase: Phase, highest: nat) {
    && (highest == 0 || Preview(base, phase, highest) in tags)
    && forall n: nat :: Preview(base, phase, n) in tags ==> n <= highest
  }

  function Highest(tags: seq<Tag>, base: Version, phase: Phase): (highest: nat)
    ensures IsHighest(tags, base, phase, highest)
  {
    if tags == [] then 0
    else
      var rest := Highest(tags[1..], base, phase);
      var tag := tags[0];
      if tag.Preview? && tag.base == base && tag.phase == phase && tag.number > rest then tag.number else rest
  }
}
