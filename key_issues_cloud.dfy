/**
 * The key-issues cloud: each issue's tag size and colour are picked by a
 * deterministic 32-bit string hash of its id and title.
 */
module KeyIssuesCloud {
  import opened Wrappers
  import opened Text
  import opened CivicTypes

  const TwoTo31: int := 0x8000_0000
  const TwoTo32: int := 0x1_0000_0000

  predicate IsInt32(x: int) {
    -TwoTo31 <= x < TwoTo31
  }

  /** `x | 0`: the signed 32-bit integer congruent to `x` modulo 2^32. */
  function ToInt32(x: int): (r: int)
    ensures IsInt32(r)
    ensures IsInt32(x) ==> r == x
  {
    var m := x % TwoTo32;
    if m >= TwoTo31 then m - TwoTo32 else m
  }

  /** Numbers that differ by a multiple of 2^32 convert to the same 32-bit integer. */
  lemma ToInt32Congruent(x: int, y: int, k: int)
    requires x == y + k * TwoTo32
    ensures ToInt32(x) == ToInt32(y)
  {
    var q := y / TwoTo32;
    assert y == q * TwoTo32 + y % TwoTo32;
    assert x == (q + k) * TwoTo32 + y % TwoTo32;
    assert x % TwoTo32 == y % TwoTo32;
  }

  /** How many times 2^32 separates `x` from `x | 0`. */
  function Wraps(x: int): (k: int)
    ensures x == ToInt32(x) + k * TwoTo32
  {
    var q := x / TwoTo32;
    if x % TwoTo32 >= TwoTo31 then q + 1 else q
  }

  /** `h << 5` for a 32-bit `h`: the low 32 bits of `h * 32`, read as signed. */
  function ShiftLeft5(h: int): int {
    ToInt32(ToInt32(h) * 32)
  }

  /** One iteration of the loop: `hash = (hash << 5) - hash + char; hash |= 0`. */
  function Step(h: int, c: int): (r: int)
    ensures IsInt32(r)
  {
    ToInt32(ShiftLeft5(h) - h + c)
  }

  /** Each step is the Java `String.hashCode` recurrence `31 * h + c`, wrapped to 32 bits. */
  lemma StepIsTimes31(h: int, c: int)
    requires IsInt32(h)
    ensures Step(h, c) == ToInt32(31 * h + c)
  {
    var k := Wraps(h * 32);
    ToInt32Congruent(31 * h + c, ShiftLeft5(h) - h + c, k);
  }

  /** `hash` after the loop has run over `s` (`charCodeAt` is the character's code). */
  function Hash(s: string): (r: int)
    ensures IsInt32(r)
    decreases |s|
  {
    if s == [] then 0 else Step(Hash(s[..|s| - 1]), s[|s| - 1] as int)
  }

  /** The hash polynomial without wrap-around: the sum of `s[i] * 31^(n-1-i)`. */
  function Polynomial(s: string): int
    decreases |s|
  {
    if s == [] then 0 else 31 * Polynomial(s[..|s| - 1]) + s[|s| - 1] as int
  }

  /** The loop computes the hash polynomial modulo 2^32, as a signed 32-bit integer. */
  lemma {:induction false} HashIsPolynomial(s: string)
    ensures Hash(s) == ToInt32(Polynomial(s))
    decreases |s|
  {
    if s != [] {
      var init, c := s[..|s| - 1], s[|s| - 1] as int;
      HashIsPolynomial(init);
      var h, p := Hash(init), Polynomial(init);
      StepIsTimes31(h, c);
      var k := Wraps(p);
      assert 31 * p + c == 31 * h + c + (31 * k) * TwoTo32;
      ToInt32Congruent(31 * p + c, 31 * h + c, 31 * k);
    }
  }

  function Abs(x: int): nat {
    if x < 0 then -x else x
  }

  /**
   * `deterministicIndex(input, max)` for a string: 0 for the empty string
   * (returned before `max` is used); otherwise `Math.abs(hash) % max`, which
   * is NaN (`None`) when `max` is 0 and, the dividend being non-negative,
   * `Math.abs(hash) % |max|` otherwise.
   */
  function Index(input: string, max: int): (r: Option<int>)
    ensures r.None? <==> input != [] && max == 0
    ensures max > 0 ==> r.Some? && 0 <= r.value < max
    ensures input == [] ==> r == Some(0)
  {
    if input == [] then Some(0)
    else if max == 0 then None
    else Some(Abs(Hash(input)) % Abs(max))
  }

  /** The imperative `deterministicIndex` on a string. */
  method DeterministicIndex(input: string, max: int) returns (r: Option<int>)
    ensures r == Index(input, max)
  {
    var hash := 0;
    if |input| == 0 {
      return Some(hash);
    }
    for i := 0 to |input|
      invariant hash == Hash(input[..i])
    {
      var code := input[i] as int;
      assert input[..i + 1][..i] == input[..i];
      hash := ShiftLeft5(hash) - hash + code;
      hash := ToInt32(hash);
    }
    assert input[..|input|] == input;
    if max == 0 {
      r := None;
    } else {
      r := Some(Abs(hash) % Abs(max));
    }
  }

  /** `deterministicIndex(n, max)` for a number hashes its decimal string. */
  method DeterministicIndexOfNumber(n: int, max: int) returns (r: Option<int>)
    ensures r == Index(IntToString(n), max)
  {
    r := DeterministicIndex(IntToString(n), max);
  }

  /** A number and its decimal string pick the same index, which is in range for a positive `max`. */
  lemma NumberIndexInRange(n: int, max: int)
    requires max > 0
    ensures var r := Index(IntToString(n), max); r.Some? && 0 <= r.value < max
  {
  }

  const TagSizes: seq<string> := ["text-sm", "text-base", "text-lg", "text-xl", "text-2xl"]
  const TagColors: seq<string> :=
    ["text-cyan-400", "text-sky-400", "text-blue-400", "text-indigo-400",
     "text-violet-400", "text-fuchsia-400", "text-rose-400"]

  /** The size class of an issue's tag, chosen by its id; the lookup is always in range. */
  function SizeClass(issue: KeyIssue): (c: string)
    ensures c in TagSizes
  {
    TagSizes[Index(issue.id, |TagSizes|).value]
  }

  /** The colour class of an issue's tag, chosen by its title; the lookup is always in range. */
  function ColorClass(issue: KeyIssue): (c: string)
    ensures c in TagColors
  {
    TagColors[Index(issue.title, |TagColors|).value]
  }
}
