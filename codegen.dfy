/**
 The code generator. Its randomness (a shuffle of the duplicates pool, or a
 sample without replacement of the digits) is a parameter: the caller supplies
 the population in the shuffled order the random source produced, and the
 generator keeps a prefix of it.
 */
module CodeGen {
  import opened Mastermind
  import opened Counting
  import opened Wrappers

  datatype GenError = InvalidConfiguration

  /** How often each digit is put into the duplicates pool: half the length
      rounded down, and at least MIN_REPEATED. */
  function Half(length: int): (h: nat)
    ensures h >= MIN_REPEATED && h >= length / 2
    ensures h == length / 2 || h == MIN_REPEATED
  {
    if length / 2 >= MIN_REPEATED then length / 2 else MIN_REPEATED
  }

  /** `n` copies of `v`. */
  function Repeat(v: int, n: nat): (s: seq<int>)
    ensures |s| == n && forall i :: 0 <= i < n ==> s[i] == v
  {
    if n == 0 then [] else Repeat(v, n - 1) + [v]
  }

  /** The digits 1..limit, each repeated `half` times, in increasing order. */
  function Pool(limit: int, half: nat): seq<int>
    decreases limit
  {
    if limit < 1 then [] else Pool(limit - 1, half) + Repeat(limit, half)
  }

  /** The integers lo, lo + 1, ..., hi - 1. */
  function Range(lo: int, hi: int): seq<int>
    decreases hi - lo
  {
    if hi <= lo then [] else [lo] + Range(lo + 1, hi)
  }

  /** What the random source rearranges: the pool with duplicates, the
      digits 1..limit without. */
  function Population(c: Conditions): seq<int>
  {
    if c.duplicates then Pool(c.limit, Half(c.length)) else Range(1, c.limit + 1)
  }

  /** `shuffled` holds the same elements as `population`, in some order. */
  predicate IsShuffleOf(shuffled: seq<int>, population: seq<int>)
  {
    multiset(shuffled) == multiset(population)
  }

  /** Python's `s[:n]`: a negative `n` counts from the end. */
  function PrefixSlice(s: seq<int>, n: int): (r: seq<int>)
    ensures |r| <= |s| && r == s[..|r|]
    ensures n >= 0 ==> |r| == if n <= |s| then n else |s|
    ensures n < 0 ==> |r| == if |s| + n >= 0 then |s| + n else 0
  {
    if n >= 0 then (if n <= |s| then s[..n] else s)
    else if |s| + n >= 0 then s[..|s| + n] else []
  }

  /** The secret code of a round whose random source produced `shuffled`. */
  function GenCode(c: Conditions, shuffled: seq<int>): (r: Result<seq<int>, GenError>)
    requires IsShuffleOf(shuffled, Population(c))
    ensures r.Ok? ==> |r.value| <= |shuffled| && r.value == shuffled[..|r.value|]
    ensures r.Ok? ==> forall i :: 0 <= i < |r.value| ==> 1 <= r.value[i] <= c.limit
    ensures c.duplicates ==> r.Ok?
    ensures c.duplicates ==> forall v :: Count(r.value, v) <= Half(c.length)
    ensures c.duplicates && c.length >= 0 ==>
      |r.value| == if c.length <= |Population(c)| then c.length else |Population(c)|
    ensures !c.duplicates ==> (r.Ok? <==> 0 <= c.length <= (if c.limit < 0 then 0 else c.limit))
    ensures !c.duplicates && r.Ok? ==> |r.value| == c.length && NoDuplicates(r.value)
  {
    PopulationBounds(c);
    assert |multiset(shuffled)| == |multiset(Population(c))|;
    if c.duplicates then
      var code := PrefixSlice(shuffled, c.length);
      PrefixWithin(shuffled, |code|, c.limit);
      PrefixCountsCapped(shuffled, |code|, Half(c.length), c);
      Ok(code)
    else if c.length < 0 || c.length > |shuffled| then
      Err(InvalidConfiguration)
    else
      var code := shuffled[..c.length];
      PrefixWithin(shuffled, c.length, c.limit);
      PrefixDistinct(shuffled, c.length, c);
      Ok(code)
  }

  lemma {:induction false} RepeatMultiplicity(v: int, n: nat, x: int)
    ensures multiset(Repeat(v, n))[x] == if x == v then n else 0
  {
    if n > 0 {
      RepeatMultiplicity(v, n - 1, x);
    }
  }

  /** Each digit 1..limit is in the pool `half` times, nothing else is in it. */
  lemma {:induction false} PoolMultiplicity(limit: int, half: nat, x: int)
    ensures multiset(Pool(limit, half))[x] == if 1 <= x <= limit then half else 0
    decreases limit
  {
    if limit >= 1 {
      PoolMultiplicity(limit - 1, half, x);
      RepeatMultiplicity(limit, half, x);
    }
  }

  lemma {:induction false} PoolSize(limit: int, half: nat)
    ensures |Pool(limit, half)| == if limit < 1 then 0 else limit * half
    decreases limit
  {
    if limit >= 1 {
      PoolSize(limit - 1, half);
    }
  }

  /** Each of lo..hi-1 is in the range once, nothing else is in it. */
  lemma {:induction false} RangeMultiplicity(lo: int, hi: int, x: int)
    ensures multiset(Range(lo, hi))[x] == if lo <= x < hi then 1 else 0
    ensures |Range(lo, hi)| == if hi <= lo then 0 else hi - lo
    decreases hi - lo
  {
    if lo < hi {
      RangeMultiplicity(lo + 1, hi, x);
    }
  }

  /** How often a value may occur in the population, and where it lies. */
  lemma PopulationBounds(c: Conditions)
    ensures forall x :: multiset(Population(c))[x] > 0 ==> 1 <= x <= c.limit
    ensures forall x :: multiset(Population(c))[x] <= if c.duplicates then Half(c.length) else 1
    ensures |Population(c)| == if c.limit < 1 then 0
                               else if c.duplicates then c.limit * Half(c.length) else c.limit
  {
    forall x ensures multiset(Population(c))[x] == if 1 <= x <= c.limit then (if c.duplicates then Half(c.length) else 1) else 0 {
      if c.duplicates {
        PoolMultiplicity(c.limit, Half(c.length), x);
      } else {
        RangeMultiplicity(1, c.limit + 1, x);
      }
    }
    if c.duplicates {
      PoolSize(c.limit, Half(c.length));
    } else {
      RangeMultiplicity(1, c.limit + 1, 0);
    }
  }

  lemma PrefixMultiset(s: seq<int>, n: nat)
    requires n <= |s|
    ensures multiset(s[..n]) <= multiset(s)
  {
    assert s == s[..n] + s[n..];
  }

  lemma PrefixWithin(shuffled: seq<int>, n: nat, limit: int)
    requires n <= |shuffled|
    requires forall x :: multiset(shuffled)[x] > 0 ==> 1 <= x <= limit
    ensures forall i :: 0 <= i < n ==> 1 <= shuffled[..n][i] <= limit
  {
    forall i | 0 <= i < n ensures 1 <= shuffled[..n][i] <= limit {
      assert shuffled[i] in multiset(shuffled);
    }
  }

  lemma PrefixCountsCapped(shuffled: seq<int>, n: nat, cap: nat, c: Conditions)
    requires n <= |shuffled|
    requires IsShuffleOf(shuffled, Population(c))
    requires forall x :: multiset(Population(c))[x] <= cap
    ensures forall v :: Count(shuffled[..n], v) <= cap
  {
    PrefixMultiset(shuffled, n);
    forall v ensures Count(shuffled[..n], v) <= cap {
      CountIsMultiplicity(shuffled[..n], v);
    }
  }

  /** A sequence in which no value occurs twice has no repeated position. */
  lemma AtMostOnceIsDistinct(s: seq<int>)
    requires forall x :: multiset(s)[x] <= 1
    ensures NoDuplicates(s)
  {
    forall i, j | 0 <= i < j < |s| ensures s[i] != s[j] {
      assert s == s[..i] + [s[i]] + s[i + 1..j] + [s[j]] + s[j + 1..];
      assert multiset{s[i], s[j]} <= multiset(s);
    }
  }

  lemma PrefixDistinct(shuffled: seq<int>, n: nat, c: Conditions)
    requires n <= |shuffled|
    requires IsShuffleOf(shuffled, Population(c))
    requires forall x :: multiset(Population(c))[x] <= 1
    ensures NoDuplicates(shuffled[..n])
  {
    PrefixMultiset(shuffled, n);
    AtMostOnceIsDistinct(shuffled[..n]);
  }

  /** With at least three digits to choose from, the pool always holds
      enough for a code of the requested length. */
  lemma FullLengthCode(c: Conditions, shuffled: seq<int>)
    requires IsShuffleOf(shuffled, Population(c))
    requires c.duplicates && c.length >= 0 && c.limit >= MIN_LIMIT
    ensures GenCode(c, shuffled).Ok? && |GenCode(c, shuffled).value| == c.length
  {
    PopulationBounds(c);
    var h := Half(c.length);
    assert c.length <= 3 * h by {
      if c.length >= 2 * MIN_REPEATED {
        assert h == c.length / 2;
      }
    }
    assert 3 * h <= c.limit * h by {
      assert c.limit * h == 3 * h + (c.limit - 3) * h;
    }
  }

  /** Conditions the menus accept always yield a code of full length. */
  lemma {:induction false} PlayableCodesFullLength(c: Conditions, shuffled: seq<int>)
    requires IsShuffleOf(shuffled, Population(c))
    requires 0 <= c.length && MIN_LIMIT <= c.limit && (!c.duplicates ==> c.length <= c.limit)
    ensures GenCode(c, shuffled).Ok? && |GenCode(c, shuffled).value| == c.length
  {
    if c.duplicates {
      FullLengthCode(c, shuffled);
    }
  }

  /** Every preset level yields a code of its full length. */
  lemma LevelCodesFullLength(level: int, shuffled: seq<int>)
    requires 1 <= level <= 9
    requires IsShuffleOf(shuffled, Population(Level(level)))
    ensures GenCode(Level(level), shuffled).Ok?
    ensures |GenCode(Level(level), shuffled).value| == Level(level).length
  {
    PlayableCodesFullLength(Level(level), shuffled);
  }

  /** Every custom level the prompts accept yields a code of its full length. */
  lemma CustomCodesFullLength(c: Conditions, shuffled: seq<int>)
    requires CustomConditions(c)
    requires IsShuffleOf(shuffled, Population(c))
    ensures GenCode(c, shuffled).Ok? && |GenCode(c, shuffled).value| == c.length
  {
    PlayableCodesFullLength(c, shuffled);
  }

  /** Without duplicates and with every digit used, the code is a
      rearrangement of 1..limit. */
  lemma SampleOfAllDigits(c: Conditions, shuffled: seq<int>)
    requires IsShuffleOf(shuffled, Population(c))
    requires !c.duplicates && c.length == c.limit >= 0
    ensures GenCode(c, shuffled).Ok?
    ensures multiset(GenCode(c, shuffled).value) == multiset(Range(1, c.limit + 1))
  {
    PopulationBounds(c);
    assert shuffled[..c.length] == shuffled;
  }

  /** With a single digit the pool holds only two ones, so a three-digit
      code comes out two digits long. */
  lemma SingleDigitCodeIsShort(shuffled: seq<int>)
    requires IsShuffleOf(shuffled, Population(Conditions(12, 3, 1, true)))
    ensures GenCode(Conditions(12, 3, 1, true), shuffled) == Ok([1, 1])
  {
    var c := Conditions(12, 3, 1, true);
    PopulationBounds(c);
    assert |shuffled| == 2;
    assert shuffled[0] in multiset(shuffled) && shuffled[1] in multiset(shuffled);
    assert shuffled == [1, 1];
  }
}
