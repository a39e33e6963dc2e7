/**
 * The `pepe` and `8pepe` commands: the 32-bit string hash that seeds a reply, the
 * Fisher-Yates shuffle, the rendering of file names into search entries, and the
 * module-level state that `randomPepe` and `pepeSearch` update in place.
 */
module Pepe {
  import opened Wrappers
  import opened JsString
  import opened JsArray

  // ---------------------------------------------------------------- 32-bit arithmetic

  const TwoTo31: int := 0x8000_0000
  const TwoTo32: int := 0x1_0000_0000

  /** `ToInt32`: the signed 32-bit integer congruent to `x` modulo 2^32. This is what
      both `Math.imul` and `| 0` apply to their exact results. */
  function Wrap32(x: int): (r: int)
    ensures -TwoTo31 <= r < TwoTo31
    ensures (x - r) % TwoTo32 == 0
  {
    (x + TwoTo31) % TwoTo32 - TwoTo31
  }

  /** A value already in range is unchanged, and adding a multiple of 2^32 changes
      nothing: `Wrap32` is reduction modulo 2^32. */
  lemma Wrap32Facts(x: int, m: int)
    ensures -TwoTo31 <= x < TwoTo31 ==> Wrap32(x) == x
    ensures Wrap32(x + TwoTo32 * m) == Wrap32(x)
  {
    var q, r := (x + TwoTo31) / TwoTo32, (x + TwoTo31) % TwoTo32;
    assert x + TwoTo31 + TwoTo32 * m == TwoTo32 * (q + m) + r;
    DivModUnique(x + TwoTo31 + TwoTo32 * m, q + m, r);
  }

  /** Division by 2^32 leaves a unique quotient and remainder. */
  lemma DivModUnique(a: int, q: int, r: int)
    requires a == TwoTo32 * q + r && 0 <= r < TwoTo32
    ensures a % TwoTo32 == r
  {
  }

  // ---------------------------------------------------------------- hash

  /** One iteration of `hash`: `Math.imul(31, h) + s.charCodeAt(i) | 0`. The sum of
      an int32 and a code unit is exact in a double, so only the two wraps matter. */
  function HashStep(h: int, unit: CodeUnit): (r: int)
    ensures -TwoTo31 <= r < TwoTo31
  {
    Wrap32(Wrap32(31 * h) + unit)
  }

  /** The value of `h` after the loop has consumed the code units `u`. */
  function HashOf(u: seq<CodeUnit>): (h: int)
    ensures -TwoTo31 <= h < TwoTo31
  {
    if u == [] then 0 else HashStep(HashOf(u[..|u| - 1]), u[|u| - 1])
  }

  /** Java's `String.hashCode` as it is defined: the polynomial
      `u[0]*31^(n-1) + ... + u[n-1]` over the integers. */
  function Polynomial(u: seq<CodeUnit>): int {
    if u == [] then 0 else 31 * Polynomial(u[..|u| - 1]) + u[|u| - 1]
  }

  /** The wrap inside the step can be taken once at the end. */
  lemma HashStepIsJavaStep(h: int, unit: CodeUnit)
    ensures HashStep(h, unit) == Wrap32(31 * h + unit)
  {
    var w := Wrap32(31 * h);
    var m := (31 * h - w) / TwoTo32;
    assert 31 * h == w + TwoTo32 * m;
    Wrap32Facts(w + unit, m);
  }

  /** `hash` is `String.hashCode`: the polynomial reduced to a signed 32-bit value. */
  lemma {:induction false} HashOfIsPolynomial(u: seq<CodeUnit>)
    ensures HashOf(u) == Wrap32(Polynomial(u))
  {
    if u == [] {
      Wrap32Facts(0, 0);
    } else {
      var p := u[..|u| - 1];
      HashOfIsPolynomial(p);
      HashStepIsJavaStep(HashOf(p), u[|u| - 1]);
      HashStepIsJavaStep(Polynomial(p), u[|u| - 1]);
      var m := (Polynomial(p) - Wrap32(Polynomial(p))) / TwoTo32;
      assert 31 * Polynomial(p) + u[|u| - 1]
          == 31 * Wrap32(Polynomial(p)) + u[|u| - 1] + TwoTo32 * (31 * m);
      Wrap32Facts(31 * Wrap32(Polynomial(p)) + u[|u| - 1], 31 * m);
    }
  }

  /** `hash`: the `for` loop over the code units of `s`. */
  method Hash(s: string) returns (h: int)
    ensures h == HashOf(Utf16(s))
    ensures -TwoTo31 <= h < TwoTo31
  {
    var units := Utf16(s);
    h := 0;
    var i := 0;
    while i < |units|
      invariant 0 <= i <= |units|
      invariant h == HashOf(units[..i])
    {
      assert units[..i + 1][..i] == units[..i];
      h := HashStep(h, units[i]);
      i := i + 1;
    }
    assert units[..i] == units;
  }

  lemma HashOfEmpty()
    ensures HashOf(Utf16("")) == 0
  {
  }

  /** The value Java gives for "hello". */
  lemma HashOfHello()
    ensures HashOf(Utf16("hello")) == 99162322
  {
    var u: seq<CodeUnit> := [104, 101, 108, 108, 111];
    assert Utf16("hello") == u;
    assert Polynomial(u) == 99162322 by {
      var u1, u2, u3, u4: seq<CodeUnit> := [104], [104, 101], [104, 101, 108], [104, 101, 108, 108];
      assert u1[..0] == [] && u2[..1] == u1 && u3[..2] == u2 && u4[..3] == u3 && u[..4] == u4;
      assert Polynomial(u1) == 104;
      assert Polynomial(u2) == 3325;
      assert Polynomial(u3) == 103183;
      assert Polynomial(u4) == 3198781;
    }
    HashOfIsPolynomial(u);
    Wrap32Facts(99162322, 0);
  }

  // ---------------------------------------------------------------- seedPepe's index

  /** `Math.abs` of a hash; note that `Math.abs(-2^31)` is `2^31`, not negative. */
  function Abs(x: int): (r: nat)
    ensures r == x || r == -x
  {
    if x < 0 then -x else x
  }

  /** The phrase as `seedPepe` hashes it: lower-cased, then trimmed. */
  function Normalise(phrase: string): (r: string)
    ensures |r| <= |phrase|
    ensures forall i :: 0 <= i < |r| ==> !IsAsciiUpper(r[i])
  {
    LowerTrimCommute(phrase);
    Trim(Lower(phrase))
  }

  /** `Math.abs(hash(phrase.toLowerCase().trim())) % URIs.length`. With no URIs left
      the remainder is `NaN` and `URIs[NaN]` is `undefined`: `None` here. */
  function SeedIndex(phrase: string, count: nat): (r: Option<nat>)
    ensures r.Some? <==> count > 0
    ensures r.Some? ==> r.value < count
  {
    if count == 0 then None else Some(Abs(HashOf(Utf16(Normalise(phrase)))) % count)
  }

  /** Trimming and lower-casing commute and are idempotent, so phrases that differ
      only in ASCII case or in surrounding white space pick the same entry. */
  lemma SeedIndexIgnoresCaseAndSpacing(phrase: string, count: nat)
    ensures SeedIndex(Upper(phrase), count) == SeedIndex(phrase, count)
    ensures SeedIndex(Trim(phrase), count) == SeedIndex(phrase, count)
    ensures SeedIndex(Normalise(phrase), count) == SeedIndex(phrase, count)
  {
    LowerOfUpper(phrase);
    LowerTrimCommute(phrase);
    TrimIdempotent(Lower(phrase));
    LowerIdempotent(Trim(phrase));
    LowerTrimCommute(Lower(phrase));
    LowerIdempotent(phrase);
  }

  /** A phrase of white space only hashes as the empty string and so picks entry 0. */
  lemma SeedIndexOfBlankPhrase(phrase: string, count: nat)
    requires count > 0
    requires forall k :: 0 <= k < |phrase| ==> IsWhitespace(phrase[k])
    ensures SeedIndex(phrase, count) == Some(0)
  {
    assert Normalise(phrase) == [] by {
      forall k | 0 <= k < |phrase| ensures IsWhitespace(Lower(phrase)[k]) {
        CaseMappingFacts(phrase[k]);
      }
    }
    assert HashOf(Utf16(Normalise(phrase))) == 0;
  }

  // ---------------------------------------------------------------- shuffle

  /** Enough draws of `Math.random` for `n` iterations, each in `[0, 1)`. */
  predicate IsDraws(draws: seq<real>, n: nat) {
    n <= |draws| && forall k :: 0 <= k < |draws| ==> 0.0 <= draws[k] < 1.0
  }

  /** `Math.floor(Math.random() * currentIndex)` for the draw `r`. */
  function Pick(r: real, current: nat): (k: nat)
    requires 0.0 <= r < 1.0 && 0 < current
    ensures k < current
  {
    assert 0.0 <= r * current as real < current as real;
    (r * current as real).Floor
  }

  /** The destructuring swap `[a[i], a[j]] = [a[j], a[i]]`. */
  function Swap<T>(s: seq<T>, i: nat, j: nat): (r: seq<T>)
    requires i < |s| && j < |s|
    ensures |r| == |s|
  {
    s[i := s[j]][j := s[i]]
  }

  /** A swap only moves elements. */
  lemma SwapPermutes<T>(s: seq<T>, i: nat, j: nat)
    requires i < |s| && j < |s|
    ensures multiset(Swap(s, i, j)) == multiset(s)
  {
  }

  /** What the remaining iterations of the shuffle loop make of `s` when `current`
      elements are still to be placed and `draws` are the next values of `Math.random`. */
  function ShuffleFrom<T>(s: seq<T>, draws: seq<real>, current: nat): seq<T>
    requires current <= |s| && IsDraws(draws, current)
    decreases current
  {
    if current == 0 then s
    else ShuffleFrom(Swap(s, current - 1, Pick(draws[0], current)), draws[1..], current - 1)
  }

  /** One iteration of the loop, unfolded. */
  lemma ShuffleStep<T>(s: seq<T>, draws: seq<real>, current: nat)
    requires 0 < current <= |s| && IsDraws(draws, current)
    ensures IsDraws(draws[1..], current - 1)
    ensures ShuffleFrom(s, draws, current)
            == ShuffleFrom(Swap(s, current - 1, Pick(draws[0], current)), draws[1..], current - 1)
  {
  }

  /** The whole shuffle of `s`. */
  function Shuffled<T>(s: seq<T>, draws: seq<real>): seq<T>
    requires IsDraws(draws, |s|)
  {
    ShuffleFrom(s, draws, |s|)
  }

  /** Whatever `Math.random` yields, the shuffle permutes: same length, same elements
      with the same multiplicities. */
  lemma {:induction false} ShuffleFromPermutes<T>(s: seq<T>, draws: seq<real>, current: nat)
    requires current <= |s| && IsDraws(draws, current)
    ensures |ShuffleFrom(s, draws, current)| == |s|
    ensures multiset(ShuffleFrom(s, draws, current)) == multiset(s)
    decreases current
  {
    if current > 0 {
      var t := Swap(s, current - 1, Pick(draws[0], current));
      SwapPermutes(s, current - 1, Pick(draws[0], current));
      ShuffleFromPermutes(t, draws[1..], current - 1);
    }
  }

  lemma ShuffledPermutes<T>(s: seq<T>, draws: seq<real>)
    requires IsDraws(draws, |s|)
    ensures |Shuffled(s, draws)| == |s| && multiset(Shuffled(s, draws)) == multiset(s)
  {
    ShuffleFromPermutes(s, draws, |s|);
  }

  /** `shuffle`: the `while` loop swapping cells of the array in place. It returns the
      very array it was given. */
  method Shuffle<T>(list: JsArray<T>, draws: seq<real>) returns (same: JsArray<T>)
    requires IsDraws(draws, |list.elems|)
    modifies list
    ensures same == list
    ensures list.elems == Shuffled(old(list.elems), draws)
    ensures |list.elems| == |old(list.elems)| && multiset(list.elems) == multiset(old(list.elems))
  {
    ghost var start := list.elems;
    var currentIndex := |list.elems|;
    var used := 0;
    while currentIndex != 0
      invariant 0 <= currentIndex <= |list.elems| == |start|
      invariant used + currentIndex == |start|
      invariant IsDraws(draws[used..], currentIndex)
      invariant ShuffleFrom(list.elems, draws[used..], currentIndex) == Shuffled(start, draws)
      decreases currentIndex
    {
      ghost var before := list.elems;
      var randomIndex := Pick(draws[used], currentIndex);
      currentIndex := currentIndex - 1;
      var atRandom, atCurrent := list.elems[randomIndex], list.elems[currentIndex];
      list.elems := list.elems[currentIndex := atRandom];
      list.elems := list.elems[randomIndex := atCurrent];
      assert list.elems == Swap(before, currentIndex, randomIndex);
      ShuffleStep(before, draws[used..], currentIndex + 1);
      assert draws[used..][1..] == draws[used + 1..];
      used := used + 1;
    }
    ShuffledPermutes(start, draws);
    return list;
  }

  // ---------------------------------------------------------------- camelize

  /** Whether `(?:^\w|[A-Z]|\b\w)` matches the single character at `i`: a word
      character at the start, an upper-case letter anywhere, or a word character just
      after a word boundary. */
  predicate RecaseMatch(s: string, i: nat)
    requires i < |s|
  {
    (i == 0 && IsWordChar(s[0]))
    || IsAsciiUpper(s[i])
    || (IsWordChar(s[i]) && (i == 0 || !IsWordChar(s[i - 1])))
  }

  /** The global `replace` with the callback that lower-cases a match at index 0 and
      upper-cases every other match. */
  function Recase(s: string): (r: string)
    ensures |r| == |s|
    ensures forall i :: 0 <= i < |s| ==> LowerChar(r[i]) == LowerChar(s[i])
    ensures |s| > 0 && IsWordChar(s[0]) ==> r[0] == LowerChar(s[0])
    ensures |s| > 0 && !IsWordChar(s[0]) ==> r[0] == s[0]
    ensures forall i :: 0 < i < |s| && IsWordChar(s[i]) && !IsWordChar(s[i - 1]) ==> r[i] == UpperChar(s[i])
    ensures forall i :: 0 < i < |s| && IsAsciiUpper(s[i]) ==> r[i] == s[i]
    ensures forall i :: 0 < i < |s| && !IsAsciiUpper(s[i]) && IsWordChar(s[i - 1]) ==> r[i] == s[i]
  {
    seq(|s|, i requires 0 <= i < |s| =>
      if !RecaseMatch(s, i) then s[i] else if i == 0 then LowerChar(s[i]) else UpperChar(s[i]))
  }

  predicate IsNotWhitespace(c: char) { !IsWhitespace(c) }

  /** `camelize` before the white space is deleted: the first `-` and then the first
      `_` become spaces, and word starts are re-cased. */
  function Spaced(str: string): (r: string)
    ensures |r| == |str|
  {
    Recase(ReplaceFirst(ReplaceFirst(str, "-", " "), "_", " "))
  }

  /** `camelize`: the spaced and re-cased string with every white-space character
      deleted and every other character kept, in order. */
  function Camelize(str: string): (r: string)
    ensures SubsequenceOf(r, Spaced(str))
    ensures forall i :: 0 <= i < |r| ==> IsNotWhitespace(r[i])
    ensures forall c :: multiset(r)[c] == if IsNotWhitespace(c) then multiset(Spaced(str))[c] else 0
  {
    var spaced := Spaced(str);
    FilterIsSubsequence(spaced, IsNotWhitespace);
    FilterSound(spaced, IsNotWhitespace);
    FilterCount(spaced, IsNotWhitespace);
    Filter(spaced, IsNotWhitespace)
  }

  /** Case mapping never creates or removes a `-` or `_`. */
  lemma {:induction false} RecaseKeepsCount(s: string, t: string, c: char)
    requires |s| == |t|
    requires forall i :: 0 <= i < |s| ==> (s[i] == c <==> t[i] == c)
    ensures multiset(s)[c] == multiset(t)[c]
  {
    if s != [] {
      assert s == [s[0]] + s[1..] && t == [t[0]] + t[1..];
      RecaseKeepsCount(s[1..], t[1..], c);
    }
  }

  /** Only the first `-` and the first `_` are turned into spaces (and then deleted);
      later ones survive. */
  lemma CamelizeSeparatorCounts(str: string)
    ensures multiset(Camelize(str))['-'] == if '-' in str then multiset(str)['-'] - 1 else multiset(str)['-']
    ensures multiset(Camelize(str))['_'] == if '_' in str then multiset(str)['_'] - 1 else multiset(str)['_']
  {
    var a := ReplaceFirst(str, "-", " ");
    var b := ReplaceFirst(a, "_", " ");
    RecaseAndSqueezeKeepCount(b, '-');
    RecaseAndSqueezeKeepCount(b, '_');
    ReplaceFirstCount(str, '-', ' ', '-');
    ReplaceFirstCount(str, '-', ' ', '_');
    ReplaceFirstCount(a, '_', ' ', '-');
    ReplaceFirstCount(a, '_', ' ', '_');
  }

  /** Re-casing and deleting white space leave every `-` and `_` in place. */
  lemma RecaseAndSqueezeKeepCount(b: string, ch: char)
    requires ch == '-' || ch == '_'
    ensures multiset(Filter(Recase(b), IsNotWhitespace))[ch] == multiset(b)[ch]
  {
    var c := Recase(b);
    forall i | 0 <= i < |b| ensures b[i] == ch <==> c[i] == ch {
      CaseMappingFacts(b[i]);
    }
    RecaseKeepsCount(b, c, ch);
    FilterCount(c, IsNotWhitespace);
  }

  /** After the dash has become a space, the second word is capitalised and the first
      is left as it is. */
  lemma RecaseSadPepe()
    ensures Recase("sad pepe") == "sad Pepe"
  {
    var r := Recase("sad pepe");
    assert r[0] == 's' && r[1] == 'a' && r[2] == 'd' && r[3] == ' ';
    assert r[4] == 'P' && r[5] == 'e' && r[6] == 'p' && r[7] == 'e';
  }

  /** Deleting the one space between two runs of letters. */
  lemma SqueezeOneSpace(a: string, b: string)
    requires forall i :: 0 <= i < |a| ==> IsAsciiLetter(a[i])
    requires forall i :: 0 <= i < |b| ==> IsAsciiLetter(b[i])
    ensures Filter(a + " " + b, IsNotWhitespace) == a + b
  {
    FilterDropsOne(a, ' ', b, IsNotWhitespace);
  }

  /** In `a-b` with lower-case words, the first `-` is the one between them. */
  lemma KebabDash(a: string, b: string)
    requires forall i :: 0 <= i < |a| ==> IsAsciiLower(a[i])
    ensures ReplaceFirst(a + "-" + b, "-", " ") == a + " " + b
  {
    var s := a + "-" + b;
    IndexOfChar(s, '-');
    var k := IndexOf(s, "-").value;
    assert s[|a|] == '-';
    ReplaceFirstAt(s, "-", " ", k);
    assert s[..k] == a && s[k + 1..] == b;
  }

  /** Lower-case words and a space hold no `_`, so the second replacement does nothing. */
  lemma KebabNoUnderscore(a: string, b: string)
    requires forall i :: 0 <= i < |a| ==> IsAsciiLower(a[i])
    requires forall i :: 0 <= i < |b| ==> IsAsciiLower(b[i])
    ensures ReplaceFirst(a + " " + b, "_", " ") == a + " " + b
  {
    var t := a + " " + b;
    forall i | 0 <= i < |t| ensures t[i] != '_' {
      if i < |a| { assert t[i] == a[i]; }
      else if i > |a| { assert t[i] == b[i - |a| - 1]; }
    }
    MissingHeadNotIncluded(t, "_");
  }

  /** `camelize` before the squeeze, on `a-b` with lower-case words. */
  lemma SpacedKebab(a: string, b: string)
    requires |a| > 0 && |b| > 0
    requires forall i :: 0 <= i < |a| ==> IsAsciiLower(a[i])
    requires forall i :: 0 <= i < |b| ==> IsAsciiLower(b[i])
    ensures Spaced(a + "-" + b) == a + " " + ([UpperChar(b[0])] + b[1..])
  {
    KebabDash(a, b);
    KebabNoUnderscore(a, b);
    RecaseKebab(a, b);
  }

  /** Capitalising the first letter of a lower-case word leaves it all letters. */
  lemma CapitalisedLetters(b: string)
    requires |b| > 0
    requires forall i :: 0 <= i < |b| ==> IsAsciiLower(b[i])
    ensures var w := [UpperChar(b[0])] + b[1..]; forall i :: 0 <= i < |w| ==> IsAsciiLetter(w[i])
  {
    var w := [UpperChar(b[0])] + b[1..];
    forall i | 0 <= i < |w| ensures IsAsciiLetter(w[i]) {
      if i > 0 { assert w[i] == b[i]; }
    }
  }

  /** Re-casing `a b` for lower-case words leaves `a` as it is. */
  lemma RecaseKebabLeft(a: string, b: string)
    requires forall i :: 0 <= i < |a| ==> IsAsciiLower(a[i])
    ensures forall i :: 0 <= i < |a| ==> Recase(a + " " + b)[i] == a[i]
  {
    var t := a + " " + b;
    forall i | 0 <= i < |a| ensures Recase(t)[i] == a[i] {
      assert t[i] == a[i];
      if i > 0 { assert t[i - 1] == a[i - 1]; }
    }
  }

  /** Re-casing `a b` for lower-case words leaves `b` after its first letter as it is. */
  lemma RecaseKebabRight(a: string, b: string)
    requires |b| > 0
    requires forall i :: 0 <= i < |b| ==> IsAsciiLower(b[i])
    ensures forall j :: |a| + 2 <= j < |a| + 1 + |b| ==> Recase(a + " " + b)[j] == b[1..][j - |a| - 2]
  {
    var t := a + " " + b;
    forall j | |a| + 2 <= j < |a| + 1 + |b| ensures Recase(t)[j] == b[1..][j - |a| - 2] {
      assert t[j] == b[j - |a| - 1] && t[j - 1] == b[j - |a| - 2];
    }
  }

  /** A string is determined by its parts: a prefix, two single characters and a suffix. */
  lemma FourParts(r: string, a: string, c: char, d: char, e: string)
    requires |r| == |a| + 2 + |e|
    requires forall i :: 0 <= i < |a| ==> r[i] == a[i]
    requires r[|a|] == c && r[|a| + 1] == d
    requires forall j :: |a| + 2 <= j < |r| ==> r[j] == e[j - |a| - 2]
    ensures r == a + [c] + ([d] + e)
  {
    var w := a + [c] + ([d] + e);
    forall i | 0 <= i < |r| ensures r[i] == w[i] {
      if |a| + 2 <= i { assert w[i] == e[i - |a| - 2]; }
    }
  }

  /** Re-casing `a b` for lower-case words: only the first letter of `b` changes. */
  lemma RecaseKebab(a: string, b: string)
    requires |a| > 0 && |b| > 0
    requires forall i :: 0 <= i < |a| ==> IsAsciiLower(a[i])
    requires forall i :: 0 <= i < |b| ==> IsAsciiLower(b[i])
    ensures Recase(a + " " + b) == a + " " + ([UpperChar(b[0])] + b[1..])
  {
    var t := a + " " + b;
    RecaseKebabLeft(a, b);
    RecaseKebabRight(a, b);
    assert t[|a| - 1] == a[|a| - 1] && t[|a|] == ' ' && t[|a| + 1] == b[0];
    FourParts(Recase(t), a, ' ', UpperChar(b[0]), b[1..]);
  }

  /** A kebab-case name of two lower-case words becomes camel case: the dash is
      deleted and the second word is capitalised. */
  lemma CamelizeKebab(a: string, b: string)
    requires |a| > 0 && |b| > 0
    requires forall i :: 0 <= i < |a| ==> IsAsciiLower(a[i])
    requires forall i :: 0 <= i < |b| ==> IsAsciiLower(b[i])
    ensures Camelize(a + "-" + b) == a + ([UpperChar(b[0])] + b[1..])
  {
    SpacedKebab(a, b);
    CapitalisedLetters(b);
    forall i | 0 <= i < |a| ensures IsAsciiLetter(a[i]) { }
    SqueezeOneSpace(a, [UpperChar(b[0])] + b[1..]);
  }

  // ---------------------------------------------------------------- search entries

  /** The named groups of a match of `pepeNameRegex`: the optional run of digits `id`
      and the lazily matched base name `pepe`. */
  datatype Groups = Groups(id: Option<string>, pepe: string)

  /** One search entry: the rendered name (a JavaScript string, hence code units) and
      the URI it was rendered from. */
  datatype Pepe = Pepe(name: seq<CodeUnit>, value: string)

  /** Discord's limit on the length of a choice's name, in code units. */
  const NameLimit: int := 100

  /** `id.length > 0 ? `[${id}] ` : ''`, an absent group counting as `''`. */
  function IdText(id: Option<string>): string {
    var digits := if id.Some? then id.value else "";
    if |digits| > 0 then "[" + digits + "] " else ""
  }

  /** `${idText}${name.slice(0, 100 - idText.length)}` with `name` the camelized base
      name; both lengths count code units. */
  function RenderName(g: Groups): seq<CodeUnit> {
    var idUnits := Utf16(IdText(g.id));
    idUnits + Slice(Utf16(Camelize(g.pepe)), 0, NameLimit - |idUnits|)
  }

  /** What `head + body.slice(0, 100 - head.length)` keeps: all of `head`, then the
      front of `body`, up to 100 units in all when `head` fits; past 100, the negative
      end index drops `|head| - 100` units from the end of `body` instead. */
  lemma {:induction false} HeadThenCut(head: seq<CodeUnit>, body: seq<CodeUnit>)
    ensures var r := head + Slice(body, 0, NameLimit - |head|);
            |head| <= |r| && r[..|head|] == head
            && r[|head|..] == body[..|r| - |head|]
            && (|head| <= NameLimit ==>
                  |r| == if |head| + |body| < NameLimit then |head| + |body| else NameLimit)
            && (NameLimit < |head| ==>
                  |r| - |head| == if |body| < |head| - NameLimit then 0
                                  else |body| - (|head| - NameLimit))
  {
    var cut := Slice(body, 0, NameLimit - |head|);
    var r := head + cut;
    assert r[..|head|] == head;
    assert r[|head|..] == cut;
    assert cut == body[..|cut|];
  }

  /** The rendered name is the id text followed by the front of the camelized name,
      at most 100 units unless the id text alone is longer. */
  lemma RenderNameShape(g: Groups)
    ensures var r, idUnits, nameUnits := RenderName(g), Utf16(IdText(g.id)), Utf16(Camelize(g.pepe));
            |idUnits| <= |r| && r[..|idUnits|] == idUnits
            && r[|idUnits|..] == nameUnits[..|r| - |idUnits|]
            && (|idUnits| <= NameLimit ==>
                  |r| == if |idUnits| + |nameUnits| < NameLimit then |idUnits| + |nameUnits| else NameLimit)
            && (NameLimit < |idUnits| ==>
                  |r| - |idUnits| == if |nameUnits| < |idUnits| - NameLimit then 0
                                     else |nameUnits| - (|idUnits| - NameLimit))
  {
    HeadThenCut(Utf16(IdText(g.id)), Utf16(Camelize(g.pepe)));
  }

  predicate AllDigits(s: string) {
    forall i :: 0 <= i < |s| ==> IsDigit(s[i])
  }

  /** The id text is pure ASCII: three code units more than the digits, or none. */
  lemma IdTextUnits(id: Option<string>)
    requires id.Some? ==> AllDigits(id.value)
    ensures |Utf16(IdText(id))| == |IdText(id)|
    ensures |IdText(id)| == if id.Some? && id.value != "" then |id.value| + 3 else 0
  {
    var t := IdText(id);
    forall i | 0 <= i < |t| ensures t[i] as int < 0x1_0000 {
    }
    Utf16OfBmp(t);
  }

  /** A non-empty id produces a name that starts with "[id] "; without one the
      name is the camelized base name cut to 100 units. */
  lemma RenderNamePrefix(g: Groups)
    ensures g.id.Some? && g.id.value != "" ==>
              var prefix := Utf16("[" + g.id.value + "] ");
              |prefix| <= |RenderName(g)| && RenderName(g)[..|prefix|] == prefix
    ensures (g.id.None? || g.id.value == "") ==>
              RenderName(g) == Slice(Utf16(Camelize(g.pepe)), 0, NameLimit)
  {
    RenderNameShape(g);
    if g.id.None? || g.id.value == "" {
      assert Utf16(IdText(g.id)) == [];
    }
  }

  /** With an id of at most 97 digits the name fits in 100 code units. */
  lemma RenderNameFits(g: Groups)
    requires g.id.Some? ==> AllDigits(g.id.value) && |g.id.value| <= NameLimit - 3
    ensures |RenderName(g)| <= NameLimit
  {
    IdTextUnits(g.id);
    RenderNameShape(g);
  }

  /** With a longer id the bound fails: the id text alone passes 100 units, and the
      negative end of `slice` cuts the base name from its end instead. */
  lemma RenderNameWithLongId(g: Groups)
    requires g.id.Some? && AllDigits(g.id.value) && NameLimit - 3 < |g.id.value|
    ensures NameLimit < |RenderName(g)|
  {
    IdTextUnits(g.id);
    RenderNameShape(g);
  }

  /** The URIs of a list of entries. */
  function Values(ps: seq<Pepe>): (r: seq<string>)
    ensures |r| == |ps| && forall i :: 0 <= i < |ps| ==> r[i] == ps[i].value
  {
    seq(|ps|, i requires 0 <= i < |ps| => ps[i].value)
  }

  /** The URIs the regular expression matches, in their order, each as often as it
      occurs in `uris`. */
  function Matched(uris: seq<string>, exec: string -> Option<Groups>): (r: seq<string>)
    ensures SubsequenceOf(r, uris)
    ensures forall i :: 0 <= i < |r| ==> exec(r[i]).Some?
    ensures forall i :: 0 <= i < |uris| && exec(uris[i]).Some? ==> uris[i] in r
    ensures forall u :: multiset(r)[u] == if exec(u).Some? then multiset(uris)[u] else 0
  {
    var matched := (x: string) => exec(x).Some?;
    var r := Filter(uris, matched);
    FilterIsSubsequence(uris, matched);
    FilterSpec(uris, matched);
    FilterCount(uris, matched);
    assert forall i :: 0 <= i < |r| ==> matched(r[i]);
    assert forall u :: matched(u) == exec(u).Some?;
    r
  }

  /** One entry per matched URI, named by the rendering of its groups. */
  function Entries(kept: seq<string>, exec: string -> Option<Groups>): (r: seq<Pepe>)
    requires forall i :: 0 <= i < |kept| ==> exec(kept[i]).Some?
    ensures Values(r) == kept
    ensures forall i :: 0 <= i < |r| ==> r[i].name == RenderName(exec(kept[i]).value)
  {
    seq(|kept|, i requires 0 <= i < |kept| => Pepe(RenderName(exec(kept[i]).value), kept[i]))
  }

  /** The module-level `pepes`: every URI mapped to an entry, `null` when the regular
      expression does not match, and the `null`s dropped by `filter(notEmpty)`. */
  function RenderPepes(uris: seq<string>, exec: string -> Option<Groups>): (r: seq<Pepe>)
    ensures SubsequenceOf(Values(r), uris)
    ensures forall i :: 0 <= i < |r| ==>
              exec(r[i].value).Some? && r[i].name == RenderName(exec(r[i].value).value)
    ensures forall i :: 0 <= i < |uris| && exec(uris[i]).Some? ==> uris[i] in Values(r)
    ensures forall u :: multiset(Values(r))[u] == if exec(u).Some? then multiset(uris)[u] else 0
  {
    Entries(Matched(uris, exec), exec)
  }

  /** The search filter: the lower-cased name contains the (already lower-cased) query,
      searched as code units. */
  predicate NameContains(p: Pepe, query: string) {
    Includes(LowerUnits(p.name), Utf16(query))
  }

  const ChoiceLimit: int := 25

  /** The entries whose name contains `query`, in their order in `ps`, each as often
      as it occurs there. */
  function SearchMatches(ps: seq<Pepe>, query: string): (r: seq<Pepe>)
    ensures |r| <= |ps| && SubsequenceOf(r, ps)
    ensures forall i :: 0 <= i < |r| ==> r[i] in ps && NameContains(r[i], query)
    ensures forall i :: 0 <= i < |ps| && NameContains(ps[i], query) ==> ps[i] in r
    ensures forall p :: multiset(r)[p] == if NameContains(p, query) then multiset(ps)[p] else 0
  {
    var contains := (p: Pepe) => NameContains(p, query);
    var r := Filter(ps, contains);
    FilterIsSubsequence(ps, contains);
    FilterSpec(ps, contains);
    FilterCount(ps, contains);
    assert forall i :: 0 <= i < |r| ==> contains(r[i]);
    assert forall p :: contains(p) == NameContains(p, query);
    r
  }

  /** Moving the head of the pool to the end of what was served keeps their
      combined contents. */
  lemma ServeStep(served: seq<string>, pool: seq<string>, original: seq<string>)
    requires multiset(served + pool) == multiset(original) && pool != []
    ensures multiset((served + [pool[0]]) + pool[1..]) == multiset(original)
  {
    assert (served + [pool[0]]) + pool[1..] == served + pool;
  }

  /** The front of a permutation of `whole` holds only elements of `whole`. */
  lemma SliceDrawsFrom(s: seq<Pepe>, r: seq<Pepe>, whole: seq<Pepe>)
    requires multiset(s) == multiset(whole) && r == Slice(s, 0, ChoiceLimit)
    ensures |r| <= ChoiceLimit && forall i :: 0 <= i < |r| ==> r[i] in whole
  {
    forall i | 0 <= i < |r| ensures r[i] in whole {
      assert r[i] == s[i] && s[i] in multiset(s);
    }
  }

  /** What a non-empty query offers: entries of the catalogue whose name contains it. */
  lemma OfferedMatches(ps: seq<Pepe>, query: string, draws: seq<real>, catalogue: seq<Pepe>)
    requires multiset(ps) == multiset(catalogue) && IsDraws(draws, |ps|)
    ensures var m := SearchMatches(ps, query);
            IsDraws(draws, |m|)
            && var r := Slice(Shuffled(m, draws), 0, ChoiceLimit);
               forall i :: 0 <= i < |r| ==> r[i] in catalogue && NameContains(r[i], query)
  {
    var m := SearchMatches(ps, query);
    ShuffledPermutes(m, draws);
    var r := Slice(Shuffled(m, draws), 0, ChoiceLimit);
    SliceDrawsFrom(Shuffled(m, draws), r, m);
    forall i | 0 <= i < |r| ensures r[i] in catalogue && NameContains(r[i], query) {
      assert r[i] in multiset(ps);
    }
  }

  /** With at most 25 candidates, the first 25 of a shuffle offer every one of them. */
  lemma FewCandidatesAllOffered(s: seq<Pepe>, draws: seq<real>)
    requires IsDraws(draws, |s|) && |s| <= ChoiceLimit
    ensures multiset(Slice(Shuffled(s, draws), 0, ChoiceLimit)) == multiset(s)
  {
    ShuffledPermutes(s, draws);
    SliceFromStart(Shuffled(s, draws), ChoiceLimit);
  }

  // ---------------------------------------------------------------- replies

  /** What the `8pepe` command sends: an embed with a footer and an image (an absent
      image is `undefined`), or a plain message. */
  datatype Reply = Embed(footer: string, image: Option<string>) | Text(content: string)

  /** The module's mutable state. `uris` is the array read from the data file, `pepes`
      the search entries rendered from it, and `activeList` the array `randomPepe`
      serves from: at first an empty array of its own, after the first call the
      very array `uris`, so that every `shift` empties the data file's list. */
  class PepeState {
    const uris: JsArray<string>
    var activeList: JsArray<string>
    const pepes: JsArray<Pepe>

    /** The list as read from the data file, and the entries rendered from it. */
    ghost const original: seq<string>
    ghost const catalogue: seq<Pepe>
    /** The URIs `randomPepe` has returned so far, not counting the empty replies it
        gives once the list is empty. */
    ghost var served: seq<string>

    /** Until the first random reply nothing has been served and `uris` is untouched;
        from then on `activeList` is `uris`, and what was served plus what is left is
        a permutation of the original list. */
    ghost predicate Serving()
      reads this, uris, activeList
    {
      (activeList != uris ==> activeList.elems == [] && served == [] && uris.elems == original)
      && (activeList == uris ==> multiset(served + uris.elems) == multiset(original))
    }

    /** The search entries are always a permutation of those rendered at start-up. */
    ghost predicate Searching()
      reads this, pepes
    {
      multiset(pepes.elems) == multiset(catalogue)
    }

    ghost predicate Valid()
      reads this, uris, activeList, pepes
    {
      Serving() && Searching()
    }

    /** Module load: `URIs` from the data file, `pepes` rendered from it with `exec`
        standing for `pepeNameRegex.exec`, and `activeList` a fresh empty array. */
    constructor (initial: seq<string>, exec: string -> Option<Groups>)
      ensures Valid() && fresh(uris) && fresh(activeList) && fresh(pepes)
      ensures uris.elems == initial && original == initial && served == []
      ensures activeList != uris && activeList.elems == []
      ensures pepes.elems == RenderPepes(initial, exec) && catalogue == pepes.elems
    {
      uris := new JsArray(initial);
      activeList := new JsArray([]);
      var rendered := RenderPepes(initial, exec);
      pepes := new JsArray(rendered);
      original := initial;
      catalogue := rendered;
      served := [];
    }

    /** The sequence the next `randomPepe` takes its answer from: the shuffle of `uris`
        when `activeList` is empty, otherwise `uris` as it stands. */
    ghost function Pool(draws: seq<real>): seq<string>
      requires IsDraws(draws, |uris.elems|)
      reads this, uris, activeList
    {
      if activeList.elems == [] then Shuffled(uris.elems, draws) else uris.elems
    }

    /** `randomPepe`: reshuffle `URIs` into `activeList` when it is empty, then `shift`;
        `''` once nothing is left. The shuffled array is `URIs` itself, so the list
        is never refilled. */
    method RandomPepe(draws: seq<real>) returns (r: string)
      requires Valid() && IsDraws(draws, |uris.elems|)
      modifies this, uris
      ensures Valid() && activeList == uris
      ensures old(Pool(draws)) == [] ==> r == "" && uris.elems == [] && served == old(served)
      ensures old(Pool(draws)) != [] ==>
                r == old(Pool(draws))[0] && uris.elems == old(Pool(draws))[1..]
                && served == old(served) + [r]
      ensures multiset(old(Pool(draws))) == multiset(old(uris.elems))
    {
      ghost var pool := Pool(draws);
      assert multiset(served + pool) == multiset(original)
             && multiset(pool) == multiset(uris.elems) by {
        ShuffledPermutes(uris.elems, draws);
        if activeList != uris {
          assert served + pool == pool;
        }
      }
      if activeList.elems == [] {
        activeList := Shuffle(uris, draws);
      }
      assert uris.elems == pool && activeList == uris;
      var x := activeList.Shift();
      if x.Some? {
        r := x.value;
        served := served + [r];
        ServeStep(old(served), pool, original);
        assert pool != [] && r == pool[0] && uris.elems == pool[1..];
      } else {
        r := "";
        assert pool == [] && uris.elems == [];
      }
      assert pool == old(Pool(draws));
      assert Searching();
    }

    /** Once `randomPepe` has emptied the list, each URI of the data file has been
        served exactly as often as it occurs there; before that, none more often. */
    lemma ServedWithoutRepeats()
      requires Valid()
      ensures multiset(served) <= multiset(original)
      ensures activeList == uris && uris.elems == [] ==> multiset(served) == multiset(original)
    {
      if activeList == uris {
        assert multiset(served + uris.elems) == multiset(served) + multiset(uris.elems);
      }
    }

    /** `seedPepe`: the footer is the phrase, and the image is the entry of the current
        `URIs` chosen by the hash of the normalised phrase; `undefined` when `URIs` is
        empty (the index is then `NaN`). */
    function SeedPepe(phrase: string): (r: Reply)
      reads this, uris
      ensures r.Embed? && r.footer == phrase
      ensures r.image.Some? <==> uris.elems != []
      ensures r.image.Some? ==> r.image.value in uris.elems
    {
      match SeedIndex(phrase, |uris.elems|)
      case None => Embed(phrase, None)
      case Some(k) => Embed(phrase, Some(uris.elems[k]))
    }

    /** Phrases equal up to case and surrounding white space choose the same image. */
    lemma SeedPepeIgnoresCaseAndSpacing(phrase: string)
      ensures SeedPepe(Upper(phrase)).image == SeedPepe(phrase).image
      ensures SeedPepe(Trim(phrase)).image == SeedPepe(phrase).image
    {
      SeedIndexIgnoresCaseAndSpacing(phrase, |uris.elems|);
    }

    /** `pepeReply`: a non-empty phrase gets the seeded embed and leaves the state
        alone; otherwise the reply is the next random URI. */
    method PepeReply(phrase: Option<string>, draws: seq<real>) returns (r: Reply)
      requires Valid() && IsDraws(draws, |uris.elems|)
      modifies this, uris
      ensures Valid()
      ensures phrase.Some? && phrase.value != "" ==>
                r == old(SeedPepe(phrase.value)) && activeList == old(activeList)
                && uris.elems == old(uris.elems) && served == old(served)
      ensures !(phrase.Some? && phrase.value != "") ==>
                r.Text? && activeList == uris
                && (old(Pool(draws)) == [] ==>
                      r.content == "" && uris.elems == [] && served == old(served))
                && (old(Pool(draws)) != [] ==>
                      r.content == old(Pool(draws))[0] && uris.elems == old(Pool(draws))[1..]
                      && served == old(served) + [r.content])
    {
      if phrase.Some? && |phrase.value| > 0 {
        r := SeedPepe(phrase.value);
      } else {
        var uri := RandomPepe(draws);
        r := Text(uri);
      }
    }

    /** `pepeSearch`, up to the final sort. A query that is empty once lower-cased
        shuffles `pepes` in place and offers its first 25 entries; any other query
        offers the first 25 entries of a shuffled copy of the entries whose name
        contains it, leaving `pepes` as it was. */
    method PepeSearch(query: string, draws: seq<real>) returns (r: seq<Pepe>)
      requires Valid() && IsDraws(draws, |pepes.elems|)
      modifies pepes
      ensures Valid()
      ensures Lower(query) == [] ==>
                pepes.elems == Shuffled(old(pepes.elems), draws)
                && multiset(r) == multiset(Slice(pepes.elems, 0, ChoiceLimit))
      ensures Lower(query) != [] ==>
                pepes.elems == old(pepes.elems)
                && IsDraws(draws, |SearchMatches(pepes.elems, Lower(query))|)
                && r == Slice(Shuffled(SearchMatches(pepes.elems, Lower(query)), draws), 0, ChoiceLimit)
      ensures |r| <= ChoiceLimit
      ensures forall i :: 0 <= i < |r| ==> r[i] in catalogue
      ensures Lower(query) != [] ==> forall i :: 0 <= i < |r| ==> NameContains(r[i], Lower(query))
    {
      var q := Lower(query);
      if |q| <= 0 {
        var shuffled := Shuffle(pepes, draws);
        r := Slice(shuffled.elems, 0, ChoiceLimit);
        SliceDrawsFrom(pepes.elems, r, catalogue);
      } else {
        var matches := SearchMatches(pepes.elems, q);
        var copy := new JsArray(matches);
        var shuffled := Shuffle(copy, draws);
        r := Slice(shuffled.elems, 0, ChoiceLimit);
        OfferedMatches(pepes.elems, q, draws, catalogue);
      }
      assert Serving();
    }
  }
}
