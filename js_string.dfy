/**
 * The parts of the JavaScript `String` built-ins that the two command files call.
 *
 * A Dafny `string` is a sequence of Unicode scalar values, which for a well-formed
 * JavaScript string is exactly what `Array.from` yields (its code points). Where the
 * source counts UTF-16 code units (`length`, `charCodeAt`, `slice` on a string), the
 * model converts with `Utf16` and works on `seq<CodeUnit>`.
 *
 * Case mapping is ASCII only; the white-space set is ECMAScript's (the set `trim`
 * strips and the regular-expression class `\s` matches), which lies wholly inside the
 * Basic Multilingual Plane and so is exact on code points.
 */
module JsString {
  import opened Wrappers

  /** One UTF-16 code unit, the element of a JavaScript string. */
  type CodeUnit = x: int | 0 <= x < 0x1_0000

  // ---------------------------------------------------------------- characters

  predicate IsAsciiUpper(c: char) { 'A' <= c <= 'Z' }

  predicate IsAsciiLower(c: char) { 'a' <= c <= 'z' }

  predicate IsAsciiLetter(c: char) { IsAsciiUpper(c) || IsAsciiLower(c) }

  predicate IsDigit(c: char) { '0' <= c <= '9' }

  /** The class `\w` of a regular expression without the `u` flag. */
  predicate IsWordChar(c: char) { IsAsciiLetter(c) || IsDigit(c) || c == '_' }

  /** ECMAScript WhiteSpace and LineTerminator code points. */
  predicate IsWhitespace(c: char) {
    c == '\t' || c == '\n' || c == '\U{B}' || c == '\U{C}' || c == '\r' || c == ' '
    || c == '\U{A0}' || c == '\U{1680}' || ('\U{2000}' <= c <= '\U{200A}')
    || c == '\U{2028}' || c == '\U{2029}' || c == '\U{202F}' || c == '\U{205F}'
    || c == '\U{3000}' || c == '\U{FEFF}'
  }

  function LowerChar(c: char): (r: char)
    ensures IsAsciiUpper(c) ==> IsAsciiLower(r) && r as int == c as int + 32
    ensures !IsAsciiUpper(c) ==> r == c
  {
    if IsAsciiUpper(c) then (c as int + 32) as char else c
  }

  function UpperChar(c: char): (r: char)
    ensures IsAsciiLower(c) ==> IsAsciiUpper(r) && r as int + 32 == c as int
    ensures !IsAsciiLower(c) ==> r == c
  {
    if IsAsciiLower(c) then (c as int - 32) as char else c
  }

  lemma CaseMappingFacts(c: char)
    ensures LowerChar(UpperChar(c)) == LowerChar(c) && UpperChar(LowerChar(c)) == UpperChar(c)
    ensures LowerChar(LowerChar(c)) == LowerChar(c)
    ensures IsWhitespace(LowerChar(c)) == IsWhitespace(c)
    ensures IsWhitespace(UpperChar(c)) == IsWhitespace(c)
    ensures !IsAsciiLower(UpperChar(c))
  {
  }

  // ---------------------------------------------------------------- case mapping of strings

  /** `toLowerCase`, restricted to ASCII letters. */
  function Lower(s: string): (r: string)
    ensures |r| == |s|
    ensures forall i :: 0 <= i < |s| ==> r[i] == LowerChar(s[i])
  {
    seq(|s|, i requires 0 <= i < |s| => LowerChar(s[i]))
  }

  /** Lower-casing works character by character, so it distributes over concatenation. */
  lemma LowerAppend(a: string, b: string)
    ensures Lower(a + b) == Lower(a) + Lower(b)
  {
  }

  /** `toUpperCase`, restricted to ASCII letters. */
  function Upper(s: string): (r: string)
    ensures |r| == |s|
    ensures forall i :: 0 <= i < |s| ==> r[i] == UpperChar(s[i])
  {
    seq(|s|, i requires 0 <= i < |s| => UpperChar(s[i]))
  }

  lemma LowerIdempotent(s: string)
    ensures Lower(Lower(s)) == Lower(s)
  {
    forall i | 0 <= i < |s| ensures Lower(Lower(s))[i] == Lower(s)[i] {
      CaseMappingFacts(s[i]);
    }
  }

  lemma LowerOfUpper(s: string)
    ensures Lower(Upper(s)) == Lower(s)
  {
    forall i | 0 <= i < |s| ensures Lower(Upper(s))[i] == Lower(s)[i] {
      CaseMappingFacts(s[i]);
    }
  }

  lemma UpperHasNoLowercase(s: string)
    ensures forall i :: 0 <= i < |Upper(s)| ==> !IsAsciiLower(Upper(s)[i])
  {
    forall i | 0 <= i < |s| ensures !IsAsciiLower(Upper(s)[i]) {
      CaseMappingFacts(s[i]);
    }
  }

  // ---------------------------------------------------------------- trim

  /** The number of white-space characters `s` starts with. */
  function LeadingSpace(s: string): (n: nat)
    ensures n <= |s|
    ensures forall k :: 0 <= k < n ==> IsWhitespace(s[k])
    ensures n < |s| ==> !IsWhitespace(s[n])
  {
    if s != [] && IsWhitespace(s[0]) then 1 + LeadingSpace(s[1..]) else 0
  }

  /** The length of `s` without the white space it ends with. */
  function TrailingStart(s: string): (n: nat)
    ensures n <= |s|
    ensures forall k :: n <= k < |s| ==> IsWhitespace(s[k])
    ensures 0 < n ==> !IsWhitespace(s[n - 1])
  {
    if s != [] && IsWhitespace(s[|s| - 1]) then TrailingStart(s[..|s| - 1]) else |s|
  }

  /** `trim`: the slice between the leading and the trailing white space. */
  function Trim(s: string): (r: string)
    ensures |r| <= |s|
  {
    var a, b := LeadingSpace(s), TrailingStart(s);
    if a < b then s[a..b] else []
  }

  /** What `trim` promises, first half: the result is empty exactly for an
      all-white-space string. */
  lemma TrimEmpty(s: string)
    ensures Trim(s) == [] <==> forall k :: 0 <= k < |s| ==> IsWhitespace(s[k])
  {
    RunsMeet(s, IsWhitespace, LeadingSpace(s), TrailingStart(s));
  }

  /** What `trim` promises, second half: a non-empty result is a contiguous slice of
      `s` that neither starts nor ends with white space, everything cut off at either
      end being white space. */
  lemma TrimShape(s: string)
    requires Trim(s) != []
    ensures var r, a := Trim(s), LeadingSpace(s);
            a + |r| <= |s| && r == s[a..a + |r|]
            && !IsWhitespace(r[0]) && !IsWhitespace(r[|r| - 1])
            && (forall k :: 0 <= k < a ==> IsWhitespace(s[k]))
            && (forall k :: a + |r| <= k < |s| ==> IsWhitespace(s[k]))
  {
    RunsMeet(s, IsWhitespace, LeadingSpace(s), TrailingStart(s));
  }

  /** With `a` the end of a leading run of elements satisfying `p` and `b` the start
      of a trailing one, the slice between them is empty exactly when every element
      satisfies `p`, and otherwise begins and ends with an element that does not. */
  lemma RunsMeet<T>(s: seq<T>, p: T -> bool, a: nat, b: nat)
    requires a <= |s| && b <= |s|
    requires forall k :: 0 <= k < a ==> p(s[k])
    requires a < |s| ==> !p(s[a])
    requires forall k :: b <= k < |s| ==> p(s[k])
    requires 0 < b ==> !p(s[b - 1])
    ensures var r := if a < b then s[a..b] else [];
            (r == [] <==> forall k :: 0 <= k < |s| ==> p(s[k]))
            && (r != [] ==>
                  a + |r| <= |s| && r == s[a..a + |r|]
                  && !p(r[0]) && !p(r[|r| - 1])
                  && (forall k :: 0 <= k < a ==> p(s[k]))
                  && (forall k :: a + |r| <= k < |s| ==> p(s[k])))
  {
    if a < b {
      assert !p(s[a]);
    } else {
      assert a == |s|;
    }
  }

  /** Two strings with white space at the same positions are trimmed at the same
      positions. */
  lemma TrimBounds(s: string, t: string)
    requires |s| == |t|
    requires forall k :: 0 <= k < |s| ==> IsWhitespace(s[k]) == IsWhitespace(t[k])
    ensures LeadingSpace(s) == LeadingSpace(t) && TrailingStart(s) == TrailingStart(t)
  {
  }

  /** ASCII lower-casing maps white space to white space and nothing else to it, so it
      commutes with `trim`. */
  lemma LowerTrimCommute(s: string)
    ensures Lower(Trim(s)) == Trim(Lower(s))
  {
    LowerKeepsSpacing(s);
    var a, b := LeadingSpace(s), TrailingStart(s);
    if a < b {
      LowerSlice(s, a, b);
    }
  }

  /** Lower-casing commutes with taking a slice. */
  lemma LowerSlice(s: string, a: nat, b: nat)
    requires a <= b <= |s|
    ensures Lower(s[a..b]) == Lower(s)[a..b]
  {
  }

  lemma LowerKeepsSpacing(s: string)
    ensures LeadingSpace(Lower(s)) == LeadingSpace(s) && TrailingStart(Lower(s)) == TrailingStart(s)
  {
    forall k | 0 <= k < |s| ensures IsWhitespace(s[k]) == IsWhitespace(Lower(s)[k]) {
      CaseMappingFacts(s[k]);
    }
    TrimBounds(s, Lower(s));
  }

  /** Trimming twice changes nothing more. */
  lemma TrimIdempotent(s: string)
    ensures Trim(Trim(s)) == Trim(s)
  {
    var r := Trim(s);
    if r != [] {
      assert LeadingSpace(r) == 0;
      assert TrailingStart(r) == |r|;
    }
  }

  // ---------------------------------------------------------------- UTF-16

  /** The UTF-16 encoding of one code point: one unit in the Basic Multilingual Plane,
      a surrogate pair above it. */
  function CodeUnits(c: char): (u: seq<CodeUnit>)
    ensures 1 <= |u| <= 2
    ensures |u| == 1 <==> c as int < 0x1_0000
    ensures |u| == 1 ==> u[0] == c as int
  {
    var v := c as int;
    if v < 0x1_0000 then [v]
    else [0xD800 + (v - 0x1_0000) / 0x400, 0xDC00 + (v - 0x1_0000) % 0x400]
  }

  /** The code units of a string: what `length`, `charCodeAt` and `slice` index. */
  function Utf16(s: string): (u: seq<CodeUnit>)
    ensures |s| <= |u| <= 2 * |s|
  {
    if s == [] then [] else CodeUnits(s[0]) + Utf16(s[1..])
  }

  /** Inside the Basic Multilingual Plane every code point is one code unit. */
  lemma {:induction false} Utf16OfBmp(s: string)
    requires forall i :: 0 <= i < |s| ==> s[i] as int < 0x1_0000
    ensures Utf16(s) == seq(|s|, i requires 0 <= i < |s| => s[i] as int)
  {
    if s != [] {
      Utf16OfBmp(s[1..]);
    }
  }

  lemma {:induction false} Utf16Append(a: string, b: string)
    ensures Utf16(a + b) == Utf16(a) + Utf16(b)
    decreases |a|
  {
    if a != [] {
      assert (a + b)[0] == a[0] && (a + b)[1..] == a[1..] + b;
      Utf16Append(a[1..], b);
    } else {
      assert a + b == b;
    }
  }

  /** `toLowerCase` on code units, restricted to ASCII letters. */
  function LowerUnits(u: seq<CodeUnit>): (r: seq<CodeUnit>)
    ensures |r| == |u|
    ensures forall i :: 0 <= i < |u| ==> r[i] == if 0x41 <= u[i] <= 0x5A then u[i] + 32 else u[i]
  {
    seq(|u|, i requires 0 <= i < |u| => if 0x41 <= u[i] <= 0x5A then u[i] + 32 else u[i])
  }

  /** Lower-casing before or after encoding gives the same units. */
  lemma {:induction false} LowerUnitsOfUtf16(s: string)
    ensures LowerUnits(Utf16(s)) == Utf16(Lower(s))
    decreases |s|
  {
    if s != [] {
      assert Lower(s)[1..] == Lower(s[1..]);
      LowerUnitsOfUtf16(s[1..]);
      LowerUnitsAppend(CodeUnits(s[0]), Utf16(s[1..]));
      LowerUnitsOfChar(s[0]);
    }
  }

  lemma LowerUnitsOfChar(c: char)
    ensures LowerUnits(CodeUnits(c)) == CodeUnits(LowerChar(c))
  {
  }

  lemma LowerUnitsAppend(a: seq<CodeUnit>, b: seq<CodeUnit>)
    ensures LowerUnits(a + b) == LowerUnits(a) + LowerUnits(b)
  {
  }

  // ---------------------------------------------------------------- search and slicing

  /** An occurrence of `pat` in `s` at `i`. */
  predicate OccursAt<T(==)>(s: seq<T>, pat: seq<T>, i: int) {
    0 <= i && i + |pat| <= |s| && s[i..i + |pat|] == pat
  }

  /** `indexOf`: the position of the first occurrence of `pat`, if any. */
  function IndexOf<T(==)>(s: seq<T>, pat: seq<T>): (r: Option<nat>)
    ensures r.Some? ==> OccursAt(s, pat, r.value) && forall j :: 0 <= j < r.value ==> !OccursAt(s, pat, j)
    ensures r.None? ==> forall j :: 0 <= j <= |s| ==> !OccursAt(s, pat, j)
    decreases |s|
  {
    if |pat| > |s| then None
    else if s[..|pat|] == pat then Some(0)
    else
      match IndexOf(s[1..], pat)
      case None => (assert forall j :: 1 <= j <= |s| ==> (OccursAt(s, pat, j) <==> OccursAt(s[1..], pat, j - 1)); None)
      case Some(i) =>
        assert forall j :: 1 <= j <= |s| ==> (OccursAt(s, pat, j) <==> OccursAt(s[1..], pat, j - 1));
        Some(i + 1)
  }

  /** `includes`. */
  predicate Includes<T(==)>(s: seq<T>, pat: seq<T>) {
    IndexOf(s, pat).Some?
  }

  lemma IncludesMeansOccurs<T>(s: seq<T>, pat: seq<T>)
    ensures Includes(s, pat) <==> exists i :: OccursAt(s, pat, i)
  {
  }

  /** A pattern whose first element does not occur anywhere is not included. */
  lemma MissingHeadNotIncluded<T>(s: seq<T>, pat: seq<T>)
    requires pat != [] && pat[0] !in s
    ensures !Includes(s, pat)
  {
    forall j | 0 <= j <= |s| ensures !OccursAt(s, pat, j) {
      if j + |pat| <= |s| {
        assert s[j..j + |pat|][0] == s[j];
      }
    }
  }

  /** For a one-character pattern, `indexOf` finds the first position holding it. */
  lemma IndexOfChar<T>(s: seq<T>, x: T)
    ensures IndexOf(s, [x]).Some? <==> x in s
    ensures IndexOf(s, [x]).Some? ==>
              var k := IndexOf(s, [x]).value; k < |s| && s[k] == x && x !in s[..k]
  {
    forall j | 0 <= j < |s| ensures OccursAt(s, [x], j) <==> s[j] == x {
      assert s[j..j + 1] == [s[j]];
    }
  }

  /** `replace` with a string pattern: only the first occurrence is replaced. */
  function ReplaceFirst<T(==)>(s: seq<T>, pat: seq<T>, rep: seq<T>): (r: seq<T>)
    ensures IndexOf(s, pat).None? ==> r == s
    ensures IndexOf(s, pat).Some? ==>
              var i := IndexOf(s, pat).value;
              s == s[..i] + pat + s[i + |pat|..] && r == s[..i] + rep + s[i + |pat|..]
  {
    match IndexOf(s, pat)
    case None => s
    case Some(i) => s[..i] + rep + s[i + |pat|..]
  }

  /** Replacing the first occurrence of `x` by `y` removes one copy of `x` when
      there is one, and leaves every other element's count alone. */
  lemma ReplaceFirstCount<T>(s: seq<T>, x: T, y: T, c: T)
    requires c != y
    ensures multiset(ReplaceFirst(s, [x], [y]))[c]
            == if x == c && x in s then multiset(s)[c] - 1 else multiset(s)[c]
  {
    IndexOfChar(s, x);
    if x in s {
      var k := IndexOf(s, [x]).value;
      ReplaceFirstAt(s, [x], [y], k);
      CountAround(s[..k], x, s[k + 1..], c);
      CountAround(s[..k], y, s[k + 1..], c);
    } else {
      assert ReplaceFirst(s, [x], [y]) == s;
    }
  }

  /** Where `indexOf` finds `pat` at `k`, `s` and its replacement split around `k`. */
  lemma ReplaceFirstAt<T>(s: seq<T>, pat: seq<T>, rep: seq<T>, k: nat)
    requires IndexOf(s, pat) == Some(k)
    ensures s == s[..k] + pat + s[k + |pat|..]
    ensures ReplaceFirst(s, pat, rep) == s[..k] + rep + s[k + |pat|..]
  {
  }

  /** How often `c` occurs in `pre + [y] + post`. */
  lemma CountAround<T>(pre: seq<T>, y: T, post: seq<T>, c: T)
    ensures multiset(pre + [y] + post)[c]
            == multiset(pre)[c] + (if y == c then 1 else 0) + multiset(post)[c]
  {
  }

  /** The start or end argument of `slice` resolved against a length: a negative value
      counts from the end, and the result is clamped to `[0, len]`. */
  function RelativeIndex(k: int, len: nat): (r: nat)
    ensures r <= len
    ensures k < 0 ==> r == if len + k < 0 then 0 else len + k
    ensures 0 <= k ==> r == if k < len then k else len
  {
    if k < 0 then (if len + k < 0 then 0 else len + k) else (if k < len then k else len)
  }

  /** `slice(start, end)`, for strings (on code units) and arrays alike. */
  function Slice<T>(s: seq<T>, start: int, end: int): (r: seq<T>)
    ensures var from, to := RelativeIndex(start, |s|), RelativeIndex(end, |s|);
            |r| == (if from < to then to - from else 0)
            && forall i :: 0 <= i < |r| ==> r[i] == s[from + i]
  {
    var from, to := RelativeIndex(start, |s|), RelativeIndex(end, |s|);
    if from < to then s[from..to] else []
  }

  /** `slice(0, n)` for `n >= 0` is the first `min(n, |s|)` elements. */
  lemma SliceFromStart<T>(s: seq<T>, n: nat)
    ensures Slice(s, 0, n) == if n < |s| then s[..n] else s
  {
  }
}
