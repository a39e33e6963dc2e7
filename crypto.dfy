/**
 * The `crypto` command: fuzzy autocomplete over a fixed table of markets, the
 * projection of hourly candles onto the chart's data points, and the headline that
 * classifies the 24-hour change by colour and emoji.
 */
module Crypto {
  import opened Wrappers
  import opened JsString
  import opened JsArray
  import opened CoinTable

  // ---------------------------------------------------------------- fuzzyMatch

  /** What `fuzzyMatch` decides: every lower-cased character of `input` can be matched
      with a distinct lower-cased character of `comparison`, in any order. */
  predicate FuzzyMatches(input: string, comparison: string) {
    multiset(Lower(input)) <= multiset(Lower(comparison))
  }

  /** `fuzzyMatch`: takes the query's characters one at a time and deletes the first
      remaining occurrence of each from a copy of the candidate; fails as soon as one is
      missing. */
  method FuzzyMatch(input: string, comparison: string) returns (r: bool)
    ensures r == FuzzyMatches(input, comparison)
  {
    var inputCharacters := Lower(input);
    var comparisonCharacters := Lower(comparison);
    ghost var consumed: multiset<char> := multiset{};
    while true
      invariant multiset(Lower(input)) == consumed + multiset(inputCharacters)
      invariant multiset(Lower(comparison)) == consumed + multiset(comparisonCharacters)
      decreases |inputCharacters|
    {
      if inputCharacters == [] {
        return true;
      }
      var character := inputCharacters[0];
      assert inputCharacters == [character] + inputCharacters[1..];
      inputCharacters := inputCharacters[1..];
      if character !in comparisonCharacters {
        assert multiset(Lower(input))[character] > multiset(Lower(comparison))[character];
        return false;
      }
      var index := IndexOfElement(comparisonCharacters, character);
      assert comparisonCharacters
          == comparisonCharacters[..index] + [character] + comparisonCharacters[index + 1..];
      comparisonCharacters := comparisonCharacters[..index] + comparisonCharacters[index + 1..];
      consumed := consumed + multiset{character};
    }
  }

  /** The empty query matches every candidate. */
  lemma FuzzyMatchEmptyQuery(comparison: string)
    ensures FuzzyMatches("", comparison)
  {
  }

  /** Every string matches itself. */
  lemma FuzzyMatchReflexive(s: string)
    ensures FuzzyMatches(s, s)
  {
  }

  /** Lower-casing maps permutations to permutations. */
  lemma {:induction false} LowerPermutation(a: string, b: string)
    requires multiset(a) == multiset(b)
    ensures multiset(Lower(a)) == multiset(Lower(b))
    decreases |a|
  {
    if a == [] {
      assert b == [];
    } else {
      var k := MatchFirst(a, b);
      var rest := b[..k] + b[k + 1..];
      LowerPermutation(a[1..], rest);
      assert multiset(Lower(a)) == multiset{LowerChar(a[0])} + multiset(Lower(a[1..])) by {
        assert Lower(a) == [LowerChar(a[0])] + Lower(a[1..]);
      }
      assert multiset(Lower(b)) == multiset{LowerChar(a[0])} + multiset(Lower(rest)) by {
        LowerRemoveOne(b, k);
      }
    }
  }

  /** In a permutation `b` of a non-empty `a` some `b[k]` is `a[0]`, and the rest of
      `b` is a permutation of the rest of `a`. */
  lemma MatchFirst(a: string, b: string) returns (k: nat)
    requires multiset(a) == multiset(b) && a != []
    ensures k < |b| && b[k] == a[0]
    ensures multiset(a[1..]) == multiset(b[..k] + b[k + 1..])
  {
    var x := a[0];
    assert x in multiset(b);
    k := IndexOfElement(b, x);
    RemoveOne(b, k);
    assert a == [x] + a[1..];
    Cancel(x, multiset(a[1..]), multiset(b[..k] + b[k + 1..]));
  }

  lemma Cancel(x: char, p: multiset<char>, q: multiset<char>)
    requires multiset{x} + p == multiset{x} + q
    ensures p == q
  {
    forall y ensures p[y] == q[y] {
      assert (multiset{x} + p)[y] == (multiset{x} + q)[y];
    }
  }

  /** Taking one character out of a string takes one copy out of its multiset. */
  lemma RemoveOne(s: string, k: nat)
    requires k < |s|
    ensures multiset(s) == multiset{s[k]} + multiset(s[..k] + s[k + 1..])
  {
    assert s == s[..k] + [s[k]] + s[k + 1..];
  }

  /** The same, seen through `Lower`. */
  lemma LowerRemoveOne(s: string, k: nat)
    requires k < |s|
    ensures multiset(Lower(s)) == multiset{LowerChar(s[k])} + multiset(Lower(s[..k] + s[k + 1..]))
  {
    var l := Lower(s);
    assert l == l[..k] + [l[k]] + l[k + 1..];
    assert l[..k] + l[k + 1..] == Lower(s[..k] + s[k + 1..]);
  }

  /** The order of characters on either side never matters: `fuzzyMatch` is not an
      order-preserving subsequence test. */
  lemma FuzzyMatchOrderInsensitive(q: string, q': string, c: string, c': string)
    requires multiset(q) == multiset(q') && multiset(c) == multiset(c')
    ensures FuzzyMatches(q, c) == FuzzyMatches(q', c')
  {
    LowerPermutation(q, q');
    LowerPermutation(c, c');
  }

  /** A reordered query still matches. */
  lemma FuzzyMatchReordered()
    ensures FuzzyMatches("abc", "acb")
  {
    assert Lower("abc") == "abc" && Lower("acb") == "acb";
    assert multiset("abc") == multiset("acb") by {
      assert "abc" == ['a'] + ['b'] + ['c'] && "acb" == ['a'] + ['c'] + ['b'];
    }
  }

  /** The letters of a ticker may be scattered through the candidate's name. */
  lemma FuzzyMatchScattered()
    ensures FuzzyMatches("BTC", "Bitcoin")
  {
    assert Lower("BTC") == "btc" && Lower("Bitcoin") == "bitcoin";
    assert multiset("btc") == multiset{'b', 't', 'c'} by {
      assert "btc" == ['b'] + ['t'] + ['c'];
    }
    assert "bitcoin" == ['b'] + ['i'] + ['t'] + ['c'] + ['o'] + ['i'] + ['n'];
  }

  /** A repeated letter needs as many copies in the candidate. */
  lemma FuzzyMatchRepeatedLetter()
    ensures !FuzzyMatches("aa", "abc")
  {
    assert Lower("aa") == "aa" && Lower("abc") == "abc";
    assert "aa" == ['a'] + ['a'] && "abc" == ['a'] + ['b'] + ['c'];
    assert multiset("aa")['a'] == 2;
    assert multiset("abc")['a'] == 1;
  }

  /** Upper-casing the whole query or the whole candidate, or lower-casing both, never
      changes the result. */
  lemma FuzzyMatchCaseInsensitive(q: string, c: string)
    ensures FuzzyMatches(Upper(q), c) == FuzzyMatches(q, c)
    ensures FuzzyMatches(q, Upper(c)) == FuzzyMatches(q, c)
    ensures FuzzyMatches(Lower(q), Lower(c)) == FuzzyMatches(q, c)
  {
    LowerOfUpper(q);
    LowerOfUpper(c);
    LowerIdempotent(q);
    LowerIdempotent(c);
  }

  /** Each matched character uses up one character of the candidate, so a query with
      more characters than the candidate never matches. */
  lemma FuzzyMatchLongerQuery(q: string, c: string)
    requires |q| > |c|
    ensures !FuzzyMatches(q, c)
  {
    if FuzzyMatches(q, c) {
      SubMultisetCardinality(multiset(Lower(q)), multiset(Lower(c)));
    }
  }

  lemma {:induction false} SubMultisetCardinality(a: multiset<char>, b: multiset<char>)
    requires a <= b
    ensures |a| <= |b|
    decreases |a|
  {
    if a != multiset{} {
      var x :| x in a;
      SubMultisetCardinality(a - multiset{x}, b - multiset{x});
    }
  }

  // ---------------------------------------------------------------- findMatches and autocomplete

  /** A coin is a candidate when the query fuzzy-matches its name or its ticker. */
  predicate CoinMatches(query: string, c: Coin) {
    FuzzyMatches(query, c.name) || FuzzyMatches(query, c.value)
  }

  /** The rows of `table` that `query` fuzzy-matches, in their order in `table`, each
      as often as it occurs there. */
  function MatchesIn(table: seq<Coin>, query: string): (r: seq<Coin>)
    ensures SubsequenceOf(r, table)
    ensures forall i :: 0 <= i < |r| ==> r[i] in table && CoinMatches(query, r[i])
    ensures forall i :: 0 <= i < |table| && CoinMatches(query, table[i]) ==> table[i] in r
    ensures forall c :: multiset(r)[c] == if CoinMatches(query, c) then multiset(table)[c] else 0
  {
    var matches := (c: Coin) => CoinMatches(query, c);
    var r := Filter(table, matches);
    FilterIsSubsequence(table, matches);
    FilterSpec(table, matches);
    FilterCount(table, matches);
    assert forall i :: 0 <= i < |r| ==> matches(r[i]);
    assert forall c :: matches(c) == CoinMatches(query, c);
    r
  }

  /** `findMatches`: the rows of the table of markets that the query fuzzy-matches,
      in table order. */
  function FindMatches(query: string): (r: seq<Coin>)
    ensures SubsequenceOf(r, Coins())
    ensures forall i :: 0 <= i < |r| ==> r[i] in Coins() && CoinMatches(query, r[i])
    ensures forall i :: 0 <= i < |Coins()| && CoinMatches(query, Coins()[i]) ==> Coins()[i] in r
  {
    MatchesIn(Coins(), query)
  }

  /** The empty query selects the whole table, in order. */
  lemma FindMatchesEmptyQuery()
    ensures FindMatches("") == Coins()
  {
    assert forall i :: 0 <= i < |Coins()| ==> CoinMatches("", Coins()[i]);
    FilterSpec(Coins(), (c: Coin) => CoinMatches("", c));
  }

  const SuggestionLimit: int := 24

  /** The focused option as the handler reads it: trimmed, an absent option counting
      as the empty query. */
  function FocusedQuery(option: Option<string>): string {
    if option.Some? then Trim(option.value) else ""
  }

  /** The autocomplete handler: the first 24 matches of the focused query, in table
      order (`splice(0, 24)` on the fresh result of `findMatches`). */
  function Autocomplete(option: Option<string>): (r: seq<Coin>)
    ensures |r| == if |FindMatches(FocusedQuery(option))| < SuggestionLimit
                   then |FindMatches(FocusedQuery(option))| else SuggestionLimit
    ensures r == FindMatches(FocusedQuery(option))[..|r|]
  {
    var matches := FindMatches(FocusedQuery(option));
    if |matches| < SuggestionLimit then matches else matches[..SuggestionLimit]
  }

  /** Every suggestion is a row of the table that matches the focused query. */
  lemma AutocompleteSound(option: Option<string>, c: Coin)
    requires c in Autocomplete(option)
    ensures c in Coins()
    ensures CoinMatches(FocusedQuery(option), c)
  {
    var r := Autocomplete(option);
    var matches := FindMatches(FocusedQuery(option));
    var i :| 0 <= i < |r| && r[i] == c;
    assert c == matches[i];
  }

  /** An absent or blank query suggests the first 24 rows of the table. */
  lemma AutocompleteBlankQuery(option: Option<string>)
    requires option.Some? ==> forall k :: 0 <= k < |option.value| ==> IsWhitespace(option.value[k])
    ensures Autocomplete(option) == Coins()[..SuggestionLimit]
  {
    assert FocusedQuery(option) == "";
    FindMatchesEmptyQuery();
  }

  // ---------------------------------------------------------------- lookup and headline

  /** `coins.find(x => x.value === ticker)`. */
  function FindCoin(ticker: string): (r: Option<Coin>)
    ensures r.Some? ==> r.value in Coins() && r.value.value == ticker
    ensures r.None? <==> forall i :: 0 <= i < |Coins()| ==> Coins()[i].value != ticker
  {
    Find(Coins(), (c: Coin) => c.value == ticker)
  }

  /** Every row is found by its own ticker. */
  lemma FindCoinOfRow(i: nat)
    requires i < |Coins()|
    ensures FindCoin(Coins()[i].value) == Some(Coins()[i])
  {
    CoinValuesDistinct();
    var r := FindCoin(Coins()[i].value);
    var j :| 0 <= j < |Coins()| && Coins()[j] == r.value && Coins()[j].value == Coins()[i].value;
    assert j == i;
  }

  /** The symbol shown in the title: the first "btc" removed, then upper-cased. */
  function Symbol(value: string): (r: string)
    ensures |r| == if Includes(value, "btc") then |value| - 3 else |value|
    ensures forall i :: 0 <= i < |r| ==> !IsAsciiLower(r[i])
    ensures !Includes(value, "btc") ==> r == Upper(value)
  {
    UpperHasNoLowercase(ReplaceFirst(value, "btc", ""));
    Upper(ReplaceFirst(value, "btc", ""))
  }

  /** Where the ticker contains "btc", the symbol is the upper-cased ticker with its
      first occurrence cut out. */
  lemma SymbolCutsFirstBtc(value: string)
    requires Includes(value, "btc")
    ensures exists k :: 0 <= k && k + 3 <= |value| && value[k..k + 3] == "btc"
                        && (forall j :: 0 <= j < k ==> !OccursAt(value, "btc", j))
                        && Symbol(value) == Upper(value[..k] + value[k + 3..])
  {
    var k := IndexOf(value, "btc").value;
    assert OccursAt(value, "btc", k);
    assert ReplaceFirst(value, "btc", "") == value[..k] + value[k + 3..];
  }

  /** A leading "btc" is dropped. */
  lemma SymbolOfBtcusd()
    ensures Symbol("btcusd") == "USD"
  {
    assert OccursAt("btcusd", "btc", 0);
    assert IndexOf("btcusd", "btc") == Some(0);
    assert "btcusd"[3..] == "usd";
  }

  /** A "btc" inside the ticker is dropped as well. */
  lemma SymbolOfTbtcusd()
    ensures Symbol("tbtcusd") == "TUSD"
  {
    var s := "tbtcusd";
    assert s[..3] != "btc" by { assert s[..3][0] == 't'; }
    assert s[1..][..3] == "btc";
    assert IndexOf(s, "btc") == Some(1);
    assert s[..1] + "" + s[4..] == "tusd";
  }

  /** Without "btc" the ticker is only upper-cased. */
  lemma SymbolOfEthusd()
    ensures Symbol("ethusd") == "ETHUSD"
  {
    MissingHeadNotIncluded("ethusd", "btc");
    var r := Symbol("ethusd");
    assert r[0] == 'E' && r[1] == 'T' && r[2] == 'H' && r[3] == 'U' && r[4] == 'S' && r[5] == 'D';
  }

  /** The five steps of `emojiSelector`. */
  datatype Emoji = Rocket | ChartIncreasing | ChartDecreasing | Brick | ManualWheelchair

  /** The string `emojiSelector` returns for each step: one code point each. */
  function Glyph(e: Emoji): (r: string)
    ensures |r| == 1
  {
    match e
    case Rocket => "\U{1F680}"
    case ChartIncreasing => "\U{1F4C8}"
    case ChartDecreasing => "\U{1F4C9}"
    case Brick => "\U{1F9F1}"
    case ManualWheelchair => "\U{1F9BD}"
  }

  /** Each step has its own glyph, so the title's emoji tells the band. */
  lemma GlyphDistinct(e: Emoji, f: Emoji)
    ensures Glyph(e) == Glyph(f) <==> e == f
  {
    assert Glyph(e)[0] == Glyph(f)[0] ==> e == f;
  }

  /** `emojiSelector`: the bands of the 24-hour change in percent. */
  function EmojiFor(value: real): (e: Emoji)
    ensures e == Rocket <==> 10.0 <= value
    ensures e == ChartIncreasing <==> 0.0 <= value < 10.0
    ensures e == ChartDecreasing <==> -10.0 <= value < 0.0
    ensures e == Brick <==> -15.0 <= value < -10.0
    ensures e == ManualWheelchair <==> value < -15.0
  {
    if value >= 10.0 then Rocket
    else if value >= 0.0 then ChartIncreasing
    else if value >= -10.0 then ChartDecreasing
    else if value >= -15.0 then Brick
    else ManualWheelchair
  }

  datatype Colour = Red | Green

  function ColourFor(percentage: real): Colour {
    if percentage < 0.0 then Red else Green
  }

  /** The embed is red exactly when the emoji is one of the three falling ones. */
  lemma RedIffFalling(percentage: real)
    ensures ColourFor(percentage) == Red
            <==> EmojiFor(percentage) in {ChartDecreasing, Brick, ManualWheelchair}
  {
  }

  /** The parts of the embed's title and colour that the core decides. */
  datatype Headline = Headline(colour: Colour, emoji: string, name: string, symbol: string)

  /** The tail of `call` after the summary arrives: the coin is looked up by ticker
      (`None` is the "could not find that coin" reply), and the headline derived.
      `percentage` is the API's `change.percentage` already multiplied by 100. */
  function HeadlineFor(ticker: string, percentage: real): (r: Option<Headline>)
    ensures r.None? <==> forall i :: 0 <= i < |Coins()| ==> Coins()[i].value != ticker
    ensures r.Some? ==> Coin(ticker, r.value.name) in Coins()
                        && r.value.symbol == Symbol(ticker)
                        && (r.value.colour == Red <==> percentage < 0.0)
                        && r.value.emoji == Glyph(EmojiFor(percentage))
  {
    match FindCoin(ticker)
    case None => None
    case Some(c) => Some(Headline(ColourFor(percentage), Glyph(EmojiFor(percentage)), c.name, Symbol(c.value)))
  }

  // ---------------------------------------------------------------- chart data

  /** One raw hourly candle of the market-data API, in its field order. */
  datatype Candle = Candle(closeTime: real, openPrice: real, highPrice: real, lowPrice: real,
                           closePrice: real, volume: real, quoteVolume: real)

  /** One point of the chart. */
  datatype OhlcPoint = OhlcPoint(open: real, high: real, low: real, close: real, volume: real)

  const ChartWindow: int := 27

  function Project(x: Candle): OhlcPoint {
    OhlcPoint(x.openPrice, x.highPrice, x.lowPrice, x.closePrice, x.volume)
  }

  /** `slice(-27).map(...)`: the last 27 candles (all of them when fewer), in order,
      each reduced to open, high, low, close and volume. */
  function Dataset(rows: seq<Candle>): (r: seq<OhlcPoint>)
    ensures |r| == if |rows| < ChartWindow then |rows| else ChartWindow
    ensures forall i :: 0 <= i < |r| ==>
              var x := rows[|rows| - |r| + i];
              r[i].open == x.openPrice && r[i].high == x.highPrice && r[i].low == x.lowPrice
              && r[i].close == x.closePrice && r[i].volume == x.volume
  {
    var window := Slice(rows, -ChartWindow, |rows|);
    seq(|window|, i requires 0 <= i < |window| => Project(window[i]))
  }
}
