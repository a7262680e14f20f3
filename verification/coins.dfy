/**
 * The per-coin decisions of renderer.js: the colour of a change cell, the
 * up/down/flat breadth count, the stablecoin heuristic, the ignore set and
 * the coin filter that the table rows go through.
 */
module Coins {
  import opened Wrappers
  import opened Strings
  import opened Pct
  import opened Seqs

  /** One coin of a capture. A field the capture did not fill is "" (the
      content script never fills `change1h`). */
  datatype Coin = Coin(
    rank: string,
    name: string,
    symbol: string,
    price: string,
    change1h: string,
    change24h: string,
    change7d: string)

  /** The symbols that are always ignored. */
  const DefaultIgnore: set<string> := {
    "USDT", "USDC", "DAI", "TUSD", "FDUSD", "USDE", "BUSD", "PYUSD", "FRAX", "LUSD",
    "USDP", "GUSD", "SUSD", "USDD", "EURT", "EURS", "XAUT", "CMC20"
  }

  /** The placeholder drawn for a missing value. */
  const Dash := "—"

  const MutedCss := "rgba(232,240,255,0.68)"
  const LossCss := "#ff6b6b"
  const GainCss := "#5CFFB1"

  // ---------------------------------------------------------------------
  // Change colour

  /** `isNegative`: the trimmed text starts with a minus sign. */
  function IsNegative(v: string): bool {
    StartsWith(Trim(v), "-")
  }

  /** `changeColor`: muted exactly for a missing value or the placeholder,
      red exactly for a value whose first non-whitespace character is a
      minus sign, green for every other value. */
  function ChangeColor(v: Option<string>): (color: string)
    ensures color == MutedCss <==> v.None? || v.value == Dash
    ensures color == LossCss <==>
              v.Some? && v.value != Dash && exists k :: FirstNonWsAt(v.value, k) && v.value[k] == '-'
    ensures color == GainCss <==>
              v.Some? && v.value != Dash && !exists k :: FirstNonWsAt(v.value, k) && v.value[k] == '-'
  {
    if v.None? || v.value == Dash then MutedCss
    else
      IsNegativeIff(v.value);
      if IsNegative(v.value) then LossCss
      else GainCss
  }

  /** A value is negative exactly when its first non-whitespace character
      is a minus sign. */
  lemma IsNegativeIff(v: string)
    ensures IsNegative(v) <==> exists k :: FirstNonWsAt(v, k) && v[k] == '-'
  {
    var t := Trim(v);
    var k := |v| - |TrimStart(v)|;
    StartsWithMinus(t);
    TrimHead(v);
    if |t| > 0 {
      FirstNonWsOfTrim(v);
      forall j | FirstNonWsAt(v, j) ensures j == k {
        FirstNonWsUnique(v, j, k);
      }
    }
  }

  lemma StartsWithMinus(t: string)
    ensures StartsWith(t, "-") <==> |t| > 0 && t[0] == '-'
  {
    if |t| > 0 {
      assert t[..1] == [t[0]];
    }
  }

  /** `TrimStart` starts at the first non-whitespace character. */
  lemma FirstNonWsOfTrim(v: string)
    requires !AllWs(v)
    ensures FirstNonWsAt(v, |v| - |TrimStart(v)|)
  {
    TrimStartDropsWs(v);
    TrimStartOfNotAllWs(v);
    assert v[|v| - |TrimStart(v)|] == TrimStart(v)[0];
  }

  /** The colour follows the text, not the parsed number: "-0.00%" is red
      although it parses to zero. */
  lemma NegativeZeroIsRed()
    ensures ChangeColor(Some("-0.00%")) == LossCss
    ensures ParsePct("-0.00%") == Some(0.0)
  {
    assert FirstNonWsAt("-0.00%", 0);
    IsNegativeIff("-0.00%");
    var d := Decimal(true, "0", "00");
    assert "" + DecimalText(d) + "%" == "-0.00%" by {
      assert DecimalText(d) == "-0.00";
    }
    assert DecimalValue(d) == 0.0 by {
      assert "00"[..1] == "0" && "0"[..0] == "";
      assert DigitsValue("00") == 0 && DigitsValue("0") == 0;
    }
    ParseNumeral("", d, "%");
  }

  // ---------------------------------------------------------------------
  // Breadth

  datatype Trend = Up | Down | Flat

  /** How one coin counts in the breadth: by the sign of its parsed 24h
      change, a change with no number counting as flat. */
  function TrendOf(c: Coin): Trend {
    match ParsePct(c.change24h)
    case None => Flat
    case Some(p) => if p > 0.0 then Up else if p < 0.0 then Down else Flat
  }

  datatype Breadth = Breadth(up: nat, down: nat, flat: nat)

  /** `computeBreadth`: one pass over the coins in order. Every coin lands in
      exactly one of the three counts. */
  function ComputeBreadth(coins: seq<Coin>): (b: Breadth)
    ensures b.up + b.down + b.flat == |coins|
    decreases |coins|
  {
    if |coins| == 0 then Breadth(0, 0, 0)
    else
      var b := ComputeBreadth(coins[..|coins| - 1]);
      match TrendOf(coins[|coins| - 1])
      case Up => b.(up := b.up + 1)
      case Down => b.(down := b.down + 1)
      case Flat => b.(flat := b.flat + 1)
  }

  /** The trend of each coin, in order. */
  function Trends(coins: seq<Coin>): seq<Trend> {
    Map(TrendOf, coins)
  }

  lemma TrendsSnoc(coins: seq<Coin>)
    requires |coins| > 0
    ensures Trends(coins) == Trends(coins[..|coins| - 1]) + [TrendOf(coins[|coins| - 1])]
  {
    var init := coins[..|coins| - 1];
    assert coins == init + [coins[|coins| - 1]];
    MapSnoc(TrendOf, init, coins[|coins| - 1]);
  }

  /** Each count is the number of coins with that trend. */
  lemma {:induction false} BreadthCounts(coins: seq<Coin>)
    ensures ComputeBreadth(coins).up == multiset(Trends(coins))[Up]
    ensures ComputeBreadth(coins).down == multiset(Trends(coins))[Down]
    ensures ComputeBreadth(coins).flat == multiset(Trends(coins))[Flat]
    decreases |coins|
  {
    if |coins| > 0 {
      var init := coins[..|coins| - 1];
      BreadthCounts(init);
      var t := TrendOf(coins[|coins| - 1]);
      var b := ComputeBreadth(init);
      TrendsSnoc(coins);
      assert multiset(Trends(coins)) == multiset(Trends(init)) + multiset{t};
      match t
      case Up => assert ComputeBreadth(coins) == b.(up := b.up + 1);
      case Down => assert ComputeBreadth(coins) == b.(down := b.down + 1);
      case Flat => assert ComputeBreadth(coins) == b.(flat := b.flat + 1);
    }
  }

  // ---------------------------------------------------------------------
  // Stablecoin heuristic

  /** The alternatives of the symbol pattern, as written. */
  const StablePrefixes: seq<string> := [
    "USD", "USDT", "USDC", "DAI", "TUSD", "FDUSD", "USDE", "PYUSD", "FRAX", "LUSD",
    "GUSD", "USDP", "SUSD", "USDD"
  ]

  /** The same pattern with every alternative that extends another dropped. */
  const ShortStablePrefixes: seq<string> := [
    "USD", "DAI", "TUSD", "FDUSD", "PYUSD", "FRAX", "LUSD", "GUSD", "SUSD"
  ]

  /** The symbol pattern: the symbol starts with one of the prefixes. */
  predicate HasStablePrefix(s: string, prefixes: seq<string>) {
    exists i :: 0 <= i < |prefixes| && StartsWith(s, prefixes[i])
  }

  /** The name part of the heuristic, on the lower-cased name: "usd" with
      "tether", "coin" or "stable", or "stablecoin", or "tether gold". */
  predicate StableName(n: string) {
    (Contains(n, "usd") && (Contains(n, "tether") || Contains(n, "coin") || Contains(n, "stable")))
    || Contains(n, "stablecoin")
    || Contains(n, "tether gold")
  }

  /** `isStableLike`: on the upper-cased symbol, membership in the ignore
      list, one of the fourteen prefixes, or XAUT; or the name test. The
      same coins are caught by the ignore list, the nine shortest prefixes
      and the name test alone. */
  function IsStableLike(c: Coin): (r: bool)
    ensures r <==> Upper(c.symbol) in DefaultIgnore
                   || HasStablePrefix(Upper(c.symbol), ShortStablePrefixes)
                   || StableName(Lower(c.name))
  {
    var s := Upper(c.symbol);
    var n := Lower(c.name);
    StablePrefixesReduce(s);
    s in DefaultIgnore
    || HasStablePrefix(s, StablePrefixes)
    || (Contains(n, "usd") && (Contains(n, "tether") || Contains(n, "coin") || Contains(n, "stable")))
    || Contains(n, "stablecoin")
    || s == "XAUT" || Contains(n, "tether gold")
  }

  /** A prefix of a prefix is a prefix. */
  lemma StartsWithTrans(s: string, p: string, q: string)
    requires StartsWith(s, p) && StartsWith(p, q)
    ensures StartsWith(s, q)
  {
    assert s[..|q|] == s[..|p|][..|q|];
  }

  /** The fourteen alternatives match the same symbols as the nine that do
      not extend another. */
  lemma StablePrefixesReduce(s: string)
    ensures HasStablePrefix(s, StablePrefixes) <==> HasStablePrefix(s, ShortStablePrefixes)
  {
    if HasStablePrefix(s, StablePrefixes) {
      var i :| 0 <= i < |StablePrefixes| && StartsWith(s, StablePrefixes[i]);
      var p := StablePrefixes[i];
      if p in ["USDT", "USDC", "USDE", "USDP", "USDD"] {
        StartsWithTrans(s, p, "USD");
        assert StartsWith(s, ShortStablePrefixes[0]);
      } else {
        assert p in ShortStablePrefixes;
        var j :| 0 <= j < |ShortStablePrefixes| && ShortStablePrefixes[j] == p;
        assert StartsWith(s, ShortStablePrefixes[j]);
      }
    }
    if HasStablePrefix(s, ShortStablePrefixes) {
      var j :| 0 <= j < |ShortStablePrefixes| && StartsWith(s, ShortStablePrefixes[j]);
      var p := ShortStablePrefixes[j];
      assert p in StablePrefixes;
      var i :| 0 <= i < |StablePrefixes| && StablePrefixes[i] == p;
      assert StartsWith(s, StablePrefixes[i]);
    }
  }

  /** The XAUT test repeats the ignore list: XAUT is in it. */
  lemma XautIsListed(c: Coin)
    requires Upper(c.symbol) == "XAUT"
    ensures IsStableLike(c)
  {
  }

  /** Every symbol of the ignore list is stable-like, whatever the name. */
  lemma IgnoredIsStableLike(c: Coin)
    requires Upper(c.symbol) in DefaultIgnore
    ensures IsStableLike(c)
  {
  }

  /** Tether is stable-like by its symbol. */
  lemma TetherIsStableLike()
    ensures IsStableLike(Coin("3", "Tether USD", "USDT", "$1.00", "", "0.01%", "0.02%"))
  {
    assert Upper("USDT") == "USDT";
  }

  /** Bitcoin is not stable-like: no listed symbol, no stable prefix, and
      nothing in its name. */
  lemma BitcoinIsNotStableLike()
    ensures !IsStableLike(Coin("1", "Bitcoin", "BTC", "$97,000.00", "", "1.20%", "-3.40%"))
  {
    assert Upper("BTC") == "BTC" by {
      var s := Upper("BTC");
      assert s[0] == 'B' && s[1] == 'T' && s[2] == 'C';
    }
    assert Lower("Bitcoin") == "bitcoin" by {
      assert Lower("Bitcoin")[0] == 'b';
    }
    BitcoinSymbol("BTC");
    BitcoinName("bitcoin");
  }

  lemma BitcoinSymbol(s: string)
    requires s == "BTC"
    ensures s !in DefaultIgnore && !HasStablePrefix(s, StablePrefixes) && s != "XAUT"
  {
    forall i | 0 <= i < |StablePrefixes| ensures !StartsWith(s, StablePrefixes[i]) {
      assert StablePrefixes[i][0] != 'B';
    }
  }

  lemma BitcoinName(n: string)
    requires n == "bitcoin"
    ensures !Contains(n, "usd") && !Contains(n, "stablecoin") && !Contains(n, "tether gold")
  {
    NotContainsMissingChar(n, "usd", 0);
    NotContainsMissingChar(n, "stablecoin", 0);
    NotContainsMissingChar(n, "tether gold", 1);
  }

  // ---------------------------------------------------------------------
  // Ignore set and filter

  /** The key a symbol is compared under: upper-cased, then trimmed. */
  function NormalizeSymbol(x: string): string {
    Trim(Upper(x))
  }

  /** `buildIgnoreSet`: the default symbols plus every custom entry,
      normalized, added in order. */
  function BuildIgnoreSet(custom: seq<string>): (r: set<string>)
    ensures r == DefaultIgnore + set x | x in custom :: NormalizeSymbol(x)
    decreases |custom|
  {
    if |custom| == 0 then DefaultIgnore
    else
      var init := custom[..|custom| - 1];
      var x := custom[|custom| - 1];
      assert custom == init + [x];
      BuildIgnoreSet(init) + {NormalizeSymbol(x)}
  }

  /** Whether `filterCoins` keeps a coin: its normalized symbol is not in the
      ignore set (when there is one), and it is not stable-like (when
      stables are ignored). */
  predicate Keep(c: Coin, ignoreSet: Option<set<string>>, ignoreStables: bool) {
    !(ignoreSet.Some? && NormalizeSymbol(c.symbol) in ignoreSet.value)
    && !(ignoreStables && IsStableLike(c))
  }

  /** `filterCoins`: a list that is not there filters to nothing; otherwise
      every coin it returns passes the test. */
  function FilterCoins(list: Option<seq<Coin>>, ignoreSet: Option<set<string>>, ignoreStables: bool): (r: seq<Coin>)
    ensures list.None? ==> r == []
    ensures forall c :: c in r ==> Keep(c, ignoreSet, ignoreStables)
  {
    match list
    case None => []
    case Some(l) => FilterBy(c => Keep(c, ignoreSet, ignoreStables), l)
  }

  /** `filterCoins` keeps the order of the coins it keeps. */
  lemma FilterIsSubseq(l: seq<Coin>, ignoreSet: Option<set<string>>, ignoreStables: bool)
    ensures SubseqOf(FilterCoins(Some(l), ignoreSet, ignoreStables), l)
  {
    FilterByIsSubseq(c => Keep(c, ignoreSet, ignoreStables), l);
  }

  /** Every kept coin appears as often as in the list; every other coin not
      at all. */
  lemma FilterCounts(l: seq<Coin>, ignoreSet: Option<set<string>>, ignoreStables: bool, c: Coin)
    ensures multiset(FilterCoins(Some(l), ignoreSet, ignoreStables))[c]
              == if Keep(c, ignoreSet, ignoreStables) then multiset(l)[c] else 0
  {
    FilterByCounts(x => Keep(x, ignoreSet, ignoreStables), l, c);
  }

  /** Filtering twice with the same settings is filtering once. */
  lemma FilterIdempotent(l: seq<Coin>, ignoreSet: Option<set<string>>, ignoreStables: bool)
    ensures var once := FilterCoins(Some(l), ignoreSet, ignoreStables);
            FilterCoins(Some(once), ignoreSet, ignoreStables) == once
  {
    FilterByIdempotent(c => Keep(c, ignoreSet, ignoreStables), l);
  }

  /** With no ignore set and stables kept, the filter keeps every coin. */
  lemma FilterKeepsAllWhenOff(l: seq<Coin>)
    ensures FilterCoins(Some(l), None, false) == l
  {
    FilterByAll(c => Keep(c, None, false), l);
  }

  /** A stable-like coin never survives the filter the table uses. */
  lemma StableNeverRendered(l: seq<Coin>, custom: seq<string>, c: Coin)
    requires IsStableLike(c)
    ensures c !in FilterCoins(Some(l), Some(BuildIgnoreSet(custom)), true)
  {
  }
}
