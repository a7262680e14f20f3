/**
 * The decisions `renderMarketImage` of renderer.js takes before it draws:
 * header fallbacks, the five stat cards and their layout, the coin table
 * (filtered, at most six rows, placeholders and colours), the movers panel
 * (from the unfiltered coins), the market mood and the watermark. The canvas
 * calls themselves are not modelled; the result is the list of what is drawn,
 * plus the market mood, which the code computes but does not draw (its
 * drawing call is commented out).
 */
module Render {
  import opened Wrappers
  import opened Strings
  import opened Pct
  import opened Coins
  import opened Movers
  import opened Ellipsis

  /** The rendering options the popup passes. */
  datatype Options = Options(headline: string, accent: string, watermark: Option<string>)

  /** The fields of a capture the renderer reads. A list that is not there
      is `None`. */
  datatype Payload = Payload(
    source: string,
    marketCap: string,
    fearGreed: string,
    coins: Option<seq<Coin>>,
    ignoreSymbols: Option<seq<string>>)

  const NotAvailable := "N/A"

  // ---------------------------------------------------------------------
  // Header

  function Headline(o: Options): string {
    OrElse(o.headline, "Crypto Market Update")
  }

  function Accent(o: Options): string {
    OrElse(o.accent, "#ec6714")
  }

  /** The line under the title; `timeText` is the locale rendering of the
      capture time, which the model takes as given. */
  function SourceLabel(p: Payload, timeText: string): string {
    "Source: " + OrElse(p.source, "CoinMarketCap") + " • " + timeText
  }

  /** A header text falls back to its default exactly when it is empty; the
      source line names CoinMarketCap when the capture has no source. */
  lemma HeaderFallbacks(o: Options, p: Payload, timeText: string)
    ensures Headline(o) == (if o.headline == "" then "Crypto Market Update" else o.headline)
    ensures Accent(o) == (if o.accent == "" then "#ec6714" else o.accent)
    ensures Headline(o) != "" && Accent(o) != ""
    ensures p.source == "" ==> SourceLabel(p, timeText) == "Source: CoinMarketCap • " + timeText
    ensures p.source != "" ==> SourceLabel(p, timeText) == "Source: " + p.source + " • " + timeText
  {
  }

  // ---------------------------------------------------------------------
  // Numbers as text

  function DigitChar(d: nat): char
    requires d < 10
  {
    ('0' as int + d) as char
  }

  /** A natural number in decimal, as a template literal writes it. */
  function NatToString(n: nat): (s: string)
    ensures |s| > 0 && AllDigits(s)
    ensures |s| > 1 ==> s[0] != '0'
    decreases n
  {
    if n < 10 then [DigitChar(n)]
    else
      var s := NatToString(n / 10) + [DigitChar(n % 10)];
      assert s[..|s| - 1] == NatToString(n / 10);
      s
  }

  /** Reading the decimal text back gives the number. */
  lemma {:induction false} NatToStringValue(n: nat)
    ensures DigitsValue(NatToString(n)) == n
    decreases n
  {
    if n >= 10 {
      NatToStringValue(n / 10);
      var s := NatToString(n);
      assert s[..|s| - 1] == NatToString(n / 10);
    }
  }

  // ---------------------------------------------------------------------
  // Stat cards

  datatype Card = Card(title: string, value: string)

  /** `payload.coins || []` */
  function CoinsOf(p: Payload): seq<Coin> {
    p.coins.GetOr([])
  }

  /** `coins.find(c => c.symbol === sym)`: the first coin with exactly that
      symbol. */
  function FindSymbol(coins: seq<Coin>, sym: string): (r: Option<Coin>)
    ensures r.None? ==> forall i :: 0 <= i < |coins| ==> coins[i].symbol != sym
    ensures r.Some? ==> exists i :: 0 <= i < |coins| && coins[i] == r.value && r.value.symbol == sym
                          && forall j :: 0 <= j < i ==> coins[j].symbol != sym
  {
    if |coins| == 0 then None
    else if coins[0].symbol == sym then Some(coins[0])
    else
      var r := FindSymbol(coins[1..], sym);
      assert forall i :: 0 <= i < |coins| - 1 ==> coins[1..][i] == coins[i + 1];
      r
  }

  /** The breadth card: up and down counts after arrows. */
  function BreadthLabel(b: Breadth): string {
    "↑ " + NatToString(b.up) + "  ↓ " + NatToString(b.down)
  }

  /** The five cards, each value falling back to "N/A" when empty. */
  function StatCards(p: Payload): (cards: seq<Card>)
    ensures |cards| == 5
    ensures forall c :: c in cards ==> c.value != ""
  {
    var coins := CoinsOf(p);
    var btc := FindSymbol(coins, "BTC");
    var price := if btc.Some? then btc.value.price else "";
    var change := if btc.Some? then btc.value.change24h else "";
    [
      Card("Market Cap", OrElse(p.marketCap, NotAvailable)),
      Card("BTC Price", OrElse(price, NotAvailable)),
      Card("BTC 24h", OrElse(change, NotAvailable)),
      Card("Fear & Greed", OrElse(p.fearGreed, NotAvailable)),
      Card("Breadth", BreadthLabel(ComputeBreadth(coins)))
    ]
  }

  /** The BTC price card shows "N/A" exactly when no coin has the symbol
      "BTC" or the first such coin has no price; otherwise that price. */
  lemma BtcPriceCard(p: Payload)
    ensures var coins := CoinsOf(p);
            StatCards(p)[1].value == NotAvailable <==>
              (forall i :: 0 <= i < |coins| ==> coins[i].symbol != "BTC")
              || FindSymbol(coins, "BTC").value.price in {"", NotAvailable}
    ensures var btc := FindSymbol(CoinsOf(p), "BTC");
            btc.Some? && btc.value.price != "" ==> StatCards(p)[1].value == btc.value.price
  {
  }

  /** The other four cards, in order: the market cap, the first BTC coin's
      24h change and the fear & greed value, each "N/A" exactly when missing
      (or itself "N/A"), and the up and down counts of the breadth of all the
      capture's coins. */
  lemma StatCardValues(p: Payload)
    ensures var cards := StatCards(p);
            [cards[0].title, cards[1].title, cards[2].title, cards[3].title, cards[4].title]
              == ["Market Cap", "BTC Price", "BTC 24h", "Fear & Greed", "Breadth"]
    ensures StatCards(p)[0].value == NotAvailable <==> p.marketCap in {"", NotAvailable}
    ensures p.marketCap != "" ==> StatCards(p)[0].value == p.marketCap
    ensures var coins := CoinsOf(p);
            StatCards(p)[2].value == NotAvailable <==>
              (forall i :: 0 <= i < |coins| ==> coins[i].symbol != "BTC")
              || FindSymbol(coins, "BTC").value.change24h in {"", NotAvailable}
    ensures var btc := FindSymbol(CoinsOf(p), "BTC");
            btc.Some? && btc.value.change24h != "" ==> StatCards(p)[2].value == btc.value.change24h
    ensures StatCards(p)[3].value == NotAvailable <==> p.fearGreed in {"", NotAvailable}
    ensures p.fearGreed != "" ==> StatCards(p)[3].value == p.fearGreed
    ensures StatCards(p)[4].value == BreadthLabel(ComputeBreadth(CoinsOf(p)))
  {
  }

  // ---------------------------------------------------------------------
  // Card layout

  const StartX: real := 70.0
  const Gap: real := 18.0

  /** Five cards and four gaps share the width between the margins. */
  function CardWidth(w: real): real {
    (w - StartX * 2.0 - Gap * 4.0) / 5.0
  }

  function CardX(w: real, i: nat): real {
    StartX + i as real * (CardWidth(w) + Gap)
  }

  /** The cards tile the row: the first starts at the left margin, each next
      one a gap after the previous, and the last ends at the right margin. */
  lemma CardsTile(w: real)
    ensures CardX(w, 0) == StartX
    ensures forall i: nat :: i < 4 ==> CardX(w, i + 1) == CardX(w, i) + CardWidth(w) + Gap
    ensures CardX(w, 4) + CardWidth(w) == w - StartX
  {
  }

  // ---------------------------------------------------------------------
  // Coin table

  const MaxRows := 6
  const RowY0 := 474
  const RowH := 78
  const AssetW: real := 360.0

  /** One drawn table row. */
  datatype Row = Row(
    y: int,
    asset: string,
    price: string,
    change1h: string,
    change24h: string,
    change7d: string,
    color1h: string,
    color24h: string,
    color7d: string)

  /** The row for coin `c` in position `i`: "-" for a missing symbol, the
      placeholder dash for a missing price or change, each change coloured
      by its own text. No cell is ever blank. */
  function TableRow(c: Coin, i: nat, width: string -> real): (r: Row)
    ensures r.y == RowY0 + i * RowH
    ensures r.asset != "" && r.price != "" && r.change1h != "" && r.change24h != "" && r.change7d != ""
    ensures c.symbol == "" ==> r.asset == EllipsisText("-", AssetW, width)
    ensures c.symbol != "" && width(c.symbol) <= AssetW ==> r.asset == c.symbol
    ensures c.symbol != "" && width(c.symbol) > AssetW ==> r.asset == Shorten(c.symbol, AssetW, width) + Ell
    ensures c.price == "" ==> r.price == Dash
    ensures c.price != "" ==> r.price == c.price
    ensures c.change1h == "" ==> r.change1h == Dash && r.color1h == MutedCss
    ensures c.change24h == "" ==> r.change24h == Dash && r.color24h == MutedCss
    ensures c.change7d == "" ==> r.change7d == Dash && r.color7d == MutedCss
    ensures c.change1h != "" ==> r.change1h == c.change1h
    ensures c.change24h != "" ==> r.change24h == c.change24h
    ensures c.change7d != "" ==> r.change7d == c.change7d
    ensures r.color1h == ChangeColor(Some(r.change1h)) && r.color24h == ChangeColor(Some(r.change24h))
            && r.color7d == ChangeColor(Some(r.change7d))
  {
    var c1h := OrElse(c.change1h, Dash);
    var c24h := OrElse(c.change24h, Dash);
    var c7d := OrElse(c.change7d, Dash);
    Row(
      RowY0 + i * RowH,
      EllipsisText(if c.symbol != "" then c.symbol else "-", AssetW, width),
      OrElse(c.price, Dash),
      c1h, c24h, c7d,
      ChangeColor(Some(c1h)), ChangeColor(Some(c24h)), ChangeColor(Some(c7d)))
  }

  /** The coins the table shows: the capture's coins without the ignored
      symbols and without stable-like coins. */
  function TableCoins(p: Payload): seq<Coin> {
    FilterCoins(p.coins, Some(BuildIgnoreSet(p.ignoreSymbols.GetOr([]))), true)
  }

  /** The first six shown coins, one row each. */
  function TableRows(coins: seq<Coin>, width: string -> real): (rows: seq<Row>)
    ensures |rows| == if |coins| < MaxRows then |coins| else MaxRows
  {
    var n := if |coins| < MaxRows then |coins| else MaxRows;
    seq(n, i requires 0 <= i < n => TableRow(coins[i], i, width))
  }

  /** A change cell is never blank; it is muted exactly when the value is
      missing or is itself the placeholder, and red exactly when its first
      non-whitespace character is a minus sign. */
  lemma ChangeCell(v: string)
    ensures OrElse(v, Dash) != ""
    ensures ChangeColor(Some(OrElse(v, Dash))) == MutedCss <==> v == "" || v == Dash
    ensures ChangeColor(Some(OrElse(v, Dash))) == LossCss <==>
              v != "" && v != Dash && exists k :: FirstNonWsAt(v, k) && v[k] == '-'
  {
  }

  // ---------------------------------------------------------------------
  // Movers panel

  /** A movers line: symbol, two spaces, the 24h change as captured. */
  function MoverLine(m: Mover): string {
    m.coin.symbol + "  " + m.coin.change24h
  }

  /** One line per mover, in order: its symbol, two spaces, and its 24h
      change as captured (not the parsed number). */
  function MoverLines(ms: seq<Mover>): (lines: seq<string>)
    ensures |lines| == |ms|
    ensures forall i :: 0 <= i < |ms| ==>
              lines[i] == ms[i].coin.symbol + "  " + ms[i].coin.change24h
  {
    seq(|ms|, i requires 0 <= i < |ms| => MoverLine(ms[i]))
  }

  // ---------------------------------------------------------------------
  // Mood

  datatype Mood = Neutral | RiskOn | RiskOff

  /** The mood: risk-on when up exceeds 1.3 times down, then risk-off when
      down exceeds 1.3 times up (the later test wins). Written on integers:
      `up > 1.3 * down` is `10 * up > 13 * down`. */
  function MoodOf(b: Breadth): (mood: Mood)
    ensures mood == RiskOn <==> 10 * b.up > 13 * b.down
    ensures mood == RiskOff <==> 10 * b.down > 13 * b.up
    ensures mood == Neutral <==> 10 * b.up <= 13 * b.down && 10 * b.down <= 13 * b.up
  {
    var mood := if 10 * b.up > 13 * b.down then RiskOn else Neutral;
    if 10 * b.down > 13 * b.up then RiskOff else mood
  }

  /** The integer test is the ratio test on exact numbers. */
  lemma MoodRatio(up: nat, down: nat)
    ensures 10 * up > 13 * down <==> up as real > down as real * 1.3
  {
  }

  /** Both tests never pass together, so the order of the two assignments
      does not matter: testing risk-on last instead gives the same mood. */
  lemma MoodCases(b: Breadth)
    ensures !(10 * b.up > 13 * b.down && 10 * b.down > 13 * b.up)
    ensures var other := if 10 * b.down > 13 * b.up then RiskOff else Neutral;
            MoodOf(b) == if 10 * b.up > 13 * b.down then RiskOn else other
  {
  }

  // ---------------------------------------------------------------------
  // Watermark

  /** `options.watermark?.trim()`, drawn only when non-empty: the option's
      text with the whitespace at both ends removed. */
  function Watermark(o: Options): (w: Option<string>)
    ensures w.Some? ==> o.watermark.Some? && |w.value| > 0
    ensures w.Some? ==> !IsWs(w.value[0]) && !IsWs(w.value[|w.value| - 1])
    ensures w.Some? ==> exists a, b :: o.watermark.value == a + w.value + b && AllWs(a) && AllWs(b)
  {
    match o.watermark
    case None => None
    case Some(s) =>
      var t := Trim(s);
      TrimSplits(s);
      if |t| == 0 then None else Some(t)
  }

  /** A watermark is drawn exactly when the option has a non-whitespace
      character. */
  lemma WatermarkShown(o: Options)
    ensures Watermark(o).Some? <==> o.watermark.Some? && !AllWs(o.watermark.value)
  {
    if o.watermark.Some? {
      TrimHead(o.watermark.value);
    }
  }

  // ---------------------------------------------------------------------
  // The whole picture

  /** Everything drawn, in terms of the options and the capture: the
      gainers and losers are kept with their lines. The mood is computed but
      not drawn. */
  datatype Plan = Plan(
    headline: string,
    accent: string,
    sourceLabel: string,
    cards: seq<Card>,
    rows: seq<Row>,
    gainers: seq<Mover>,
    losers: seq<Mover>,
    gainerLines: seq<string>,
    loserLines: seq<string>,
    mood: Mood,
    watermark: Option<string>)

  /** `renderMarketImage` up to the canvas: `w` is the canvas width,
      `timeText` the rendered capture time and `width` the text measure. */
  function RenderMarketImage(p: Payload, o: Options, w: real, timeText: string, width: string -> real): (plan: Plan)
    ensures |plan.cards| == 5
    ensures |plan.rows| == if |TableCoins(p)| < MaxRows then |TableCoins(p)| else MaxRows
    ensures |plan.gainers| <= 3 && |plan.losers| <= 3
    ensures |plan.gainerLines| == |plan.gainers| && |plan.loserLines| == |plan.losers|
    ensures forall m :: m in plan.gainers + plan.losers ==>
              m.coin in CoinsOf(p) && ParsePct(m.coin.change24h) == Some(m.pct)
  {
    var coins := CoinsOf(p);
    var b := ComputeBreadth(coins);
    var gainers := TopMovers(coins, "up", 3);
    var losers := TopMovers(coins, "down", 3);
    Plan(
      Headline(o),
      Accent(o),
      SourceLabel(p, timeText),
      StatCards(p),
      TableRows(TableCoins(p), width),
      gainers,
      losers,
      MoverLines(gainers),
      MoverLines(losers),
      MoodOf(b),
      Watermark(o))
  }

  /** The table rows drawn are the leading shown coins, in order, 78 pixels
      apart; no stable-like coin and no ignored symbol ever gets a row, and
      neither does a default-listed symbol, whatever the custom list. */
  lemma TableShowsFilteredCoins(p: Payload, o: Options, w: real, timeText: string, width: string -> real)
    ensures var coins := TableCoins(p);
            var rows := RenderMarketImage(p, o, w, timeText, width).rows;
            forall i :: 0 <= i < |rows| ==>
              rows[i] == TableRow(coins[i], i, width)
              && rows[i].y == RowY0 + i * RowH
              && !IsStableLike(coins[i])
              && NormalizeSymbol(coins[i].symbol) !in BuildIgnoreSet(p.ignoreSymbols.GetOr([]))
              && NormalizeSymbol(coins[i].symbol) !in DefaultIgnore
  {
    var coins := TableCoins(p);
    forall i | 0 <= i < |TableRows(coins, width)| ensures Keep(coins[i], Some(BuildIgnoreSet(p.ignoreSymbols.GetOr([]))), true) {
      assert coins[i] in coins;
    }
  }

  /** The movers, the breadth card and the mood come from the unfiltered
      coins: the ignore list changes only the table. */
  lemma OnlyTableUsesIgnoreList(p: Payload, ignore: Option<seq<string>>, o: Options, w: real, timeText: string, width: string -> real)
    ensures var a := RenderMarketImage(p, o, w, timeText, width);
            var b := RenderMarketImage(p.(ignoreSymbols := ignore), o, w, timeText, width);
            a.gainers == b.gainers && a.losers == b.losers && a.gainerLines == b.gainerLines
            && a.loserLines == b.loserLines && a.cards == b.cards && a.mood == b.mood
  {
  }

  /** The movers drawn are the top three of all the capture's coins whose
      change parses, stablecoins and ignored symbols included: there are
      three of each when there are that many, and no parseable coin left out
      beats one that is shown. */
  lemma MoversAreTopOfAllCoins(p: Payload, o: Options, w: real, timeText: string, width: string -> real, m: Mover)
    ensures var plan := RenderMarketImage(p, o, w, timeText, width);
            var n := |Parseable(CoinsOf(p))|;
            |plan.gainers| == (if n < 3 then n else 3) && |plan.losers| == |plan.gainers|
    ensures var plan := RenderMarketImage(p, o, w, timeText, width);
            m in Parseable(CoinsOf(p)) && m !in plan.gainers ==>
              forall x :: x in plan.gainers ==> x.pct >= m.pct
    ensures var plan := RenderMarketImage(p, o, w, timeText, width);
            m in Parseable(CoinsOf(p)) && m !in plan.losers ==>
              forall x :: x in plan.losers ==> x.pct <= m.pct
  {
    var coins := CoinsOf(p);
    PlanMovers(p, o, w, timeText, width);
    if m in Parseable(coins) {
      if m !in TopMovers(coins, "up", 3) {
        TopMoversAreTop(coins, "up", 3, m);
      }
      if m !in TopMovers(coins, "down", 3) {
        TopMoversAreTop(coins, "down", 3, m);
      }
    }
  }

  /** The gainers drawn fall and the losers drawn rise. */
  lemma MoversDrawnInOrder(p: Payload, o: Options, w: real, timeText: string, width: string -> real)
    ensures var plan := RenderMarketImage(p, o, w, timeText, width);
            forall i, j :: 0 <= i < j < |plan.gainers| ==> plan.gainers[i].pct >= plan.gainers[j].pct
    ensures var plan := RenderMarketImage(p, o, w, timeText, width);
            forall i, j :: 0 <= i < j < |plan.losers| ==> plan.losers[i].pct <= plan.losers[j].pct
  {
    PlanMovers(p, o, w, timeText, width);
    TopMoversOrdered(CoinsOf(p), "up", 3);
    TopMoversOrdered(CoinsOf(p), "down", 3);
  }

  /** Where the plan's movers come from. */
  lemma PlanMovers(p: Payload, o: Options, w: real, timeText: string, width: string -> real)
    ensures var plan := RenderMarketImage(p, o, w, timeText, width);
            plan.gainers == TopMovers(CoinsOf(p), "up", 3) && plan.losers == TopMovers(CoinsOf(p), "down", 3)
  {
  }
}
