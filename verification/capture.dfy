/**
 * The capture side of content.js: `collectCMC` reading the CoinMarketCap
 * page, and the message handler answering a capture request. The page is
 * abstracted to the elements the code queries, each given by its text
 * content, `None` when the element is absent.
 */
module Capture {
  import opened Wrappers
  import opened Clean
  import opened Coins
  import opened Seqs

  /** The element `[data-test="global-stats"]`: the text of each statistic
      it contains. */
  datatype GlobalStats = GlobalStats(
    marketCap: Option<string>,
    marketCapChange: Option<string>,
    volume24h: Option<string>,
    volumeChange: Option<string>,
    btcDominance: Option<string>,
    ethDominance: Option<string>,
    fearGreed: Option<string>)

  /** A `tbody tr`: the texts of its `td` cells, and of its name and symbol
      elements. */
  datatype RowEl = RowEl(cells: seq<string>, name: Option<string>, symbol: Option<string>)

  /** The page: the global statistics element, if present, and the table
      rows in document order. */
  datatype Page = Page(global: Option<GlobalStats>, rows: seq<RowEl>)

  /** What a capture returns. */
  datatype Snapshot = Snapshot(
    source: string,
    capturedAt: string,
    marketCap: string,
    marketCapChange: string,
    volume24h: string,
    volumeChange: string,
    btcDominance: string,
    ethDominance: string,
    fearGreed: string,
    coins: seq<Coin>)

  const Source := "coinmarketcap.com"
  const MaxCoins := 5
  const NotFound := "Global stats not found (wrong page or DOM not ready)"

  /** `tds[i]`: a cell past the end reads as no element. */
  function Cell(cells: seq<string>, i: nat): Option<string> {
    if i < |cells| then Some(cells[i]) else None
  }

  /** `text(tds[i])`: the cleaned text of cell `i`, or "" past the end. */
  function CellText(cells: seq<string>, i: nat): (t: string)
    ensures i < |cells| ==> t == CleanText(cells[i])
    ensures |cells| <= i ==> t == ""
  {
    CleanOpt(Cell(cells, i))
  }

  /** The coin read from one row: rank, price and the two changes are the
      cleaned texts of cells 1, 3, 5 and 6 ("" past the last cell), name and
      symbol the cleaned texts of their elements ("" when absent); there is
      no 1h change on the page. */
  function RowCoin(r: RowEl): (c: Coin)
    ensures c.change1h == ""
    ensures |r.cells| > 1 ==> c.rank == CleanText(r.cells[1])
    ensures |r.cells| > 3 ==> c.price == CleanText(r.cells[3])
    ensures |r.cells| > 5 ==> c.change24h == CleanText(r.cells[5])
    ensures |r.cells| > 6 ==> c.change7d == CleanText(r.cells[6])
    ensures |r.cells| <= 1 ==> c.rank == ""
    ensures |r.cells| <= 3 ==> c.price == ""
    ensures |r.cells| <= 5 ==> c.change24h == ""
    ensures |r.cells| <= 6 ==> c.change7d == ""
    ensures c.name == CleanOpt(r.name) && c.symbol == CleanOpt(r.symbol)
  {
    Coin(
      CellText(r.cells, 1),
      CleanOpt(r.name),
      CleanOpt(r.symbol),
      CellText(r.cells, 3),
      "",
      CellText(r.cells, 5),
      CellText(r.cells, 6))
  }

  /** Reference: the rows of `rs` that have cells, in order. */
  function KeptRows(rs: seq<RowEl>): seq<RowEl>
    decreases |rs|
  {
    if |rs| == 0 then []
    else
      var last := rs[|rs| - 1];
      KeptRows(rs[..|rs| - 1]) + (if |last.cells| == 0 then [] else [last])
  }

  /** The coins read from the rows of `rs` that have cells. */
  function RowsCoins(rs: seq<RowEl>): seq<Coin> {
    Map(RowCoin, KeptRows(rs))
  }

  /** The leading rows `forEach` looks at. */
  function FirstRows(rs: seq<RowEl>): (f: seq<RowEl>)
    ensures |f| <= MaxCoins
    ensures |f| <= |rs| && f == rs[..|f|] && (|f| == MaxCoins || f == rs)
  {
    if |rs| <= MaxCoins then rs else rs[..MaxCoins]
  }

  /** The `forEach` over the table rows: a row at index 5 or later is
      skipped, so is a row with no cells, and an empty row still uses up its
      index. Each row read yields its coin. */
  method CollectRows(rows: seq<RowEl>) returns (coins: seq<Coin>)
    ensures coins == RowsCoins(FirstRows(rows))
  {
    var read: seq<RowEl> := [];
    var i := 0;
    while i < |rows|
      invariant 0 <= i <= |rows|
      invariant read == KeptRows(rows[..Seen(i)])
    {
      if i < MaxCoins {
        KeptRowsStep(rows, i);
        if |rows[i].cells| > 0 {
          read := read + [rows[i]];
        }
      }
      i := i + 1;
    }
    assert rows[..Seen(|rows|)] == FirstRows(rows);
    coins := Map(RowCoin, read);
  }

  /** How many rows the `forEach` has read after looking at `i` rows. */
  function Seen(i: nat): nat {
    if i < MaxCoins then i else MaxCoins
  }

  /** The statistics part of a snapshot: each element's cleaned text, or
      the empty string for a missing element. */
  function Stats(g: GlobalStats, capturedAt: string, coins: seq<Coin>): Snapshot {
    Snapshot(
      Source, capturedAt,
      CleanOpt(g.marketCap), CleanOpt(g.marketCapChange),
      CleanOpt(g.volume24h), CleanOpt(g.volumeChange),
      CleanOpt(g.btcDominance), CleanOpt(g.ethDominance),
      CleanOpt(g.fearGreed),
      coins)
  }

  /** `collectCMC`: fails with the "not found" error when the global stats
      element is absent, else returns the snapshot. `capturedAt` is the
      clock reading, given by the caller. */
  method CollectCMC(page: Page, capturedAt: string) returns (r: Result<Snapshot, string>)
    ensures page.global.None? <==> r.Failure?
    ensures r.Failure? ==> r.error == NotFound
    ensures r.Success? ==> r.value == Stats(page.global.value, capturedAt, RowsCoins(FirstRows(page.rows)))
  {
    if page.global.None? {
      return Failure(NotFound);
    }
    var coins := CollectRows(page.rows);
    return Success(Stats(page.global.value, capturedAt, coins));
  }

  /** The reply sent back to the popup. */
  datatype Response = Ok(data: Snapshot) | Err(error: string)

  /** `String(e)` for an `Error`: its name, a colon, and the message. */
  function ErrorString(message: string): string {
    "Error: " + message
  }

  /** The message listener: a message whose type is "CMC_CAPTURE" gets a
      reply, anything else (including no message) gets none. */
  method Handle(msgType: Option<string>, page: Page, capturedAt: string) returns (reply: Option<Response>)
    ensures reply.Some? <==> msgType == Some("CMC_CAPTURE")
    ensures reply.Some? ==> (reply.value.Err? <==> page.global.None?)
    ensures reply.Some? && reply.value.Err? ==> reply.value.error == ErrorString(NotFound)
    ensures reply.Some? && reply.value.Ok? ==>
              reply.value.data.source == Source && reply.value.data.capturedAt == capturedAt
              && |reply.value.data.coins| <= MaxCoins
    ensures reply.Some? && reply.value.Ok? ==>
              page.global.Some?
              && reply.value.data == Stats(page.global.value, capturedAt, RowsCoins(FirstRows(page.rows)))
  {
    if msgType != Some("CMC_CAPTURE") {
      return None;
    }
    var r := CollectCMC(page, capturedAt);
    match r
    case Success(data) =>
      CapturedAtMostFive(page.rows);
      reply := Some(Ok(data));
    case Failure(e) =>
      reply := Some(Err(ErrorString(e)));
  }

  // ---------------------------------------------------------------------
  // Properties of the captured rows

  /** One more row looked at is kept exactly when it has cells. */
  lemma KeptRowsStep(rs: seq<RowEl>, i: nat)
    requires i < |rs|
    ensures KeptRows(rs[..i + 1]) == KeptRows(rs[..i]) + (if |rs[i].cells| == 0 then [] else [rs[i]])
  {
    assert rs[..i + 1][..i] == rs[..i];
  }

  /** At most one kept row per row looked at. */
  lemma {:induction false} KeptRowsLength(rs: seq<RowEl>)
    ensures |KeptRows(rs)| <= |rs|
    decreases |rs|
  {
    if |rs| > 0 {
      KeptRowsLength(rs[..|rs| - 1]);
    }
  }

  /** A capture never holds more than five coins. */
  lemma CapturedAtMostFive(rows: seq<RowEl>)
    ensures |RowsCoins(FirstRows(rows))| <= MaxCoins
  {
    KeptRowsLength(FirstRows(rows));
  }

  /** Every kept row is a row with cells. */
  lemma {:induction false} KeptRowsSound(rs: seq<RowEl>, j: nat)
    requires j < |KeptRows(rs)|
    ensures exists k :: 0 <= k < |rs| && |rs[k].cells| > 0 && KeptRows(rs)[j] == rs[k]
    decreases |rs|
  {
    var init := rs[..|rs| - 1];
    if j < |KeptRows(init)| {
      KeptRowsSound(init, j);
      var k :| 0 <= k < |init| && |init[k].cells| > 0 && KeptRows(init)[j] == init[k];
      assert rs[k] == init[k];
    } else {
      assert KeptRows(rs)[j] == rs[|rs| - 1];
    }
  }

  /** Every row with cells is kept. */
  lemma {:induction false} KeptRowsComplete(rs: seq<RowEl>, k: nat)
    requires k < |rs| && |rs[k].cells| > 0
    ensures rs[k] in KeptRows(rs)
    decreases |rs|
  {
    var init := rs[..|rs| - 1];
    if k < |rs| - 1 {
      assert init[k] == rs[k];
      KeptRowsComplete(init, k);
    }
  }

  /** The rows read are exactly those of the first five that have cells:
      a sixth row is never read, and an empty row among the first five is
      skipped without letting a later row in. The coins are these rows'
      coins, in order (`RowsCoins`). */
  lemma CapturedRows(rows: seq<RowEl>, r: RowEl)
    ensures r in KeptRows(FirstRows(rows)) <==>
              exists k :: 0 <= k < |rows| && k < MaxCoins && |rows[k].cells| > 0 && r == rows[k]
  {
    var f := FirstRows(rows);
    var kept := KeptRows(f);
    if r in kept {
      var j :| 0 <= j < |kept| && kept[j] == r;
      KeptRowsSound(f, j);
      var k :| 0 <= k < |f| && |f[k].cells| > 0 && kept[j] == f[k];
      assert rows[k] == f[k];
    }
    if exists k :: 0 <= k < |rows| && k < MaxCoins && |rows[k].cells| > 0 && r == rows[k] {
      var k :| 0 <= k < |rows| && k < MaxCoins && |rows[k].cells| > 0 && r == rows[k];
      assert f[k] == rows[k];
      KeptRowsComplete(f, k);
    }
  }

  /** Every text a capture holds is cleaned: no whitespace at either end
      and no run of whitespace inside. */
  lemma SnapshotTidy(g: GlobalStats, capturedAt: string, coins: seq<Coin>, i: nat, rows: seq<RowEl>)
    requires coins == RowsCoins(FirstRows(rows)) && i < |coins|
    ensures var s := Stats(g, capturedAt, coins);
            Tidy(s.marketCap) && Tidy(s.marketCapChange) && Tidy(s.volume24h)
            && Tidy(s.volumeChange) && Tidy(s.btcDominance) && Tidy(s.ethDominance)
            && Tidy(s.fearGreed)
            && Tidy(coins[i].rank) && Tidy(coins[i].name) && Tidy(coins[i].symbol)
            && Tidy(coins[i].price) && Tidy(coins[i].change24h) && Tidy(coins[i].change7d)
  {
    assert coins[i] == RowCoin(KeptRows(FirstRows(rows))[i]);
  }

  /** A page with an empty second row and six rows: the coins are those of
      rows 0, 2, 3 and 4, and row 5 is left out. */
  lemma EmptyRowUsesItsIndex(a: RowEl, b: RowEl, c: RowEl, d: RowEl, e: RowEl)
    requires |a.cells| > 0 && |b.cells| > 0 && |c.cells| > 0 && |d.cells| > 0 && |e.cells| > 0
    ensures var empty := RowEl([], None, None);
            KeptRows(FirstRows([a, empty, b, c, d, e])) == [a, b, c, d]
  {
    var empty := RowEl([], None, None);
    var f := [a, empty, b, c, d];
    assert FirstRows([a, empty, b, c, d, e]) == f;
    assert f[..1] == [a] && [a][..0] == [];
    assert KeptRows(f[..1]) == [a];
    assert f[..2][..1] == f[..1];
    assert KeptRows(f[..2]) == [a];
    assert f[..3][..2] == f[..2];
    assert KeptRows(f[..3]) == [a, b];
    assert f[..4][..3] == f[..3];
    assert KeptRows(f[..4]) == [a, b, c];
    assert f[..4] == f[..|f| - 1];
  }
}
