/**
 * `topMovers` of renderer.js: the coins whose 24h change parses, sorted by
 * that number with JavaScript's stable `Array.prototype.sort` (descending for
 * "up", ascending otherwise), cut to the first `limit`.
 */
module Movers {
  import opened Wrappers
  import opened Pct
  import opened Coins
  import opened Seqs

  /** A coin with its parsed 24h change (`{ ...c, pct }`). */
  datatype Mover = Mover(coin: Coin, pct: real)

  /** The sort key: the comparator `b.pct - a.pct` of direction "up"
      (`up` true) orders by the negated change, `a.pct - b.pct` of any other
      direction by the change. */
  function Key(up: bool, m: Mover): real {
    if up then -m.pct else m.pct
  }

  /** The coins whose 24h change parses, each with its number, in order. */
  function Parseable(coins: seq<Coin>): (ms: seq<Mover>)
    ensures |ms| <= |coins|
    ensures forall m :: m in ms ==> m.coin in coins && ParsePct(m.coin.change24h) == Some(m.pct)
  {
    if |coins| == 0 then []
    else
      var rest := Parseable(coins[1..]);
      match ParsePct(coins[0].change24h)
      case None => rest
      case Some(p) => [Mover(coins[0], p)] + rest
  }

  /** No coin with a number is lost. */
  lemma {:induction false} ParseableComplete(coins: seq<Coin>, i: nat)
    requires i < |coins| && ParsePct(coins[i].change24h).Some?
    ensures Mover(coins[i], ParsePct(coins[i].change24h).value) in Parseable(coins)
    decreases i
  {
    if i > 0 {
      var rest := coins[1..];
      assert rest[i - 1] == coins[i];
      ParseableComplete(rest, i - 1);
      ParseableTail(coins);
    }
  }

  /** The coin of a mover. */
  function MoverCoin(m: Mover): Coin {
    m.coin
  }

  /** The `filter` of `topMovers`: the coin's 24h change parses. */
  predicate HasPct(c: Coin) {
    ParsePct(c.change24h).Some?
  }

  /** The movers' coins are exactly the coins whose change parses, in input
      order and with their repetitions. */
  lemma {:induction false} ParseableInOrder(coins: seq<Coin>)
    ensures Map(MoverCoin, Parseable(coins)) == FilterBy(HasPct, coins)
    decreases |coins|
  {
    if |coins| > 0 {
      ParseableInOrder(coins[1..]);
      match ParsePct(coins[0].change24h)
      case None =>
      case Some(p) =>
        MapCons(MoverCoin, Mover(coins[0], p), Parseable(coins[1..]));
    }
  }

  lemma ParseableTail(coins: seq<Coin>)
    requires |coins| > 0
    ensures forall m :: m in Parseable(coins[1..]) ==> m in Parseable(coins)
  {
    match ParsePct(coins[0].change24h)
    case None =>
    case Some(p) =>
      assert Parseable(coins) == [Mover(coins[0], p)] + Parseable(coins[1..]);
  }

  // ---------------------------------------------------------------------
  // Stable sort

  predicate Sorted(up: bool, s: seq<Mover>) {
    forall i, j :: 0 <= i < j < |s| ==> Key(up, s[i]) <= Key(up, s[j])
  }

  /** Every element of `s` has a key of at least `b`. */
  predicate KeysFrom(up: bool, b: real, s: seq<Mover>) {
    forall i :: 0 <= i < |s| ==> b <= Key(up, s[i])
  }

  /** Places `m` before the first element whose key is not smaller, so that
      it follows every element with a smaller key. */
  function Insert(up: bool, m: Mover, s: seq<Mover>): (r: seq<Mover>)
    ensures |r| == |s| + 1
  {
    if |s| == 0 then [m]
    else if Key(up, m) <= Key(up, s[0]) then [m] + s
    else [s[0]] + Insert(up, m, s[1..])
  }

  /** Insertion sort from the back: the first element is inserted last, ahead
      of every later element with the same key. */
  function Sort(up: bool, s: seq<Mover>): (r: seq<Mover>)
    ensures |r| == |s|
  {
    if |s| == 0 then [] else Insert(up, s[0], Sort(up, s[1..]))
  }

  /** `x` alone when its key is `k`, else nothing. */
  function OnlyKey(up: bool, x: Mover, k: real): seq<Mover> {
    if Key(up, x) == k then [x] else []
  }

  /** The elements whose key is `k`, in order. */
  function WithKey(up: bool, s: seq<Mover>, k: real): (r: seq<Mover>)
    ensures forall m :: m in r ==> m in s && Key(up, m) == k
  {
    if |s| == 0 then [] else OnlyKey(up, s[0], k) + WithKey(up, s[1..], k)
  }

  // Permutation

  lemma {:induction false} InsertPerm(up: bool, m: Mover, s: seq<Mover>)
    ensures multiset(Insert(up, m, s)) == multiset{m} + multiset(s)
    decreases |s|
  {
    if |s| > 0 && Key(up, m) > Key(up, s[0]) {
      InsertPerm(up, m, s[1..]);
      assert s == [s[0]] + s[1..];
    }
  }

  /** The sort rearranges its input: every element as often as before. */
  lemma {:induction false} SortPerm(up: bool, s: seq<Mover>)
    ensures multiset(Sort(up, s)) == multiset(s)
    decreases |s|
  {
    if |s| > 0 {
      SortPerm(up, s[1..]);
      InsertPerm(up, s[0], Sort(up, s[1..]));
      assert s == [s[0]] + s[1..];
    }
  }

  // Order

  lemma {:induction false} InsertKeysFrom(up: bool, b: real, m: Mover, s: seq<Mover>)
    requires KeysFrom(up, b, s) && b <= Key(up, m)
    ensures KeysFrom(up, b, Insert(up, m, s))
    decreases |s|
  {
    if |s| > 0 && Key(up, m) > Key(up, s[0]) {
      InsertKeysFrom(up, b, m, s[1..]);
      var t := Insert(up, m, s[1..]);
      assert forall i :: 0 <= i < |t| ==> ([s[0]] + t)[i + 1] == t[i];
    }
  }

  lemma SortedCons(up: bool, x: Mover, t: seq<Mover>)
    requires Sorted(up, t) && KeysFrom(up, Key(up, x), t)
    ensures Sorted(up, [x] + t)
  {
    forall i, j | 0 <= i < j < |t| + 1 ensures Key(up, ([x] + t)[i]) <= Key(up, ([x] + t)[j]) {
      assert ([x] + t)[j] == t[j - 1];
      if i > 0 {
        assert ([x] + t)[i] == t[i - 1];
      }
    }
  }

  lemma SortedUncons(up: bool, s: seq<Mover>)
    requires |s| > 0 && Sorted(up, s)
    ensures Sorted(up, s[1..]) && KeysFrom(up, Key(up, s[0]), s[1..])
  {
    forall i | 0 <= i < |s| - 1 ensures Key(up, s[0]) <= Key(up, s[1..][i]) {
      assert s[1..][i] == s[i + 1];
    }
    forall i, j | 0 <= i < j < |s| - 1 ensures Key(up, s[1..][i]) <= Key(up, s[1..][j]) {
      assert s[1..][i] == s[i + 1] && s[1..][j] == s[j + 1];
    }
  }

  lemma {:induction false} InsertSorted(up: bool, m: Mover, s: seq<Mover>)
    requires Sorted(up, s)
    ensures Sorted(up, Insert(up, m, s))
    decreases |s|
  {
    if |s| == 0 {
    } else if Key(up, m) <= Key(up, s[0]) {
      assert KeysFrom(up, Key(up, m), s) by {
        forall i | 0 <= i < |s| ensures Key(up, m) <= Key(up, s[i]) {
          if i > 0 {
            assert Key(up, s[0]) <= Key(up, s[i]);
          }
        }
      }
      SortedCons(up, m, s);
    } else {
      SortedUncons(up, s);
      InsertSorted(up, m, s[1..]);
      InsertKeysFrom(up, Key(up, s[0]), m, s[1..]);
      SortedCons(up, s[0], Insert(up, m, s[1..]));
    }
  }

  /** The sort orders by key. */
  lemma {:induction false} SortSorted(up: bool, s: seq<Mover>)
    ensures Sorted(up, Sort(up, s))
    decreases |s|
  {
    if |s| > 0 {
      SortSorted(up, s[1..]);
      InsertSorted(up, s[0], Sort(up, s[1..]));
    }
  }

  // Stability

  lemma WithKeyCons(up: bool, x: Mover, t: seq<Mover>, k: real)
    ensures WithKey(up, [x] + t, k) == OnlyKey(up, x, k) + WithKey(up, t, k)
  {
    assert ([x] + t)[0] == x && ([x] + t)[1..] == t;
  }

  /** Two elements with different keys never both have key `k`. */
  lemma OnlyKeySwap(up: bool, x: Mover, y: Mover, k: real, rest: seq<Mover>)
    requires Key(up, x) != Key(up, y)
    ensures OnlyKey(up, x, k) + (OnlyKey(up, y, k) + rest) == OnlyKey(up, y, k) + (OnlyKey(up, x, k) + rest)
  {
    if Key(up, x) == k {
      assert OnlyKey(up, y, k) == [];
    } else {
      assert OnlyKey(up, x, k) == [];
    }
  }

  /** Inserting `m` puts it ahead of the elements with its own key. */
  lemma {:induction false} InsertWithKey(up: bool, m: Mover, s: seq<Mover>, k: real)
    ensures WithKey(up, Insert(up, m, s), k) == OnlyKey(up, m, k) + WithKey(up, s, k)
    decreases |s|
  {
    if |s| == 0 {
      WithKeyCons(up, m, [], k);
    } else if Key(up, m) <= Key(up, s[0]) {
      WithKeyCons(up, m, s, k);
    } else {
      var t := Insert(up, m, s[1..]);
      var w := WithKey(up, s[1..], k);
      InsertWithKey(up, m, s[1..], k);
      WithKeyCons(up, s[0], t, k);
      OnlyKeySwap(up, s[0], m, k, w);
      assert WithKey(up, s, k) == OnlyKey(up, s[0], k) + w;
      calc {
        WithKey(up, Insert(up, m, s), k);
        OnlyKey(up, s[0], k) + WithKey(up, t, k);
        OnlyKey(up, s[0], k) + (OnlyKey(up, m, k) + w);
        OnlyKey(up, m, k) + (OnlyKey(up, s[0], k) + w);
      }
    }
  }

  /** Stability: among equal keys the sort keeps the input order. */
  lemma {:induction false} SortStable(up: bool, s: seq<Mover>, k: real)
    ensures WithKey(up, Sort(up, s), k) == WithKey(up, s, k)
    decreases |s|
  {
    if |s| > 0 {
      SortStable(up, s[1..], k);
      InsertWithKey(up, s[0], Sort(up, s[1..]), k);
    }
  }

  // ---------------------------------------------------------------------
  // topMovers

  /** `topMovers(coins, dir, limit)`: at most `limit` movers, each a coin of
      the input with its parsed change, ordered for the direction. */
  function TopMovers(coins: seq<Coin>, dir: string, limit: nat): (r: seq<Mover>)
    ensures |r| == if limit < |Parseable(coins)| then limit else |Parseable(coins)|
    ensures forall m :: m in r ==> m.coin in coins && ParsePct(m.coin.change24h) == Some(m.pct)
  {
    var sorted := Sort(dir == "up", Parseable(coins));
    var n := if limit < |sorted| then limit else |sorted|;
    SortPerm(dir == "up", Parseable(coins));
    forall m | m in sorted[..n] ensures m in Parseable(coins) {
      assert m in multiset(sorted);
    }
    sorted[..n]
  }

  /** The movers come out in order: by falling change for "up", by rising
      change otherwise. */
  lemma TopMoversOrdered(coins: seq<Coin>, dir: string, limit: nat)
    ensures var r := TopMovers(coins, dir, limit);
            forall i, j :: 0 <= i < j < |r| ==>
              if dir == "up" then r[i].pct >= r[j].pct else r[i].pct <= r[j].pct
  {
    SortSorted(dir == "up", Parseable(coins));
  }

  /** In a sorted sequence, what lies beyond a prefix has no smaller key than
      anything in it. */
  lemma SortedPrefixFirst(up: bool, s: seq<Mover>, n: nat, m: Mover)
    requires Sorted(up, s) && n <= |s| && m in s && m !in s[..n]
    ensures forall x :: x in s[..n] ==> Key(up, x) <= Key(up, m)
  {
    var j :| 0 <= j < |s| && s[j] == m;
    assert j >= n;
    forall x | x in s[..n] ensures Key(up, x) <= Key(up, m) {
      var i :| 0 <= i < n && s[..n][i] == x;
      assert s[i] == x;
    }
  }

  /** What is cut off ranks no better than what is kept. */
  lemma TopMoversAreTop(coins: seq<Coin>, dir: string, limit: nat, m: Mover)
    requires m in Parseable(coins)
    requires m !in TopMovers(coins, dir, limit)
    ensures forall x :: x in TopMovers(coins, dir, limit) ==>
              if dir == "up" then x.pct >= m.pct else x.pct <= m.pct
  {
    var up := dir == "up";
    var ps := Parseable(coins);
    var sorted := Sort(up, ps);
    SortSorted(up, ps);
    SortPerm(up, ps);
    assert m in multiset(sorted);
    var top := TopMovers(coins, dir, limit);
    assert top == sorted[..|top|];
    SortedPrefixFirst(up, sorted, |top|, m);
  }

  /** The elements with a key, taken from a prefix, are a prefix of those
      taken from the whole. */
  lemma {:induction false} WithKeyOfPrefix(up: bool, s: seq<Mover>, n: nat, k: real)
    requires n <= |s|
    ensures var w := WithKey(up, s[..n], k);
            |w| <= |WithKey(up, s, k)| && w == WithKey(up, s, k)[..|w|]
    decreases n
  {
    if n > 0 {
      var t := s[1..];
      var o := OnlyKey(up, s[0], k);
      WithKeyOfPrefix(up, t, n - 1, k);
      assert WithKey(up, s[..n], k) == o + WithKey(up, t[..n - 1], k) by {
        assert s[..n] == [s[0]] + t[..n - 1];
        WithKeyCons(up, s[0], t[..n - 1], k);
      }
      assert WithKey(up, s, k) == o + WithKey(up, t, k) by {
        assert s == [s[0]] + t;
        WithKeyCons(up, s[0], t, k);
      }
      PrefixCons(o, WithKey(up, t[..n - 1], k), WithKey(up, t, k));
    }
  }

  /** Among movers with the same change, those shown are the first ones of
      the input, in input order. */
  lemma TopMoversKeepTies(coins: seq<Coin>, dir: string, limit: nat, k: real)
    ensures var w := WithKey(dir == "up", TopMovers(coins, dir, limit), k);
            var all := WithKey(dir == "up", Parseable(coins), k);
            |w| <= |all| && w == all[..|w|]
  {
    var up := dir == "up";
    var sorted := Sort(up, Parseable(coins));
    SortStable(up, Parseable(coins), k);
    WithKeyOfPrefix(up, sorted, |TopMovers(coins, dir, limit)|, k);
  }
}
