/**
 * `cleanText` of content.js: every run of whitespace becomes one space and the
 * result is trimmed. Besides the definition that follows the code, the module
 * gives an independent description of the result: the whitespace-separated
 * words of the input, joined by single spaces.
 */
module Clean {
  import opened Wrappers
  import opened Strings

  /** `s.replace(/\s+/g, " ")`: each maximal whitespace run becomes one space. */
  function Collapse(s: string): string
    decreases |s|
  {
    if |s| == 0 then ""
    else if IsWs(s[0]) then " " + Collapse(TrimStart(s))
    else [s[0]] + Collapse(s[1..])
  }

  /** `cleanText(s)` on a string argument. */
  function CleanText(s: string): (r: string)
    ensures Tidy(r)
    ensures NonWs(r) == NonWs(s)
  {
    CleanIsJoinedWords(s);
    WordsWellFormed(s);
    JoinTidy(Words(s));
    NonWsOfJoin(Words(s));
    NonWsIsConcatOfWords(s);
    Trim(Collapse(s))
  }

  /** `cleanText(s)` where `s` may be null or undefined: `(s || "")` first. */
  function CleanOpt(s: Option<string>): (r: string)
    ensures s.None? ==> r == ""
    ensures s.Some? ==> r == CleanText(s.value)
  {
    CleanText(s.GetOr(""))
  }

  /** The shape every cleaned string has: no whitespace at either end, and
      inside only single spaces between non-whitespace characters. */
  predicate Tidy(r: string) {
    && (|r| == 0 || (!IsWs(r[0]) && !IsWs(r[|r| - 1])))
    && (forall i :: 0 <= i < |r| && IsWs(r[i]) ==> r[i] == ' ')
    && (forall i :: 0 <= i < |r| - 1 ==> !IsWs(r[i]) || !IsWs(r[i + 1]))
  }

  /** The characters of `s` that are not whitespace, in order. */
  function NonWs(s: string): string
    decreases |s|
  {
    if |s| == 0 then ""
    else if IsWs(s[|s| - 1]) then NonWs(s[..|s| - 1])
    else NonWs(s[..|s| - 1]) + [s[|s| - 1]]
  }

  // ---------------------------------------------------------------------
  // Words: the reference description of what cleanText keeps

  /** The maximal non-whitespace prefix of `s`. */
  function TakeWord(s: string): (w: string)
    ensures |w| <= |s| && w == s[..|w|]
    ensures NoWs(w)
    ensures |w| == |s| || IsWs(s[|w|])
    ensures |s| > 0 && !IsWs(s[0]) ==> |w| > 0
    decreases |s|
  {
    if |s| == 0 || IsWs(s[0]) then "" else [s[0]] + TakeWord(s[1..])
  }

  predicate IsWord(w: string) {
    |w| > 0 && NoWs(w)
  }

  predicate WellFormed(ws: seq<string>) {
    forall i :: 0 <= i < |ws| ==> IsWord(ws[i])
  }

  /** The whitespace-separated words of `s`, left to right. */
  function Words(s: string): seq<string>
    decreases |s|
  {
    var t := TrimStart(s);
    if |t| == 0 then []
    else
      var w := TakeWord(t);
      [w] + Words(t[|w|..])
  }

  /** The words joined with one space between neighbours. */
  function JoinWords(ws: seq<string>): string
    decreases |ws|
  {
    if |ws| == 0 then ""
    else if |ws| == 1 then ws[0]
    else ws[0] + " " + JoinWords(ws[1..])
  }

  function Concat(ws: seq<string>): string
    decreases |ws|
  {
    if |ws| == 0 then "" else ws[0] + Concat(ws[1..])
  }

  // ---------------------------------------------------------------------
  // Lemmas

  lemma {:induction false} WordsWellFormed(s: string)
    ensures WellFormed(Words(s))
    decreases |s|
  {
    var t := TrimStart(s);
    if |t| > 0 {
      var w := TakeWord(t);
      WordsWellFormed(t[|w|..]);
      assert IsWord(w);
      assert Words(s) == [w] + Words(t[|w|..]);
      WellFormedCons(w, Words(t[|w|..]));
    }
  }

  lemma WellFormedCons(w: string, rest: seq<string>)
    requires IsWord(w) && WellFormed(rest)
    ensures WellFormed([w] + rest)
  {
  }

  lemma TrimStartOfNonWsStart(s: string)
    requires |s| == 0 || !IsWs(s[0])
    ensures TrimStart(s) == s
  {
  }

  lemma {:induction false} TakeWordOfWordThen(w: string, x: string)
    requires NoWs(w)
    requires |x| == 0 || IsWs(x[0])
    ensures TakeWord(w + x) == w
    decreases |w|
  {
    if |w| > 0 {
      var t := w + x;
      assert t[0] == w[0];
      TakeWordStep(t);
      assert t[1..] == w[1..] + x;
      TakeWordOfWordThen(w[1..], x);
      assert [w[0]] + w[1..] == w;
    } else {
      assert w + x == x;
    }
  }

  /** A non-whitespace head starts the word. */
  lemma TakeWordStep(t: string)
    requires |t| > 0 && !IsWs(t[0])
    ensures TakeWord(t) == [t[0]] + TakeWord(t[1..])
  {
  }

  lemma {:induction false} CollapseOfWordThen(w: string, r: string)
    requires NoWs(w)
    ensures Collapse(w + r) == w + Collapse(r)
    decreases |w|
  {
    if |w| == 0 {
      assert w + r == r;
    } else {
      var t := w + r;
      assert t[0] == w[0];
      CollapseStep(t);
      assert t[1..] == w[1..] + r;
      CollapseOfWordThen(w[1..], r);
      assert [w[0]] + (w[1..] + Collapse(r)) == w + Collapse(r);
    }
  }

  /** A non-whitespace head is copied. */
  lemma CollapseStep(t: string)
    requires |t| > 0 && !IsWs(t[0])
    ensures Collapse(t) == [t[0]] + Collapse(t[1..])
  {
  }

  lemma AllWsCollapse(r: string)
    requires AllWs(r)
    ensures AllWs(Collapse(r))
  {
    if |r| > 0 {
      assert TrimStart(r) == [];
    }
  }

  lemma AllWsHasNoWords(r: string)
    requires AllWs(r)
    ensures Words(r) == []
  {
  }

  lemma {:induction false} TrimEndKeepsPrefix(a: string, b: string)
    requires !AllWs(b)
    ensures TrimEnd(a + b) == a + TrimEnd(b)
    decreases |b|
  {
    assert (a + b)[|a + b| - 1] == b[|b| - 1];
    if IsWs(b[|b| - 1]) {
      assert (a + b)[..|a + b| - 1] == a + b[..|b| - 1];
      var i :| 0 <= i < |b| && !IsWs(b[i]);
      assert i < |b| - 1;
      assert b[..|b| - 1][i] == b[i];
      TrimEndKeepsPrefix(a, b[..|b| - 1]);
    }
  }

  lemma {:induction false} TrimEndOfWsSuffix(a: string, b: string)
    requires AllWs(b)
    ensures TrimEnd(a + b) == TrimEnd(a)
    decreases |b|
  {
    if |b| == 0 {
      assert a + b == a;
    } else {
      assert (a + b)[|a + b| - 1] == b[|b| - 1];
      assert (a + b)[..|a + b| - 1] == a + b[..|b| - 1];
      TrimEndOfWsSuffix(a, b[..|b| - 1]);
    }
  }

  /** One step of `Words` on a string that starts with a word. */
  lemma WordsStep(t: string)
    requires |t| > 0 && !IsWs(t[0])
    ensures Words(t) == [TakeWord(t)] + Words(t[|TakeWord(t)|..])
  {
    TrimStartOfNonWsStart(t);
  }

  /** `Words` ignores leading whitespace. */
  lemma WordsSkipWs(s: string)
    ensures Words(s) == Words(TrimStart(s))
  {
    TrimStartOfNonWsStart(TrimStart(s));
  }

  lemma WellFormedTail(ws: seq<string>)
    requires |ws| > 0 && WellFormed(ws)
    ensures IsWord(ws[0]) && WellFormed(ws[1..])
  {
    assert IsWord(ws[0]);
    forall i | 0 <= i < |ws[1..]| ensures IsWord(ws[1..][i]) {
      assert ws[1..][i] == ws[i + 1];
    }
  }

  /** The last word: only whitespace follows it. */
  lemma CleanTailLastWord(w: string, r: string)
    requires IsWord(w) && AllWs(r)
    ensures TrimEnd(w + Collapse(r)) == JoinWords([w] + Words(r))
  {
    assert TrimEnd(w + Collapse(r)) == w by {
      AllWsCollapse(r);
      TrimEndOfWsSuffix(w, Collapse(r));
      TrimEndOfWord(w);
    }
    assert JoinWords([w] + Words(r)) == w by {
      AllWsHasNoWords(r);
      JoinSingle(w, Words(r));
    }
  }

  lemma JoinSingle(w: string, ws: seq<string>)
    requires ws == []
    ensures JoinWords([w] + ws) == w
  {
    assert [w] + ws == [w];
  }

  lemma TrimEndOfWord(w: string)
    requires IsWord(w)
    ensures TrimEnd(w) == w
  {
    assert !IsWs(w[|w| - 1]);
  }

  lemma JoinCons(w: string, ws: seq<string>)
    requires |ws| > 0
    ensures JoinWords([w] + ws) == w + " " + JoinWords(ws)
  {
    assert ([w] + ws)[1..] == ws;
  }

  /** A word followed by whitespace and at least one more word. */
  lemma CleanTailMoreWords(w: string, r: string)
    requires IsWord(w) && |r| > 0 && IsWs(r[0]) && !AllWs(r)
    requires TrimEnd(Collapse(TrimStart(r))) == JoinWords(Words(TrimStart(r)))
    ensures TrimEnd(w + Collapse(r)) == JoinWords([w] + Words(r))
  {
    var r' := TrimStart(r);
    TrimStartOfNotAllWs(r);
    WordsStep(r');
    calc {
      TrimEnd(w + Collapse(r));
      { assert Collapse(r) == " " + Collapse(r');
        AppendAssoc(w, " ", Collapse(r')); }
      TrimEnd((w + " ") + Collapse(r'));
      { assert Collapse(r')[0] == r'[0];
        TrimEndKeepsPrefix(w + " ", Collapse(r')); }
      (w + " ") + TrimEnd(Collapse(r'));
      (w + " ") + JoinWords(Words(r'));
      { JoinCons(w, Words(r')); }
      JoinWords([w] + Words(r'));
      { WordsSkipWs(r); }
      JoinWords([w] + Words(r));
    }
  }

  /** After leading whitespace is gone, collapsing and trimming the end gives
      the joined words. */
  lemma {:induction false} CleanTailIsJoinedWords(t: string)
    requires |t| == 0 || !IsWs(t[0])
    ensures TrimEnd(Collapse(t)) == JoinWords(Words(t))
    decreases |t|
  {
    if |t| > 0 {
      var w := TakeWord(t);
      var r := t[|w|..];
      assert t == w + r;
      assert Collapse(t) == w + Collapse(r) by {
        CollapseOfWordThen(w, r);
      }
      WordsStep(t);
      if AllWs(r) {
        CleanTailLastWord(w, r);
      } else {
        assert |r| > 0;
        CleanTailIsJoinedWords(TrimStart(r));
        CleanTailMoreWords(w, r);
      }
    }
  }

  /** `cleanText` yields exactly the words of its input joined by single spaces. */
  lemma {:induction false} CleanIsJoinedWords(s: string)
    ensures Trim(Collapse(s)) == JoinWords(Words(s))
  {
    var t := TrimStart(s);
    calc {
      Trim(Collapse(s));
      TrimEnd(TrimStart(Collapse(s)));
      { CollapseSkipsLeadingWs(s); }
      TrimEnd(Collapse(t));
      { CleanTailIsJoinedWords(t); }
      JoinWords(Words(t));
      { WordsSkipWs(s); }
      JoinWords(Words(s));
    }
  }

  /** Leading whitespace becomes at most one space, which trimming removes. */
  lemma CollapseSkipsLeadingWs(s: string)
    ensures TrimStart(Collapse(s)) == Collapse(TrimStart(s))
  {
    var t := TrimStart(s);
    CollapseKeepsHead(t);
    if |s| > 0 && IsWs(s[0]) {
      CollapseWsStep(s);
      TrimStartSpace(Collapse(t));
    } else {
      TrimStartOfNonWsStart(s);
    }
  }

  /** A whitespace head and the run it starts become one space. */
  lemma CollapseWsStep(s: string)
    requires |s| > 0 && IsWs(s[0])
    ensures Collapse(s) == " " + Collapse(TrimStart(s))
  {
  }

  lemma TrimStartSpace(c: string)
    ensures TrimStart(" " + c) == TrimStart(c)
  {
    assert (" " + c)[1..] == c;
  }

  /** Collapsing a string without leading whitespace gives one without. */
  lemma CollapseKeepsHead(t: string)
    requires |t| == 0 || !IsWs(t[0])
    ensures TrimStart(Collapse(t)) == Collapse(t)
  {
    if |t| > 0 {
      CollapseStep(t);
    }
    TrimStartOfNonWsStart(Collapse(t));
  }

  lemma {:induction false} JoinTidy(ws: seq<string>)
    requires WellFormed(ws)
    ensures Tidy(JoinWords(ws))
    ensures |ws| > 0 ==> |JoinWords(ws)| > 0
    decreases |ws|
  {
    if |ws| == 1 {
      assert IsWord(ws[0]);
    } else if |ws| > 1 {
      var w := ws[0];
      assert IsWord(w);
      WellFormedTail(ws);
      JoinTidy(ws[1..]);
      var j := JoinWords(ws[1..]);
      var r := w + " " + j;
      assert r == JoinWords(ws);
      forall i | 0 <= i < |r| && IsWs(r[i]) ensures r[i] == ' ' {
        if i > |w| {
          assert r[i] == j[i - |w| - 1];
        }
      }
      forall i | 0 <= i < |r| - 1 ensures !IsWs(r[i]) || !IsWs(r[i + 1]) {
        if i < |w| {
          assert r[i] == w[i];
        } else if i == |w| {
          assert r[i + 1] == j[0];
        } else {
          assert r[i] == j[i - |w| - 1];
          assert r[i + 1] == j[i - |w|];
        }
      }
      assert r[|r| - 1] == j[|j| - 1];
    }
  }

  lemma WordsOfSingleWord(w: string)
    requires IsWord(w)
    ensures Words(w) == [w]
  {
    WordsStep(w);
    assert TakeWord(w) == w by {
      TakeWordOfWordThen(w, "");
      AppendEmpty(w);
    }
    assert w[|w|..] == "";
  }

  lemma AppendAssoc(a: string, b: string, c: string)
    ensures a + (b + c) == (a + b) + c
  {
  }

  lemma AppendEmpty(a: string)
    ensures a + "" == a
  {
  }

  lemma WordsOfWordThenJoin(w: string, j: string)
    requires IsWord(w) && |j| > 0 && !IsWs(j[0])
    ensures Words(w + " " + j) == [w] + Words(j)
  {
    var r := w + (" " + j);
    assert r == w + " " + j;
    WordsStep(r);
    TakeWordOfWordThen(w, " " + j);
    assert r[|w|..] == " " + j;
    WordsSkipWs(" " + j);
    assert TrimStart(" " + j) == TrimStart(j);
    TrimStartOfNonWsStart(j);
  }

  /** Joined words start with the first word's first character. */
  lemma JoinStart(ws: seq<string>)
    requires |ws| > 0 && IsWord(ws[0])
    ensures |JoinWords(ws)| > 0 && JoinWords(ws)[0] == ws[0][0]
  {
  }

  /** Splitting the joined words gives the words back. */
  lemma {:induction false} WordsOfJoin(ws: seq<string>)
    requires WellFormed(ws)
    ensures Words(JoinWords(ws)) == ws
    decreases |ws|
  {
    if |ws| == 1 {
      WordsOfSingleWord(ws[0]);
    } else if |ws| > 1 {
      WellFormedTail(ws);
      var j := JoinWords(ws[1..]);
      WellFormedTail(ws[1..]);
      JoinStart(ws[1..]);
      calc {
        Words(JoinWords(ws));
        Words(ws[0] + " " + j);
        { WordsOfWordThenJoin(ws[0], j); }
        [ws[0]] + Words(j);
        { WordsOfJoin(ws[1..]); }
        [ws[0]] + ws[1..];
        ws;
      }
    }
  }

  lemma NonWsAppend(a: string, b: string)
    ensures NonWs(a + b) == NonWs(a) + NonWs(b)
    decreases |b|
  {
    if |b| == 0 {
      assert a + b == a;
    } else {
      assert (a + b)[..|a + b| - 1] == a + b[..|b| - 1];
      NonWsAppend(a, b[..|b| - 1]);
    }
  }

  lemma NonWsOfAllWs(s: string)
    requires AllWs(s)
    ensures NonWs(s) == ""
    decreases |s|
  {
    if |s| > 0 {
      NonWsOfAllWs(s[..|s| - 1]);
    }
  }

  lemma NonWsOfNoWs(s: string)
    requires NoWs(s)
    ensures NonWs(s) == s
    decreases |s|
  {
    if |s| > 0 {
      NonWsOfNoWs(s[..|s| - 1]);
    }
  }

  lemma NonWsOfWordThen(w: string, rest: string)
    requires NoWs(w)
    ensures NonWs(w + rest) == w + NonWs(rest)
  {
    NonWsAppend(w, rest);
    NonWsOfNoWs(w);
  }

  lemma NonWsSkipWs(s: string)
    ensures NonWs(s) == NonWs(TrimStart(s))
  {
    var t := TrimStart(s);
    assert s == s[..|s| - |t|] + t;
    TrimStartDropsWs(s);
    NonWsAppend(s[..|s| - |t|], t);
    NonWsOfAllWs(s[..|s| - |t|]);
  }

  lemma {:induction false} NonWsIsConcatOfWords(s: string)
    ensures NonWs(s) == Concat(Words(s))
    decreases |s|
  {
    var t := TrimStart(s);
    if |t| > 0 {
      var w := TakeWord(t);
      var rest := t[|w|..];
      calc {
        NonWs(s);
        { NonWsSkipWs(s); }
        NonWs(t);
        { assert t == w + rest;
          NonWsOfWordThen(w, rest); }
        w + NonWs(rest);
        { NonWsIsConcatOfWords(rest); }
        w + Concat(Words(rest));
        { ConcatCons(w, Words(rest)); }
        Concat([w] + Words(rest));
        { WordsStep(t); }
        Concat(Words(t));
        { WordsSkipWs(s); }
        Concat(Words(s));
      }
    } else {
      NonWsSkipWs(s);
      WordsSkipWs(s);
    }
  }

  lemma ConcatCons(w: string, ws: seq<string>)
    ensures Concat([w] + ws) == w + Concat(ws)
  {
    assert ([w] + ws)[1..] == ws;
  }

  lemma {:induction false} NonWsOfJoin(ws: seq<string>)
    requires WellFormed(ws)
    ensures NonWs(JoinWords(ws)) == Concat(ws)
    decreases |ws|
  {
    if |ws| > 0 {
      assert IsWord(ws[0]);
      NonWsOfNoWs(ws[0]);
      if |ws| == 1 {
        assert Concat(ws) == ws[0] + Concat([]);
      } else {
        WellFormedTail(ws);
        NonWsOfJoin(ws[1..]);
        NonWsAppend(ws[0] + " ", JoinWords(ws[1..]));
        NonWsAppend(ws[0], " ");
        assert NonWs(" ") == "";
      }
    }
  }

  /** Cleaning splits into the same words as the input. */
  lemma CleanTextWords(s: string)
    ensures Words(CleanText(s)) == Words(s)
  {
    CleanIsJoinedWords(s);
    WordsWellFormed(s);
    WordsOfJoin(Words(s));
  }

  /** Cleaning twice is cleaning once. */
  lemma {:induction false} CleanTextIdempotent(s: string)
    ensures CleanText(CleanText(s)) == CleanText(s)
  {
    CleanTextWords(s);
    CleanIsJoinedWords(CleanText(s));
    CleanIsJoinedWords(s);
  }
}
