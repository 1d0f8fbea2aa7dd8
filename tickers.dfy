/**
 * The ticker normaliser `adjust_ticker_for_yfinance`: maps a symbol as it
 * is written in the catalogue to the symbol the market-data provider
 * expects, in three steps tried in order: a curated override table, a
 * pass-through for symbols already carrying a known exchange suffix, and a
 * heuristic that drops an implausible dot-suffix.
 */
module Tickers {
  import opened Text

  /** The curated override table, entry for entry. */
  const Overrides: map<string, string> := map[
    // Hong Kong
    "1211" := "1211.HK", "1211.HK" := "1211.HK", "0700.HK" := "0700.HK",
    "0175" := "0175.HK", "0992" := "0992.HK",
    // Euronext Paris
    "RNO.PA" := "RNO.PA", "AIR" := "AIR.PA", "SAF" := "SAF.PA",
    // Tokyo
    "7203" := "7203.T", "7269" := "7269.T", "7267" := "7267.T", "7201" := "7201.T",
    // Korea
    "005930" := "005930.KS", "005380" := "005380.KS",
    // Switzerland
    "NESN" := "NESN.SW",
    // Germany
    "VOW3" := "VOW3.DE",
    // Madrid
    "ITX" := "ITX.MC",
    // India (NSE)
    "M&M" := "M&M.NS", "RIL" := "RELIANCE.NS",
    // Shanghai
    "600104" := "600104.SS",
    // London
    "BA." := "BA.L", "RR." := "RR.L",
    // Milan
    "LDO" := "LDO.MI",
    // US ADRs, passed through
    "NSRGY" := "NSRGY", "PHG" := "PHG"
  ]

  /** The exchange suffixes taken to be already correct. */
  const KnownSuffixes: seq<string> :=
    [".HK", ".PA", ".T", ".KS", ".SW", ".DE", ".MC", ".NS", ".SS", ".L", ".MI"]

  /** `any(t.endswith(s) for s in suffixes)` */
  predicate EndsWithAny(t: string, suffixes: seq<string>)
  {
    exists k :: 0 <= k < |suffixes| && EndsWith(t, suffixes[k])
  }

  predicate HasKnownSuffix(t: string)
  {
    EndsWithAny(t, KnownSuffixes)
  }

  /** Every known suffix starts with a dot, so a symbol carrying one has a dot. */
  lemma DottedSuffixesNeedDot(t: string, suffixes: seq<string>)
    requires forall k :: 0 <= k < |suffixes| ==> suffixes[k] != [] && suffixes[k][0] == '.'
    requires EndsWithAny(t, suffixes)
    ensures '.' in t
  {
    var k :| 0 <= k < |suffixes| && EndsWith(t, suffixes[k]);
    assert t[|t| - |suffixes[k]|] == '.';
  }

  /** No dot follows position `j` of `t`. */
  predicate NoDotAfter(t: string, j: nat)
  {
    forall k :: j < k < |t| ==> t[k] != '.'
  }

  /** With `j` the last dot of `t`, `t` ends in `"." + c` (`c` without a dot) just when `c` follows `j`. */
  lemma EndsWithDotted(t: string, c: string, j: nat)
    requires j < |t| && t[j] == '.' && NoDotAfter(t, j) && '.' !in c
    ensures EndsWith(t, "." + c) <==> c == t[j + 1..]
  {
    if EndsWith(t, "." + c) {
      var d := |t| - |c| - 1;
      assert t[d] == '.';
      assert forall m :: d < m < |t| ==> t[m] == c[m - d - 1];
      assert d == j;
    }
    if c == t[j + 1..] {
      assert t[|t| - |c| - 1..] == "." + c;
    }
  }

  /** A list of one-dot suffixes matches just when it holds the dot and the last segment. */
  lemma EndsWithAnyDotted(t: string, suffixes: seq<string>, j: nat)
    requires j < |t| && t[j] == '.' && NoDotAfter(t, j)
    requires forall k :: 0 <= k < |suffixes| ==>
               suffixes[k] != [] && suffixes[k][0] == '.' && '.' !in suffixes[k][1..]
    ensures EndsWithAny(t, suffixes) <==> "." + t[j + 1..] in suffixes
  {
    forall k | 0 <= k < |suffixes|
      ensures EndsWith(t, suffixes[k]) <==> suffixes[k] == "." + t[j + 1..]
    {
      var c := suffixes[k][1..];
      assert suffixes[k] == "." + c;
      EndsWithDotted(t, c, j);
    }
  }

  /** A dotted symbol has a known suffix just when its last dot-segment is a known exchange code. */
  lemma KnownSuffixByLastSegment(t: string, j: nat)
    requires j < |t| && t[j] == '.' && NoDotAfter(t, j)
    ensures HasKnownSuffix(t) <==> "." + t[j + 1..] in KnownSuffixes
  {
    EndsWithAnyDotted(t, KnownSuffixes, j);
  }

  /** `len(parts[-1]) < 1 or len(parts[-1]) > 3`: the suffix heuristic's test. */
  predicate ImplausibleSuffix(suffix: string)
  {
    |suffix| < 1 || |suffix| > 3
  }

  /** `t` cut back to `r`, the text before its first dot. */
  predicate CutAtFirstDot(t: string, r: string)
  {
    |r| < |t| && t[..|r|] == r && t[|r|] == '.' && '.' !in r
  }

  /**
   * `adjust_ticker_for_yfinance`: the table's value for its keys; any other
   * symbol is kept or cut back to the text before its first dot.
   */
  function Adjust(t: string): (r: string)
    ensures t !in Overrides ==> r == t || CutAtFirstDot(t, r)
  {
    if t in Overrides then Overrides[t] else Fallback(t)
  }

  /** The rules tried when the table has no entry for the symbol: keep it, or cut it back. */
  function Fallback(t: string): (r: string)
    ensures r == t || CutAtFirstDot(t, r)
    ensures r != t ==> !HasKnownSuffix(t) && '.' in t
  {
    if HasKnownSuffix(t) then t
    else if '.' in t then
      var parts := Split(t, '.');
      if ImplausibleSuffix(parts[|parts| - 1]) then
        SplitFirstPrefix(t, '.');
        SplitPiecesFree(t, '.');
        assert '.' !in parts[0];
        parts[0]
      else t
    else t
  }

  /** Override entries win over every other rule. */
  lemma OverrideExamples()
    ensures Adjust("RIL") == "RELIANCE.NS"
    ensures Adjust("BA.") == "BA.L" && Adjust("RR.") == "RR.L"
    ensures Adjust("AIR") == "AIR.PA" && Adjust("7203") == "7203.T"
    ensures Adjust("NSRGY") == "NSRGY"
  {
  }

  /** A symbol without a dot outside the table is kept as it is. */
  lemma NoDotKept(t: string)
    requires t !in Overrides && '.' !in t
    ensures Adjust(t) == t
  {
    if HasKnownSuffix(t) {
      DottedSuffixesNeedDot(t, KnownSuffixes);
    }
  }

  /**
   * The dot heuristic, stated through the positions of the first dot `i`
   * and the last dot `j`: the symbol is cut back to the text before the
   * FIRST dot when the text after the LAST dot is empty or longer than three
   * characters, and is kept otherwise.
   */
  lemma {:induction false} DotHeuristic(t: string, i: nat, j: nat)
    requires !HasKnownSuffix(t)
    requires i < |t| && t[i] == '.' && forall k :: 0 <= k < i ==> t[k] != '.'
    requires j < |t| && t[j] == '.' && NoDotAfter(t, j)
    ensures Fallback(t) == if |t| - j - 1 < 1 || |t| - j - 1 > 3 then t[..i] else t
  {
    assert '.' in t;
    var parts := Split(t, '.');
    SplitFirst(t, '.', i);
    SplitLast(t, '.', j);
    assert parts[0] == t[..i];
    assert |parts[|parts| - 1]| == |t| - j - 1;
    assert Fallback(t) == if ImplausibleSuffix(parts[|parts| - 1]) then parts[0] else t;
  }

  /**
   * The table rewrites a key that already carries a dot only when the key
   * ends in a bare dot ("BA.", "RR."); every other dotted key maps to itself.
   */
  lemma DottedKeysOfTable()
    ensures forall k | k in Overrides :: Overrides[k] == k || '.' !in k || k == "BA." || k == "RR."
  {
  }

  /** Every symbol ending in a known suffix comes back unchanged, table keys included. */
  lemma KnownSuffixUnchanged(t: string)
    requires HasKnownSuffix(t)
    ensures Adjust(t) == t
  {
    if t in Overrides {
      DottedKeysOfTable();
      if Overrides[t] != t {
        if '.' !in t {
          DottedSuffixesNeedDot(t, KnownSuffixes);
        } else {
          KnownSuffixByLastSegment(t, |t| - 1);
        }
      }
    }
  }

  /** Hence adjustment is idempotent on symbols with a known suffix. */
  lemma IdempotentOnKnownSuffix(t: string)
    requires HasKnownSuffix(t)
    ensures Adjust(Adjust(t)) == Adjust(t)
  {
    KnownSuffixUnchanged(t);
  }

  /**
   * Outside the table, adjusting an adjusted symbol changes nothing, unless
   * the first adjustment cut the symbol back to a key the table rewrites.
   */
  lemma IdempotentOutsideTable(t: string)
    requires t !in Overrides
    requires Adjust(t) !in Overrides || Overrides[Adjust(t)] == Adjust(t)
    ensures Adjust(Adjust(t)) == Adjust(t)
  {
    var a := Adjust(t);
    if a != t && a !in Overrides {
      var parts := Split(t, '.');
      SplitPiecesFree(t, '.');
      assert a == parts[0] && '.' !in parts[0];
      NoDotKept(a);
    }
  }

  /**
   * The exception to idempotence exists: "RIL.ABCD" is cut back to "RIL",
   * which the table then maps to "RELIANCE.NS".
   */
  lemma NotIdempotentAfterCut(t: string)
    requires t == "RIL.ABCD"
    ensures Adjust(t) == "RIL" && Adjust(Adjust(t)) == "RELIANCE.NS"
  {
    assert t !in Overrides;
    KnownSuffixByLastSegment(t, 3);
    DotHeuristic(t, 3, 3);
    assert t[..3] == "RIL";
  }

  /** A trailing dot, as in "XY.", is dropped. */
  lemma TrailingDotDropped(t: string)
    requires t == "XY."
    ensures Adjust(t) == "XY"
  {
    assert t !in Overrides;
    KnownSuffixByLastSegment(t, 2);
    DotHeuristic(t, 2, 2);
    assert t[..2] == "XY";
  }

  /** A last segment longer than three characters cuts back to the FIRST segment. */
  lemma LongSuffixCutToFirstSegment(t: string)
    requires t == "A.B.CDEF"
    ensures Adjust(t) == "A"
  {
    assert t !in Overrides;
    KnownSuffixByLastSegment(t, 3);
    DotHeuristic(t, 1, 3);
    assert t[..1] == "A";
  }

  /**
   * The adjusted symbol is empty, and the dashboard skips the entry, just
   * when the raw symbol is empty, or starts with a dot and falls to the dot
   * heuristic with an implausible last segment.
   */
  lemma EmptyAdjusted(t: string)
    ensures var parts := Split(t, '.');
            Adjust(t) == "" <==>
              t == "" || (t !in Overrides && !HasKnownSuffix(t) && t[0] == '.' && ImplausibleSuffix(parts[|parts| - 1]))
  {
    if t in Overrides {
      KeysAndValuesNonEmpty();
    } else if t != "" {
      FallbackEmpty(t);
    }
  }

  /** No key or value of the table is the empty symbol. */
  lemma KeysAndValuesNonEmpty()
    ensures forall k | k in Overrides :: k != "" && Overrides[k] != ""
  {
  }

  /** Outside the table, a non-empty symbol is cut to nothing just when it starts with a dot and the cut applies. */
  lemma FallbackEmpty(t: string)
    requires t != ""
    ensures var parts := Split(t, '.');
            Fallback(t) == "" <==> !HasKnownSuffix(t) && t[0] == '.' && ImplausibleSuffix(parts[|parts| - 1])
  {
    if !HasKnownSuffix(t) && '.' in t {
      SplitFirstEmpty(t, '.');
    }
  }

  /**
   * A leading dot with an implausible suffix, as in ".ABCD", leaves the
   * empty symbol, which the dashboard then skips.
   */
  lemma LeadingDotLeavesNothing(t: string)
    requires t == ".ABCD"
    ensures Adjust(t) == ""
  {
    assert t !in Overrides;
    KnownSuffixByLastSegment(t, 0);
    DotHeuristic(t, 0, 0);
  }

  /** A short unknown suffix, as in "BRK.B", is kept. */
  lemma ShortSuffixKept(t: string)
    requires t == "BRK.B"
    ensures Adjust(t) == t
  {
    assert t !in Overrides;
    KnownSuffixByLastSegment(t, 3);
    DotHeuristic(t, 3, 3);
  }
}
