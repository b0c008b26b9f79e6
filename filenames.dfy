/**
 * Market and timeframe inference from a data file's name
 * (backtester/batch_backtest.py, the per-file loop head).
 *
 * A file is named `<base>.<ext>`; its timeframe is the first allowed timeframe, in list
 * order, that `<base>` ends with, and its market is what precedes that suffix with every
 * `_`, `-` and `/` deleted. A base that ends with no allowed timeframe is skipped.
 */
module FileNames {
  import opened Wrappers

  /** The timeframes the batch run accepts, in the order it tries them. */
  const AllowedTimeframes: seq<string> := ["1m", "5m", "15m", "1h", "4h"]

  /** The same timeframes, tried so that no entry is a suffix of a later one. */
  const SuffixSafeTimeframes: seq<string> := ["15m", "1m", "5m", "1h", "4h"]

  /** The index of the last occurrence of `c` in `s`. */
  function LastIndexOf(s: string, c: char): (r: Option<nat>)
    ensures r.Some? ==> r.value < |s| && s[r.value] == c && c !in s[r.value + 1..]
    ensures r.None? ==> c !in s
  {
    if |s| == 0 then None
    else if s[|s| - 1] == c then Some(|s| - 1)
    else
      var r := LastIndexOf(s[..|s| - 1], c);
      assert s == s[..|s| - 1] + [s[|s| - 1]];
      if r.Some? then
        assert s[r.value + 1..] == s[..|s| - 1][r.value + 1..] + [s[|s| - 1]];
        r
      else r
  }

  /** `fname.rsplit(".", 1)[0]`: the name without its last `.` and what follows it. */
  function BaseName(fname: string): (b: string)
    ensures b <= fname
    ensures '.' !in fname ==> b == fname
    ensures '.' in fname ==> |b| < |fname| && fname[|b|] == '.' && '.' !in fname[|b| + 1..]
  {
    match LastIndexOf(fname, '.')
    case None => fname
    case Some(i) => fname[..i]
  }

  /** `s.endswith(suffix)`. */
  predicate EndsWith(s: string, suffix: string)
  {
    |suffix| <= |s| && s[|s| - |suffix|..] == suffix
  }

  /** `s.replace(c, "")`. */
  function RemoveChar(s: string, c: char): (r: string)
    ensures |r| <= |s|
  {
    if |s| == 0 then []
    else
      var r := RemoveChar(s[..|s| - 1], c);
      if s[|s| - 1] == c then r else r + [s[|s| - 1]]
  }

  /** Exactly the characters other than `c` survive. */
  lemma {:induction false} RemoveCharMembers(s: string, c: char)
    ensures forall x :: x in RemoveChar(s, c) <==> x in s && x != c
    decreases |s|
  {
    if |s| > 0 {
      RemoveCharMembers(s[..|s| - 1], c);
      assert s == s[..|s| - 1] + [s[|s| - 1]];
    }
  }

  /** Removing a character distributes over concatenation. */
  lemma {:induction false} RemoveCharAppend(a: string, b: string, c: char)
    ensures RemoveChar(a + b, c) == RemoveChar(a, c) + RemoveChar(b, c)
    decreases |b|
  {
    if |b| > 0 {
      var b' := b[..|b| - 1];
      assert (a + b)[..|a + b| - 1] == a + b';
      RemoveCharAppend(a, b', c);
    } else {
      assert a + b == a;
    }
  }

  /** Removing a character that is not there changes nothing. */
  lemma {:induction false} RemoveAbsentChar(s: string, c: char)
    requires c !in s
    ensures RemoveChar(s, c) == s
    decreases |s|
  {
    if |s| > 0 {
      assert c !in s[..|s| - 1];
      RemoveAbsentChar(s[..|s| - 1], c);
      assert s == s[..|s| - 1] + [s[|s| - 1]];
    }
  }

  predicate IsSeparator(x: char)
  {
    x == '_' || x == '-' || x == '/'
  }

  /** `.replace("_","").replace("-","").replace("/","")`. */
  function MarketName(s: string): string
  {
    RemoveChar(RemoveChar(RemoveChar(s, '_'), '-'), '/')
  }

  /** A market name keeps exactly the characters that are not separators, so it has none left. */
  lemma MarketNameMembers(s: string)
    ensures forall x :: x in MarketName(s) <==> x in s && !IsSeparator(x)
  {
    RemoveCharMembers(s, '_');
    RemoveCharMembers(RemoveChar(s, '_'), '-');
    RemoveCharMembers(RemoveChar(RemoveChar(s, '_'), '-'), '/');
  }

  /** A single character survives exactly when it is not a separator. */
  lemma MarketNameChar(x: char)
    ensures MarketName([x]) == if IsSeparator(x) then [] else [x]
  {
    assert [x][..0] == [];
  }

  /** Market names distribute over concatenation. */
  lemma MarketNameAppend(a: string, b: string)
    ensures MarketName(a + b) == MarketName(a) + MarketName(b)
  {
    RemoveCharAppend(a, b, '_');
    RemoveCharAppend(RemoveChar(a, '_'), RemoveChar(b, '_'), '-');
    RemoveCharAppend(RemoveChar(RemoveChar(a, '_'), '-'), RemoveChar(RemoveChar(b, '_'), '-'), '/');
  }

  /** A market name has no separators left, so stripping again changes nothing. */
  lemma MarketNameIdempotent(s: string)
    ensures MarketName(MarketName(s)) == MarketName(s)
  {
    var m := MarketName(s);
    MarketNameMembers(s);
    RemoveAbsentChar(m, '_');
    RemoveAbsentChar(m, '-');
    RemoveAbsentChar(m, '/');
  }

  /** The index of the first timeframe at or after `from` that `base` ends with. */
  function FirstSuffixFrom(base: string, tfs: seq<string>, from: nat): (r: Option<nat>)
    requires from <= |tfs|
    ensures r.Some? ==> from <= r.value < |tfs| && EndsWith(base, tfs[r.value])
    ensures r.Some? ==> forall j :: from <= j < r.value ==> !EndsWith(base, tfs[j])
    ensures r.None? ==> forall j :: from <= j < |tfs| ==> !EndsWith(base, tfs[j])
    decreases |tfs| - from
  {
    if from == |tfs| then None
    else if EndsWith(base, tfs[from]) then Some(from)
    else FirstSuffixFrom(base, tfs, from + 1)
  }

  /** What the loop finds: the matched timeframe and the market. */
  datatype Inferred = Inferred(timeframe: string, market: string)

  /**
   * Python's `s[:-n]`: all but the last `n` characters, except that `s[:-0]` is `s[:0]`,
   * which is empty.
   */
  function DropLast(s: string, n: nat): (p: string)
    requires n <= |s|
    ensures p <= s
    ensures n == 0 ==> p == []
    ensures n > 0 ==> |p| + n == |s|
  {
    if n == 0 then [] else s[..|s| - n]
  }

  /** The inference in list order over `tfs`; `None` means the file is skipped. */
  function Infer(base: string, tfs: seq<string>): (r: Option<Inferred>)
    ensures r.None? <==> forall j :: 0 <= j < |tfs| ==> !EndsWith(base, tfs[j])
  {
    match FirstSuffixFrom(base, tfs, 0)
    case None => None
    case Some(i) => Some(Inferred(tfs[i], MarketName(DropLast(base, |tfs[i]|))))
  }

  /**
   * The inference loop: try each timeframe in order, and on the first that `base` ends with,
   * record it and the market and stop.
   */
  method InferTimeframe(base: string, tfs: seq<string>) returns (r: Option<Inferred>)
    ensures r == Infer(base, tfs)
    ensures r.Some? ==> exists j :: 0 <= j < |tfs| && tfs[j] == r.value.timeframe && EndsWith(base, tfs[j])
    ensures r.Some? ==> forall x :: x in r.value.market ==> x in base && !IsSeparator(x)
  {
    r := None;
    var k := 0;
    while k < |tfs|
      invariant 0 <= k <= |tfs|
      invariant r.None?
      invariant forall j :: 0 <= j < k ==> !EndsWith(base, tfs[j])
    {
      var tf := tfs[k];
      if EndsWith(base, tf) {
        var rest := DropLast(base, |tf|);
        r := Some(Inferred(tf, MarketName(rest)));
        MarketNameMembers(rest);
        assert forall x :: x in rest ==> x in base by {
          forall x | x in rest ensures x in base {
            var i :| 0 <= i < |rest| && rest[i] == x;
            assert base[i] == x;
          }
        }
        assert FirstSuffixFrom(base, tfs, 0) == Some(k);
        break;
      }
      k := k + 1;
    }
  }

  /** The name the downloader gives a market's file: `<symbol without '/'>_<tf>.csv`. */
  function DownloaderFileName(symbol: string, tf: string): string
  {
    RemoveChar(symbol, '/') + "_" + tf + ".csv"
  }

  /** The base of a downloaded file is the symbol (without '/'), `_` and the timeframe. */
  lemma DownloaderBaseName(symbol: string, tf: string)
    requires '.' !in tf
    ensures BaseName(DownloaderFileName(symbol, tf)) == RemoveChar(symbol, '/') + "_" + tf
  {
    var b := RemoveChar(symbol, '/') + "_" + tf;
    var f := DownloaderFileName(symbol, tf);
    assert f == b + ".csv";
    assert f[|b|] == '.';
    assert f[|b| + 1..] == "csv";
  }

  /** The market inferred for a downloaded file is the symbol without separators. */
  lemma DownloaderMarket(symbol: string, suffix: string)
    ensures MarketName(RemoveChar(symbol, '/') + suffix) == MarketName(symbol) + MarketName(suffix)
  {
    MarketNameAppend(RemoveChar(symbol, '/'), suffix);
    RemoveOrderIrrelevant(symbol);
  }

  /** Deleting '/' first and then all separators is the same as deleting all separators. */
  lemma {:induction false} RemoveOrderIrrelevant(s: string)
    ensures MarketName(RemoveChar(s, '/')) == MarketName(s)
    decreases |s|
  {
    if |s| > 0 {
      var p := s[..|s| - 1];
      var x := s[|s| - 1];
      assert s == p + [x];
      var q := RemoveChar(p, '/');
      var y := RemoveChar([x], '/');
      calc {
        MarketName(RemoveChar(s, '/'));
        == { RemoveCharAppend(p, [x], '/'); }
        MarketName(q + y);
        == { MarketNameAppend(q, y); }
        MarketName(q) + MarketName(y);
        == { RemoveOrderIrrelevant(p); RemoveOrderChar(x); }
        MarketName(p) + MarketName([x]);
        == { MarketNameAppend(p, [x]); }
        MarketName(s);
      }
    }
  }

  /** The single-character case of `RemoveOrderIrrelevant`. */
  lemma RemoveOrderChar(x: char)
    ensures MarketName(RemoveChar([x], '/')) == MarketName([x])
  {
    assert [x][..0] == [];
    if x == '/' {
      assert RemoveChar([x], '/') == [];
      MarketNameChar(x);
    } else {
      assert RemoveChar([x], '/') == [x];
    }
  }

  /** The inference picks entry `k` when it is the first suffix of `base`. */
  lemma InferAt(base: string, tfs: seq<string>, k: nat)
    requires k < |tfs| && EndsWith(base, tfs[k])
    requires forall j :: 0 <= j < k ==> !EndsWith(base, tfs[j])
    ensures Infer(base, tfs) == Some(Inferred(tfs[k], MarketName(DropLast(base, |tfs[k]|))))
  {
    var r := FirstSuffixFrom(base, tfs, 0);
    assert r.Some?;
    assert r.value == k;
  }

  /**
   * As written, a downloaded 15-minute file is read as a 5-minute one: "5m" is tried before
   * "15m" and is a suffix of it, and the "1" is left on the market name.
   */
  lemma FifteenMinuteMisread(symbol: string)
    ensures Infer(BaseName(DownloaderFileName(symbol, "15m")), AllowedTimeframes)
            == Some(Inferred("5m", MarketName(symbol) + "1"))
  {
    var s := RemoveChar(symbol, '/');
    DownloaderBaseName(symbol, "15m");
    MisreadInfer(s);
    DownloaderMarket(symbol, "_1");
    OneAfterSeparator();
  }

  /** The as-written loop on `<s>_15m` stops at "5m". */
  lemma MisreadInfer(s: string)
    ensures Infer(s + "_" + "15m", AllowedTimeframes) == Some(Inferred("5m", MarketName(s + "_1")))
  {
    MisreadSuffixes(s);
    InferAt(s + "_" + "15m", AllowedTimeframes, 1);
    assert |AllowedTimeframes[1]| == 2;
    assert DropLast(s + "_" + "15m", 2) == s + "_1";
  }

  /** The separator goes and the digit stays. */
  lemma OneAfterSeparator()
    ensures MarketName("_1") == "1"
  {
    var sep: string := ['_'];
    var one: string := ['1'];
    assert sep + one == "_1";
    MarketNameAppend(sep, one);
    MarketNameChar('_');
    MarketNameChar('1');
    assert MarketName(sep) == [];
    assert MarketName(one) == one;
  }

  /** `<s>_15m` ends with "5m" but not with "1m"; without the "5m" it is `<s>_1`. */
  lemma MisreadSuffixes(s: string)
    ensures EndsWith(s + "_" + "15m", AllowedTimeframes[1])
    ensures !EndsWith(s + "_" + "15m", AllowedTimeframes[0])
    ensures (s + "_" + "15m")[..|s| + 2] == s + "_1"
  {
    var base := s + "_" + "15m";
    assert base[|base| - 2..] == "5m";
  }

  /** A name without separators is its own market name. */
  lemma PlainMarketName(s: string)
    requires '_' !in s && '-' !in s && '/' !in s
    ensures MarketName(s) == s && RemoveChar(s, '/') == s
  {
    RemoveAbsentChar(s, '_');
    RemoveAbsentChar(s, '-');
    RemoveAbsentChar(s, '/');
  }

  /** The concrete case: `BTCUSDT_15m.csv` is tagged 5m, market `BTCUSDT1`. */
  lemma BtcFifteenMinuteExample()
    ensures Infer(BaseName("BTCUSDT_15m.csv"), AllowedTimeframes) == Some(Inferred("5m", "BTCUSDT1"))
  {
    var f := DownloaderFileName("BTCUSDT", "15m");
    var m := MarketName("BTCUSDT") + "1";
    BtcFile();
    BtcMarket();
    FifteenMinuteMisread("BTCUSDT");
    assert Infer(BaseName(f), AllowedTimeframes) == Some(Inferred("5m", m));
  }

  lemma BtcFile()
    ensures DownloaderFileName("BTCUSDT", "15m") == "BTCUSDT_15m.csv"
  {
    PlainFileName("BTCUSDT", "15m");
  }

  lemma BtcMarket()
    ensures MarketName("BTCUSDT") + "1" == "BTCUSDT1"
  {
    PlainMarketName("BTCUSDT");
  }

  /** A symbol without '/' is written under its own name. */
  lemma PlainFileName(symbol: string, tf: string)
    requires '/' !in symbol
    ensures DownloaderFileName(symbol, tf) == symbol + "_" + tf + ".csv"
  {
    RemoveAbsentChar(symbol, '/');
  }

  /**
   * With the suffix-safe order every file the downloader writes is read back as its own
   * timeframe and market.
   */
  lemma DownloaderNamesRoundTrip(symbol: string, k: nat)
    requires k < |SuffixSafeTimeframes|
    ensures Infer(BaseName(DownloaderFileName(symbol, SuffixSafeTimeframes[k])), SuffixSafeTimeframes)
            == Some(Inferred(SuffixSafeTimeframes[k], MarketName(symbol)))
  {
    var tfs := SuffixSafeTimeframes;
    var tf := tfs[k];
    var s := RemoveChar(symbol, '/');
    var base := s + "_" + tf;
    DownloaderBaseName(symbol, tf);
    assert BaseName(DownloaderFileName(symbol, tf)) == base;
    NoEarlierSuffix(s, k);
    assert base[|base| - |tf|..] == tf;
    InferAt(base, tfs, k);
    assert |tf| > 0;
    assert DropLast(base, |tf|) == s + "_";
    assert Infer(base, tfs) == Some(Inferred(tf, MarketName(s + "_")));
    DownloaderMarket(symbol, "_");
    MarketNameChar('_');
    assert MarketName(symbol) + [] == MarketName(symbol);
  }

  /** In the suffix-safe order no entry before `k` is a suffix of `<s>_<entry k>`. */
  lemma NoEarlierSuffix(s: string, k: nat)
    requires k < |SuffixSafeTimeframes|
    ensures forall j :: 0 <= j < k ==> !EndsWith(s + "_" + SuffixSafeTimeframes[k], SuffixSafeTimeframes[j])
  {
    var tfs := SuffixSafeTimeframes;
    var base := s + "_" + tfs[k];
    if k > 0 {
      assert |tfs[k]| == 2;
      assert base[|base| - 3..] == ['_'] + tfs[k];
      assert base[|base| - 2..] == tfs[k];
      forall j | 0 <= j < k ensures !EndsWith(base, tfs[j]) {
        if j == 0 {
          assert base[|base| - 3] == '_';
        } else {
          assert tfs[j] != tfs[k];
        }
      }
    }
  }

  /**
   * Every name ends with the empty string, and `base[:-0]` is empty, so an empty timeframe
   * first in the list matches any file and yields an empty market.
   */
  lemma EmptyTimeframeEmptyMarket(base: string, tfs: seq<string>)
    requires |tfs| > 0 && tfs[0] == ""
    ensures Infer(base, tfs) == Some(Inferred("", ""))
  {
    assert EndsWith(base, tfs[0]);
    InferAt(base, tfs, 0);
    assert MarketName([]) == [];
  }

  /** The suffix-safe list holds the same timeframes as the allowed list. */
  lemma SuffixSafeSameTimeframes()
    ensures multiset(SuffixSafeTimeframes) == multiset(AllowedTimeframes)
  {
  }
}
