/** The file-pairing half of the comparison service: the (month, year) key read from a
    file name, and the CSV/FIT file pairs built from those keys. */
module ComparisonPairing {
  import opened Wrappers
  import opened Weight
  import opened Grouping
  import PyText

  /** A (month, year) key. */
  type MonthYear = (int, int)

  /** `_extract_month_year`: the second whitespace-separated word of the name must split
      on "-" into exactly two parts, each an integer for Python's `int`; any other name
      gives None (the source catches every exception and returns None). */
  function ExtractMonthYear(filename: string): Option<MonthYear>
  {
    var parts := PyText.Words(filename);
    if |parts| < 2 then None
    else
      var halves := PyText.SplitOn(parts[1], '-');
      if |halves| != 2 then None
      else
        match (PyText.ParseInt(halves[0]), PyText.ParseInt(halves[1]))
        case (Some(month), Some(year)) => Some((month, year))
        case _ => None
  }

  lemma DecimalHasNoSpaceOrDash(n: nat)
    ensures PyText.NoSpace(PyText.NatToDecimal(n))
    ensures '-' !in PyText.NatToDecimal(n)
  {
    var s := PyText.NatToDecimal(n);
    assert forall i :: 0 <= i < |s| ==> PyText.IsDigit(s[i]);
  }

  /** A name whose second word is `<month>-<year>` in decimal yields that key: reading
      the key back inverts writing it into the name. */
  lemma ExtractFromName(word: string, month: nat, year: nat, rest: string)
    requires |word| > 0 && PyText.NoSpace(word)
    ensures ExtractMonthYear(word + " " + (PyText.NatToDecimal(month) + "-" + PyText.NatToDecimal(year)) + " " + rest)
            == Some((month, year))
  {
    var m := PyText.NatToDecimal(month);
    var y := PyText.NatToDecimal(year);
    DecimalHasNoSpaceOrDash(month);
    DecimalHasNoSpaceOrDash(year);
    DashJoinNoSpace(m, y);
    SplitDate(m, y);
    PyText.ParseIntOfDecimal(month);
    PyText.ParseIntOfDecimal(year);
    SecondWord(word, m + "-" + y, rest);
    ExtractOfSecondWord(word + " " + (m + "-" + y) + " " + rest, m, y, month, year);
  }

  /** A `<month>-<year>` word splits on its one dash into its two halves. */
  lemma SplitDate(m: string, y: string)
    requires '-' !in m && '-' !in y
    ensures PyText.SplitOn(m + "-" + y, '-') == [m, y]
  {
    PyText.SplitAtFirst(m, '-', y);
  }

  /** A name whose second word splits on its dash into two integers yields them. */
  lemma ExtractOfSecondWord(name: string, m: string, y: string, month: int, year: int)
    requires |PyText.Words(name)| >= 2
    requires PyText.SplitOn(PyText.Words(name)[1], '-') == [m, y]
    requires PyText.ParseInt(m) == Some(month) && PyText.ParseInt(y) == Some(year)
    ensures ExtractMonthYear(name) == Some((month, year))
  {
  }

  /** Joining two space-free strings with a dash gives a space-free string. */
  lemma DashJoinNoSpace(m: string, y: string)
    requires PyText.NoSpace(m) && PyText.NoSpace(y)
    ensures PyText.NoSpace(m + "-" + y)
  {
    var date := m + "-" + y;
    forall i | 0 <= i < |date| ensures !PyText.IsSpace(date[i]) {
      if i < |m| {
        assert date[i] == m[i];
      } else if i > |m| {
        assert date[i] == y[i - |m| - 1];
      }
    }
  }

  /** The word after the first space-free word of a name. */
  lemma SecondWord(word: string, date: string, rest: string)
    requires |word| > 0 && PyText.NoSpace(word)
    requires |date| > 0 && PyText.NoSpace(date)
    ensures var parts := PyText.Words(word + " " + date + " " + rest);
            |parts| >= 2 && parts[1] == date
  {
    assert word + " " + date + " " + rest == word + [' '] + (date + [' '] + rest);
    PyText.WordsCons(word, ' ', date + [' '] + rest);
    PyText.WordsCons(date, ' ', rest);
  }

  /** The file name format of the exported files: "Peso 1-2024 Huawei Health.csv" gives
      January 2024. */
  lemma ExtractExample()
    ensures ExtractMonthYear("Peso 1-2024 Huawei Health.csv") == Some((1, 2024))
  {
    assert PyText.NatToDecimal(1) == "1";
    assert PyText.NatToDecimal(20) == "20";
    assert PyText.NatToDecimal(202) == "202";
    assert PyText.NatToDecimal(2024) == "2024";
    assert PyText.NoSpace("Peso");
    ExtractFromName("Peso", 1, 2024, "Huawei Health.csv");
    ExampleName();
  }

  lemma ExampleName()
    ensures "Peso" + " " + ("1" + "-" + "2024") + " " + "Huawei Health.csv" == "Peso 1-2024 Huawei Health.csv"
  {
  }

  /** Some name of `names` carries key `k`. */
  predicate HasKey(key: string -> Option<MonthYear>, names: seq<string>, k: MonthYear)
  {
    exists n :: n in names && key(n) == Some(k)
  }

  /** `by_month_year[key] = name` for each name of `names` that has a key, in order: a
      later name with the same key overwrites an earlier one. */
  function LatestByKey(key: string -> Option<MonthYear>, names: seq<string>): (index: map<MonthYear, string>)
    ensures forall k :: k in index <==> HasKey(key, names, k)
    ensures forall k :: k in index ==> index[k] in names && key(index[k]) == Some(k)
  {
    if names == [] then map[]
    else
      var init := names[..|names| - 1];
      var last := names[|names| - 1];
      assert names == init + [last];
      var index := LatestByKey(key, init);
      match key(last)
      case None => index
      case Some(k) => index[k := last]
  }

  /** The keys of that dictionary, in first-insertion order. */
  function KeyOrder(key: string -> Option<MonthYear>, names: seq<string>): (keys: seq<MonthYear>)
    ensures forall k :: k in keys <==> HasKey(key, names, k)
  {
    if names == [] then []
    else
      var init := names[..|names| - 1];
      var last := names[|names| - 1];
      assert names == init + [last];
      var keys := KeyOrder(key, init);
      match key(last)
      case None => keys
      case Some(k) => if k in keys then keys else keys + [k]
  }

  lemma {:induction false} KeyOrderDistinct(key: string -> Option<MonthYear>, names: seq<string>)
    ensures Distinct(KeyOrder(key, names))
  {
    if names != [] {
      var init := names[..|names| - 1];
      KeyOrderDistinct(key, init);
      var keys := KeyOrder(key, init);
      if key(names[|names| - 1]).Some? {
        var k := key(names[|names| - 1]).value;
        if k !in keys {
          DistinctSnoc(keys, k);
        }
      }
    }
  }

  /** When two names share a key, the one that comes last is the one the dictionary
      keeps. */
  lemma {:induction false} LatestWins(key: string -> Option<MonthYear>, names: seq<string>, i: nat, k: MonthYear)
    requires i < |names| && key(names[i]) == Some(k)
    requires forall j :: i < j < |names| ==> key(names[j]) != Some(k)
    ensures k in LatestByKey(key, names) && LatestByKey(key, names)[k] == names[i]
  {
    var init := names[..|names| - 1];
    if i < |names| - 1 {
      assert forall j :: i < j < |init| ==> init[j] == names[j];
      LatestWins(key, init, i, k);
    }
  }

  /** The loop that fills `csv_by_month_year` (or `fit_by_month_year`). */
  method IndexByMonthYear(names: seq<string>) returns (keys: seq<MonthYear>, index: map<MonthYear, string>)
    ensures keys == KeyOrder(ExtractMonthYear, names)
    ensures index == LatestByKey(ExtractMonthYear, names)
  {
    keys := [];
    index := map[];
    for i := 0 to |names|
      invariant keys == KeyOrder(ExtractMonthYear, names[..i])
      invariant index == LatestByKey(ExtractMonthYear, names[..i])
    {
      assert names[..i + 1][..i] == names[..i];
      var monthYear := ExtractMonthYear(names[i]);
      if monthYear.Some? {
        if monthYear.value !in index {
          keys := keys + [monthYear.value];
        }
        index := index[monthYear.value := names[i]];
      }
    }
    assert names[..|names|] == names;
  }

  /** A pair of file names; None stands for the empty side of an unpaired file. */
  type NamePair = (Option<string>, Option<string>)

  /** `paired_csv_files`: the CSV names whose key also has a FIT file. */
  function PairedCsvNames(csvIndex: map<MonthYear, string>, fitIndex: map<MonthYear, string>): set<string>
  {
    set k | k in csvIndex && k in fitIndex :: csvIndex[k]
  }

  /** `paired_fit_files`: the FIT names whose key also has a CSV file. */
  function PairedFitNames(csvIndex: map<MonthYear, string>, fitIndex: map<MonthYear, string>): set<string>
  {
    set k | k in csvIndex && k in fitIndex :: fitIndex[k]
  }

  /** The keys of `keys` that `fitIndex` also has, in order. */
  function SharedKeys(keys: seq<MonthYear>, fitIndex: map<MonthYear, string>): (shared: seq<MonthYear>)
    ensures forall k :: k in shared <==> k in keys && k in fitIndex
  {
    if keys == [] then []
    else
      var init := keys[..|keys| - 1];
      var last := keys[|keys| - 1];
      assert keys == init + [last];
      SharedKeys(init, fitIndex) + (if last in fitIndex then [last] else [])
  }

  lemma {:induction false} SharedKeysDistinct(keys: seq<MonthYear>, fitIndex: map<MonthYear, string>)
    requires Distinct(keys)
    ensures Distinct(SharedKeys(keys, fitIndex))
  {
    if keys != [] {
      var init := keys[..|keys| - 1];
      var last := keys[|keys| - 1];
      assert last !in init by {
        assert forall i :: 0 <= i < |init| ==> init[i] == keys[i];
      }
      assert Distinct(init) by {
        assert forall i :: 0 <= i < |init| ==> init[i] == keys[i];
      }
      SharedKeysDistinct(init, fitIndex);
      if last in fitIndex {
        DistinctSnoc(SharedKeys(init, fitIndex), last);
      }
    }
  }

  /** The same-key pairs, in the key order of `csv_by_month_year`. */
  function MatchedNames(keys: seq<MonthYear>, csvIndex: map<MonthYear, string>,
                        fitIndex: map<MonthYear, string>): (ps: seq<NamePair>)
    requires forall k :: k in keys ==> k in csvIndex
    ensures var shared := SharedKeys(keys, fitIndex);
            && |ps| == |shared|
            && forall i :: 0 <= i < |ps| ==> ps[i] == (Some(csvIndex[shared[i]]), Some(fitIndex[shared[i]]))
  {
    var shared := SharedKeys(keys, fitIndex);
    seq(|shared|, i requires 0 <= i < |shared| => (Some(csvIndex[shared[i]]), Some(fitIndex[shared[i]])))
  }

  /** The FIT names outside `paired`, in order, each with an empty CSV side. */
  function FitOnlyNames(names: seq<string>, paired: set<string>): (ps: seq<NamePair>)
    ensures forall i :: 0 <= i < |ps| ==>
              ps[i].0 == None && ps[i].1.Some? && ps[i].1.value in names && ps[i].1.value !in paired
  {
    if names == [] then []
    else
      var init := names[..|names| - 1];
      var last := names[|names| - 1];
      assert names == init + [last];
      FitOnlyNames(init, paired) + (if last in paired then [] else [(None, Some(last))])
  }

  /** The CSV names outside `paired`, in order, each with an empty FIT side. */
  function CsvOnlyNames(names: seq<string>, paired: set<string>): (ps: seq<NamePair>)
    ensures forall i :: 0 <= i < |ps| ==>
              ps[i].1 == None && ps[i].0.Some? && ps[i].0.value in names && ps[i].0.value !in paired
  {
    if names == [] then []
    else
      var init := names[..|names| - 1];
      var last := names[|names| - 1];
      assert names == init + [last];
      CsvOnlyNames(init, paired) + (if last in paired then [] else [(Some(last), None)])
  }

  /** An unpaired name is listed with an empty other side. */
  lemma {:induction false} UnpairedPresent(names: seq<string>, paired: set<string>, n: string)
    requires n in names && n !in paired
    ensures (None, Some(n)) in FitOnlyNames(names, paired)
    ensures (Some(n), None) in CsvOnlyNames(names, paired)
  {
    var init := names[..|names| - 1];
    if n != names[|names| - 1] {
      assert names == init + [names[|names| - 1]];
      UnpairedPresent(init, paired, n);
    }
  }

  lemma {:induction false} UnpairedDistinct(names: seq<string>, paired: set<string>)
    requires Distinct(names)
    ensures Distinct(FitOnlyNames(names, paired))
    ensures Distinct(CsvOnlyNames(names, paired))
  {
    if names != [] {
      var init := names[..|names| - 1];
      var last := names[|names| - 1];
      assert forall i :: 0 <= i < |init| ==> init[i] == names[i];
      assert last !in init;
      UnpairedDistinct(init, paired);
      if last !in paired {
        assert (None, Some(last)) !in FitOnlyNames(init, paired);
        assert (Some(last), None) !in CsvOnlyNames(init, paired);
        DistinctSnoc(FitOnlyNames(init, paired), (None, Some(last)));
        DistinctSnoc(CsvOnlyNames(init, paired), (Some(last), None));
      }
    }
  }

  /** `_find_file_pairs` on the file names: same-key pairs first, then the unpaired FIT
      files, then the unpaired CSV files. */
  function NamePairs(key: string -> Option<MonthYear>, csvNames: seq<string>, fitNames: seq<string>): seq<NamePair>
  {
    SameKeyPairs(key, csvNames, fitNames) + UnpairedFit(key, csvNames, fitNames) + UnpairedCsv(key, csvNames, fitNames)
  }

  /** The first part of the listing: one pair per key that both sides have. */
  function SameKeyPairs(key: string -> Option<MonthYear>, csvNames: seq<string>, fitNames: seq<string>): seq<NamePair>
  {
    MatchedNames(KeyOrder(key, csvNames), LatestByKey(key, csvNames), LatestByKey(key, fitNames))
  }

  /** The second part: the FIT files left out of the same-key pairs. */
  function UnpairedFit(key: string -> Option<MonthYear>, csvNames: seq<string>, fitNames: seq<string>): seq<NamePair>
  {
    FitOnlyNames(fitNames, PairedFitNames(LatestByKey(key, csvNames), LatestByKey(key, fitNames)))
  }

  /** The third part: the CSV files left out of the same-key pairs. */
  function UnpairedCsv(key: string -> Option<MonthYear>, csvNames: seq<string>, fitNames: seq<string>): seq<NamePair>
  {
    CsvOnlyNames(csvNames, PairedCsvNames(LatestByKey(key, csvNames), LatestByKey(key, fitNames)))
  }

  /** Within the same-key pairs, each CSV name and each FIT name occurs once: distinct
      keys index distinct files. */
  lemma MatchedNamesDistinct(key: string -> Option<MonthYear>, keys: seq<MonthYear>, csvIndex: map<MonthYear, string>,
                             fitIndex: map<MonthYear, string>)
    requires Distinct(keys)
    requires forall k :: k in keys ==> k in csvIndex
    requires forall k :: k in csvIndex ==> key(csvIndex[k]) == Some(k)
    requires forall k :: k in fitIndex ==> key(fitIndex[k]) == Some(k)
    ensures var ps := MatchedNames(keys, csvIndex, fitIndex);
            forall i, j :: 0 <= i < |ps| && 0 <= j < |ps| && ps[i].0 == ps[j].0 ==> i == j
    ensures var ps := MatchedNames(keys, csvIndex, fitIndex);
            forall i, j :: 0 <= i < |ps| && 0 <= j < |ps| && ps[i].1 == ps[j].1 ==> i == j
  {
    var shared := SharedKeys(keys, fitIndex);
    SharedKeysDistinct(keys, fitIndex);
    var ps := MatchedNames(keys, csvIndex, fitIndex);
    forall i, j | 0 <= i < |ps| && 0 <= j < |ps| && ps[i].0 == ps[j].0 ensures i == j {
      assert shared[i] in keys && shared[j] in keys;
      assert key(csvIndex[shared[i]]) == Some(shared[i]);
      assert key(csvIndex[shared[j]]) == Some(shared[j]);
    }
    forall i, j | 0 <= i < |ps| && 0 <= j < |ps| && ps[i].1 == ps[j].1 ensures i == j {
      assert shared[i] in fitIndex && shared[j] in fitIndex;
      assert key(fitIndex[shared[i]]) == Some(shared[i]);
      assert key(fitIndex[shared[j]]) == Some(shared[j]);
    }
  }

  /** The side of a pair that `csvSide` selects. */
  function Side(p: NamePair, csvSide: bool): Option<string>
  {
    if csvSide then p.0 else p.1
  }

  /** The pairs whose selected side is `n`: there is one, and only one. */
  predicate ExactlyOnce(ps: seq<NamePair>, csvSide: bool, n: string)
  {
    && (exists i :: 0 <= i < |ps| && Side(ps[i], csvSide) == Some(n))
    && (forall i, j ::
          0 <= i < |ps| && 0 <= j < |ps| && Side(ps[i], csvSide) == Some(n) && Side(ps[j], csvSide) == Some(n)
          ==> i == j)
  }

  /** A name found once in the same-key part, or once in exactly one of the unpaired
      parts, is found once in the whole listing. */
  lemma OnceAcrossParts(a: seq<NamePair>, b: seq<NamePair>, c: seq<NamePair>, csvSide: bool, n: string)
    requires forall i, j :: 0 <= i < |a| && 0 <= j < |a| && Side(a[i], csvSide) == Side(a[j], csvSide) ==> i == j
    requires if csvSide then Distinct(c) else Distinct(b)
    requires forall i :: 0 <= i < |b| ==> b[i].0 == None && b[i].1.Some?
    requires forall i :: 0 <= i < |c| ==> c[i].1 == None && c[i].0.Some?
    requires forall i, j :: 0 <= i < |a| && 0 <= j < |b| ==> Side(a[i], csvSide) != Side(b[j], csvSide)
    requires forall i, j :: 0 <= i < |a| && 0 <= j < |c| ==> Side(a[i], csvSide) != Side(c[j], csvSide)
    requires (exists i :: 0 <= i < |a| && Side(a[i], csvSide) == Some(n))
             || (csvSide && (Some(n), None) in c) || (!csvSide && (None, Some(n)) in b)
    ensures ExactlyOnce(a + b + c, csvSide, n)
  {
    var ps := a + b + c;
    if exists i :: 0 <= i < |a| && Side(a[i], csvSide) == Some(n) {
      var i :| 0 <= i < |a| && Side(a[i], csvSide) == Some(n);
      assert ps[i] == a[i];
    } else if csvSide {
      var i :| 0 <= i < |c| && c[i] == (Some(n), None);
      assert ps[|a| + |b| + i] == c[i];
    } else {
      var i :| 0 <= i < |b| && b[i] == (None, Some(n));
      assert ps[|a| + i] == b[i];
    }
    forall i, j | 0 <= i < |ps| && 0 <= j < |ps| && Side(ps[i], csvSide) == Some(n) && Side(ps[j], csvSide) == Some(n)
      ensures i == j
    {
      if i < |a| && j < |a| {
        assert ps[i] == a[i] && ps[j] == a[j];
      } else if i >= |a| + |b| && j >= |a| + |b| {
        assert c[i - |a| - |b|] == ps[i] && c[j - |a| - |b|] == ps[j];
      } else if |a| <= i < |a| + |b| && |a| <= j < |a| + |b| {
        assert b[i - |a|] == ps[i] && b[j - |a|] == ps[j];
      }
    }
  }

  /** The same-key pairs hold exactly the paired names, each once. */
  lemma SameKeyPairsFacts(key: string -> Option<MonthYear>, csvNames: seq<string>, fitNames: seq<string>)
    ensures var a := SameKeyPairs(key, csvNames, fitNames);
            var csvIndex, fitIndex := LatestByKey(key, csvNames), LatestByKey(key, fitNames);
            && (forall i :: 0 <= i < |a| ==> a[i].0.Some? && a[i].0.value in PairedCsvNames(csvIndex, fitIndex))
            && (forall i :: 0 <= i < |a| ==> a[i].1.Some? && a[i].1.value in PairedFitNames(csvIndex, fitIndex))
            && (forall i, j :: 0 <= i < |a| && 0 <= j < |a| && a[i].0 == a[j].0 ==> i == j)
            && (forall i, j :: 0 <= i < |a| && 0 <= j < |a| && a[i].1 == a[j].1 ==> i == j)
  {
    var csvIndex, fitIndex := LatestByKey(key, csvNames), LatestByKey(key, fitNames);
    var keys := KeyOrder(key, csvNames);
    var shared := SharedKeys(keys, fitIndex);
    KeyOrderDistinct(key, csvNames);
    MatchedNamesDistinct(key, keys, csvIndex, fitIndex);
    forall i | 0 <= i < |shared| ensures shared[i] in csvIndex && shared[i] in fitIndex {
      assert shared[i] in keys;
    }
  }

  /** A paired CSV name is the CSV side of some same-key pair. */
  lemma PairedCsvListed(key: string -> Option<MonthYear>, csvNames: seq<string>, fitNames: seq<string>, n: string)
    requires n in PairedCsvNames(LatestByKey(key, csvNames), LatestByKey(key, fitNames))
    ensures exists i :: 0 <= i < |SameKeyPairs(key, csvNames, fitNames)| && SameKeyPairs(key, csvNames, fitNames)[i].0 == Some(n)
  {
    var csvIndex, fitIndex := LatestByKey(key, csvNames), LatestByKey(key, fitNames);
    var shared := SharedKeys(KeyOrder(key, csvNames), fitIndex);
    var k :| k in csvIndex && k in fitIndex && csvIndex[k] == n;
    assert k in shared;
    var i :| 0 <= i < |shared| && shared[i] == k;
    assert SameKeyPairs(key, csvNames, fitNames)[i] == (Some(csvIndex[k]), Some(fitIndex[k]));
  }

  /** A paired FIT name is the FIT side of some same-key pair. */
  lemma PairedFitListed(key: string -> Option<MonthYear>, csvNames: seq<string>, fitNames: seq<string>, n: string)
    requires n in PairedFitNames(LatestByKey(key, csvNames), LatestByKey(key, fitNames))
    ensures exists i :: 0 <= i < |SameKeyPairs(key, csvNames, fitNames)| && SameKeyPairs(key, csvNames, fitNames)[i].1 == Some(n)
  {
    var csvIndex, fitIndex := LatestByKey(key, csvNames), LatestByKey(key, fitNames);
    var shared := SharedKeys(KeyOrder(key, csvNames), fitIndex);
    var k :| k in csvIndex && k in fitIndex && fitIndex[k] == n;
    assert k in shared;
    var i :| 0 <= i < |shared| && shared[i] == k;
    assert SameKeyPairs(key, csvNames, fitNames)[i] == (Some(csvIndex[k]), Some(fitIndex[k]));
  }

  /** Every distinct CSV file name is the CSV side of exactly one pair. */
  lemma CsvNameCoverage(key: string -> Option<MonthYear>, csvNames: seq<string>, fitNames: seq<string>, n: string)
    requires Distinct(csvNames) && n in csvNames
    ensures ExactlyOnce(NamePairs(key, csvNames, fitNames), true, n)
  {
    var a, b, c := SameKeyPairs(key, csvNames, fitNames), UnpairedFit(key, csvNames, fitNames), UnpairedCsv(key, csvNames, fitNames);
    var paired := PairedCsvNames(LatestByKey(key, csvNames), LatestByKey(key, fitNames));
    SameKeyPairsFacts(key, csvNames, fitNames);
    UnpairedDistinct(csvNames, paired);
    if n in paired {
      PairedCsvListed(key, csvNames, fitNames, n);
    } else {
      UnpairedPresent(csvNames, paired, n);
    }
    OnceAcrossParts(a, b, c, true, n);
  }

  /** Every distinct FIT file name is the FIT side of exactly one pair. */
  lemma FitNameCoverage(key: string -> Option<MonthYear>, csvNames: seq<string>, fitNames: seq<string>, n: string)
    requires Distinct(fitNames) && n in fitNames
    ensures ExactlyOnce(NamePairs(key, csvNames, fitNames), false, n)
  {
    var a, b, c := SameKeyPairs(key, csvNames, fitNames), UnpairedFit(key, csvNames, fitNames), UnpairedCsv(key, csvNames, fitNames);
    var paired := PairedFitNames(LatestByKey(key, csvNames), LatestByKey(key, fitNames));
    SameKeyPairsFacts(key, csvNames, fitNames);
    UnpairedDistinct(fitNames, paired);
    if n in paired {
      PairedFitListed(key, csvNames, fitNames, n);
    } else {
      UnpairedPresent(fitNames, paired, n);
    }
    OnceAcrossParts(a, b, c, false, n);
  }

  /** Where a pair sits in the listing: same-key pairs, then FIT-only, then CSV-only. */
  function Rank(p: NamePair): nat
  {
    if p.0.Some? && p.1.Some? then 0 else if p.0 == None && p.1.Some? then 1 else 2
  }

  /** The listing puts same-key pairs first, then the unpaired FIT files, then the
      unpaired CSV files, and no pair is empty on both sides. */
  lemma PairOrder(key: string -> Option<MonthYear>, csvNames: seq<string>, fitNames: seq<string>)
    ensures var ps := NamePairs(key, csvNames, fitNames);
            && (forall i, j :: 0 <= i <= j < |ps| ==> Rank(ps[i]) <= Rank(ps[j]))
            && (forall i :: 0 <= i < |ps| ==> ps[i] != (None, None))
  {
    var a, b, c := SameKeyPairs(key, csvNames, fitNames), UnpairedFit(key, csvNames, fitNames), UnpairedCsv(key, csvNames, fitNames);
    SameKeyPairsFacts(key, csvNames, fitNames);
    var ps := a + b + c;
    assert forall i :: 0 <= i < |a| ==> Rank(a[i]) == 0;
    assert forall i :: 0 <= i < |b| ==> Rank(b[i]) == 1;
    assert forall i :: 0 <= i < |c| ==> Rank(c[i]) == 2;
    forall i | 0 <= i < |ps| ensures Rank(ps[i]) == (if i < |a| then 0 else if i < |a| + |b| then 1 else 2)
                                     && ps[i] != (None, None) {
      if i < |a| {
        assert ps[i] == a[i];
      } else if i < |a| + |b| {
        assert ps[i] == b[i - |a|];
      } else {
        assert ps[i] == c[i - |a| - |b|];
      }
    }
  }

  /** `c` and `d` carry the same key, and each is the file the dictionary of its side
      keeps for that key. */
  predicate LatestPair(key: string -> Option<MonthYear>, csvNames: seq<string>, fitNames: seq<string>, c: string, d: string)
  {
    var k := key(c);
    && k.Some?
    && key(d) == k
    && k.value in LatestByKey(key, csvNames) && LatestByKey(key, csvNames)[k.value] == c
    && k.value in LatestByKey(key, fitNames) && LatestByKey(key, fitNames)[k.value] == d
  }

  /** A pair with both sides joins the two files kept for one (month, year) key. */
  lemma BothSidesShareKey(key: string -> Option<MonthYear>, csvNames: seq<string>, fitNames: seq<string>, i: nat)
    requires i < |NamePairs(key, csvNames, fitNames)|
    requires NamePairs(key, csvNames, fitNames)[i].0.Some? && NamePairs(key, csvNames, fitNames)[i].1.Some?
    ensures LatestPair(key, csvNames, fitNames, NamePairs(key, csvNames, fitNames)[i].0.value,
                       NamePairs(key, csvNames, fitNames)[i].1.value)
  {
    var csvIndex, fitIndex := LatestByKey(key, csvNames), LatestByKey(key, fitNames);
    var a, b, c := SameKeyPairs(key, csvNames, fitNames), UnpairedFit(key, csvNames, fitNames), UnpairedCsv(key, csvNames, fitNames);
    var ps := a + b + c;
    assert i < |a|;
    assert ps[i] == a[i];
    var shared := SharedKeys(KeyOrder(key, csvNames), fitIndex);
    var k := shared[i];
    assert k in KeyOrder(key, csvNames);
    assert a[i] == (Some(csvIndex[k]), Some(fitIndex[k]));
  }

  /** The file kept for a key comes no earlier than any file with that key. */
  lemma {:induction false} LatestIsLater(key: string -> Option<MonthYear>, names: seq<string>, j: nat, k: MonthYear)
    requires j < |names| && key(names[j]) == Some(k)
    ensures k in LatestByKey(key, names)
    ensures exists l :: j <= l < |names| && LatestByKey(key, names)[k] == names[l]
  {
    var init := names[..|names| - 1];
    var last := names[|names| - 1];
    if key(last) != Some(k) {
      assert names[j] == init[j];
      LatestIsLater(key, init, j, k);
      var l :| j <= l < |init| && LatestByKey(key, init)[k] == init[l];
      assert LatestByKey(key, names)[k] == LatestByKey(key, init)[k];
      assert names[l] == init[l];
    } else {
      assert LatestByKey(key, names)[k] == last;
    }
  }

  /** Of two CSV files with the same key, the earlier one is listed as unpaired. */
  lemma EarlierCsvUnpaired(key: string -> Option<MonthYear>, csvNames: seq<string>, fitNames: seq<string>, i: nat, j: nat)
    requires Distinct(csvNames)
    requires i < j < |csvNames|
    requires key(csvNames[i]).Some? && key(csvNames[j]) == key(csvNames[i])
    ensures (Some(csvNames[i]), None) in NamePairs(key, csvNames, fitNames)
  {
    var k := key(csvNames[i]).value;
    var csvIndex, fitIndex := LatestByKey(key, csvNames), LatestByKey(key, fitNames);
    LatestIsLater(key, csvNames, j, k);
    var l :| j <= l < |csvNames| && csvIndex[k] == csvNames[l];
    var paired := PairedCsvNames(csvIndex, fitIndex);
    assert csvNames[i] !in paired by {
      forall k' | k' in csvIndex && k' in fitIndex ensures csvIndex[k'] != csvNames[i] {
        if k' != k {
          assert key(csvIndex[k']) == Some(k');
        } else {
          assert csvNames[l] != csvNames[i];
        }
      }
    }
    UnpairedPresent(csvNames, paired, csvNames[i]);
  }

  /** Of two FIT files with the same key, the earlier one is listed as unpaired. */
  lemma EarlierFitUnpaired(key: string -> Option<MonthYear>, csvNames: seq<string>, fitNames: seq<string>, i: nat, j: nat)
    requires Distinct(fitNames)
    requires i < j < |fitNames|
    requires key(fitNames[i]).Some? && key(fitNames[j]) == key(fitNames[i])
    ensures (None, Some(fitNames[i])) in NamePairs(key, csvNames, fitNames)
  {
    var k := key(fitNames[i]).value;
    var csvIndex, fitIndex := LatestByKey(key, csvNames), LatestByKey(key, fitNames);
    LatestIsLater(key, fitNames, j, k);
    var l :| j <= l < |fitNames| && fitIndex[k] == fitNames[l];
    var paired := PairedFitNames(csvIndex, fitIndex);
    assert fitNames[i] !in paired by {
      forall k' | k' in csvIndex && k' in fitIndex ensures fitIndex[k'] != fitNames[i] {
        if k' != k {
          assert key(fitIndex[k']) == Some(k');
        } else {
          assert fitNames[l] != fitNames[i];
        }
      }
    }
    UnpairedPresent(fitNames, paired, fitNames[i]);
  }

  /** The records a pair of names stands for: a file's records, or none for an empty side. */
  type RecordPair = (seq<RawWeightRecord>, seq<RawWeightRecord>)

  function FileNameOf(r: RawWeightRecord): string
  {
    r.sourceFileName
  }

  /** The keys of `by_file`: the distinct file names, in first-occurrence order. */
  function FileNames(records: seq<RawWeightRecord>): seq<string>
  {
    Dedup(MapSeq(records, FileNameOf))
  }

  function RecordsNamed(records: seq<RawWeightRecord>, name: Option<string>): (rs: seq<RawWeightRecord>)
    ensures forall r :: r in rs <==> name.Some? && r in records && r.sourceFileName == name.value
  {
    if name.Some? then Select(records, FileNameOf, name.value) else []
  }

  function ToRecords(csvRecords: seq<RawWeightRecord>, fitRecords: seq<RawWeightRecord>,
                     ps: seq<NamePair>): (pairs: seq<RecordPair>)
    ensures |pairs| == |ps|
    ensures forall i :: 0 <= i < |ps| ==>
              pairs[i] == (RecordsNamed(csvRecords, ps[i].0), RecordsNamed(fitRecords, ps[i].1))
  {
    seq(|ps|, i requires 0 <= i < |ps| => (RecordsNamed(csvRecords, ps[i].0), RecordsNamed(fitRecords, ps[i].1)))
  }

  /** `_find_file_pairs`: the listing of file names with each name replaced by the records
      of that file. */
  function FilePairs(csvRecords: seq<RawWeightRecord>, fitRecords: seq<RawWeightRecord>): seq<RecordPair>
  {
    ToRecords(csvRecords, fitRecords, NamePairs(ExtractMonthYear, FileNames(csvRecords), FileNames(fitRecords)))
  }

  /** Every CSV record lies in the CSV side of exactly one pair, and that side holds all the
      records of its file. */
  lemma CsvRecordCoverage(csvRecords: seq<RawWeightRecord>, fitRecords: seq<RawWeightRecord>, r: RawWeightRecord)
    requires r in csvRecords
    ensures var pairs := FilePairs(csvRecords, fitRecords);
            && (exists i :: 0 <= i < |pairs| && r in pairs[i].0
                            && pairs[i].0 == Select(csvRecords, FileNameOf, r.sourceFileName))
            && (forall i, j :: 0 <= i < |pairs| && 0 <= j < |pairs| && r in pairs[i].0 && r in pairs[j].0 ==> i == j)
  {
    var ps := NamePairs(ExtractMonthYear, FileNames(csvRecords), FileNames(fitRecords));
    InMapSeq(csvRecords, FileNameOf, r.sourceFileName);
    CsvNameCoverage(ExtractMonthYear, FileNames(csvRecords), FileNames(fitRecords), r.sourceFileName);
    var i :| 0 <= i < |ps| && Side(ps[i], true) == Some(r.sourceFileName);
    assert FilePairs(csvRecords, fitRecords)[i].0 == Select(csvRecords, FileNameOf, r.sourceFileName);
  }

  /** Every FIT record lies in the FIT side of exactly one pair, and that side holds all the
      records of its file. */
  lemma FitRecordCoverage(csvRecords: seq<RawWeightRecord>, fitRecords: seq<RawWeightRecord>, r: RawWeightRecord)
    requires r in fitRecords
    ensures var pairs := FilePairs(csvRecords, fitRecords);
            && (exists i :: 0 <= i < |pairs| && r in pairs[i].1
                            && pairs[i].1 == Select(fitRecords, FileNameOf, r.sourceFileName))
            && (forall i, j :: 0 <= i < |pairs| && 0 <= j < |pairs| && r in pairs[i].1 && r in pairs[j].1 ==> i == j)
  {
    var ps := NamePairs(ExtractMonthYear, FileNames(csvRecords), FileNames(fitRecords));
    InMapSeq(fitRecords, FileNameOf, r.sourceFileName);
    FitNameCoverage(ExtractMonthYear, FileNames(csvRecords), FileNames(fitRecords), r.sourceFileName);
    var i :| 0 <= i < |ps| && Side(ps[i], false) == Some(r.sourceFileName);
    assert FilePairs(csvRecords, fitRecords)[i].1 == Select(fitRecords, FileNameOf, r.sourceFileName);
  }

  lemma MatchedNamesSnoc(keys: seq<MonthYear>, i: nat, csvIndex: map<MonthYear, string>,
                         fitIndex: map<MonthYear, string>)
    requires i < |keys|
    requires forall k :: k in keys ==> k in csvIndex
    ensures MatchedNames(keys[..i + 1], csvIndex, fitIndex)
            == MatchedNames(keys[..i], csvIndex, fitIndex)
               + (if keys[i] in fitIndex then [(Some(csvIndex[keys[i]]), Some(fitIndex[keys[i]]))] else [])
  {
    assert keys[..i + 1][..i] == keys[..i];
    assert keys[i] in keys;
  }

  lemma UnpairedSnoc(names: seq<string>, j: nat, paired: set<string>)
    requires j < |names|
    ensures FitOnlyNames(names[..j + 1], paired)
            == FitOnlyNames(names[..j], paired) + (if names[j] in paired then [] else [(None, Some(names[j]))])
    ensures CsvOnlyNames(names[..j + 1], paired)
            == CsvOnlyNames(names[..j], paired) + (if names[j] in paired then [] else [(Some(names[j]), None)])
  {
    assert names[..j + 1][..j] == names[..j];
  }

  lemma ToRecordsSnoc(csvRecords: seq<RawWeightRecord>, fitRecords: seq<RawWeightRecord>,
                      ps: seq<NamePair>, p: NamePair)
    ensures ToRecords(csvRecords, fitRecords, ps + [p])
            == ToRecords(csvRecords, fitRecords, ps) + [(RecordsNamed(csvRecords, p.0), RecordsNamed(fitRecords, p.1))]
  {
  }

  lemma ToRecordsAppend(csvRecords: seq<RawWeightRecord>, fitRecords: seq<RawWeightRecord>,
                        ps: seq<NamePair>, qs: seq<NamePair>)
    ensures ToRecords(csvRecords, fitRecords, ps + qs)
            == ToRecords(csvRecords, fitRecords, ps) + ToRecords(csvRecords, fitRecords, qs)
  {
  }

  /** First loop of `_find_file_pairs`: for each CSV key in first-seen order that the FIT
      index also has, the records of the two latest files. */
  method SameKeyRecordPairs(csvRecords: seq<RawWeightRecord>, fitRecords: seq<RawWeightRecord>,
                            csvByFile: map<string, seq<RawWeightRecord>>, fitByFile: map<string, seq<RawWeightRecord>>,
                            keys: seq<MonthYear>, csvIndex: map<MonthYear, string>, fitIndex: map<MonthYear, string>)
    returns (pairs: seq<RecordPair>)
    requires forall k :: k in keys ==> k in csvIndex
    requires forall k :: k in csvIndex ==> csvIndex[k] in csvByFile
    requires forall k :: k in fitIndex ==> fitIndex[k] in fitByFile
    requires forall f :: f in csvByFile ==> csvByFile[f] == Select(csvRecords, FileNameOf, f)
    requires forall f :: f in fitByFile ==> fitByFile[f] == Select(fitRecords, FileNameOf, f)
    ensures pairs == ToRecords(csvRecords, fitRecords, MatchedNames(keys, csvIndex, fitIndex))
  {
    ghost var names: seq<NamePair> := [];
    pairs := [];
    for i := 0 to |keys|
      invariant names == MatchedNames(keys[..i], csvIndex, fitIndex)
      invariant pairs == ToRecords(csvRecords, fitRecords, names)
    {
      var monthYear := keys[i];
      MatchedNamesSnoc(keys, i, csvIndex, fitIndex);
      if monthYear in fitIndex {
        var csvFile, fitFile := csvIndex[monthYear], fitIndex[monthYear];
        ToRecordsSnoc(csvRecords, fitRecords, names, (Some(csvFile), Some(fitFile)));
        names := names + [(Some(csvFile), Some(fitFile))];
        pairs := pairs + [(csvByFile[csvFile], fitByFile[fitFile])];
      }
    }
    assert keys[..|keys|] == keys;
  }

  /** Second loop of `_find_file_pairs`: each FIT file outside the same-key pairs, alone. */
  method FitOnlyRecordPairs(csvRecords: seq<RawWeightRecord>, fitRecords: seq<RawWeightRecord>,
                            fitFiles: seq<string>, fitByFile: map<string, seq<RawWeightRecord>>, paired: set<string>)
    returns (pairs: seq<RecordPair>)
    requires forall f :: f in fitFiles ==> f in fitByFile && fitByFile[f] == Select(fitRecords, FileNameOf, f)
    ensures pairs == ToRecords(csvRecords, fitRecords, FitOnlyNames(fitFiles, paired))
  {
    ghost var names: seq<NamePair> := [];
    pairs := [];
    for j := 0 to |fitFiles|
      invariant names == FitOnlyNames(fitFiles[..j], paired)
      invariant pairs == ToRecords(csvRecords, fitRecords, names)
    {
      UnpairedSnoc(fitFiles, j, paired);
      if fitFiles[j] !in paired {
        ToRecordsSnoc(csvRecords, fitRecords, names, (None, Some(fitFiles[j])));
        names := names + [(None, Some(fitFiles[j]))];
        pairs := pairs + [([], fitByFile[fitFiles[j]])];
      }
    }
    assert fitFiles[..|fitFiles|] == fitFiles;
  }

  /** Third loop of `_find_file_pairs`: each CSV file outside the same-key pairs, alone. */
  method CsvOnlyRecordPairs(csvRecords: seq<RawWeightRecord>, fitRecords: seq<RawWeightRecord>,
                            csvFiles: seq<string>, csvByFile: map<string, seq<RawWeightRecord>>, paired: set<string>)
    returns (pairs: seq<RecordPair>)
    requires forall f :: f in csvFiles ==> f in csvByFile && csvByFile[f] == Select(csvRecords, FileNameOf, f)
    ensures pairs == ToRecords(csvRecords, fitRecords, CsvOnlyNames(csvFiles, paired))
  {
    ghost var names: seq<NamePair> := [];
    pairs := [];
    for j := 0 to |csvFiles|
      invariant names == CsvOnlyNames(csvFiles[..j], paired)
      invariant pairs == ToRecords(csvRecords, fitRecords, names)
    {
      UnpairedSnoc(csvFiles, j, paired);
      if csvFiles[j] !in paired {
        ToRecordsSnoc(csvRecords, fitRecords, names, (Some(csvFiles[j]), None));
        names := names + [(Some(csvFiles[j]), None)];
        pairs := pairs + [(csvByFile[csvFiles[j]], [])];
      }
    }
    assert csvFiles[..|csvFiles|] == csvFiles;
  }

  /** The listing of record pairs in its three parts. */
  lemma FilePairsParts(csvRecords: seq<RawWeightRecord>, fitRecords: seq<RawWeightRecord>)
    ensures var csvNames, fitNames := FileNames(csvRecords), FileNames(fitRecords);
            FilePairs(csvRecords, fitRecords)
            == ToRecords(csvRecords, fitRecords, SameKeyPairs(ExtractMonthYear, csvNames, fitNames))
               + ToRecords(csvRecords, fitRecords, UnpairedFit(ExtractMonthYear, csvNames, fitNames))
               + ToRecords(csvRecords, fitRecords, UnpairedCsv(ExtractMonthYear, csvNames, fitNames))
  {
    var csvNames, fitNames := FileNames(csvRecords), FileNames(fitRecords);
    var a, b := SameKeyPairs(ExtractMonthYear, csvNames, fitNames), UnpairedFit(ExtractMonthYear, csvNames, fitNames);
    ToRecordsAppend(csvRecords, fitRecords, a, b);
    ToRecordsAppend(csvRecords, fitRecords, a + b, UnpairedCsv(ExtractMonthYear, csvNames, fitNames));
  }

  /** `_find_file_pairs`: group both sides by file name, index the files by (month, year),
      then list the same-key pairs, the unpaired FIT files and the unpaired CSV files. */
  method FindFilePairs(csvRecords: seq<RawWeightRecord>, fitRecords: seq<RawWeightRecord>)
    returns (pairs: seq<RecordPair>)
    ensures pairs == FilePairs(csvRecords, fitRecords)
  {
    var csvFiles, csvByFile := GroupBy(csvRecords, FileNameOf);
    var fitFiles, fitByFile := GroupBy(fitRecords, FileNameOf);
    pairs := PairGroupedFiles(csvRecords, fitRecords, csvFiles, csvByFile, fitFiles, fitByFile);
  }

  /** The body of `_find_file_pairs` once both sides are grouped by file name. */
  method PairGroupedFiles(csvRecords: seq<RawWeightRecord>, fitRecords: seq<RawWeightRecord>,
                          csvFiles: seq<string>, csvByFile: map<string, seq<RawWeightRecord>>,
                          fitFiles: seq<string>, fitByFile: map<string, seq<RawWeightRecord>>)
    returns (pairs: seq<RecordPair>)
    requires csvFiles == FileNames(csvRecords) && fitFiles == FileNames(fitRecords)
    requires forall f :: f in csvByFile <==> f in csvFiles
    requires forall f :: f in fitByFile <==> f in fitFiles
    requires forall f :: f in csvByFile ==> csvByFile[f] == Select(csvRecords, FileNameOf, f)
    requires forall f :: f in fitByFile ==> fitByFile[f] == Select(fitRecords, FileNameOf, f)
    ensures pairs == FilePairs(csvRecords, fitRecords)
  {
    var csvMonthKeys, csvByMonthYear := IndexByMonthYear(csvFiles);
    var _, fitByMonthYear := IndexByMonthYear(fitFiles);

    var sameKey := SameKeyRecordPairs(csvRecords, fitRecords, csvByFile, fitByFile,
                                      csvMonthKeys, csvByMonthYear, fitByMonthYear);
    var pairedCsvFiles := PairedCsvNames(csvByMonthYear, fitByMonthYear);
    var pairedFitFiles := PairedFitNames(csvByMonthYear, fitByMonthYear);
    var fitOnly := FitOnlyRecordPairs(csvRecords, fitRecords, fitFiles, fitByFile, pairedFitFiles);
    var csvOnly := CsvOnlyRecordPairs(csvRecords, fitRecords, csvFiles, csvByFile, pairedCsvFiles);
    pairs := sameKey + fitOnly + csvOnly;
    FilePairsParts(csvRecords, fitRecords);
  }
}
