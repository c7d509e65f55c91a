/**
 `analyzeGames` of the Keno analyser (components/KenoAnalyzer.tsx): for each window
 "All Games", "Last 10/20/50/100 Games" that the record count can fill, count how
 often each number occurs in the window's winning runs, sort the counts descending
 and report the first ten as hot and the last ten, reversed, as cold.
 */
module KenoAnalysis {
  import opened Text
  import opened Frequency
  import opened Ranking
  import opened GameRecords

  /** One entry of the `ranges` table: a window's label and size (the field is `name`
      because `label` is a Dafny keyword). */
  datatype Range = Range(name: string, count: nat)

  /** The analysis of one window. The two averages are not modelled. */
  datatype WindowAnalysis = WindowAnalysis(
    range: string,
    hotNumbers: seq<Entry>,
    coldNumbers: seq<Entry>,
    drawCount: nat)

  /** What an upload ends in: the analyses, or the `TypeError` thrown by
      `game.Multiplier.substring(1)` for the first record whose Multiplier is
      `undefined` (the upload handler then sets an error message, and the analyses shown
      before are not replaced). */
  datatype Outcome = Analyzed(analyses: seq<WindowAnalysis>) | TypeError(record: nat)

  /** How many entries `slice(0, 10)` and `slice(-10)` keep. */
  const ListSize: nat := 10

  /** The `ranges` table for `total` records. */
  function Ranges(total: nat): seq<Range> {
    [ Range("All Games", total),
      Range("Last 10 Games", 10),
      Range("Last 20 Games", 20),
      Range("Last 50 Games", 50),
      Range("Last 100 Games", 100) ]
  }

  /** The windows whose size does not exceed the record count, in their listed order
      (components/KenoAnalyzer.tsx:46). */
  function FitRanges(rs: seq<Range>, total: nat): seq<Range> {
    if |rs| == 0 then []
    else
      (if rs[0].count <= total then [rs[0]] else []) + FitRanges(rs[1..], total)
  }

  function SelectRanges(total: nat): seq<Range> {
    FitRanges(Ranges(total), total)
  }

  /** The windows analysed for `total` records: "All Games" first, always, then each
      of the fixed windows of 10, 20, 50 and 100 that `total` can fill, in that order;
      a window larger than the record count is dropped, not shrunk. */
  lemma SelectedWindows(total: nat)
    ensures var r := SelectRanges(total);
      && |r| >= 1
      && r[0] == Range("All Games", total)
      && (forall x :: x in r ==> x in Ranges(total))
      && (forall i :: 1 <= i < |r| ==> r[i].name != "All Games")
      && (forall i :: 0 <= i < |r| ==> r[i].count <= total)
      && (forall i, j :: 1 <= i < j < |r| ==> r[i].count < r[j].count)
      && (Range("Last 10 Games", 10) in r <==> total >= 10)
      && (Range("Last 20 Games", 20) in r <==> total >= 20)
      && (Range("Last 50 Games", 50) in r <==> total >= 50)
      && (Range("Last 100 Games", 100) in r <==> total >= 100)
  {
    SelectRangesCases(total);
    var rs := Ranges(total);
    if total >= 100 {
    } else if total >= 50 {
      assert rs[..4] == [rs[0], rs[1], rs[2], rs[3]];
    } else if total >= 20 {
      assert rs[..3] == [rs[0], rs[1], rs[2]];
    } else if total >= 10 {
      assert rs[..2] == [rs[0], rs[1]];
    } else {
      assert rs[..1] == [rs[0]];
    }
  }

  /** The selected windows spelled out for each band of record counts. */
  lemma SelectRangesCases(total: nat)
    ensures var rs := Ranges(total);
      SelectRanges(total)
      == if total >= 100 then rs
         else if total >= 50 then rs[..4]
         else if total >= 20 then rs[..3]
         else if total >= 10 then rs[..2]
         else rs[..1]
  {
    var rs := Ranges(total);
    FitStep(rs, total);
    FitStep(rs[1..], total);
    FitStep(rs[2..], total);
    FitStep(rs[3..], total);
    FitStep(rs[4..], total);
    assert rs[1..][1..] == rs[2..] && rs[2..][1..] == rs[3..] && rs[3..][1..] == rs[4..];
    assert rs[4..][1..] == [];
  }

  lemma FitStep(rs: seq<Range>, total: nat)
    requires |rs| > 0
    ensures FitRanges(rs, total)
      == (if rs[0].count <= total then [rs[0]] else []) + FitRanges(rs[1..], total)
  {
  }

  /** Every winning number of a window, record by record, as `parseGameNumbers` reads them. */
  function WindowNumbers(gameSet: seq<KenoGame>): seq<int> {
    if |gameSet| == 0 then []
    else ParseGameNumbers(gameSet[0].winningNumbers) + WindowNumbers(gameSet[1..])
  }

  /** The window's counts as entries, sorted stably by descending count
      (components/KenoAnalyzer.tsx:62-64). */
  function Rank(nums: seq<int>): seq<Entry> {
    StableSort(Tally(nums), true)
  }

  /** The first ten sorted entries, or all of them when there are fewer
      (components/KenoAnalyzer.tsx:68). */
  function Hot(sorted: seq<Entry>): seq<Entry> {
    sorted[..Min(ListSize, |sorted|)]
  }

  function Reverse<T>(s: seq<T>): (r: seq<T>)
    ensures |r| == |s|
    ensures forall i :: 0 <= i < |s| ==> r[i] == s[|s| - 1 - i]
  {
    if |s| == 0 then [] else Reverse(s[1..]) + [s[0]]
  }

  /** The last ten sorted entries, or all of them when there are fewer, in reverse
      order (components/KenoAnalyzer.tsx:69). */
  function Cold(sorted: seq<Entry>): seq<Entry> {
    Reverse(sorted[Max(|sorted| - ListSize, 0)..])
  }

  /** The `ranges.map` callback for one window. */
  function AnalyzeWindow(games: seq<KenoGame>, range: Range): WindowAnalysis
    requires range.count <= |games|
  {
    var gameSet := games[..range.count];
    var sorted := Rank(WindowNumbers(gameSet));
    WindowAnalysis(range.name, Hot(sorted), Cold(sorted), range.count)
  }

  /** The index of the first record whose Multiplier is `undefined`. */
  function FirstMissingMultiplier(games: seq<KenoGame>): (r: Option<nat>)
    ensures r.Some? ==>
      r.value < |games| && games[r.value].multiplier.None?
      && forall k :: 0 <= k < r.value ==> games[k].multiplier.Some?
    ensures r.None? ==> forall k :: 0 <= k < |games| ==> games[k].multiplier.Some?
  {
    if |games| == 0 then None
    else if games[0].multiplier.None? then Some(0)
    else
      match FirstMissingMultiplier(games[1..])
      case Some(i) =>
        assert forall k :: 0 < k <= i ==> games[k] == games[1..][k - 1];
        Some(i + 1)
      case None =>
        assert forall k :: 0 < k < |games| ==> games[k] == games[1..][k - 1];
        None
  }

  /** The analysis of a list of records (components/KenoAnalyzer.tsx:36-77). The
      "All Games" window is computed first and reads every record, so one record
      without a Multiplier fails the whole analysis. */
  function AnalyzeGames(games: seq<KenoGame>): Outcome {
    match FirstMissingMultiplier(games)
    case Some(i) => TypeError(i)
    case None =>
      var rs := SelectRanges(|games|);
      SelectedWindows(|games|);
      Analyzed(seq(|rs|, i requires 0 <= i < |rs| => AnalyzeWindow(games, rs[i])))
  }

  /** The ranked entries of a window: one per distinct number, each with its count. */
  lemma RankCounts(nums: seq<int>)
    ensures var sorted := Rank(nums);
      && Ranked(sorted, true)
      && |sorted| == |Tally(nums)|
      && forall i :: 0 <= i < |sorted| ==>
           sorted[i].number in nums
           && sorted[i].frequency == multiset(nums)[sorted[i].number]
  {
    var t := Tally(nums);
    var sorted := Rank(nums);
    TallyEntries(nums);
    forall i | 0 <= i < |sorted|
      ensures sorted[i].number in nums
      ensures sorted[i].frequency == multiset(nums)[sorted[i].number]
    {
      assert sorted[i] in multiset(t);
      var m :| 0 <= m < |t| && t[m] == sorted[i];
    }
  }

  /** Every number of the window has a ranked entry. */
  lemma RankCovers(nums: seq<int>, n: int)
    requires n in nums
    ensures exists i :: 0 <= i < |Rank(nums)| && Rank(nums)[i].number == n
  {
    var t := Tally(nums);
    var sorted := Rank(nums);
    assert HasKey(t, n);
    NumbersIndex(t);
    var m :| 0 <= m < |t| && Numbers(t)[m] == n;
    assert t[m] in multiset(sorted);
    var i :| 0 <= i < |sorted| && sorted[i] == t[m];
  }

  /** Hot numbers: ten entries or as many as there are distinct numbers, in
      non-increasing count order, each with its true count. */
  lemma HotNumbers(nums: seq<int>)
    ensures var hot := Hot(Rank(nums));
      && |hot| == Min(ListSize, |Tally(nums)|)
      && (forall i, j :: 0 <= i < j < |hot| ==> hot[i].frequency >= hot[j].frequency)
      && (forall i :: 0 <= i < |hot| ==>
            hot[i].number in nums && hot[i].frequency == multiset(nums)[hot[i].number])
  {
    var sorted := Rank(nums);
    var hot := Hot(sorted);
    RankCounts(nums);
    forall i, j | 0 <= i < j < |hot| ensures hot[i].frequency >= hot[j].frequency {
      assert Before(sorted[i], sorted[j], true);
    }
  }

  /** No number left out of the hot list occurs more often than a hot number. */
  lemma HotDominates(nums: seq<int>, i: int, n: int)
    requires 0 <= i < |Hot(Rank(nums))| && n in nums
    requires forall k :: 0 <= k < |Hot(Rank(nums))| ==> Hot(Rank(nums))[k].number != n
    ensures Hot(Rank(nums))[i].frequency >= multiset(nums)[n]
  {
    var sorted := Rank(nums);
    var hot := Hot(sorted);
    RankCounts(nums);
    RankCovers(nums, n);
    var m :| 0 <= m < |sorted| && sorted[m].number == n;
    assert forall k :: 0 <= k < |hot| ==> sorted[k] == hot[k];
    assert m >= |hot|;
    assert Before(sorted[i], sorted[m], true);
  }

  /** Cold numbers: ten entries or as many as there are distinct numbers, in
      non-decreasing count order, each with its true count. */
  lemma ColdNumbers(nums: seq<int>)
    ensures var cold := Cold(Rank(nums));
      && |cold| == Min(ListSize, |Tally(nums)|)
      && (forall i, j :: 0 <= i < j < |cold| ==> cold[i].frequency <= cold[j].frequency)
      && (forall i :: 0 <= i < |cold| ==>
            cold[i].number in nums && cold[i].frequency == multiset(nums)[cold[i].number])
  {
    var sorted := Rank(nums);
    var d := |sorted|;
    var cold := Cold(sorted);
    RankCounts(nums);
    assert forall i :: 0 <= i < |cold| ==> cold[i] == sorted[d - 1 - i];
    forall i, j | 0 <= i < j < |cold| ensures cold[i].frequency <= cold[j].frequency {
      assert Before(sorted[d - 1 - j], sorted[d - 1 - i], true);
    }
  }

  /** The first cold number has the smallest count in the window. */
  lemma ColdestFirst(nums: seq<int>, n: int)
    requires n in nums
    ensures |Cold(Rank(nums))| > 0
    ensures Cold(Rank(nums))[0].frequency <= multiset(nums)[n]
  {
    var sorted := Rank(nums);
    var d := |sorted|;
    RankCounts(nums);
    RankCovers(nums, n);
    var m :| 0 <= m < d && sorted[m].number == n;
    assert Cold(sorted)[0] == sorted[d - 1];
    if m < d - 1 {
      assert Before(sorted[m], sorted[d - 1], true);
    }
  }

  /** No number left out of the cold list occurs less often than a cold number, and on
      a tie the cold number is the larger: the cold list is the least frequent end of
      the ranking. */
  lemma ColdDominated(nums: seq<int>, i: int, n: int)
    requires 0 <= i < |Cold(Rank(nums))| && n in nums
    requires forall k :: 0 <= k < |Cold(Rank(nums))| ==> Cold(Rank(nums))[k].number != n
    ensures Cold(Rank(nums))[i].frequency <= multiset(nums)[n]
    ensures Before(Entry(n, multiset(nums)[n]), Cold(Rank(nums))[i], true)
  {
    var sorted := Rank(nums);
    var d := |sorted|;
    ColdAt(sorted);
    ColdTail(sorted, n);
    RankCovers(nums, n);
    var m :| 0 <= m < d && sorted[m].number == n;
    assert m < d - |Cold(sorted)|;
    RankCounts(nums);
    assert sorted[m] == Entry(n, multiset(nums)[n]);
    assert Before(sorted[m], sorted[d - 1 - i], true);
  }

  /** A number absent from the cold list is absent from the tail it was cut from. */
  lemma ColdTail(sorted: seq<Entry>, n: int)
    requires forall k :: 0 <= k < |Cold(sorted)| ==> Cold(sorted)[k].number != n
    ensures forall j :: |sorted| - |Cold(sorted)| <= j < |sorted| ==> sorted[j].number != n
  {
    ColdAt(sorted);
    forall j | |sorted| - |Cold(sorted)| <= j < |sorted| ensures sorted[j].number != n {
      assert Cold(sorted)[|sorted| - 1 - j] == sorted[j];
    }
  }

  lemma ColdAt(sorted: seq<Entry>)
    ensures |Cold(sorted)| == Min(ListSize, |sorted|)
    ensures forall k :: 0 <= k < |Cold(sorted)| ==> Cold(sorted)[k] == sorted[|sorted| - 1 - k]
  {
  }

  /** Hot and cold share no number exactly when there are at least twenty distinct
      numbers (or none at all); with one to nineteen they overlap. */
  lemma HotColdDisjoint(nums: seq<int>)
    ensures var sorted := Rank(nums);
      (forall i, j :: 0 <= i < |Hot(sorted)| && 0 <= j < |Cold(sorted)| ==>
         Hot(sorted)[i].number != Cold(sorted)[j].number)
      <==> (|Tally(nums)| >= 2 * ListSize || |Tally(nums)| == 0)
  {
    var sorted := Rank(nums);
    var d := |sorted|;
    var hot := Hot(sorted);
    var cold := Cold(sorted);
    var start := Max(d - ListSize, 0);
    RankCounts(nums);
    assert forall j :: 0 <= j < |cold| ==> cold[j] == sorted[d - 1 - j];
    if d >= 2 * ListSize {
      forall i, j | 0 <= i < |hot| && 0 <= j < |cold| ensures hot[i].number != cold[j].number {
        assert hot[i] == sorted[i];
      }
    } else if d > 0 {
      var w := start;
      assert hot[w] == sorted[w];
      assert cold[|cold| - 1] == sorted[w];
    }
  }

  /** An upload fails exactly when some record has no Multiplier, naming the first
      such record; otherwise there is one analysis per selected window, in order,
      each computed over the first `count` records with `drawCount == count`. */
  lemma AnalyzeGamesResult(games: seq<KenoGame>)
    ensures var o := AnalyzeGames(games);
      && (o.TypeError? <==> exists k :: 0 <= k < |games| && games[k].multiplier.None?)
      && (o.TypeError? ==>
            o.record < |games| && games[o.record].multiplier.None?
            && forall k :: 0 <= k < o.record ==> games[k].multiplier.Some?)
      && (o.Analyzed? ==>
            var rs := SelectRanges(|games|);
            && |o.analyses| == |rs|
            && o.analyses[0].range == "All Games"
            && o.analyses[0].drawCount == |games|
            && forall i :: 0 <= i < |rs| ==>
                 var a := o.analyses[i];
                 && a.range == rs[i].name
                 && a.drawCount == rs[i].count
                 && rs[i].count <= |games|
                 && a.hotNumbers == Hot(Rank(WindowNumbers(games[..rs[i].count])))
                 && a.coldNumbers == Cold(Rank(WindowNumbers(games[..rs[i].count]))))
  {
    SelectedWindows(|games|);
  }
}
