/**
 `analyzePDF` of the PDF analyser (app/page.tsx): a count for every Keno number 1 to
 80, raised once per occurrence in the capture of each draw line, the number of draw
 lines, and the four entries with the smallest counts.
 */
module PdfAnalysis {
  import opened Text
  import opened Frequency
  import opened Ranking
  import opened DrawPattern

  /** The board runs from 1 to `BoardSize`. */
  const BoardSize: nat := 80

  /** How many entries `slice(0, 4)` keeps. */
  const ReportSize: nat := 4

  /** A frequency object holding exactly the keys 1 to 80, in `Object.entries` order. */
  predicate Board(t: seq<Entry>) {
    |t| == BoardSize && forall i :: 0 <= i < |t| ==> t[i].number == i + 1
  }

  /** The table before any line is read: a zero count for every board number
      (app/page.tsx:12-15). */
  function InitialTable(): (t: seq<Entry>)
    ensures Board(t)
    ensures forall n :: 1 <= n <= BoardSize ==> Lookup(t, n) == 0
  {
    var t := seq(BoardSize, i requires 0 <= i < BoardSize => Entry(i + 1, 0));
    assert forall n :: 1 <= n <= BoardSize ==> Lookup(t, n) == 0 by {
      forall n | 1 <= n <= BoardSize ensures Lookup(t, n) == 0 {
        LookupAt(t, n - 1);
      }
    }
    t
  }

  /** A number the guard `num >= 1 && num <= 80` lets through; NaN never passes. */
  predicate OnBoard(v: Option<int>) {
    v.Some? && 1 <= v.value <= BoardSize
  }

  /** How many of `vals` the guard lets through. */
  function OnBoardCount(vals: seq<Option<int>>): nat {
    if |vals| == 0 then 0
    else OnBoardCount(vals[..|vals| - 1]) + (if OnBoard(vals[|vals| - 1]) then 1 else 0)
  }

  lemma {:induction false} OnBoardCountAppend(a: seq<Option<int>>, b: seq<Option<int>>)
    ensures OnBoardCount(a + b) == OnBoardCount(a) + OnBoardCount(b)
    decreases |b|
  {
    if |b| == 0 {
      assert a + b == a;
    } else {
      OnBoardCountAppend(a, b[..|b| - 1]);
      assert (a + b)[..|a + b| - 1] == a + b[..|b| - 1];
      assert (a + b)[|a + b| - 1] == b[|b| - 1];
    }
  }

  lemma {:induction false} SumOfZeros(t: seq<Entry>)
    requires forall i :: 0 <= i < |t| ==> t[i].frequency == 0
    ensures SumFreq(t) == 0
    decreases |t|
  {
    if |t| > 0 {
      SumOfZeros(t[1..]);
    }
  }

  /** Bumping the key of entry `i` raises that entry's count in place. */
  lemma {:induction false} BumpAt(t: seq<Entry>, i: nat)
    requires Ascending(t)
    requires i < |t|
    ensures var r := Bump(t, t[i].number);
      && |r| == |t|
      && r[i] == Entry(t[i].number, t[i].frequency + 1)
      && forall k :: 0 <= k < |t| && k != i ==> r[k] == t[k]
    decreases i
  {
    if i == 0 {
      BumpFirst(t);
    } else {
      AscendingTail(t);
      assert t[1..][i - 1] == t[i];
      BumpAt(t[1..], i - 1);
      BumpLater(t, i);
    }
  }

  lemma BumpFirst(t: seq<Entry>)
    requires Ascending(t) && |t| > 0
    ensures Bump(t, t[0].number) == [Entry(t[0].number, t[0].frequency + 1)] + t[1..]
  {
  }

  lemma BumpLater(t: seq<Entry>, i: nat)
    requires Ascending(t) && 0 < i < |t|
    requires Ascending(t[1..])
    requires var r := Bump(t[1..], t[i].number);
      && |r| == |t| - 1
      && r[i - 1] == Entry(t[i].number, t[i].frequency + 1)
      && forall k :: 0 <= k < |t| - 1 && k != i - 1 ==> r[k] == t[k + 1]
    ensures var r := Bump(t, t[i].number);
      && |r| == |t|
      && r[i] == Entry(t[i].number, t[i].frequency + 1)
      && forall k :: 0 <= k < |t| && k != i ==> r[k] == t[k]
  {
    assert t[0].number < t[i].number;
    assert Bump(t, t[i].number) == [t[0]] + Bump(t[1..], t[i].number);
  }

  lemma AscendingTail(t: seq<Entry>)
    requires Ascending(t) && |t| > 0
    ensures Ascending(t[1..])
  {
    forall i, j | 0 <= i < j < |t| - 1 ensures t[1..][i].number < t[1..][j].number {
      assert t[1..][i] == t[i + 1] && t[1..][j] == t[j + 1];
    }
  }

  /** `frequency[n]++` for a board number `n`: its count rises by one, the others
      and the keys stay. */
  lemma BumpBoard(t: seq<Entry>, n: int)
    requires Board(t) && 1 <= n <= BoardSize
    ensures Board(Bump(t, n))
    ensures forall i :: 0 <= i < BoardSize ==>
      Bump(t, n)[i].frequency == t[i].frequency + (if i + 1 == n then 1 else 0)
    ensures SumFreq(Bump(t, n)) == SumFreq(t) + 1
  {
    assert Ascending(t);
    BumpAt(t, n - 1);
    BumpSum(t, n);
  }

  lemma LastCount<T>(vals: seq<T>)
    requires |vals| > 0
    ensures forall x ::
      multiset(vals)[x] == multiset(vals[..|vals| - 1])[x] + (if x == vals[|vals| - 1] then 1 else 0)
  {
    assert vals == vals[..|vals| - 1] + [vals[|vals| - 1]];
  }

  /** Counting one line's numbers (app/page.tsx:24-28): every number on the board
      gains its occurrences in `vals`, values off the board and NaN are skipped, and
      the table keeps its 80 keys. */
  function CountNumbers(t: seq<Entry>, vals: seq<Option<int>>): (r: seq<Entry>)
    requires Board(t)
    ensures Board(r)
    ensures forall i :: 0 <= i < BoardSize ==>
      r[i].frequency == t[i].frequency + multiset(vals)[Some(i + 1)]
    ensures SumFreq(r) == SumFreq(t) + OnBoardCount(vals)
  {
    if |vals| == 0 then t
    else
      var v := vals[|vals| - 1];
      var r := CountNumbers(t, vals[..|vals| - 1]);
      LastCount(vals);
      if OnBoard(v) then
        BumpBoard(r, v.value);
        Bump(r, v.value)
      else
        r
  }

  /** A line the draw pattern matches (app/page.tsx:21-22). */
  predicate IsDrawLine(line: string) {
    MatchDraw(line).Some?
  }

  /** The number of lines `line.match` accepts. */
  function MatchCount(lines: seq<string>): nat {
    if |lines| == 0 then 0
    else MatchCount(lines[..|lines| - 1]) + (if IsDrawLine(lines[|lines| - 1]) then 1 else 0)
  }

  /** Every parsed number of every accepted line, in order, NaN included. */
  function Drawn(lines: seq<string>): seq<Option<int>> {
    if |lines| == 0 then []
    else Drawn(lines[..|lines| - 1]) + LineNumbers(lines[|lines| - 1])
  }

  /** The parsed numbers of one line: none unless the line is a draw line. */
  function LineNumbers(line: string): seq<Option<int>> {
    match MatchDraw(line)
    case Some(capture) => DrawNumbers(capture)
    case None => []
  }

  /** `parseInt` never yields NaN on a draw line: every captured piece is a digit run,
      read as its decimal value. */
  lemma LineNumbersParsed(line: string)
    ensures forall i :: 0 <= i < |LineNumbers(line)| ==>
      LineNumbers(line)[i].Some? && LineNumbers(line)[i].value >= 0
  {
    if MatchDraw(line).Some? {
      CaptureIsChain(line);
      ChainNumbers(MatchDraw(line).value);
    }
  }

  /** The first four board entries once sorted stably by ascending count
      (app/page.tsx:33-35). */
  function LeastFrequent(t: seq<Entry>): seq<Entry>
    requires Board(t)
  {
    StableSort(t, false)[..ReportSize]
  }

  /** The four reported entries: ordered by count and then by number, each a board
      number with its count, and no unreported board number counted less. */
  lemma LeastFrequentFacts(t: seq<Entry>)
    requires Board(t)
    ensures var least := LeastFrequent(t);
      && |least| == ReportSize
      && Ranked(least, false)
      && (forall i :: 0 <= i < |least| ==>
            1 <= least[i].number <= BoardSize
            && least[i].frequency == t[least[i].number - 1].frequency)
      && (forall i, j :: 0 <= i < j < |least| ==> least[i].number != least[j].number)
  {
    var sorted := StableSort(t, false);
    var least := LeastFrequent(t);
    forall i | 0 <= i < |least|
      ensures 1 <= least[i].number <= BoardSize
      ensures least[i].frequency == t[least[i].number - 1].frequency
    {
      assert least[i] in multiset(t);
      var m :| 0 <= m < |t| && t[m] == least[i];
    }
  }

  /** No board number left out of the report has a smaller count than a reported one,
      and on a tie the reported number is the smaller. */
  lemma LeastFrequentMinimal(t: seq<Entry>, i: int, n: int)
    requires Board(t)
    requires 0 <= i < ReportSize && 1 <= n <= BoardSize
    requires forall k :: 0 <= k < ReportSize ==> LeastFrequent(t)[k].number != n
    ensures LeastFrequent(t)[i].frequency <= t[n - 1].frequency
    ensures Before(LeastFrequent(t)[i], t[n - 1], false)
  {
    var sorted := StableSort(t, false);
    assert t[n - 1] in multiset(sorted);
    var m :| 0 <= m < |sorted| && sorted[m] == t[n - 1];
    assert forall k :: 0 <= k < ReportSize ==> sorted[k] == LeastFrequent(t)[k];
    assert m >= ReportSize;
    assert Before(sorted[i], sorted[m], false);
  }

  /** A table of 80 zero counts is already in sorted order, so the report is the
      numbers 1 to 4. */
  lemma LeastOfUntouched(t: seq<Entry>)
    requires Board(t)
    requires forall i :: 0 <= i < |t| ==> t[i].frequency == 0
    ensures LeastFrequent(t) == [Entry(1, 0), Entry(2, 0), Entry(3, 0), Entry(4, 0)]
  {
    ZeroBoardRanked(t);
    SortRanked(t, false);
    assert t[0] == Entry(1, 0) && t[1] == Entry(2, 0) && t[2] == Entry(3, 0) && t[3] == Entry(4, 0);
    assert t[..ReportSize] == [t[0], t[1], t[2], t[3]];
  }

  lemma ZeroBoardRanked(t: seq<Entry>)
    requires Board(t)
    requires forall i :: 0 <= i < |t| ==> t[i].frequency == 0
    ensures Ranked(t, false)
  {
  }

  /** With no draw line there are no parsed numbers. */
  lemma {:induction false} NoMatchNothingDrawn(lines: seq<string>)
    requires MatchCount(lines) == 0
    ensures Drawn(lines) == []
    decreases |lines|
  {
    if |lines| > 0 {
      NoMatchNothingDrawn(lines[..|lines| - 1]);
    }
  }

  /** `table` holds, for each board number, its occurrences among the parsed numbers
      of the draw lines of `lines`. */
  predicate Counts(table: seq<Entry>, lines: seq<string>) {
    && Board(table)
    && forall k :: 0 <= k < BoardSize ==>
         table[k].frequency == multiset(Drawn(lines))[Some(k + 1)]
  }

  /** The table and draw count after reading `lines`. */
  datatype Tallies = Tallies(table: seq<Entry>, drawCount: nat)

  function Scan(lines: seq<string>): (r: Tallies)
    ensures Board(r.table)
  {
    if |lines| == 0 then Tallies(InitialTable(), 0)
    else
      var before := Scan(lines[..|lines| - 1]);
      var line := lines[|lines| - 1];
      Tallies(CountNumbers(before.table, LineNumbers(line)),
              before.drawCount + if IsDrawLine(line) then 1 else 0)
  }

  /** The scan keeps, for each board number, its occurrences among the parsed numbers
      of the draw lines read, and counts those lines. */
  lemma {:induction false} ScanCounts(lines: seq<string>)
    ensures Counts(Scan(lines).table, lines)
    ensures Scan(lines).drawCount == MatchCount(lines)
    decreases |lines|
  {
    if |lines| > 0 {
      var n := |lines| - 1;
      ScanCounts(lines[..n]);
      assert lines[..n] + [lines[n]] == lines;
      ScanCountsStep(lines[..n], lines[n]);
    }
  }

  lemma ScanCountsStep(front: seq<string>, last: string)
    requires Counts(Scan(front).table, front)
    requires Scan(front).drawCount == MatchCount(front)
    ensures Counts(Scan(front + [last]).table, front + [last])
    ensures Scan(front + [last]).drawCount == MatchCount(front + [last])
  {
    var lines := front + [last];
    assert lines[..|lines| - 1] == front;
    var nums := LineNumbers(last);
    assert Scan(lines).table == CountNumbers(Scan(front).table, nums);
    assert Drawn(lines) == Drawn(front) + nums;
    CountsStep(Scan(front).table, nums, Drawn(front), Drawn(lines));
  }

  /** Counting one more line's numbers into a table that counts `drawn` gives a
      table that counts `drawn` followed by those numbers. */
  lemma CountsStep(t: seq<Entry>, nums: seq<Option<int>>, drawn: seq<Option<int>>,
                   more: seq<Option<int>>)
    requires Board(t)
    requires forall k :: 0 <= k < BoardSize ==> t[k].frequency == multiset(drawn)[Some(k + 1)]
    requires more == drawn + nums
    ensures forall k :: 0 <= k < BoardSize ==>
      CountNumbers(t, nums)[k].frequency == multiset(more)[Some(k + 1)]
  {
  }

  /** The 80 counts add up to the number of parsed values on the board: values outside
      1 to 80, and NaN, are not counted anywhere. */
  lemma {:induction false} ScanSum(lines: seq<string>)
    ensures SumFreq(Scan(lines).table) == OnBoardCount(Drawn(lines))
    decreases |lines|
  {
    if |lines| == 0 {
      SumOfZeros(InitialTable());
    } else {
      var front := lines[..|lines| - 1];
      ScanSum(front);
      OnBoardCountAppend(Drawn(front), LineNumbers(lines[|lines| - 1]));
    }
  }

  /** A line without a match changes neither the table nor the draw count; a draw line
      adds exactly one draw, however many numbers it carries. */
  lemma ScanLine(lines: seq<string>, line: string)
    ensures !IsDrawLine(line) ==> Scan(lines + [line]) == Scan(lines)
    ensures IsDrawLine(line) ==> Scan(lines + [line]).drawCount == Scan(lines).drawCount + 1
  {
    assert (lines + [line])[..|lines|] == lines;
  }

  /** `analyzePDF(text)`: each board number's count is its number of occurrences among
      the parsed numbers of the draw lines; the report holds the four smallest counts. */
  method AnalyzePdf(text: string) returns (leastFrequent: seq<Entry>, totalDraws: nat)
    ensures var lines := Split(text, '\n');
      && totalDraws == MatchCount(lines)
      && |leastFrequent| == ReportSize
      && Ranked(leastFrequent, false)
      && (forall i :: 0 <= i < |leastFrequent| ==>
            1 <= leastFrequent[i].number <= BoardSize
            && leastFrequent[i].frequency == multiset(Drawn(lines))[Some(leastFrequent[i].number)])
      && (forall i, j :: 0 <= i < j < |leastFrequent| ==>
            leastFrequent[i].number != leastFrequent[j].number)
      && (forall n, i ::
            1 <= n <= BoardSize && Unreported(leastFrequent, n) && 0 <= i < |leastFrequent| ==>
              Before(leastFrequent[i], Entry(n, multiset(Drawn(lines))[Some(n)]), false))
      && (totalDraws == 0 ==>
            leastFrequent == [Entry(1, 0), Entry(2, 0), Entry(3, 0), Entry(4, 0)])
  {
    var lines := Split(text, '\n');
    var table;
    table, totalDraws := CountLines(lines);
    leastFrequent := LeastFrequent(table);
    ScanCounts(lines);
    Report(table, lines);
    ReportMinimal(table, lines);
  }

  /** The per-line loop (app/page.tsx:20-31): the frequency table and the draw count
      after every line. */
  method CountLines(lines: seq<string>) returns (table: seq<Entry>, drawCount: nat)
    ensures Tallies(table, drawCount) == Scan(lines)
  {
    table := InitialTable();
    drawCount := 0;
    var i := 0;
    while i < |lines|
      invariant 0 <= i <= |lines|
      invariant Tallies(table, drawCount) == Scan(lines[..i])
    {
      ScanNext(lines, i);
      table := CountNumbers(table, LineNumbers(lines[i]));
      if IsDrawLine(lines[i]) {
        drawCount := drawCount + 1;
      }
      i := i + 1;
    }
    assert lines[..|lines|] == lines;
  }

  /** Reading one more line applies that line's step to the scan so far. */
  lemma ScanNext(lines: seq<string>, i: nat)
    requires i < |lines|
    ensures var before := Scan(lines[..i]);
      Scan(lines[..i + 1])
        == Tallies(CountNumbers(before.table, LineNumbers(lines[i])),
                   before.drawCount + if IsDrawLine(lines[i]) then 1 else 0)
  {
    assert lines[..i + 1][..i] == lines[..i];
  }

  /** The report drawn from a table that counts the draw lines of `lines`. */
  lemma Report(table: seq<Entry>, lines: seq<string>)
    requires Counts(table, lines)
    ensures var least := LeastFrequent(table);
      && |least| == ReportSize
      && Ranked(least, false)
      && (forall i :: 0 <= i < |least| ==>
            1 <= least[i].number <= BoardSize
            && least[i].frequency == multiset(Drawn(lines))[Some(least[i].number)])
      && (forall i, j :: 0 <= i < j < |least| ==> least[i].number != least[j].number)
      && (MatchCount(lines) == 0 ==>
            least == [Entry(1, 0), Entry(2, 0), Entry(3, 0), Entry(4, 0)])
  {
    LeastFrequentFacts(table);
    if MatchCount(lines) == 0 {
      NoMatchNothingDrawn(lines);
      LeastOfUntouched(table);
    }
  }

  /** A board number absent from a list of entries. */
  predicate Unreported(least: seq<Entry>, n: int) {
    forall k :: 0 <= k < |least| ==> least[k].number != n
  }

  /** Every board number left out of the report sorts after every reported entry: its
      count is larger, or equal with a larger number. */
  lemma ReportMinimal(table: seq<Entry>, lines: seq<string>)
    requires Counts(table, lines)
    ensures var least := LeastFrequent(table);
      forall n, i :: 1 <= n <= BoardSize && Unreported(least, n) && 0 <= i < |least| ==>
        Before(least[i], Entry(n, multiset(Drawn(lines))[Some(n)]), false)
  {
    var least := LeastFrequent(table);
    forall n, i | 1 <= n <= BoardSize && Unreported(least, n) && 0 <= i < |least|
      ensures Before(least[i], Entry(n, multiset(Drawn(lines))[Some(n)]), false)
    {
      LeastFrequentMinimal(table, i, n);
      assert table[n - 1] == Entry(n, multiset(Drawn(lines))[Some(n)]);
    }
  }
}
