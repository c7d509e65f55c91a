/**
 The game-record parser of the Keno analyser: an uploaded text is cut into lines,
 blank lines are dropped, and each remaining line is split on whitespace into
 positional fields (components/KenoAnalyzer.tsx, `handleUpload` and
 `parseGameNumbers`). No field is validated; a field past the end of the line is
 JavaScript's `undefined`, modelled as `None`.
 */
module GameRecords {
  import opened Text

  /** One parsed line. `winningNumbers` is the winning run joined with single spaces. */
  datatype KenoGame = KenoGame(
    date: string,
    time: string,
    draw: Option<string>,
    winningNumbers: string,
    bullsEye: string,
    multiplier: Option<string>,
    bonus8: Option<string>)

  /** `parts[i]`: `undefined` outside the array (including at index -1). */
  function At(parts: seq<string>, i: int): Option<string> {
    if 0 <= i < |parts| then Some(parts[i]) else None
  }

  /** String concatenation's view of a field: `undefined` reads as "undefined". */
  function Show(f: Option<string>): string {
    match f
    case Some(s) => s
    case None => "undefined"
  }

  /** `parts[i]` is the first all-digit token. */
  predicate FirstDigitToken(parts: seq<string>, i: int) {
    0 <= i < |parts| && IsDigits(parts[i]) && forall k :: 0 <= k < i ==> !IsDigits(parts[k])
  }

  /** The first all-digit token, or `undefined` when there is none
      (components/KenoAnalyzer.tsx:101). */
  function FindDigitToken(parts: seq<string>): (r: Option<string>)
    ensures r.Some? ==> exists i :: FirstDigitToken(parts, i) && parts[i] == r.value
    ensures r.None? ==> forall k :: 0 <= k < |parts| ==> !IsDigits(parts[k])
  {
    if |parts| == 0 then None
    else if IsDigits(parts[0]) then
      assert FirstDigitToken(parts, 0);
      Some(parts[0])
    else
      var r := FindDigitToken(parts[1..]);
      assert r.Some? ==> exists i :: FirstDigitToken(parts, i) && parts[i] == r.value by {
        if r.Some? {
          var i :| FirstDigitToken(parts[1..], i) && parts[1..][i] == r.value;
          forall k | 0 <= k < i + 1 ensures !IsDigits(parts[k]) {
            if k > 0 { assert parts[k] == parts[1..][k - 1]; }
          }
          assert FirstDigitToken(parts, i + 1);
        }
      }
      assert r.None? ==> forall k :: 0 <= k < |parts| ==> !IsDigits(parts[k]) by {
        if r.None? {
          forall k | 0 < k < |parts| ensures !IsDigits(parts[k]) {
            assert parts[k] == parts[1..][k - 1];
          }
        }
      }
      r
  }

  /** `parts.indexOf(x)`: the first index holding `x`, or -1. */
  function IndexOf(parts: seq<string>, x: string): (i: int)
    ensures -1 <= i < |parts|
    ensures i >= 0 ==> parts[i] == x && forall k :: 0 <= k < i ==> parts[k] != x
    ensures i == -1 ==> x !in parts
  {
    if |parts| == 0 then -1
    else if parts[0] == x then 0
    else
      var i := IndexOf(parts[1..], x);
      assert i == -1 ==> x !in parts by {
        if i == -1 {
          assert parts == [parts[0]] + parts[1..];
        }
      }
      if i == -1 then -1 else i + 1
  }

  /** Where the winning run starts (components/KenoAnalyzer.tsx:101): the index of the
      first all-digit token; with no such token, the index of the first empty token,
      or -1. */
  function NumbersStart(parts: seq<string>): int {
    match FindDigitToken(parts)
    case Some(t) => IndexOf(parts, t)
    case None => IndexOf(parts, "")
  }

  /** The all-digit tokens at indices `i` up to `end`, in order
      (components/KenoAnalyzer.tsx:102-107). */
  function CollectDigits(parts: seq<string>, i: int, end: int): seq<string>
    decreases end - i
  {
    if i >= end then []
    else
      var here := match At(parts, i) case Some(t) => if IsDigits(t) then [t] else [] case None => [];
      here + CollectDigits(parts, i + 1, end)
  }

  /** The winning-number run of a line's tokens: from the start index up to, not
      including, the last three tokens. */
  function WinningRun(parts: seq<string>): seq<string> {
    CollectDigits(parts, NumbersStart(parts), |parts| - 3)
  }

  /** The all-digit tokens of `ts`, in order. */
  function DigitTokens(ts: seq<string>): (r: seq<string>)
    ensures forall k :: 0 <= k < |r| ==> IsDigits(r[k])
  {
    if |ts| == 0 then []
    else
      assert ts == [ts[0]] + ts[1..];
      (if IsDigits(ts[0]) then [ts[0]] else []) + DigitTokens(ts[1..])
  }

  lemma {:induction false} DigitTokensAppend(a: seq<string>, b: seq<string>)
    ensures DigitTokens(a + b) == DigitTokens(a) + DigitTokens(b)
    decreases |a|
  {
    if |a| > 0 {
      assert (a + b)[1..] == a[1..] + b;
      DigitTokensAppend(a[1..], b);
    } else {
      assert a + b == b;
    }
  }

  lemma {:induction false} DigitTokensNone(ts: seq<string>)
    requires forall k :: 0 <= k < |ts| ==> !IsDigits(ts[k])
    ensures DigitTokens(ts) == []
    decreases |ts|
  {
    if |ts| > 0 {
      DigitTokensNone(ts[1..]);
    }
  }

  lemma {:induction false} CollectNoDigits(parts: seq<string>, i: int, end: int)
    requires forall k :: 0 <= k < |parts| ==> !IsDigits(parts[k])
    ensures CollectDigits(parts, i, end) == []
    decreases end - i
  {
    if i < end {
      CollectNoDigits(parts, i + 1, end);
    }
  }

  lemma {:induction false} CollectIsFilter(parts: seq<string>, i: int, end: int)
    requires 0 <= i <= end <= |parts|
    ensures CollectDigits(parts, i, end) == DigitTokens(parts[i..end])
    decreases end - i
  {
    if i < end {
      CollectIsFilter(parts, i + 1, end);
      assert parts[i..end] == [parts[i]] + parts[i + 1..end];
    }
  }

  /** The source's start-index detour changes nothing: the winning run is exactly the
      all-digit tokens in front of the last three, in order; it is empty when the
      line has at most three tokens or none of them is all digits. */
  lemma WinningRunIsDigitTokens(parts: seq<string>)
    ensures WinningRun(parts) == DigitTokens(parts[..Max(|parts| - 3, 0)])
    ensures |parts| <= 3 || (forall k :: 0 <= k < |parts| ==> !IsDigits(parts[k]))
      ==> WinningRun(parts) == []
  {
    var end := Max(|parts| - 3, 0);
    match FindDigitToken(parts)
    case None =>
      CollectNoDigits(parts, NumbersStart(parts), |parts| - 3);
      DigitTokensNone(parts[..end]);
    case Some(t) =>
      var f :| FirstDigitToken(parts, f) && parts[f] == t;
      assert NumbersStart(parts) == f by {
        var i := IndexOf(parts, t);
        assert t in parts;
        assert i >= 0;
        assert IsDigits(parts[i]);
      }
      if f < end {
        CollectIsFilter(parts, f, end);
        assert parts[..end] == parts[..f] + parts[f..end];
        DigitTokensAppend(parts[..f], parts[f..end]);
        DigitTokensNone(parts[..f]);
      } else {
        DigitTokensNone(parts[..end]);
      }
  }

  /** One non-blank line as the source's `lines.map` callback builds it. */
  function ParseLine(line: string): KenoGame {
    var parts := SplitWs(line);
    var remaining := parts[Max(|parts| - 3, 0)..];
    KenoGame(
      date := parts[0],
      time := Show(At(parts, 1)) + " " + Show(At(parts, 2)),
      draw := At(parts, 3),
      winningNumbers := Join(WinningRun(parts), " "),
      bullsEye := remaining[0],
      multiplier := At(remaining, 1),
      bonus8 := At(remaining, 2))
  }

  /** A line that is empty once trimmed (components/KenoAnalyzer.tsx:88). */
  predicate IsBlank(line: string) {
    Trim(line) == ""
  }

  /** The lines that are not blank, in order (components/KenoAnalyzer.tsx:88). */
  function NonBlankLines(lines: seq<string>): (r: seq<string>)
    ensures |r| <= |lines|
  {
    if |lines| == 0 then []
    else (if IsBlank(lines[0]) then [] else [lines[0]]) + NonBlankLines(lines[1..])
  }

  /** The filter keeps exactly the lines whose trim is not empty. */
  lemma {:induction false} NonBlankLinesMembers(lines: seq<string>)
    ensures forall l :: l in NonBlankLines(lines) <==> l in lines && !IsBlank(l)
    decreases |lines|
  {
    if |lines| > 0 {
      NonBlankLinesMembers(lines[1..]);
      assert lines == [lines[0]] + lines[1..];
    }
  }

  /** The indices of the lines whose trim is not empty. */
  ghost function NonBlankIndices(lines: seq<string>): set<nat> {
    set i: nat | i < |lines| && !IsBlank(lines[i])
  }

  lemma NonBlankLinesCons(x: string, rest: seq<string>)
    ensures NonBlankLines([x] + rest) == (if IsBlank(x) then [] else [x]) + NonBlankLines(rest)
  {
    assert ([x] + rest)[1..] == rest;
  }

  lemma {:induction false} NonBlankLinesAppend(a: seq<string>, b: seq<string>)
    ensures NonBlankLines(a + b) == NonBlankLines(a) + NonBlankLines(b)
    decreases |a|
  {
    if |a| > 0 {
      NonBlankLinesAppend(a[1..], b);
      NonBlankLinesAppendStep(a[0], a[1..], b);
      assert a == [a[0]] + a[1..];
    } else {
      assert a + b == b;
    }
  }

  lemma NonBlankLinesAppendStep(x: string, t: seq<string>, b: seq<string>)
    requires NonBlankLines(t + b) == NonBlankLines(t) + NonBlankLines(b)
    ensures NonBlankLines([x] + t + b) == NonBlankLines([x] + t) + NonBlankLines(b)
  {
    AppendAssoc([x], t, b);
    NonBlankLinesCons(x, t + b);
    NonBlankLinesCons(x, t);
    AppendAssoc(if IsBlank(x) then [] else [x], NonBlankLines(t), NonBlankLines(b));
  }

  lemma AppendAssoc<T>(a: seq<T>, b: seq<T>, c: seq<T>)
    ensures a + (b + c) == a + b + c
  {
  }

  lemma NonBlankLinesSnoc(lines: seq<string>)
    requires |lines| > 0
    ensures var n := |lines| - 1;
      NonBlankLines(lines)
        == NonBlankLines(lines[..n]) + (if IsBlank(lines[n]) then [] else [lines[n]])
  {
    var n := |lines| - 1;
    assert lines == lines[..n] + [lines[n]];
    NonBlankLinesAppend(lines[..n], [lines[n]]);
    assert NonBlankLines([lines[n]]) == (if IsBlank(lines[n]) then [] else [lines[n]]) by {
      assert [lines[n]][1..] == [];
    }
  }

  lemma NonBlankIndicesSnoc(lines: seq<string>)
    requires |lines| > 0
    ensures var n := |lines| - 1;
      NonBlankIndices(lines)
        == NonBlankIndices(lines[..n]) + (if IsBlank(lines[n]) then {} else {n})
  {
    var n := |lines| - 1;
    var b := NonBlankIndices(lines[..n]) + (if IsBlank(lines[n]) then {} else {n});
    NonBlankIndicesPrefix(lines, n);
    forall i | i in NonBlankIndices(lines) ensures i in b {
      if i < n {
        assert i in NonBlankIndices(lines[..n]);
      }
    }
    forall i | i in b ensures i in NonBlankIndices(lines) {
    }
  }

  /** Below `n`, the non-blank indices of a prefix are those of the whole. */
  lemma NonBlankIndicesPrefix(lines: seq<string>, n: nat)
    requires n <= |lines|
    ensures forall i :: i in NonBlankIndices(lines[..n]) <==> i in NonBlankIndices(lines) && i < n
  {
    forall i: nat | i < n ensures lines[..n][i] == lines[i] { }
  }

  /** Adding indices past every index of `s` adds their number to its size. */
  lemma CardinalityAppend(s: set<nat>, extra: set<nat>, n: nat)
    requires forall i :: i in s ==> i < n
    requires extra == {} || extra == {n}
    ensures |s + extra| == |s| + |extra|
  {
    if extra == {n} {
      assert n !in s;
    } else {
      assert s + extra == s;
    }
  }

  /** One line survives the filter for each index whose line has a non-empty trim. */
  lemma {:induction false} NonBlankLinesCount(lines: seq<string>)
    ensures |NonBlankLines(lines)| == |NonBlankIndices(lines)|
    decreases |lines|
  {
    if |lines| > 0 {
      NonBlankLinesCount(lines[..|lines| - 1]);
      NonBlankLinesGrow(lines);
      NonBlankIndicesGrow(lines);
    }
  }

  lemma NonBlankLinesGrow(lines: seq<string>)
    requires |lines| > 0
    ensures |NonBlankLines(lines)|
      == |NonBlankLines(lines[..|lines| - 1])| + if IsBlank(lines[|lines| - 1]) then 0 else 1
  {
    NonBlankLinesSnoc(lines);
  }

  lemma NonBlankIndicesGrow(lines: seq<string>)
    requires |lines| > 0
    ensures |NonBlankIndices(lines)|
      == |NonBlankIndices(lines[..|lines| - 1])| + if IsBlank(lines[|lines| - 1]) then 0 else 1
  {
    var n := |lines| - 1;
    var before := NonBlankIndices(lines[..n]);
    var extra: set<nat> := if IsBlank(lines[n]) then {} else {n};
    NonBlankIndicesSnoc(lines);
    assert forall i :: i in before ==> i < n;
    CardinalityAppend(before, extra, n);
  }

  /** The records of an uploaded text: one per non-blank `'\n'`-separated line. */
  function ParseRecords(text: string): seq<KenoGame> {
    var lines := NonBlankLines(Split(text, '\n'));
    seq(|lines|, i requires 0 <= i < |lines| => ParseLine(lines[i]))
  }

  /** The numbers of a Winning Numbers field (components/KenoAnalyzer.tsx:30-34): the
      field is cut at every single space, each trimmed piece is read with `parseInt`,
      and the pieces that read as NaN are dropped. */
  function ParseGameNumbers(numbersStr: string): seq<int> {
    ParseNumbers(Split(numbersStr, ' '))
  }

  function ParseNumbers(pieces: seq<string>): seq<int> {
    if |pieces| == 0 then []
    else
      var head := match ParseInt(Trim(pieces[0])) case Some(v) => [v] case None => [];
      head + ParseNumbers(pieces[1..])
  }

  /** The values of a sequence of digit tokens. */
  function Values(ds: seq<string>): (vs: seq<nat>)
    requires forall k :: 0 <= k < |ds| ==> IsDigits(ds[k])
    ensures |vs| == |ds|
  {
    if |ds| == 0 then []
    else
      assert forall k :: 0 <= k < |ds| - 1 ==> ds[1..][k] == ds[k + 1];
      assert IsDigits(ds[0]);
      [DigitsValue(ds[0])] + Values(ds[1..])
  }

  lemma {:induction false} ParseDigitPieces(ds: seq<string>)
    requires forall k :: 0 <= k < |ds| ==> IsDigits(ds[k])
    ensures ParseNumbers(ds) == Values(ds)
    decreases |ds|
  {
    if |ds| > 0 {
      assert NoSpace(ds[0]);
      ParseDigitPieces(ds[1..]);
    }
  }

  /** Round trip: re-parsing the space-joined winning run gives the run's values back,
      in order and one for one. */
  lemma ParseJoinedDigits(ds: seq<string>)
    requires forall k :: 0 <= k < |ds| ==> IsDigits(ds[k])
    ensures ParseGameNumbers(Join(ds, " ")) == Values(ds)
  {
    if |ds| == 0 {
      assert Split("", ' ') == [""];
    } else {
      forall k | 0 <= k < |ds| ensures ' ' !in ds[k] {
        assert forall m :: 0 <= m < |ds[k]| ==> ds[k][m] != ' ' by {
          forall m | 0 <= m < |ds[k]| ensures ds[k][m] != ' ' {
            assert IsDigit(ds[k][m]);
          }
        }
      }
      SplitJoin(ds, ' ');
      ParseDigitPieces(ds);
    }
  }

  /** Every upload record comes from one non-blank line, in order, and there is one
      record per line whose trim is non-empty; an all-whitespace line yields none. */
  lemma RecordsFromNonBlankLines(text: string)
    ensures |ParseRecords(text)| == |NonBlankIndices(Split(text, '\n'))|
    ensures forall i :: 0 <= i < |ParseRecords(text)| ==>
      ParseRecords(text)[i] == ParseLine(NonBlankLines(Split(text, '\n'))[i])
    ensures forall l :: l in Split(text, '\n') && AllSpace(l) ==>
      l !in NonBlankLines(Split(text, '\n'))
  {
    NonBlankLinesCount(Split(text, '\n'));
    NonBlankLinesMembers(Split(text, '\n'));
  }

  /** A line of at least four whitespace-free tokens separated by single spaces parses
      into its fields by position: date, time (tokens 1 and 2 with a space between),
      draw id, the all-digit tokens in front of the last three as the winning numbers,
      and BullsEye, Multiplier and Bonus8 as the last three tokens. */
  lemma ParseLineOfTokens(ts: seq<string>)
    requires |ts| >= 4
    requires forall i :: 0 <= i < |ts| ==> ts[i] != "" && NoSpace(ts[i])
    ensures ParseLine(Join(ts, " "))
      == KenoGame(ts[0], ts[1] + " " + ts[2], Some(ts[3]),
                  Join(DigitTokens(ts[..|ts| - 3]), " "),
                  ts[|ts| - 3], Some(ts[|ts| - 2]), Some(ts[|ts| - 1]))
  {
    SplitWsJoin(ts);
    WinningRunIsDigitTokens(ts);
    LastThree(ts);
  }

  /** Where the last (up to) three tokens sit in the token list. */
  lemma LastThree(parts: seq<string>)
    requires |parts| >= 1
    ensures var remaining := parts[Max(|parts| - 3, 0)..];
      && (|parts| >= 3 ==>
            remaining[0] == parts[|parts| - 3]
            && At(remaining, 1) == Some(parts[|parts| - 2])
            && At(remaining, 2) == Some(parts[|parts| - 1]))
      && (|parts| < 3 ==>
            remaining[0] == parts[0] && At(remaining, 1) == At(parts, 1) && At(remaining, 2) == None)
  {
  }

  /** The Multiplier field is `undefined` exactly when the line holds no whitespace at
      all, so that it splits into a single token. */
  lemma MissingMultiplier(line: string)
    ensures ParseLine(line).multiplier.None? <==> NoSpace(line)
  {
  }

  /** The numbers `analyzeGames` reads back from a record are the values of the
      line's all-digit tokens in front of its last three, in order: never negative and
      never more than the line has digit tokens. */
  lemma RecordNumbers(line: string)
    ensures var parts := SplitWs(line);
      ParseGameNumbers(ParseLine(line).winningNumbers)
        == Values(DigitTokens(parts[..Max(|parts| - 3, 0)]))
  {
    WinningNumbersField(line);
    WinningRunNumbers(SplitWs(line));
  }

  lemma WinningRunNumbers(parts: seq<string>)
    ensures ParseGameNumbers(Join(WinningRun(parts), " "))
      == Values(DigitTokens(parts[..Max(|parts| - 3, 0)]))
  {
    WinningRunIsDigitTokens(parts);
    ParseJoinedDigits(WinningRun(parts));
  }

  lemma WinningNumbersField(line: string)
    ensures ParseLine(line).winningNumbers == Join(WinningRun(SplitWs(line)), " ")
  {
  }
}
