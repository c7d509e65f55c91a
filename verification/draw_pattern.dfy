/**
 The draw-line pattern of the PDF analyser (app/page.tsx:21-23): the word "Draw",
 whitespace, a chain of digit runs separated by whitespace (the capture), whitespace
 and the word "BullsEye"; then the split of the capture into numbers. The matcher
 below is a deterministic scan; `PatternAt` is the pattern read declaratively, and
 the lemmas show that the scan finds exactly the leftmost place where the pattern
 holds, with the one capture it allows there.
 */
module DrawPattern {
  import opened Text

  /** A leftmost match: where "Draw" starts and where the captured numbers lie. */
  datatype DrawMatch = DrawMatch(start: nat, numbersStart: nat, numbersEnd: nat)

  const DrawWord: string := "Draw"
  const BullsEyeWord: string := "BullsEye"

  /** Text that `\d+(?:\s+\d+)*` matches in full: digits and whitespace, with a digit
      at both ends. */
  ghost predicate IsChain(c: string) {
    && |c| > 0
    && IsDigit(c[0])
    && IsDigit(c[|c| - 1])
    && forall i :: 0 <= i < |c| ==> IsDigit(c[i]) || IsSpace(c[i])
  }

  /** The pattern matches at `p` with the capture `s[j..e]`. */
  ghost predicate PatternAt(s: string, p: nat, j: nat, e: nat) {
    && p + |DrawWord| < j < e <= |s|
    && s[p..p + |DrawWord|] == DrawWord
    && AllSpace(s[p + |DrawWord|..j])
    && IsChain(s[j..e])
    && exists b :: e < b && b + |BullsEyeWord| <= |s|
         && AllSpace(s[e..b]) && s[b..b + |BullsEyeWord|] == BullsEyeWord
  }

  ghost predicate MatchesAt(s: string, p: nat) {
    exists j, e :: PatternAt(s, p, j, e)
  }

  /** From the end `e` of a digit run, the end of the longest chain of further
      whitespace-separated digit runs: the greedy `(?:\s+\d+)*`. */
  function ChainEnd(s: string, e: nat): (r: nat)
    requires e <= |s|
    ensures e <= r <= |s|
    decreases |s| - e
  {
    var k := SkipSpaces(s, e);
    if k > e && k < |s| && IsDigit(s[k]) then ChainEnd(s, SkipDigits(s, k)) else e
  }

  /** The match attempt at `p`: the capture's bounds, or `None`. */
  function MatchAt(s: string, p: nat): (r: Option<(nat, nat)>)
    requires p <= |s|
    ensures r.Some? ==> p < r.value.0 < r.value.1 <= |s|
  {
    if p + |DrawWord| <= |s| && s[p..p + |DrawWord|] == DrawWord then
      var j := SkipSpaces(s, p + |DrawWord|);
      if j > p + |DrawWord| && j < |s| && IsDigit(s[j]) then
        var e := ChainEnd(s, SkipDigits(s, j));
        var b := SkipSpaces(s, e);
        if b > e && b + |BullsEyeWord| <= |s| && s[b..b + |BullsEyeWord|] == BullsEyeWord
        then Some((j, e))
        else None
      else None
    else None
  }

  /** The first match attempt at or after `p` that succeeds. */
  function MatchFrom(s: string, p: nat): (r: Option<DrawMatch>)
    requires p <= |s|
    ensures r.Some? ==> p <= r.value.start && r.value.numbersStart < r.value.numbersEnd <= |s|
    ensures r.Some? ==>
      && r.value.start <= |s|
      && MatchAt(s, r.value.start) == Some((r.value.numbersStart, r.value.numbersEnd))
      && forall q :: p <= q < r.value.start ==> MatchAt(s, q).None?
    ensures r.None? ==> forall q :: p <= q <= |s| ==> MatchAt(s, q).None?
    decreases |s| - p
  {
    match MatchAt(s, p)
    case Some((j, e)) => Some(DrawMatch(p, j, e))
    case None => if p < |s| then MatchFrom(s, p + 1) else None
  }

  /** The capture of the leftmost match in a line, or `None` when the line does not
      match (app/page.tsx:21-22). */
  function MatchDraw(line: string): Option<string> {
    match MatchFrom(line, 0)
    case Some(m) => Some(line[m.numbersStart..m.numbersEnd])
    case None => None
  }

  /** The capture cut at whitespace runs, each piece read with `parseInt`
      (app/page.tsx:23). */
  function DrawNumbers(capture: string): seq<Option<int>> {
    var pieces := SplitWs(capture);
    seq(|pieces|, i requires 0 <= i < |pieces| => ParseInt(pieces[i]))
  }

  lemma DigitNotSpace(c: char)
    requires IsDigit(c)
    ensures !IsSpace(c)
  {
  }

  /** What the greedy chain scan leaves behind: the text it covered is a chain
      continuation, and no further whitespace-then-digit follows it. */
  lemma {:induction false} ChainEndFacts(s: string, j: nat, e: nat)
    requires j < e <= |s|
    requires IsChain(s[j..e])
    requires e == |s| || !IsDigit(s[e])
    ensures IsChain(s[j..ChainEnd(s, e)])
    ensures var r := ChainEnd(s, e);
      !(SkipSpaces(s, r) > r && SkipSpaces(s, r) < |s| && IsDigit(s[SkipSpaces(s, r)]))
    decreases |s| - e
  {
    var k := SkipSpaces(s, e);
    if k > e && k < |s| && IsDigit(s[k]) {
      var e2 := SkipDigits(s, k);
      assert IsChain(s[j..e2]) by {
        forall i | 0 <= i < e2 - j ensures IsDigit(s[j..e2][i]) || IsSpace(s[j..e2][i]) {
          if i < e - j {
            assert s[j..e2][i] == s[j..e][i];
          }
        }
      }
      ChainEndFacts(s, j, e2);
    }
  }

  /** A chain that ends where whitespace and then a non-digit follow is exactly what
      the greedy scan covers, from the end of any of its digit runs. */
  lemma {:induction false} ChainEndReaches(s: string, j: nat, k: nat, e: nat)
    requires j < k <= e < |s|
    requires IsChain(s[j..e])
    requires IsSpace(s[e])
    requires !IsDigit(s[k]) && IsDigit(s[k - 1])
    requires SkipSpaces(s, e) == |s| || !IsDigit(s[SkipSpaces(s, e)])
    ensures ChainEnd(s, k) == e
    decreases e - k
  {
    if k < e {
      assert IsSpace(s[k]) by {
        assert s[k] == s[j..e][k - j];
      }
      var k2 := SkipSpaces(s, k);
      assert s[e - 1] == s[j..e][e - j - 1];
      DigitNotSpace(s[e - 1]);
      assert k2 < e;
      assert IsDigit(s[k2]) by {
        assert s[k2] == s[j..e][k2 - j];
      }
      var k3 := SkipDigits(s, k2);
      assert !IsDigit(s[e]);
      assert k3 <= e;
      ChainEndReaches(s, j, k3, e);
    } else {
      assert SkipSpaces(s, k) == SkipSpaces(s, e);
    }
  }

  /** Every successful match attempt is a place where the pattern holds. */
  lemma MatchAtSound(s: string, p: nat)
    requires p <= |s|
    requires MatchAt(s, p).Some?
    ensures PatternAt(s, p, MatchAt(s, p).value.0, MatchAt(s, p).value.1)
  {
    var w := p + |DrawWord|;
    var j := SkipSpaces(s, w);
    var e0 := SkipDigits(s, j);
    var e := ChainEnd(s, e0);
    var b := SkipSpaces(s, e);
    assert MatchAt(s, p) == Some((j, e));
    DigitRunIsChain(s, j, e0);
    ChainEndFacts(s, j, e0);
    SpaceRun(s, w, j);
    SpaceRun(s, e, b);
    PatternIntro(s, p, j, e, b);
  }

  lemma SpaceRun(s: string, a: nat, b: nat)
    requires a <= b <= |s|
    requires forall k :: a <= k < b ==> IsSpace(s[k])
    ensures AllSpace(s[a..b])
  {
    assert forall i :: 0 <= i < b - a ==> s[a..b][i] == s[a + i];
  }

  lemma DigitRunIsChain(s: string, j: nat, e: nat)
    requires j < e <= |s|
    requires forall k :: j <= k < e ==> IsDigit(s[k])
    ensures IsChain(s[j..e])
  {
    assert forall i :: 0 <= i < e - j ==> s[j..e][i] == s[j + i];
  }

  /** The pattern holds once each of its parts is in place. */
  lemma PatternIntro(s: string, p: nat, j: nat, e: nat, b: nat)
    requires p + |DrawWord| < j < e < b && b + |BullsEyeWord| <= |s|
    requires s[p..p + |DrawWord|] == DrawWord
    requires AllSpace(s[p + |DrawWord|..j])
    requires IsChain(s[j..e])
    requires AllSpace(s[e..b]) && s[b..b + |BullsEyeWord|] == BullsEyeWord
    ensures PatternAt(s, p, j, e)
  {
  }

  /** Wherever the pattern holds the match attempt succeeds, with that capture. */
  lemma MatchAtComplete(s: string, p: nat, j: nat, e: nat)
    requires PatternAt(s, p, j, e)
    ensures MatchAt(s, p) == Some((j, e))
  {
    var w := p + |DrawWord|;
    var b :| e < b && b + |BullsEyeWord| <= |s|
      && AllSpace(s[e..b]) && s[b..b + |BullsEyeWord|] == BullsEyeWord;
    SpacesOfRun(s, w, j);
    SpacesOfRun(s, e, b);
    ChainEnds(s, j, e);
    SkipSpacesTo(s, w, j);
    assert s[b] == s[b..b + |BullsEyeWord|][0];
    SkipSpacesTo(s, e, b);
    var k := SkipDigits(s, j);
    if k < e {
      ChainEndReaches(s, j, k, e);
    } else {
      ChainEndStops(s, e, b);
    }
    MatchAtSteps(s, p, j, e, b);
  }

  lemma SpacesOfRun(s: string, a: nat, b: nat)
    requires a <= b <= |s|
    requires AllSpace(s[a..b])
    ensures forall k :: a <= k < b ==> IsSpace(s[k])
  {
    assert forall k :: a <= k < b ==> s[k] == s[a..b][k - a];
  }

  /** A chain starts and ends with a digit, and its first digit run ends inside it. */
  lemma ChainEnds(s: string, j: nat, e: nat)
    requires j < e < |s|
    requires IsChain(s[j..e]) && IsSpace(s[e])
    ensures IsDigit(s[j]) && !IsSpace(s[j])
    ensures IsDigit(s[e - 1]) && !IsDigit(s[e])
    ensures j < SkipDigits(s, j) <= e
  {
    assert s[j] == s[j..e][0];
    assert s[e - 1] == s[j..e][e - 1 - j];
    DigitNotSpace(s[j]);
  }

  /** The match attempt at `p` succeeds once each of its scans stops where expected. */
  lemma MatchAtSteps(s: string, p: nat, j: nat, e: nat, b: nat)
    requires p + |DrawWord| <= |s| && s[p..p + |DrawWord|] == DrawWord
    requires SkipSpaces(s, p + |DrawWord|) == j && j > p + |DrawWord| && j < |s| && IsDigit(s[j])
    requires ChainEnd(s, SkipDigits(s, j)) == e
    requires SkipSpaces(s, e) == b && b > e && b + |BullsEyeWord| <= |s|
    requires s[b..b + |BullsEyeWord|] == BullsEyeWord
    ensures MatchAt(s, p) == Some((j, e))
  {
  }

  /** `SkipSpaces` from `i` stops at the first non-whitespace character `k`. */
  lemma {:induction false} SkipSpacesTo(s: string, i: nat, k: nat)
    requires i <= k < |s|
    requires forall m :: i <= m < k ==> IsSpace(s[m])
    requires !IsSpace(s[k])
    ensures SkipSpaces(s, i) == k
    decreases k - i
  {
    if i < k {
      SkipSpacesTo(s, i + 1, k);
    }
  }

  /** The chain scan does not go past whitespace followed by a non-digit. */
  lemma ChainEndStops(s: string, e: nat, b: nat)
    requires e < b < |s|
    requires SkipSpaces(s, e) == b && !IsDigit(s[b])
    ensures ChainEnd(s, e) == e
  {
  }

  /** A match attempt fails exactly where the pattern does not hold. */
  lemma MatchAtIff(s: string, p: nat)
    requires p <= |s|
    ensures MatchAt(s, p).Some? <==> MatchesAt(s, p)
  {
    if MatchAt(s, p).Some? {
      MatchAtSound(s, p);
    } else if MatchesAt(s, p) {
      var j, e :| PatternAt(s, p, j, e);
      MatchAtComplete(s, p, j, e);
    }
  }

  /** The capture at a place where the pattern holds is unique. */
  lemma PatternUnique(s: string, p: nat, j: nat, e: nat, j2: nat, e2: nat)
    requires PatternAt(s, p, j, e) && PatternAt(s, p, j2, e2)
    ensures j == j2 && e == e2
  {
    MatchAtComplete(s, p, j, e);
    MatchAtComplete(s, p, j2, e2);
  }

  /** When `line.match` finds a capture, the pattern holds there and nowhere to the
      left of it. */
  lemma MatchDrawSound(line: string)
    requires MatchDraw(line).Some?
    ensures exists p: nat, j: nat, e: nat ::
      && PatternAt(line, p, j, e)
      && line[j..e] == MatchDraw(line).value
      && forall q: nat :: q < p ==> !MatchesAt(line, q)
  {
    var m := MatchFrom(line, 0).value;
    MatchAtSound(line, m.start);
    forall q: nat | q < m.start ensures !MatchesAt(line, q) {
      MatchAtIff(line, q);
    }
    assert PatternAt(line, m.start, m.numbersStart, m.numbersEnd);
  }

  /** The leftmost place where the pattern holds gives `line.match` its capture. */
  lemma MatchDrawComplete(line: string, p: nat, j: nat, e: nat)
    requires PatternAt(line, p, j, e)
    requires forall q: nat :: q < p ==> !MatchesAt(line, q)
    ensures MatchDraw(line) == Some(line[j..e])
  {
    MatchAtComplete(line, p, j, e);
    assert MatchFrom(line, 0).Some?;
    var m := MatchFrom(line, 0).value;
    assert m.start <= p;
    MatchAtSound(line, m.start);
    assert PatternAt(line, m.start, m.numbersStart, m.numbersEnd);
    assert MatchesAt(line, m.start);
    assert m.start == p;
  }

  /** `line.match` returns null exactly when the pattern holds nowhere in the line. */
  lemma MatchDrawNone(line: string)
    ensures MatchDraw(line).None? <==> forall p: nat :: p <= |line| ==> !MatchesAt(line, p)
  {
    if MatchDraw(line).None? {
      forall p: nat | p <= |line| ensures !MatchesAt(line, p) {
        MatchAtIff(line, p);
      }
    } else {
      var m := MatchFrom(line, 0).value;
      MatchAtSound(line, m.start);
      assert PatternAt(line, m.start, m.numbersStart, m.numbersEnd);
      assert MatchesAt(line, m.start);
    }
  }

  /** Each piece of a split chain is a digit run, so `parseInt` reads every one. */
  lemma ChainNumbers(c: string)
    requires IsChain(c)
    ensures var pieces := SplitWs(c);
      && |DrawNumbers(c)| == |pieces|
      && forall i :: 0 <= i < |pieces| ==>
           IsDigits(pieces[i]) && DrawNumbers(c)[i] == Some(DigitsValue(pieces[i]))
  {
    var pieces := SplitWs(c);
    SplitWsOfDigits(c);
    SplitWsEnds(c);
    DigitNotSpace(c[0]);
    DigitNotSpace(c[|c| - 1]);
    forall i | 0 <= i < |pieces| ensures IsDigits(pieces[i]) {
      assert pieces[i] in pieces;
    }
  }

  /** The capture `line.match` returns is always a chain of digit runs. */
  lemma CaptureIsChain(line: string)
    requires MatchDraw(line).Some?
    ensures IsChain(MatchDraw(line).value)
  {
    MatchDrawSound(line);
  }

  /** Digit runs joined by single spaces read back as their values, in order. */
  lemma DrawNumbersOfRuns(ds: seq<string>)
    requires |ds| >= 1
    requires forall i :: 0 <= i < |ds| ==> IsDigits(ds[i])
    ensures |DrawNumbers(Join(ds, " "))| == |ds|
    ensures forall i :: 0 <= i < |ds| ==>
      IsDigits(ds[i]) && DrawNumbers(Join(ds, " "))[i] == Some(DigitsValue(ds[i]))
  {
    DigitRunsNoSpace(ds);
    SplitWsJoin(ds);
  }

  lemma DigitRunsNoSpace(ds: seq<string>)
    requires forall i :: 0 <= i < |ds| ==> IsDigits(ds[i])
    ensures forall i :: 0 <= i < |ds| ==> ds[i] != "" && NoSpace(ds[i])
  {
    forall i, k | 0 <= i < |ds| && 0 <= k < |ds[i]| ensures !IsSpace(ds[i][k]) {
      DigitNotSpace(ds[i][k]);
    }
  }

  /** A draw line as a results sheet prints it: the capture is the run of numbers,
      read back in order. */
  lemma SampleLine()
    ensures MatchDraw("Draw 5 12 47 BullsEye") == Some("5 12 47")
    ensures DrawNumbers("5 12 47") == [Some(5), Some(12), Some(47)]
  {
    var s := "Draw 5 12 47 BullsEye";
    assert s[5..12] == "5 12 47";
    SamplePattern();
    MatchDrawComplete(s, 0, 5, 12);
    SampleNumbers();
  }

  lemma SamplePattern()
    ensures PatternAt("Draw 5 12 47 BullsEye", 0, 5, 12)
  {
    var s := "Draw 5 12 47 BullsEye";
    assert s[0..4] == DrawWord;
    assert AllSpace(s[4..5]) by { assert s[4..5] == " "; }
    assert IsChain(s[5..12]) by { assert s[5..12] == "5 12 47"; }
    assert AllSpace(s[12..13]) by { assert s[12..13] == " "; }
    assert s[13..21] == BullsEyeWord;
  }

  lemma SampleNumbers()
    ensures DrawNumbers("5 12 47") == [Some(5), Some(12), Some(47)]
  {
    var ds := ["5", "12", "47"];
    SampleRuns();
    SampleJoin();
    DrawNumbersOfRuns(ds);
    SampleValues();
    var r := DrawNumbers(Join(ds, " "));
    assert r[0] == Some(DigitsValue(ds[0]));
    assert r[1] == Some(DigitsValue(ds[1]));
    assert r[2] == Some(DigitsValue(ds[2]));
    assert |r| == 3;
    assert r == [Some(5), Some(12), Some(47)];
  }

  lemma SampleRuns()
    ensures forall i :: 0 <= i < 3 ==> IsDigits(["5", "12", "47"][i])
  {
    assert IsDigits("5") && IsDigits("12") && IsDigits("47");
  }

  lemma SampleJoin()
    ensures Join(["5", "12", "47"], " ") == "5 12 47"
  {
    var ds := ["5", "12", "47"];
    assert ds[1..] == ["12", "47"];
    assert ds[1..][1..] == ["47"];
  }

  lemma SampleValues()
    ensures DigitsValue("5") == 5 && DigitsValue("12") == 12 && DigitsValue("47") == 47
  {
    assert "5"[..0] == "";
    assert "12"[..1] == "1";
    assert "1"[..0] == "";
    assert "47"[..1] == "4";
    assert "4"[..0] == "";
  }
}
