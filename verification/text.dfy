/**
 The JavaScript string operations both analysers are built from: the `\s` and `\d`
 character classes, `split` on one character, `split(/\s+/)`, `trim`, `join` and
 `parseInt`. Strings are sequences of characters; JavaScript's `undefined` is `None`.
 */
module Text {

  datatype Option<T> = None | Some(value: T)

  function Min(a: int, b: int): int { if a <= b then a else b }

  function Max(a: int, b: int): int { if a <= b then b else a }

  /** Membership in JavaScript's `\s` class: the WhiteSpace and LineTerminator code
      points. `String.prototype.trim` and `parseInt` skip exactly the same set. */
  predicate IsSpace(c: char) {
    || c == '\t' || c == '\n' || c == '\U{000B}' || c == '\U{000C}' || c == '\r'
    || c == ' ' || c == '\U{00A0}' || c == '\U{1680}'
    || ('\U{2000}' <= c <= '\U{200A}')
    || c == '\U{2028}' || c == '\U{2029}' || c == '\U{202F}' || c == '\U{205F}'
    || c == '\U{3000}' || c == '\U{FEFF}'
  }

  /** Membership in `\d`: the ASCII decimal digits only. */
  predicate IsDigit(c: char) {
    '0' <= c <= '9'
  }

  /** A non-empty run of decimal digits and nothing else. */
  predicate IsDigits(s: string) {
    |s| > 0 && forall i :: 0 <= i < |s| ==> IsDigit(s[i])
  }

  predicate NoSpace(s: string) {
    forall i :: 0 <= i < |s| ==> !IsSpace(s[i])
  }

  predicate AllSpace(s: string) {
    forall i :: 0 <= i < |s| ==> IsSpace(s[i])
  }

  /** Index of the first character at or after `i` that is not whitespace, or `|s|`. */
  function SkipSpaces(s: string, i: nat): (j: nat)
    requires i <= |s|
    ensures i <= j <= |s|
    ensures forall k :: i <= k < j ==> IsSpace(s[k])
    ensures j == |s| || !IsSpace(s[j])
    decreases |s| - i
  {
    if i < |s| && IsSpace(s[i]) then SkipSpaces(s, i + 1) else i
  }

  /** Index of the first character at or after `i` that is not a digit, or `|s|`. */
  function SkipDigits(s: string, i: nat): (j: nat)
    requires i <= |s|
    ensures i <= j <= |s|
    ensures forall k :: i <= k < j ==> IsDigit(s[k])
    ensures j == |s| || !IsDigit(s[j])
    decreases |s| - i
  {
    if i < |s| && IsDigit(s[i]) then SkipDigits(s, i + 1) else i
  }

  /** Index just past the last non-whitespace character of `s[..j]`, or 0. */
  function TrimEndIndex(s: string, j: nat): (k: nat)
    requires j <= |s|
    ensures k <= j
    ensures forall m :: k <= m < j ==> IsSpace(s[m])
    ensures k == 0 || !IsSpace(s[k - 1])
  {
    if j > 0 && IsSpace(s[j - 1]) then TrimEndIndex(s, j - 1) else j
  }

  /** `s.trim()`: `s` without its leading and trailing whitespace. */
  function Trim(s: string): (r: string)
    ensures (r == "") == AllSpace(s)
    ensures r == "" || (!IsSpace(r[0]) && !IsSpace(r[|r| - 1]))
    ensures NoSpace(s) ==> r == s
  {
    var i := SkipSpaces(s, 0);
    var j := TrimEndIndex(s, |s|);
    if i < j then s[i..j] else ""
  }

  /** The trimmed text is what remains of `s` once a whitespace prefix and a
      whitespace suffix are cut off; with the ends `Trim` guarantees, those cuts are
      the longest possible. */
  lemma TrimStrips(s: string)
    ensures exists a, b :: s == a + Trim(s) + b && AllSpace(a) && AllSpace(b)
  {
    var i := SkipSpaces(s, 0);
    var j := TrimEndIndex(s, |s|);
    if i < j {
      SpaceAround(s, i, j);
    } else {
      SpaceAround(s, j, j);
      assert s[j..j] == "";
    }
  }

  /** A text whose characters before `i` and from `j` on are whitespace is its slice
      `i..j` with whitespace on either side. */
  lemma SpaceAround(s: string, i: nat, j: nat)
    requires i <= j <= |s|
    requires forall k :: 0 <= k < i ==> IsSpace(s[k])
    requires forall k :: j <= k < |s| ==> IsSpace(s[k])
    ensures exists a, b :: s == a + s[i..j] + b && AllSpace(a) && AllSpace(b)
  {
    assert s == s[..i] + s[i..j] + s[j..];
    assert AllSpace(s[..i]);
    assert AllSpace(s[j..]);
  }

  /** The pieces with `sep` between each neighbouring pair. */
  function Join(parts: seq<string>, sep: string): string {
    if |parts| == 0 then ""
    else if |parts| == 1 then parts[0]
    else parts[0] + sep + Join(parts[1..], sep)
  }

  /** `s.split(sep)` for a one-character separator: the pieces between separators,
      always at least one; joining them back with `sep` gives `s`. */
  function Split(s: string, sep: char): (parts: seq<string>)
    ensures |parts| >= 1
    ensures forall i :: 0 <= i < |parts| ==> sep !in parts[i]
    ensures Join(parts, [sep]) == s
  {
    if |s| == 0 then [""]
    else
      var rest := Split(s[1..], sep);
      assert s == [s[0]] + s[1..];
      if s[0] == sep then
        JoinAfterEmpty(rest, [sep]);
        [""] + rest
      else
        var r := [[s[0]] + rest[0]] + rest[1..];
        JoinExtendFirst(s[0], rest, [sep]);
        assert forall i :: 1 <= i < |r| ==> r[i] == rest[i];
        r
  }

  lemma JoinAfterEmpty(rest: seq<string>, sep: string)
    requires |rest| >= 1
    ensures Join([""] + rest, sep) == sep + Join(rest, sep)
  {
    assert ([""] + rest)[1..] == rest;
  }

  lemma JoinExtendFirst(c: char, rest: seq<string>, sep: string)
    requires |rest| >= 1
    ensures Join([[c] + rest[0]] + rest[1..], sep) == [c] + Join(rest, sep)
  {
    var r := [[c] + rest[0]] + rest[1..];
    assert r[1..] == rest[1..];
  }

  lemma {:induction false} SplitNoSeparator(p: string, sep: char)
    requires sep !in p
    ensures Split(p, sep) == [p]
    decreases |p|
  {
    if |p| > 0 {
      assert sep !in p[1..];
      SplitNoSeparator(p[1..], sep);
      assert [p[0]] + p[1..] == p;
    }
  }

  lemma {:induction false} SplitAfterPiece(p: string, sep: char, t: string)
    requires sep !in p
    ensures Split(p + [sep] + t, sep) == [p] + Split(t, sep)
    decreases |p|
  {
    var s := p + [sep] + t;
    if |p| == 0 {
      assert s[1..] == t;
    } else {
      assert s[1..] == p[1..] + [sep] + t;
      assert sep !in p[1..];
      SplitAfterPiece(p[1..], sep, t);
      assert [p[0]] + p[1..] == p;
    }
  }

  /** Splitting a join on a separator that no piece contains gives the pieces back. */
  lemma {:induction false} SplitJoin(parts: seq<string>, sep: char)
    requires |parts| >= 1
    requires forall i :: 0 <= i < |parts| ==> sep !in parts[i]
    ensures Split(Join(parts, [sep]), sep) == parts
    decreases |parts|
  {
    if |parts| == 1 {
      SplitNoSeparator(parts[0], sep);
    } else {
      SplitJoin(parts[1..], sep);
      SplitAfterPiece(parts[0], sep, Join(parts[1..], [sep]));
      assert parts == [parts[0]] + parts[1..];
    }
  }

  /** `s.split(/\s+/)`: the pieces between maximal runs of whitespace. Pieces hold no
      whitespace, only the first and last may be empty (see `SplitWsEnds`), and there
      is a single piece exactly when `s` has no whitespace. */
  function SplitWs(s: string): (parts: seq<string>)
    ensures |parts| >= 1
    ensures forall i :: 0 <= i < |parts| ==> NoSpace(parts[i])
    ensures forall i :: 0 < i < |parts| - 1 ==> parts[i] != ""
    ensures (|parts| == 1) == NoSpace(s)
  {
    if |s| == 0 then [""]
    else
      var rest := SplitWs(s[1..]);
      if !IsSpace(s[0]) then
        var r := [[s[0]] + rest[0]] + rest[1..];
        assert forall i :: 0 < i < |r| ==> r[i] == rest[i];
        r
      else if |s| > 1 && IsSpace(s[1]) then
        rest
      else
        [""] + rest
  }

  /** The first piece is empty exactly when `s` is empty or starts with whitespace,
      and the last exactly when `s` is empty or ends with whitespace. */
  lemma {:induction false} SplitWsEnds(s: string)
    ensures var parts := SplitWs(s);
      && (parts[0] == "") == (|s| == 0 || IsSpace(s[0]))
      && (parts[|parts| - 1] == "") == (|s| == 0 || IsSpace(s[|s| - 1]))
    decreases |s|
  {
    if |s| > 0 {
      SplitWsEnds(s[1..]);
      if |s| > 1 {
        assert s[1..][|s| - 2] == s[|s| - 1];
      }
    }
  }

  /** The pieces with `seps[i]` between piece `i` and piece `i + 1`. */
  function Interleave(parts: seq<string>, seps: seq<string>): string
    requires |parts| == |seps| + 1
  {
    if |seps| == 0 then parts[0]
    else parts[0] + seps[0] + Interleave(parts[1..], seps[1..])
  }

  /** Every separator is a non-empty run of whitespace. */
  predicate Separators(seps: seq<string>) {
    forall i :: 0 <= i < |seps| ==> seps[i] != "" && AllSpace(seps[i])
  }

  /** The pieces of `split(/\s+/)` put back between the whitespace runs they were cut
      at give the text again: the pieces are the text's maximal non-whitespace runs. */
  lemma {:induction false} SplitWsJoinBack(s: string)
    ensures exists seps ::
      |seps| == |SplitWs(s)| - 1 && Separators(seps) && Interleave(SplitWs(s), seps) == s
    decreases |s|
  {
    if |s| == 0 {
      assert Interleave(SplitWs(s), []) == s;
    } else {
      SplitWsJoinBack(s[1..]);
      var rest := SplitWs(s[1..]);
      var seps :| |seps| == |rest| - 1 && Separators(seps) && Interleave(rest, seps) == s[1..];
      JoinBackStep(s, seps);
    }
  }

  /** One character in front: the separators of `s[1..]` extend to those of `s`. */
  lemma JoinBackStep(s: string, seps: seq<string>)
    requires |s| > 0
    requires |seps| == |SplitWs(s[1..])| - 1 && Separators(seps)
    requires Interleave(SplitWs(s[1..]), seps) == s[1..]
    ensures exists seps' ::
      |seps'| == |SplitWs(s)| - 1 && Separators(seps') && Interleave(SplitWs(s), seps') == s
  {
    if !IsSpace(s[0]) {
      JoinBackNonSpace(s, seps);
    } else if |s| > 1 && IsSpace(s[1]) {
      var seps' := JoinBackSpaceRun(s, seps);
    } else {
      var seps' := JoinBackLastSpace(s, seps);
    }
  }

  lemma JoinBackNonSpace(s: string, seps: seq<string>)
    requires |s| > 0 && !IsSpace(s[0])
    requires |seps| == |SplitWs(s[1..])| - 1
    requires Interleave(SplitWs(s[1..]), seps) == s[1..]
    ensures |seps| == |SplitWs(s)| - 1 && Interleave(SplitWs(s), seps) == s
  {
    var rest := SplitWs(s[1..]);
    assert SplitWs(s) == [[s[0]] + rest[0]] + rest[1..];
    InterleaveExtendFirst(s[0], rest, seps);
    assert s == [s[0]] + s[1..];
  }

  lemma JoinBackSpaceRun(s: string, seps: seq<string>) returns (seps': seq<string>)
    requires |s| > 1 && IsSpace(s[0]) && IsSpace(s[1])
    requires |seps| == |SplitWs(s[1..])| - 1 && Separators(seps)
    requires Interleave(SplitWs(s[1..]), seps) == s[1..]
    ensures |seps'| == |SplitWs(s)| - 1 && Separators(seps') && Interleave(SplitWs(s), seps') == s
  {
    var rest := SplitWs(s[1..]);
    assert SplitWs(s) == rest;
    SplitWsEnds(s[1..]);
    assert !NoSpace(s[1..]) by { assert IsSpace(s[1..][0]); }
    InterleaveExtendSep(s[0], rest, seps);
    seps' := [[s[0]] + seps[0]] + seps[1..];
    assert s == [s[0]] + s[1..];
  }

  lemma JoinBackLastSpace(s: string, seps: seq<string>) returns (seps': seq<string>)
    requires |s| > 0 && IsSpace(s[0]) && (|s| == 1 || !IsSpace(s[1]))
    requires |seps| == |SplitWs(s[1..])| - 1 && Separators(seps)
    requires Interleave(SplitWs(s[1..]), seps) == s[1..]
    ensures |seps'| == |SplitWs(s)| - 1 && Separators(seps') && Interleave(SplitWs(s), seps') == s
  {
    var rest := SplitWs(s[1..]);
    assert SplitWs(s) == [""] + rest;
    InterleaveSepFront(s[0], rest, seps);
    seps' := [[s[0]]] + seps;
    assert s == [s[0]] + s[1..];
  }

  lemma InterleaveExtendFirst(c: char, rest: seq<string>, seps: seq<string>)
    requires |rest| == |seps| + 1
    ensures Interleave([[c] + rest[0]] + rest[1..], seps) == [c] + Interleave(rest, seps)
  {
    var r := [[c] + rest[0]] + rest[1..];
    assert r[1..] == rest[1..];
  }

  lemma InterleaveExtendSep(c: char, rest: seq<string>, seps: seq<string>)
    requires |rest| == |seps| + 1 && |seps| >= 1 && rest[0] == ""
    requires IsSpace(c) && Separators(seps)
    ensures var seps' := [[c] + seps[0]] + seps[1..];
      && Separators(seps')
      && Interleave(rest, seps') == [c] + Interleave(rest, seps)
  {
    var seps' := [[c] + seps[0]] + seps[1..];
    assert seps'[1..] == seps[1..];
    forall i | 0 <= i < |seps'| ensures seps'[i] != "" && AllSpace(seps'[i]) {
      if i > 0 {
        assert seps'[i] == seps[i];
      }
    }
  }

  lemma InterleaveSepFront(c: char, rest: seq<string>, seps: seq<string>)
    requires |rest| == |seps| + 1
    requires IsSpace(c) && Separators(seps)
    ensures var seps' := [[c]] + seps;
      && Separators(seps')
      && Interleave([""] + rest, seps') == [c] + Interleave(rest, seps)
  {
    var seps' := [[c]] + seps;
    assert seps'[1..] == seps;
    assert ([""] + rest)[1..] == rest;
    forall i | 0 <= i < |seps'| ensures seps'[i] != "" && AllSpace(seps'[i]) {
      if i > 0 {
        assert seps'[i] == seps[i - 1];
      }
    }
  }

  /** A run without whitespace splits into itself. */
  lemma {:induction false} SplitWsNoSpace(p: string)
    requires p != "" && NoSpace(p)
    ensures SplitWs(p) == [p]
    decreases |p|
  {
    assert !IsSpace(p[0]);
    if |p| == 1 {
      assert p[1..] == "";
      assert [p[0]] + "" == p;
    } else {
      assert NoSpace(p[1..]);
      SplitWsNoSpace(p[1..]);
      assert [p[0]] + p[1..] == p;
    }
  }

  /** A non-empty run, one space, then text starting with a non-space character: the
      run is the first piece. */
  lemma {:induction false} SplitWsAfterRun(p: string, t: string)
    requires p != "" && NoSpace(p)
    requires t != "" && !IsSpace(t[0])
    ensures SplitWs(p + " " + t) == [p] + SplitWs(t)
    decreases |p|
  {
    var s := p + " " + t;
    assert s[0] == p[0] && !IsSpace(p[0]);
    if |p| == 1 {
      assert s[1..] == " " + t;
      SplitWsSpaceThen(t);
      assert [p[0]] + "" == p;
    } else {
      assert s[1..] == p[1..] + " " + t;
      assert NoSpace(p[1..]);
      SplitWsAfterRun(p[1..], t);
      assert [p[0]] + p[1..] == p;
    }
  }

  /** Joining non-empty whitespace-free runs with single spaces and splitting on
      whitespace gives the runs back. */
  lemma {:induction false} SplitWsJoin(ds: seq<string>)
    requires |ds| >= 1
    requires forall i :: 0 <= i < |ds| ==> ds[i] != "" && NoSpace(ds[i])
    ensures SplitWs(Join(ds, " ")) == ds
    decreases |ds|
  {
    if |ds| == 1 {
      SplitWsNoSpace(ds[0]);
    } else {
      var rest := ds[1..];
      SplitWsJoin(rest);
      JoinStartsWith(rest, " ");
      SplitWsAfterRun(ds[0], Join(rest, " "));
      assert ds == [ds[0]] + rest;
    }
  }

  lemma SplitWsSpaceThen(t: string)
    requires t != "" && !IsSpace(t[0])
    ensures SplitWs(" " + t) == [""] + SplitWs(t)
  {
    assert (" " + t)[1..] == t;
  }

  lemma JoinStartsWith(ds: seq<string>, sep: string)
    requires |ds| >= 1 && ds[0] != ""
    ensures Join(ds, sep) != "" && Join(ds, sep)[0] == ds[0][0]
  {
  }

  /** Every piece of a split of digits and whitespace is a (possibly empty) digit run. */
  lemma {:induction false} SplitWsOfDigits(s: string)
    requires forall i :: 0 <= i < |s| ==> IsDigit(s[i]) || IsSpace(s[i])
    ensures forall p :: p in SplitWs(s) ==> forall k :: 0 <= k < |p| ==> IsDigit(p[k])
    decreases |s|
  {
    if |s| > 0 {
      SplitWsOfDigits(s[1..]);
      var rest := SplitWs(s[1..]);
      if !IsSpace(s[0]) {
        var r := [[s[0]] + rest[0]] + rest[1..];
        forall p | p in r
          ensures forall k :: 0 <= k < |p| ==> IsDigit(p[k])
        {
          if p != r[0] {
            assert p in rest[1..];
          }
        }
      }
    }
  }

  /** The value of a run of decimal digits. */
  function DigitsValue(s: string): nat
    requires forall i :: 0 <= i < |s| ==> IsDigit(s[i])
  {
    if |s| == 0 then 0
    else
      var last := s[|s| - 1];
      assert IsDigit(last);
      10 * DigitsValue(s[..|s| - 1]) + (last as int - '0' as int)
  }

  /** `parseInt(s)` in base ten: leading whitespace, an optional sign, then the longest
      run of decimal digits; NaN (`None`) when that run is empty. */
  function ParseInt(s: string): (r: Option<int>)
    ensures IsDigits(s) ==> r == Some(DigitsValue(s))
    ensures |s| == 0 ==> r == None
    ensures r.Some? ==> exists k :: 0 <= k < |s| && IsDigit(s[k])
  {
    var i := SkipSpaces(s, 0);
    var negative := i < |s| && s[i] == '-';
    var k := if i < |s| && (s[i] == '-' || s[i] == '+') then i + 1 else i;
    var e := SkipDigits(s, k);
    if e == k then None
    else
      assert IsDigit(s[k]);
      var v: int := DigitsValue(s[k..e]);
      assert IsDigits(s) ==> i == 0 && k == 0 && e == |s| && s[k..e] == s;
      Some(if negative then -v else v)
  }
}
