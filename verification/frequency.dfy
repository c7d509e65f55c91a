/**
 A JavaScript frequency object `{ [key: number]: number }` seen through
 `Object.entries`: a list of `[number, count]` entries in ascending key order.
 The game-record analyser counts into such an object with `t[n] = (t[n] || 0) + 1`,
 which may add a key (components/KenoAnalyzer.tsx:56); the PDF analyser only ever
 increments a key of a table seeded with 1 to 80 (app/page.tsx:26, `PdfAnalysis.BumpAt`).
 */
module Frequency {

  /** One `[number, count]` entry of a frequency object. */
  datatype Entry = Entry(number: int, frequency: nat)

  /** Keys strictly ascending: the order in which `Object.entries` lists integer keys. */
  predicate Ascending(t: seq<Entry>) {
    forall i, j :: 0 <= i < j < |t| ==> t[i].number < t[j].number
  }

  /** The keys of the object, in entry order. */
  function Numbers(t: seq<Entry>): seq<int> {
    if |t| == 0 then [] else [t[0].number] + Numbers(t[1..])
  }

  predicate HasKey(t: seq<Entry>, n: int) {
    n in Numbers(t)
  }

  /** `t[n] || 0`: the count stored under `n`, zero when there is no entry. */
  function Lookup(t: seq<Entry>, n: int): nat {
    if |t| == 0 then 0
    else if t[0].number == n then t[0].frequency
    else Lookup(t[1..], n)
  }

  /** The sum of all counts in the object. */
  function SumFreq(t: seq<Entry>): nat {
    if |t| == 0 then 0 else t[0].frequency + SumFreq(t[1..])
  }

  lemma {:induction false} NumbersIndex(t: seq<Entry>)
    ensures |Numbers(t)| == |t|
    ensures forall i :: 0 <= i < |t| ==> Numbers(t)[i] == t[i].number
    decreases |t|
  {
    if |t| > 0 {
      NumbersIndex(t[1..]);
    }
  }

  /** In an object with ascending keys each entry is what a lookup of its key finds. */
  lemma {:induction false} LookupAt(t: seq<Entry>, i: int)
    requires Ascending(t)
    requires 0 <= i < |t|
    ensures Lookup(t, t[i].number) == t[i].frequency
    decreases i
  {
    if i > 0 {
      assert t[0].number < t[i].number;
      assert t[1..][i - 1] == t[i];
      LookupAt(t[1..], i - 1);
    }
  }

  /** A key without an entry reads as zero. */
  lemma {:induction false} LookupMissing(t: seq<Entry>, n: int)
    requires !HasKey(t, n)
    ensures Lookup(t, n) == 0
    decreases |t|
  {
    if |t| > 0 {
      LookupMissing(t[1..], n);
    }
  }

  /** The first key of an ascending object is at most every key, and below every
      later key. */
  lemma AscendingBounds(t: seq<Entry>)
    requires Ascending(t) && |t| > 0
    ensures forall k :: k in Numbers(t) ==> t[0].number <= k
    ensures forall k :: k in Numbers(t[1..]) ==> t[0].number < k
  {
    NumbersIndex(t);
    NumbersIndex(t[1..]);
    forall k | k in Numbers(t[1..]) ensures t[0].number < k {
      var m :| 0 <= m < |t[1..]| && Numbers(t[1..])[m] == k;
      assert t[1..][m] == t[m + 1];
    }
  }

  /** An entry below every key of an ascending object can go in front of it. */
  lemma ConsAscending(e: Entry, t: seq<Entry>)
    requires Ascending(t)
    requires forall k :: k in Numbers(t) ==> e.number < k
    ensures Ascending([e] + t)
    ensures Numbers([e] + t) == [e.number] + Numbers(t)
  {
    var r := [e] + t;
    assert r[1..] == t;
    NumbersIndex(t);
    forall j | 0 < j < |r| ensures r[0].number < r[j].number {
      assert r[j] == t[j - 1];
      assert Numbers(t)[j - 1] in Numbers(t);
    }
  }

  /** `t[n] = (t[n] || 0) + 1`: a new entry for `n`, in key order, when it had none;
      the key set gains `n` and nothing else. */
  function Bump(t: seq<Entry>, n: int): (r: seq<Entry>)
    requires Ascending(t)
    ensures Ascending(r)
    ensures forall k :: k in Numbers(r) <==> k in Numbers(t) || k == n
    decreases |t|
  {
    if |t| == 0 then [Entry(n, 1)]
    else if t[0].number == n then
      AscendingBounds(t);
      ConsAscending(Entry(n, t[0].frequency + 1), t[1..]);
      [Entry(n, t[0].frequency + 1)] + t[1..]
    else if n < t[0].number then
      AscendingBounds(t);
      ConsAscending(Entry(n, 1), t);
      [Entry(n, 1)] + t
    else
      var b := Bump(t[1..], n);
      AscendingBounds(t);
      ConsAscending(t[0], b);
      [t[0]] + b
  }

  /** Bumping adds one to the count of `n` and leaves every other count alone. */
  lemma {:induction false} BumpLookup(t: seq<Entry>, n: int, k: int)
    requires Ascending(t)
    ensures Lookup(Bump(t, n), k) == Lookup(t, k) + (if k == n then 1 else 0)
    decreases |t|
  {
    if |t| > 0 && t[0].number != n && t[0].number < n {
      if t[0].number != k {
        BumpLookup(t[1..], n, k);
      }
    } else if |t| > 0 && t[0].number != n {
      var r := [Entry(n, 1)] + t;
      assert r[1..] == t;
      if k == n {
        assert !HasKey(t, n) by {
          NumbersIndex(t);
          forall m | 0 <= m < |t| ensures Numbers(t)[m] != n {
            assert t[0].number <= t[m].number;
          }
        }
        LookupMissing(t, n);
      }
    } else if |t| > 0 {
      var r := [Entry(n, t[0].frequency + 1)] + t[1..];
      assert r[1..] == t[1..];
    }
  }

  /** Bumping raises the total of all counts by one. */
  lemma {:induction false} BumpSum(t: seq<Entry>, n: int)
    requires Ascending(t)
    ensures SumFreq(Bump(t, n)) == SumFreq(t) + 1
    decreases |t|
  {
    if |t| > 0 && t[0].number != n && t[0].number < n {
      BumpSum(t[1..], n);
    } else if |t| > 0 && t[0].number != n {
      var r := [Entry(n, 1)] + t;
      assert r[1..] == t;
    } else if |t| > 0 {
      var r := [Entry(n, t[0].frequency + 1)] + t[1..];
      assert r[1..] == t[1..];
    }
  }

  /** The frequency object built by counting `nums` left to right: an entry for exactly
      the numbers that occur, each holding its number of occurrences. */
  function Tally(nums: seq<int>): (t: seq<Entry>)
    ensures Ascending(t)
    ensures forall k :: Lookup(t, k) == multiset(nums)[k]
    ensures forall k :: HasKey(t, k) <==> k in nums
    ensures SumFreq(t) == |nums|
  {
    if |nums| == 0 then []
    else
      var prefix := nums[..|nums| - 1];
      var last := nums[|nums| - 1];
      assert nums == prefix + [last];
      assert multiset(nums) == multiset(prefix) + multiset{last};
      var t := Tally(prefix);
      BumpSum(t, last);
      assert forall k :: Lookup(Bump(t, last), k) == multiset(nums)[k] by {
        forall k ensures Lookup(Bump(t, last), k) == multiset(nums)[k] {
          BumpLookup(t, last, k);
        }
      }
      Bump(t, last)
  }

  /** Each entry of a tally holds the number of occurrences of its key, at least one. */
  lemma TallyEntries(nums: seq<int>)
    ensures forall i :: 0 <= i < |Tally(nums)| ==>
      var e := Tally(nums)[i];
      e.number in nums && e.frequency == multiset(nums)[e.number] && e.frequency >= 1
  {
    var t := Tally(nums);
    forall i | 0 <= i < |t|
      ensures t[i].number in nums && t[i].frequency == multiset(nums)[t[i].number]
    {
      LookupAt(t, i);
      NumbersIndex(t);
      assert HasKey(t, t[i].number);
    }
  }
}
