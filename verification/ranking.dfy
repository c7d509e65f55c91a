/**
 `Array.prototype.sort` on frequency entries with a count comparator. The sort is
 stable, so entries of equal count keep the ascending key order `Object.entries`
 gave them; the result is therefore the unique arrangement ordered by count and
 then by number (see `RankedUnique`).
 */
module Ranking {
  import opened Frequency

  /** The sort key: the game-record analyser sorts by descending count
      (components/KenoAnalyzer.tsx:64), the PDF analyser by ascending count
      (app/page.tsx:34). */
  function Key(e: Entry, descending: bool): int {
    if descending then -(e.frequency as int) else e.frequency as int
  }

  /** `a` sorts strictly before `b`: smaller key, or equal key and smaller number. */
  predicate Before(a: Entry, b: Entry, descending: bool) {
    Key(a, descending) < Key(b, descending)
    || (Key(a, descending) == Key(b, descending) && a.number < b.number)
  }

  /** Ordered by key, equal keys in ascending number order. */
  predicate Ranked(r: seq<Entry>, descending: bool) {
    forall i, j :: 0 <= i < j < |r| ==> Before(r[i], r[j], descending)
  }

  /** Places `e` in front of the first entry whose key is not smaller than its own. */
  function Insert(e: Entry, s: seq<Entry>, descending: bool): (r: seq<Entry>)
    ensures multiset(r) == multiset(s) + multiset{e}
    ensures |r| == |s| + 1
  {
    if |s| == 0 then [e]
    else if Key(s[0], descending) >= Key(e, descending) then [e] + s
    else
      assert s == [s[0]] + s[1..];
      [s[0]] + Insert(e, s[1..], descending)
  }

  /** An entry that sorts before every entry of a ranked sequence can go in front. */
  lemma ConsRanked(e: Entry, s: seq<Entry>, descending: bool)
    requires Ranked(s, descending)
    requires forall x :: x in s ==> Before(e, x, descending)
    ensures Ranked([e] + s, descending)
  {
    var r := [e] + s;
    forall i, j | 0 <= i < j < |r| ensures Before(r[i], r[j], descending) {
      assert r[j] == s[j - 1];
      if i == 0 {
        assert r[j] in s;
      } else {
        assert r[i] == s[i - 1];
      }
    }
  }

  /** Inserting an entry whose number is below every number of a ranked sequence
      keeps it ranked: it lands after the smaller keys and before the ties. */
  lemma {:induction false} InsertRanked(e: Entry, s: seq<Entry>, descending: bool)
    requires Ranked(s, descending)
    requires forall x :: x in s ==> e.number < x.number
    ensures Ranked(Insert(e, s, descending), descending)
    decreases |s|
  {
    if |s| == 0 {
    } else if Key(s[0], descending) >= Key(e, descending) {
      forall x | x in s ensures Before(e, x, descending) {
        var m :| 0 <= m < |s| && s[m] == x;
        assert m == 0 || Before(s[0], s[m], descending);
      }
      ConsRanked(e, s, descending);
    } else {
      var tail := s[1..];
      RankedTail(s, descending);
      assert forall x :: x in tail ==> x in s;
      InsertRanked(e, tail, descending);
      var rest := Insert(e, tail, descending);
      forall x | x in rest ensures Before(s[0], x, descending) {
        assert x in multiset(rest);
        if x != e {
          assert x in multiset(tail);
          var m :| 0 <= m < |tail| && tail[m] == x;
          assert s[m + 1] == x;
        }
      }
      ConsRanked(s[0], rest, descending);
    }
  }

  /** One step of the sort: the first entry of an ascending sequence inserted into
      the ranked rest of it. */
  lemma SortStep(es: seq<Entry>, rest: seq<Entry>, descending: bool)
    requires |es| > 0 && Ascending(es)
    requires multiset(rest) == multiset(es[1..]) && Ranked(rest, descending)
    ensures Ranked(Insert(es[0], rest, descending), descending)
  {
    forall x | x in rest ensures es[0].number < x.number {
      assert x in multiset(es[1..]);
      var m :| 0 <= m < |es[1..]| && es[1..][m] == x;
      assert es[m + 1] == x;
    }
    InsertRanked(es[0], rest, descending);
  }

  /** The stable sort: insertion from the back, each earlier entry going in front of
      the later ones it ties with. */
  function StableSort(es: seq<Entry>, descending: bool): (r: seq<Entry>)
    ensures multiset(r) == multiset(es)
    ensures |r| == |es|
    ensures Ascending(es) ==> Ranked(r, descending)
  {
    if |es| == 0 then []
    else
      assert es == [es[0]] + es[1..];
      assert Ascending(es) ==> Ascending(es[1..]) by {
        if Ascending(es) {
          forall i, j | 0 <= i < j < |es[1..]| ensures es[1..][i].number < es[1..][j].number {
            assert es[1..][i] == es[i + 1] && es[1..][j] == es[j + 1];
          }
        }
      }
      var rest := StableSort(es[1..], descending);
      assert Ascending(es) ==> Ranked(Insert(es[0], rest, descending), descending) by {
        if Ascending(es) {
          SortStep(es, rest, descending);
        }
      }
      Insert(es[0], rest, descending)
  }

  /** Sorting an already ranked sequence leaves it as it is. */
  lemma {:induction false} SortRanked(es: seq<Entry>, descending: bool)
    requires Ranked(es, descending)
    ensures StableSort(es, descending) == es
    decreases |es|
  {
    if |es| > 0 {
      RankedTail(es, descending);
      SortRanked(es[1..], descending);
      SortUnfold(es, descending);
      RankedFront(es, descending);
      InsertFront(es[0], es[1..], descending);
      assert es == [es[0]] + es[1..];
    }
  }

  lemma SortUnfold(es: seq<Entry>, descending: bool)
    requires |es| > 0
    ensures StableSort(es, descending) == Insert(es[0], StableSort(es[1..], descending), descending)
  {
  }

  lemma RankedFront(es: seq<Entry>, descending: bool)
    requires Ranked(es, descending) && |es| > 0
    ensures |es[1..]| == 0 || Key(es[1..][0], descending) >= Key(es[0], descending)
  {
    if |es| > 1 {
      assert Before(es[0], es[1], descending);
    }
  }

  lemma InsertFront(e: Entry, s: seq<Entry>, descending: bool)
    requires |s| == 0 || Key(s[0], descending) >= Key(e, descending)
    ensures Insert(e, s, descending) == [e] + s
  {
  }

  lemma RankedTail(a: seq<Entry>, descending: bool)
    requires Ranked(a, descending) && |a| > 0
    ensures Ranked(a[1..], descending)
  {
    forall i, j | 0 <= i < j < |a[1..]| ensures Before(a[1..][i], a[1..][j], descending) {
      assert a[1..][i] == a[i + 1] && a[1..][j] == a[j + 1];
    }
  }

  /** Ranked arrangements of the same non-empty multiset start with the same entry. */
  lemma SameHead(a: seq<Entry>, b: seq<Entry>, descending: bool)
    requires Ranked(a, descending) && Ranked(b, descending)
    requires multiset(a) == multiset(b) && |a| > 0
    ensures |b| > 0 && a[0] == b[0]
  {
    assert a[0] in multiset(b);
    assert b[0] in multiset(a);
    var i :| 0 <= i < |a| && a[i] == b[0];
    var j :| 0 <= j < |b| && b[j] == a[0];
    assert i == 0 || Before(a[0], b[0], descending);
    assert j == 0 || Before(b[0], a[0], descending);
  }

  /** Two ranked arrangements of the same entries are the same sequence. */
  lemma {:induction false} RankedUnique(a: seq<Entry>, b: seq<Entry>, descending: bool)
    requires Ranked(a, descending) && Ranked(b, descending)
    requires multiset(a) == multiset(b)
    ensures a == b
    decreases |a|
  {
    assert |a| == |multiset(a)| == |b|;
    if |a| > 0 {
      SameHead(a, b, descending);
      assert a == [a[0]] + a[1..];
      assert b == [b[0]] + b[1..];
      assert multiset(a[1..]) == multiset(a) - multiset{a[0]};
      assert multiset(b[1..]) == multiset(b) - multiset{b[0]};
      RankedTail(a, descending);
      RankedTail(b, descending);
      RankedUnique(a[1..], b[1..], descending);
    }
  }
}
