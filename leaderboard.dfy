/** The high-score table: saving a finished game and removing an entry. */
module Leaderboard {
  import opened Records
  import Scoring

  /** The table keeps the ten best results. */
  const MaxEntries: nat := 10

  /** The sort comparator: `a` is placed before `b` when its ratio score / total is
      higher, or, for equal ratios, when its average time is lower. With positive
      totals, cross-multiplication compares the two ratios exactly. */
  predicate Precedes(a: SavedResult, b: SavedResult)
  {
    a.score * b.total > b.score * a.total
    || (a.score * b.total == b.score * a.total && a.avgTime < b.avgTime)
  }

  /** Every stored result comes from a game in which at least one question was asked. */
  predicate AllRanked(s: seq<SavedResult>)
  {
    forall e :: e in s ==> e.total > 0
  }

  /** Best first: no entry is placed before an entry that precedes it. */
  predicate Sorted(s: seq<SavedResult>)
  {
    forall i, j :: 0 <= i < j < |s| ==> !Precedes(s[j], s[i])
  }

  /** Comparing ratios by cross-multiplication is transitive when the totals are positive,
      and strict as soon as one of the two steps is. */
  lemma {:induction false} RatioTransitive(sa: int, ta: int, sb: int, tb: int, sc: int, tc: int)
    requires ta > 0 && tb > 0 && tc > 0
    requires sa * tb >= sb * ta && sb * tc >= sc * tb
    ensures sa * tc >= sc * ta
    ensures (sa * tb > sb * ta || sb * tc > sc * tb) ==> sa * tc > sc * ta
  {
    var x, y := sa * tc, sc * ta;
    Scoring.MulMono(tc, sb * ta, sa * tb);
    Scoring.MulMono(ta, sc * tb, sb * tc);
    assert tb * x == tc * (sa * tb) && tc * (sb * ta) == ta * (sb * tc) && ta * (sc * tb) == tb * y;
    if x < y {
      Scoring.MulStrictMono(tb, x, y);
    }
    if sa * tb > sb * ta {
      Scoring.MulStrictMono(tc, sb * ta, sa * tb);
      if x <= y { Scoring.MulMono(tb, x, y); }
    }
    if sb * tc > sc * tb {
      Scoring.MulStrictMono(ta, sc * tb, sb * tc);
      if x <= y { Scoring.MulMono(tb, x, y); }
    }
  }

  /** Precedes is a strict order on results with positive totals. */
  lemma PrecedesTransitive(a: SavedResult, b: SavedResult, c: SavedResult)
    requires a.total > 0 && b.total > 0 && c.total > 0
    requires Precedes(a, b) && Precedes(b, c)
    ensures Precedes(a, c)
  {
    RatioTransitive(a.score, a.total, b.score, b.total, c.score, c.total);
  }

  /** Two results neither of which precedes the other tie; ties are transitive too. */
  lemma TieTransitive(a: SavedResult, b: SavedResult, c: SavedResult)
    requires a.total > 0 && b.total > 0 && c.total > 0
    requires !Precedes(a, b) && !Precedes(b, a) && !Precedes(b, c) && !Precedes(c, b)
    ensures !Precedes(a, c) && !Precedes(c, a)
  {
    RatioTransitive(a.score, a.total, b.score, b.total, c.score, c.total);
    RatioTransitive(c.score, c.total, b.score, b.total, a.score, a.total);
  }

  /** Inserts `x` after the leading entries it does not precede. On a sorted table this
      is where a stable sort puts the entry that was pushed last. */
  function InsertRanked(x: SavedResult, s: seq<SavedResult>): (r: seq<SavedResult>)
    ensures |r| == |s| + 1
  {
    if s == [] then [x]
    else if Precedes(x, s[0]) then [x] + s
    else [s[0]] + InsertRanked(x, s[1..])
  }

  /** Inserting adds `x` and keeps every other entry. */
  lemma {:induction false} InsertRankedPermutes(x: SavedResult, s: seq<SavedResult>)
    ensures multiset(InsertRanked(x, s)) == multiset(s) + multiset{x}
  {
    if s != [] && !Precedes(x, s[0]) {
      InsertRankedPermutes(x, s[1..]);
      assert s == [s[0]] + s[1..];
    }
  }

  /** An entry that no entry of a sorted table precedes can go in front of it. */
  lemma ConsSorted(h: SavedResult, s: seq<SavedResult>)
    requires Sorted(s) && forall j :: 0 <= j < |s| ==> !Precedes(s[j], h)
    ensures Sorted([h] + s)
  {
    var r := [h] + s;
    forall i, j | 0 <= i < j < |r| ensures !Precedes(r[j], r[i]) {
      assert r[j] == s[j - 1];
      if i > 0 { assert r[i] == s[i - 1]; }
    }
  }

  /** The head of a sorted table is preceded by nothing in the rest of the table, and so
      by nothing after `x` is inserted into the rest. */
  lemma HeadStaysFirst(x: SavedResult, s: seq<SavedResult>)
    requires s != [] && Sorted(s) && !Precedes(x, s[0])
    ensures forall j :: 0 <= j < |InsertRanked(x, s[1..])| ==> !Precedes(InsertRanked(x, s[1..])[j], s[0])
  {
    var rest := InsertRanked(x, s[1..]);
    InsertRankedPermutes(x, s[1..]);
    forall j | 0 <= j < |rest| ensures !Precedes(rest[j], s[0]) {
      assert rest[j] in multiset(rest);
      if rest[j] != x {
        assert rest[j] in s[1..];
        var k :| 0 <= k < |s[1..]| && s[1..][k] == rest[j];
        assert s[k + 1] == rest[j];
      }
    }
  }

  /** Inserting into a sorted table keeps it sorted. */
  lemma {:induction false} InsertRankedSorted(x: SavedResult, s: seq<SavedResult>)
    requires x.total > 0 && AllRanked(s) && Sorted(s)
    ensures Sorted(InsertRanked(x, s))
  {
    if s == [] {
    } else if Precedes(x, s[0]) {
      forall j | 0 <= j < |s| ensures !Precedes(s[j], x) {
        if Precedes(s[j], x) { PrecedesTransitive(s[j], x, s[0]); }
      }
      ConsSorted(x, s);
    } else {
      assert AllRanked(s[1..]) && Sorted(s[1..]);
      InsertRankedSorted(x, s[1..]);
      HeadStaysFirst(x, s);
      ConsSorted(s[0], InsertRanked(x, s[1..]));
    }
  }

  /** Array.prototype.sort with the table's comparator, which is stable: insertion sort
      by Precedes. */
  function SortRanked(s: seq<SavedResult>): (r: seq<SavedResult>)
    ensures |r| == |s|
  {
    if s == [] then [] else InsertRanked(s[|s| - 1], SortRanked(s[..|s| - 1]))
  }

  /** Sorting yields a sorted permutation of the table. */
  lemma {:induction false} SortRankedCorrect(s: seq<SavedResult>)
    requires AllRanked(s)
    ensures multiset(SortRanked(s)) == multiset(s)
    ensures AllRanked(SortRanked(s)) && Sorted(SortRanked(s))
  {
    if s != [] {
      var init, last := s[..|s| - 1], s[|s| - 1];
      assert s == init + [last];
      assert last in s;
      SortRankedCorrect(init);
      InsertRankedPermutes(last, SortRanked(init));
      InsertRankedSorted(last, SortRanked(init));
      SameElementsRanked(SortRanked(s), s);
    }
  }

  lemma SameElementsRanked(r: seq<SavedResult>, s: seq<SavedResult>)
    requires multiset(r) == multiset(s) && AllRanked(s)
    ensures AllRanked(r)
  {
    forall e | e in r ensures e.total > 0 {
      assert e in multiset(r);
    }
  }

  /** "At least as good as" is transitive: an entry that b does not precede and that does
      not precede c is not preceded by c either. */
  lemma NotPrecedesTransitive(a: SavedResult, b: SavedResult, c: SavedResult)
    requires a.total > 0 && b.total > 0 && c.total > 0
    requires !Precedes(b, a) && !Precedes(c, b)
    ensures !Precedes(c, a)
  {
    RatioTransitive(a.score, a.total, b.score, b.total, c.score, c.total);
  }

  /** An entry that precedes none of the table goes to its end. */
  lemma {:induction false} InsertRankedAtEnd(x: SavedResult, s: seq<SavedResult>)
    requires forall i :: 0 <= i < |s| ==> !Precedes(x, s[i])
    ensures InsertRanked(x, s) == s + [x]
  {
    if s != [] {
      InsertRankedAtEnd(x, s[1..]);
    }
  }

  /** The sort is stable: a table that is already sorted comes back unchanged. */
  lemma {:induction false} SortSortedUnchanged(s: seq<SavedResult>)
    requires Sorted(s)
    ensures SortRanked(s) == s
  {
    if s != [] {
      var init, last := s[..|s| - 1], s[|s| - 1];
      SortSortedUnchanged(init);
      InsertRankedAtEnd(last, init);
    }
  }

  /** saveResults on the table: push the new result, sort, keep the first ten. */
  function Save(board: seq<SavedResult>, x: SavedResult): (r: seq<SavedResult>)
  {
    var all := SortRanked(board + [x]);
    if |all| > MaxEntries then all[..MaxEntries] else all
  }

  /** After a save the table holds min(10, n + 1) entries, sorted best first. */
  lemma SaveKeepsOrder(board: seq<SavedResult>, x: SavedResult)
    requires AllRanked(board) && x.total > 0
    ensures |Save(board, x)| == if |board| + 1 > MaxEntries then MaxEntries else |board| + 1
    ensures Sorted(Save(board, x)) && AllRanked(Save(board, x))
  {
    SaveKeepsBest(board, x);
  }

  /** A save keeps only entries of the old table and the new result, and every entry it
      cuts off ranks no higher than every entry it keeps. */
  lemma SaveKeepsBest(board: seq<SavedResult>, x: SavedResult)
    requires AllRanked(board) && x.total > 0
    ensures Sorted(Save(board, x)) && AllRanked(Save(board, x))
    ensures multiset(Save(board, x)) <= multiset(board + [x])
    ensures forall e, i :: e in multiset(board + [x]) - multiset(Save(board, x)) && 0 <= i < |Save(board, x)| ==>
      !Precedes(e, Save(board, x)[i])
  {
    var s := board + [x];
    assert AllRanked(s) by {
      forall e | e in s ensures e.total > 0 {
        if e != x { assert e in board; }
      }
    }
    SortRankedCorrect(s);
    var all := SortRanked(s);
    KeepBest(all, if |all| > MaxEntries then MaxEntries else |all|);
  }

  /** Cutting a sorted table after its first n entries keeps it sorted and drops only
      entries that rank no higher than every kept one. */
  lemma KeepBest(all: seq<SavedResult>, n: nat)
    requires Sorted(all) && AllRanked(all) && n <= |all|
    ensures Sorted(all[..n]) && AllRanked(all[..n])
    ensures multiset(all[..n]) <= multiset(all)
    ensures forall e, i :: e in multiset(all) - multiset(all[..n]) && 0 <= i < n ==> !Precedes(e, all[i])
  {
    var r := all[..n];
    DroppedRankLower(all, n);
    forall i, j | 0 <= i < j < n ensures !Precedes(r[j], r[i]) {
      assert r[i] == all[i] && r[j] == all[j];
    }
    forall e | e in r ensures e.total > 0 {
      assert e in all;
    }
  }

  lemma DroppedRankLower(all: seq<SavedResult>, n: nat)
    requires Sorted(all) && n <= |all|
    ensures multiset(all[..n]) <= multiset(all)
    ensures multiset(all) - multiset(all[..n]) == multiset(all[n..])
    ensures forall e, i :: e in multiset(all[n..]) && 0 <= i < n ==> !Precedes(e, all[i])
  {
    assert all == all[..n] + all[n..];
    forall e, i | e in multiset(all[n..]) && 0 <= i < n ensures !Precedes(e, all[i]) {
      assert e in all[n..];
      var k :| n <= k < |all| && all[k] == e;
    }
  }

  /** On a sorted table the save is an insertion: the new result lands after every
      entry it does not beat, and entries that tie with it stay ahead of it. */
  lemma SaveIntoSorted(board: seq<SavedResult>, x: SavedResult)
    requires AllRanked(board) && Sorted(board) && x.total > 0
    ensures SortRanked(board + [x]) == InsertRanked(x, board)
  {
    var s := board + [x];
    assert s[..|s| - 1] == board;
    SortSortedUnchanged(board);
  }

  /** The first save into an empty table stores just that result. */
  lemma SaveIntoEmpty(x: SavedResult)
    ensures Save([], x) == [x]
  {
    assert [] + [x] == [x];
    assert SortRanked([x]) == InsertRanked(x, []);
  }

  /** On a full sorted table, a result that does not beat the tenth entry changes nothing;
      one that does replaces the tenth entry. */
  lemma {:induction false} SaveIntoFullTable(board: seq<SavedResult>, x: SavedResult)
    requires AllRanked(board) && Sorted(board) && x.total > 0 && |board| == MaxEntries
    ensures !Precedes(x, board[MaxEntries - 1]) ==> Save(board, x) == board
    ensures Precedes(x, board[MaxEntries - 1]) ==>
      multiset(Save(board, x)) == multiset(board[..MaxEntries - 1]) + multiset{x}
  {
    SaveIntoSorted(board, x);
    var r := InsertRanked(x, board);
    if !Precedes(x, board[MaxEntries - 1]) {
      BelowTenthGoesLast(board, x);
      assert r[..MaxEntries] == board;
    } else {
      AboveTenthReplacesIt(board, x);
    }
  }

  /** A result that does not beat the tenth entry beats none of the table. */
  lemma BelowTenthGoesLast(board: seq<SavedResult>, x: SavedResult)
    requires AllRanked(board) && Sorted(board) && x.total > 0 && |board| == MaxEntries
    requires !Precedes(x, board[MaxEntries - 1])
    ensures InsertRanked(x, board) == board + [x]
  {
    forall i | 0 <= i < |board| ensures !Precedes(x, board[i]) {
      if i < MaxEntries - 1 {
        NotPrecedesTransitive(board[i], board[MaxEntries - 1], x);
      }
    }
    InsertRankedAtEnd(x, board);
  }

  /** A result that beats the tenth entry lands among the first ten, pushing the tenth
      entry out. */
  lemma AboveTenthReplacesIt(board: seq<SavedResult>, x: SavedResult)
    requires |board| == MaxEntries && Precedes(x, board[MaxEntries - 1])
    ensures multiset(InsertRanked(x, board)[..MaxEntries]) == multiset(board[..MaxEntries - 1]) + multiset{x}
  {
    var k := InsertPosition(x, board);
    assert k < MaxEntries;
    InsertRankedSplit(x, board);
    var r := InsertRanked(x, board);
    assert r[..MaxEntries] == board[..k] + [x] + board[k..MaxEntries - 1];
    assert board[..MaxEntries - 1] == board[..k] + board[k..MaxEntries - 1];
  }

  /** The index at which InsertRanked places `x`: the first entry it precedes. */
  function InsertPosition(x: SavedResult, s: seq<SavedResult>): (k: nat)
    ensures k <= |s|
    ensures forall i :: 0 <= i < k ==> !Precedes(x, s[i])
    ensures k < |s| ==> Precedes(x, s[k])
  {
    if s == [] || Precedes(x, s[0]) then 0 else 1 + InsertPosition(x, s[1..])
  }

  lemma {:induction false} InsertRankedSplit(x: SavedResult, s: seq<SavedResult>)
    ensures InsertRanked(x, s) == s[..InsertPosition(x, s)] + [x] + s[InsertPosition(x, s)..]
  {
    if s != [] && !Precedes(x, s[0]) {
      var t := s[1..];
      var k := InsertPosition(x, t);
      InsertRankedSplit(x, t);
      assert InsertPosition(x, s) == k + 1;
      assert s[..k + 1] == [s[0]] + t[..k];
      assert s[k + 1..] == t[k..];
    }
  }

  /** The position at which Array.prototype.splice(index, 1) removes: a negative index
      counts back from the end (and stops at 0); one past the end removes nothing. */
  function SpliceStart(index: int, len: nat): (k: nat)
    ensures k <= len
  {
    if index < 0 then (if len + index < 0 then 0 else len + index)
    else if index > len then len
    else index
  }

  /** savedResults.splice(index, 1). */
  function RemoveAt(s: seq<SavedResult>, index: int): (r: seq<SavedResult>)
  {
    var k := SpliceStart(index, |s|);
    if k < |s| then Without(s, k) else s
  }

  function Without(s: seq<SavedResult>, k: nat): seq<SavedResult>
    requires k < |s|
  {
    s[..k] + s[k + 1..]
  }

  /** Cutting entry k out of a table shifts the later entries down by one. */
  lemma CutOut(s: seq<SavedResult>, k: nat)
    requires k < |s|
    ensures |Without(s, k)| == |s| - 1
    ensures forall i :: 0 <= i < k ==> Without(s, k)[i] == s[i]
    ensures forall i :: k <= i < |s| - 1 ==> Without(s, k)[i] == s[i + 1]
    ensures multiset(Without(s, k)) + multiset{s[k]} == multiset(s)
  {
    assert s == s[..k] + [s[k]] + s[k + 1..];
  }

  /** An index inside the table removes exactly that entry and keeps the others in order;
      an index at or past the end changes nothing; a negative index removes one entry,
      counted from the end, or the first entry when it reaches past the start. */
  lemma RemoveAtSpec(s: seq<SavedResult>, index: int)
    ensures 0 <= index < |s| ==>
      && |RemoveAt(s, index)| == |s| - 1
      && (forall i :: 0 <= i < index ==> RemoveAt(s, index)[i] == s[i])
      && (forall i :: index <= i < |s| - 1 ==> RemoveAt(s, index)[i] == s[i + 1])
      && multiset(RemoveAt(s, index)) + multiset{s[index]} == multiset(s)
    ensures index >= |s| ==> RemoveAt(s, index) == s
    ensures index < 0 && s != [] ==>
      && |RemoveAt(s, index)| == |s| - 1
      && (-|s| <= index ==> RemoveAt(s, index) == Without(s, |s| + index))
      && (index < -|s| ==> RemoveAt(s, index) == s[1..])
  {
    var k := SpliceStart(index, |s|);
    if k < |s| {
      CutOut(s, k);
    }
  }

  /** Removing an entry keeps the table sorted and within its size. */
  lemma RemoveKeepsOrder(s: seq<SavedResult>, index: int)
    requires AllRanked(s)
    ensures Sorted(s) ==> Sorted(RemoveAt(s, index))
    ensures AllRanked(RemoveAt(s, index))
    ensures |RemoveAt(s, index)| <= |s|
  {
    var k := SpliceStart(index, |s|);
    if k < |s| {
      var r := RemoveAt(s, index);
      CutOut(s, k);
      forall i, j | 0 <= i < j < |r| && Sorted(s) ensures !Precedes(r[j], r[i]) {
        assert r[i] == s[if i < k then i else i + 1];
        assert r[j] == s[if j < k then j else j + 1];
      }
      forall e | e in r ensures e.total > 0 {
        var m :| 0 <= m < |r| && r[m] == e;
        assert r[m] == s[if m < k then m else m + 1];
      }
    }
  }
}
