/**
 * The three list idioms the app applies to its schedules: `filter`,
 * `map` that rewrites only the matching items, and `sort` with a string
 * key compared by `localeCompare`.
 */
module Seqs {
  import opened Clock

  // ---------------------------------------------------------------------
  // filter

  /** `s.filter(keep)`: the items that pass, in their original order. */
  function Filter<T>(s: seq<T>, keep: T -> bool): (r: seq<T>)
    ensures |r| <= |s|
    ensures forall i :: 0 <= i < |r| ==> keep(r[i])
    decreases |s|
  {
    if |s| == 0 then []
    else (if keep(s[0]) then [s[0]] else []) + Filter(s[1..], keep)
  }

  /** `i` is the first position of `s` whose item passes `keep`. */
  predicate IsFirst<T>(s: seq<T>, keep: T -> bool, i: int) {
    0 <= i < |s| && keep(s[i]) && forall j :: 0 <= j < i ==> !keep(s[j])
  }

  /** Nothing passes exactly when the filtered list is empty. */
  lemma {:induction false} FilterEmpty<T>(s: seq<T>, keep: T -> bool)
    ensures |Filter(s, keep)| == 0 <==> forall i :: 0 <= i < |s| ==> !keep(s[i])
    decreases |s|
  {
    if |s| > 0 {
      FilterEmpty(s[1..], keep);
      assert forall i :: 1 <= i < |s| ==> s[i] == s[1..][i - 1];
    }
  }

  /** The head of the filtered list is the first item that passes. */
  lemma {:induction false} FilterHead<T>(s: seq<T>, keep: T -> bool, i: int)
    requires IsFirst(s, keep, i)
    ensures |Filter(s, keep)| > 0 && Filter(s, keep)[0] == s[i]
    decreases |s|
  {
    if i > 0 {
      assert IsFirst(s[1..], keep, i - 1) by {
        forall j | 0 <= j < i - 1 ensures !keep(s[1..][j]) {
          assert s[1..][j] == s[j + 1];
        }
      }
      FilterHead(s[1..], keep, i - 1);
    }
  }

  /** When anything passes, some position is the first one. */
  lemma FirstExists<T>(s: seq<T>, keep: T -> bool, k: int)
    requires 0 <= k < |s| && keep(s[k])
    ensures exists i :: IsFirst(s, keep, i)
  {
    var i := k;
    while exists j :: 0 <= j < i && keep(s[j])
      invariant 0 <= i <= k && keep(s[i])
      decreases i
    {
      var j :| 0 <= j < i && keep(s[j]);
      i := j;
    }
    assert IsFirst(s, keep, i);
  }

  /** An item is kept exactly when it is in the list and passes. */
  lemma {:induction false} FilterMembers<T>(s: seq<T>, keep: T -> bool, x: T)
    ensures x in Filter(s, keep) <==> x in s && keep(x)
    decreases |s|
  {
    if |s| > 0 {
      FilterMembers(s[1..], keep, x);
      assert s == [s[0]] + s[1..];
    }
  }

  /** Filtering a second time with the same test changes nothing. */
  lemma {:induction false} FilterIdempotent<T>(s: seq<T>, keep: T -> bool)
    ensures Filter(Filter(s, keep), keep) == Filter(s, keep)
    decreases |s|
  {
    if |s| > 0 {
      FilterIdempotent(s[1..], keep);
      var rest := Filter(s[1..], keep);
      if keep(s[0]) {
        assert Filter(s, keep) == [s[0]] + rest;
        assert ([s[0]] + rest)[1..] == rest;
      } else {
        assert Filter(s, keep) == rest;
      }
    }
  }

  /** Filtering a concatenation filters each part in turn. */
  lemma {:induction false} FilterAppend<T>(s: seq<T>, t: seq<T>, keep: T -> bool)
    ensures Filter(s + t, keep) == Filter(s, keep) + Filter(t, keep)
    decreases |s|
  {
    if |s| == 0 {
      assert s + t == t;
    } else {
      FilterAppend(s[1..], t, keep);
      assert (s + t)[0] == s[0];
      assert (s + t)[1..] == s[1..] + t;
    }
  }

  /** Each passing item survives exactly as often as it occurs; the others not at all. */
  lemma {:induction false} FilterCount<T>(s: seq<T>, keep: T -> bool, x: T)
    ensures multiset(Filter(s, keep))[x] == if keep(x) then multiset(s)[x] else 0
    decreases |s|
  {
    if |s| > 0 {
      FilterCount(s[1..], keep, x);
      assert s == [s[0]] + s[1..];
    }
  }

  /** `r` holds any two passing items of `s` in the order they have in `s`. */
  ghost predicate KeepsOrderOf<T>(r: seq<T>, s: seq<T>, keep: T -> bool) {
    forall i, j :: 0 <= i < j < |s| && keep(s[i]) && keep(s[j]) ==>
      exists a, b :: 0 <= a < b < |r| && r[a] == s[i] && r[b] == s[j]
  }

  /** The filtered list keeps the passing items in their original order. */
  lemma FilterKeepsOrder<T>(s: seq<T>, keep: T -> bool)
    ensures KeepsOrderOf(Filter(s, keep), s, keep)
  {
    var r := Filter(s, keep);
    FilterIsPassingSubsequence(s, keep);
    var f :| PicksAt(f, r, s) && PicksPassing(f, s, keep);
    forall i, j | 0 <= i < j < |s| && keep(s[i]) && keep(s[j])
      ensures exists a, b :: 0 <= a < b < |r| && r[a] == s[i] && r[b] == s[j]
    {
      PickedInOrder(f, r, s, i, j);
    }
  }

  /** Two picked positions appear in the picked items in the same order. */
  lemma PickedInOrder<T>(f: seq<int>, r: seq<T>, s: seq<T>, i: int, j: int)
    requires PicksAt(f, r, s) && i < j && i in f && j in f
    ensures exists a, b :: 0 <= a < b < |r| && r[a] == s[i] && r[b] == s[j]
  {
    var a :| 0 <= a < |f| && f[a] == i;
    var b :| 0 <= b < |f| && f[b] == j;
    assert a < b;
    assert r[a] == s[i] && r[b] == s[j];
  }

  /** `f` lists increasing positions of `s` whose items, in turn, are the items of `r`. */
  ghost predicate PicksAt<T>(f: seq<int>, r: seq<T>, s: seq<T>) {
    && |f| == |r|
    && (forall k :: 0 <= k < |f| ==> 0 <= f[k] < |s| && r[k] == s[f[k]])
    && (forall k, l :: 0 <= k < l < |f| ==> f[k] < f[l])
  }

  /** `f` picks exactly the positions of `s` whose items pass `keep`. */
  ghost predicate PicksPassing<T>(f: seq<int>, s: seq<T>, keep: T -> bool) {
    && (forall k :: 0 <= k < |f| ==> 0 <= f[k] < |s| && keep(s[f[k]]))
    && (forall i :: 0 <= i < |s| && keep(s[i]) ==> i in f)
  }

  /**
   * `r` is the subsequence of `s` made of exactly the positions whose items
   * pass `keep`: every picked position passes, every passing position is
   * picked, and picks go strictly forward, so each passing position appears
   * once and in its place even when `s` repeats items.
   */
  ghost predicate IsPassingSubsequence<T>(r: seq<T>, s: seq<T>, keep: T -> bool) {
    exists f :: PicksAt(f, r, s) && PicksPassing(f, s, keep)
  }

  /** Positions picked in the tail of `s`, moved up by one, are positions picked in `s`. */
  lemma ShiftPicks<T>(g: seq<int>, r: seq<T>, s: seq<T>, keep: T -> bool) returns (f: seq<int>)
    requires |s| > 0 && PicksAt(g, r, s[1..]) && PicksPassing(g, s[1..], keep)
    ensures PicksAt(f, r, s)
    ensures forall k :: 0 <= k < |f| ==> 1 <= f[k] < |s| && keep(s[f[k]])
    ensures forall i :: 1 <= i < |s| && keep(s[i]) ==> i in f
  {
    f := seq(|g|, k requires 0 <= k < |g| => g[k] + 1);
    forall k | 0 <= k < |f| ensures 1 <= f[k] < |s| && r[k] == s[f[k]] && keep(s[f[k]]) {
      assert s[1..][g[k]] == s[g[k] + 1];
    }
    ShiftCovers(g, f, s, keep);
  }

  /** Every passing position after the head is a picked tail position moved up by one. */
  lemma ShiftCovers<T>(g: seq<int>, f: seq<int>, s: seq<T>, keep: T -> bool)
    requires |s| > 0 && PicksPassing(g, s[1..], keep)
    requires |f| == |g| && forall k :: 0 <= k < |g| ==> f[k] == g[k] + 1
    ensures forall i :: 1 <= i < |s| && keep(s[i]) ==> i in f
  {
    forall i | 1 <= i < |s| && keep(s[i]) ensures i in f {
      assert s[1..][i - 1] == s[i];
      var k :| 0 <= k < |g| && g[k] == i - 1;
      assert f[k] == i;
    }
  }

  /** Picks from positions 1 onwards are all the passing positions when the head fails. */
  lemma PicksWithoutHead<T>(shifted: seq<int>, s: seq<T>, keep: T -> bool)
    requires |s| > 0 && !keep(s[0])
    requires forall k :: 0 <= k < |shifted| ==> 1 <= shifted[k] < |s| && keep(s[shifted[k]])
    requires forall i :: 1 <= i < |s| && keep(s[i]) ==> i in shifted
    ensures PicksPassing(shifted, s, keep)
  {
    forall i | 0 <= i < |s| && keep(s[i]) ensures i in shifted {
      assert i != 0;
    }
  }

  /** Position 0 put in front of picks from positions 1 onwards. */
  lemma PicksWithHead<T>(shifted: seq<int>, s: seq<T>, keep: T -> bool, rest: seq<T>) returns (f: seq<int>)
    requires |s| > 0 && keep(s[0]) && PicksAt(shifted, rest, s)
    requires forall k :: 0 <= k < |shifted| ==> 1 <= shifted[k] < |s| && keep(s[shifted[k]])
    requires forall i :: 1 <= i < |s| && keep(s[i]) ==> i in shifted
    ensures PicksAt(f, [s[0]] + rest, s) && PicksPassing(f, s, keep)
  {
    f := [0] + shifted;
    var r := [s[0]] + rest;
    forall k | 0 <= k < |f| ensures 0 <= f[k] < |s| && r[k] == s[f[k]] && keep(s[f[k]]) {
      if k > 0 {
        assert f[k] == shifted[k - 1] && r[k] == rest[k - 1];
      }
    }
    forall k, l | 0 <= k < l < |f| ensures f[k] < f[l] {
      assert f[l] == shifted[l - 1];
      if k > 0 {
        assert f[k] == shifted[k - 1];
      }
    }
    forall i | 0 <= i < |s| && keep(s[i]) ensures i in f {
      if i > 0 {
        var k :| 0 <= k < |shifted| && shifted[k] == i;
        assert f[k + 1] == i;
      }
    }
  }

  /** The filtered list is the subsequence of exactly the passing positions. */
  lemma {:induction false} FilterIsPassingSubsequence<T>(s: seq<T>, keep: T -> bool)
    ensures IsPassingSubsequence(Filter(s, keep), s, keep)
    decreases |s|
  {
    if |s| == 0 {
      assert PicksAt([], Filter(s, keep), s) && PicksPassing([], s, keep);
    } else {
      var rest := Filter(s[1..], keep);
      FilterIsPassingSubsequence(s[1..], keep);
      var g :| PicksAt(g, rest, s[1..]) && PicksPassing(g, s[1..], keep);
      var shifted := ShiftPicks(g, rest, s, keep);
      if keep(s[0]) {
        var f := PicksWithHead(shifted, s, keep, rest);
        assert Filter(s, keep) == [s[0]] + rest;
        assert PicksAt(f, Filter(s, keep), s) && PicksPassing(f, s, keep);
      } else {
        PicksWithoutHead(shifted, s, keep);
        assert Filter(s, keep) == rest;
        assert PicksAt(shifted, Filter(s, keep), s) && PicksPassing(shifted, s, keep);
      }
    }
  }

  /** Filtering a list sorted by a key leaves it sorted. */
  lemma {:induction false} FilterSorted<T>(s: seq<T>, keep: T -> bool, key: T -> string)
    ensures SortedBy(s, key) ==> SortedBy(Filter(s, keep), key)
    decreases |s|
  {
    if |s| > 0 && SortedBy(s, key) {
      assert SortedBy(s[1..], key) by {
        forall i, j | 0 <= i < j < |s[1..]| ensures StrLe(key(s[1..][i]), key(s[1..][j])) {
          assert s[1..][i] == s[i + 1] && s[1..][j] == s[j + 1];
        }
      }
      FilterSorted(s[1..], keep, key);
      var rest := Filter(s[1..], keep);
      forall k | 0 <= k < |rest| ensures StrLe(key(s[0]), key(rest[k])) {
        FilterMembers(s[1..], keep, rest[k]);
        var j :| 0 <= j < |s[1..]| && s[1..][j] == rest[k];
        assert s[1..][j] == s[j + 1];
      }
    }
  }

  // ---------------------------------------------------------------------
  // map over matching items

  /** `s.map(x => hit(x) ? change(x) : x)`. */
  function UpdateWhere<T>(s: seq<T>, hit: T -> bool, change: T -> T): (r: seq<T>)
    ensures |r| == |s|
    ensures forall i :: 0 <= i < |s| && !hit(s[i]) ==> r[i] == s[i]
    ensures forall i :: 0 <= i < |s| && hit(s[i]) ==> r[i] == change(s[i])
  {
    seq(|s|, i requires 0 <= i < |s| => if hit(s[i]) then change(s[i]) else s[i])
  }

  // ---------------------------------------------------------------------
  // sort by a string key

  /** Every item's key is at most every later item's key, in JavaScript string order. */
  predicate SortedBy<T>(s: seq<T>, key: T -> string) {
    forall i, j :: 0 <= i < j < |s| ==> StrLe(key(s[i]), key(s[j]))
  }

  /** Inserts `x` after every item whose key is at most its own. */
  function Insert<T>(x: T, s: seq<T>, key: T -> string): (r: seq<T>)
    requires SortedBy(s, key)
    ensures SortedBy(r, key)
    ensures multiset(r) == multiset(s) + multiset{x}
    decreases |s|
  {
    if |s| == 0 then [x]
    else if StrLe(key(s[0]), key(x)) then
      var rest := Insert(x, s[1..], key);
      assert s == [s[0]] + s[1..];
      HeadKeyIsLeast(x, s, key, rest);
      [s[0]] + rest
    else
      StrLeTotal(key(s[0]), key(x));
      forall k | 0 <= k < |s| ensures StrLe(key(x), key(s[k])) {
        if k > 0 { StrLeTransitive(key(x), key(s[0]), key(s[k])); }
      }
      [x] + s
  }

  /** The head of a sorted list has a key at most that of every later item and of `x`. */
  lemma HeadKeyIsLeast<T>(x: T, s: seq<T>, key: T -> string, rest: seq<T>)
    requires |s| > 0 && SortedBy(s, key) && StrLe(key(s[0]), key(x))
    requires multiset(rest) == multiset(s[1..]) + multiset{x}
    ensures forall k :: 0 <= k < |rest| ==> StrLe(key(s[0]), key(rest[k]))
  {
    forall k | 0 <= k < |rest| ensures StrLe(key(s[0]), key(rest[k])) {
      assert rest[k] in multiset(rest);
      if rest[k] != x {
        assert rest[k] in multiset(s[1..]);
        var j :| 0 <= j < |s[1..]| && s[1..][j] == rest[k];
        assert s[1..][j] == s[j + 1];
      }
    }
  }

  /**
   * `s.slice().sort((a, b) => key(a).localeCompare(key(b)))` as an insertion
   * sort: a list sorted by key holding exactly the items of `s`.
   */
  function SortBy<T>(s: seq<T>, key: T -> string): (r: seq<T>)
    ensures SortedBy(r, key)
    ensures multiset(r) == multiset(s)
    decreases |s|
  {
    if |s| == 0 then []
    else
      assert s == s[..|s| - 1] + [s[|s| - 1]];
      Insert(s[|s| - 1], SortBy(s[..|s| - 1], key), key)
  }
}
