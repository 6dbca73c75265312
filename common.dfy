/** Rows, small value types and sequence helpers shared by both source trees. */
module Common {

  datatype Option<T> = None | Some(value: T)

  /** A calendar date as a day number; stands in for java.time.LocalDate (plusDays(k) is `+ k`). */
  type Date = int

  /** A row of the `habits` table: a store-assigned id and a name. */
  datatype Habit = Habit(id: int, name: string)

  /** A row of the `mood` table. */
  datatype Mood = Mood(id: int, value: int, date: Date)

  /** A registered change listener; the facades only keep and call it, so its identity is all there is. */
  datatype Observer = Observer(id: nat)

  // ---------------------------------------------------------------------------
  // java.lang.String.trim(): drops leading and trailing characters <= U+0020.

  function TrimLeading(s: string): (r: string)
    ensures |r| <= |s| && r == s[|s| - |r|..]
    ensures r != [] ==> r[0] > ' '
  {
    if |s| > 0 && s[0] <= ' ' then TrimLeading(s[1..]) else s
  }

  function TrimTrailing(s: string): (r: string)
    ensures |r| <= |s| && r == s[..|r|]
    ensures r != [] ==> r[|r| - 1] > ' '
  {
    if |s| > 0 && s[|s| - 1] <= ' ' then TrimTrailing(s[..|s| - 1]) else s
  }

  function Trim(s: string): (r: string)
    ensures |r| <= |s|
    ensures r != [] ==> r[0] > ' ' && r[|r| - 1] > ' '
  {
    TrimTrailing(TrimLeading(s))
  }

  /** Every character is one that trim() removes. */
  predicate IsBlank(s: string) {
    forall i :: 0 <= i < |s| ==> s[i] <= ' '
  }

  lemma {:induction false} TrimLeadingEmpty(s: string)
    ensures TrimLeading(s) == [] <==> IsBlank(s)
  {
    if |s| > 0 && s[0] <= ' ' {
      TrimLeadingEmpty(s[1..]);
      assert IsBlank(s) <==> IsBlank(s[1..]) by {
        if IsBlank(s[1..]) {
          forall i | 0 <= i < |s| ensures s[i] <= ' ' {
            if i > 0 { assert s[i] == s[1..][i - 1]; }
          }
        }
      }
    }
  }

  lemma {:induction false} TrimTrailingKeepsNonBlank(s: string)
    requires s != [] && s[0] > ' '
    ensures TrimTrailing(s) != []
  {
    if |s| > 1 && s[|s| - 1] <= ' ' {
      TrimTrailingKeepsNonBlank(s[..|s| - 1]);
    }
  }

  /** `s.trim().isEmpty()` holds exactly for the blank strings (the empty one included). */
  lemma TrimEmptyIffBlank(s: string)
    ensures Trim(s) == [] <==> IsBlank(s)
  {
    TrimLeadingEmpty(s);
    var t := TrimLeading(s);
    if t != [] {
      TrimTrailingKeepsNonBlank(t);
    }
  }

  // ---------------------------------------------------------------------------
  // Sequences.

  /** The elements of `s` that satisfy `p`, in their original order (a Java stream `filter`). */
  function Filter<T(!new)>(s: seq<T>, p: T -> bool): (r: seq<T>)
    ensures |r| <= |s|
    ensures forall x :: x in r <==> x in s && p(x)
  {
    if s == [] then []
    else (if p(s[0]) then [s[0]] else []) + Filter(s[1..], p)
  }

  lemma {:induction false} FilterAppend<T(!new)>(a: seq<T>, b: seq<T>, p: T -> bool)
    ensures Filter(a + b, p) == Filter(a, p) + Filter(b, p)
  {
    if a == [] {
      assert a + b == b;
    } else {
      assert (a + b)[0] == a[0];
      assert (a + b)[1..] == a[1..] + b;
      FilterAppend(a[1..], b, p);
    }
  }

  /** Filtering with a predicate that holds of every element changes nothing. */
  lemma {:induction false} FilterKeepsAll<T(!new)>(s: seq<T>, p: T -> bool)
    requires forall x :: x in s ==> p(x)
    ensures Filter(s, p) == s
  {
    if s != [] {
      assert s == [s[0]] + s[1..];
      FilterKeepsAll(s[1..], p);
    }
  }

  /** Filtering with a predicate that holds of no element leaves nothing. */
  lemma {:induction false} FilterDropsAll<T(!new)>(s: seq<T>, p: T -> bool)
    requires forall x :: x in s ==> !p(x)
    ensures Filter(s, p) == []
  {
    if s != [] {
      FilterDropsAll(s[1..], p);
    }
  }

  /** Filtering by `p` and then by a stronger `q` is filtering by `q`. */
  lemma {:induction false} FilterOfFilter<T(!new)>(s: seq<T>, p: T -> bool, q: T -> bool)
    requires forall x :: x in s && q(x) ==> p(x)
    ensures Filter(Filter(s, p), q) == Filter(s, q)
  {
    if s != [] {
      var t := Filter(s[1..], p);
      FilterOfFilter(s[1..], p, q);
      if p(s[0]) {
        assert Filter(s, p) == [s[0]] + t;
        assert ([s[0]] + t)[1..] == t;
      } else {
        assert Filter(s, p) == t;
      }
    }
  }

  predicate StrictlyAscending(s: seq<int>) {
    forall i, j :: 0 <= i < j < |s| ==> s[i] < s[j]
  }

  /** Filtering keeps the order of what it keeps: an ascending sequence stays ascending. */
  lemma {:induction false} FilterKeepsAscending(s: seq<int>, p: int -> bool)
    requires StrictlyAscending(s)
    ensures StrictlyAscending(Filter(s, p))
  {
    if s != [] {
      var t := s[1..];
      assert StrictlyAscending(t) by {
        forall i, j | 0 <= i < j < |t| ensures t[i] < t[j] {
          assert t[i] == s[i + 1] && t[j] == s[j + 1];
        }
      }
      FilterKeepsAscending(t, p);
      var f := Filter(t, p);
      forall x | x in f ensures s[0] < x {
        var k :| 0 <= k < |t| && t[k] == x;
        assert s[k + 1] == x;
      }
      var r := Filter(s, p);
      if p(s[0]) {
        assert r == [s[0]] + f;
        forall i, j | 0 <= i < j < |r| ensures r[i] < r[j] {
          assert r[j] == f[j - 1] && f[j - 1] in f;
          if i > 0 {
            assert r[i] == f[i - 1];
          }
        }
      } else {
        assert r == f;
      }
    }
  }

  /** No element occurs twice. */
  ghost predicate Distinct<T>(s: seq<T>) {
    forall i, j :: 0 <= i < j < |s| ==> s[i] != s[j]
  }

  /** Appending an element that is not there yet keeps a sequence free of repeats. */
  lemma DistinctSnoc<T>(s: seq<T>, x: T)
    requires Distinct(s) && x !in s
    ensures Distinct(s + [x])
  {
    var r := s + [x];
    forall i, j | 0 <= i < j < |r| ensures r[i] != r[j] {
      assert r[i] == s[i];
      if j == |s| {
        assert s[i] in s;
      } else {
        assert r[j] == s[j];
      }
    }
  }

  /** The days lo..hi (both inclusive) that satisfy `p`, in ascending order: the answer of
      `SELECT ... WHERE date BETWEEN lo AND hi ... ORDER BY date` with one row per qualifying day. */
  function DaysWhere(lo: Date, hi: Date, p: Date -> bool): (r: seq<Date>)
    ensures forall d :: d in r <==> lo <= d <= hi && p(d)
    ensures forall i :: 0 <= i < |r| ==> r[i] <= hi
    ensures StrictlyAscending(r)
    decreases hi - lo
  {
    if hi < lo then []
    else DaysWhere(lo, hi - 1, p) + (if p(hi) then [hi] else [])
  }

  /** What a `while (rs.next())` loop has copied when the driver throws while fetching row `stop`
      (or, for None, never): everything before that row. */
  function Cut<T(!new)>(rows: seq<T>, stop: Option<nat>): (r: seq<T>)
    ensures r <= rows
    ensures forall x :: x in r ==> x in rows
    ensures stop.None? ==> r == rows
    ensures stop.Some? && stop.value < |rows| ==> |r| == stop.value
  {
    if stop.Some? && stop.value < |rows| then rows[..stop.value] else rows
  }

  /** The `while (rs.next())` loop that copies a result set into a list, row by row, when the
      driver throws while fetching row `stop` (or, for None, never). */
  method ReadRows<T(!new)>(rs: seq<T>, stop: Option<nat>) returns (list: seq<T>)
    ensures list == Cut(rs, stop)
  {
    list := [];
    var k := 0;
    while k < |rs| && stop != Some(k)
      invariant 0 <= k <= |rs|
      invariant list == rs[..k]
      invariant stop.Some? ==> k <= stop.value
    {
      list := list + [rs[k]];
      k := k + 1;
    }
    if k == |rs| {
      assert rs[..k] == rs;
    }
  }
}
