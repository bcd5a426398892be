/**
 * `getSortedReviews`: a sorted copy of the collection under one of four
 * policies. `Array.prototype.sort` is stable, so the copy is the stable sort
 * of the collection by the policy's comparator; every policy is written here
 * as "largest rank first" (`lowest` ranks a review by its negated rating).
 */
module ReviewSort {
  import opened Wrappers
  import opened Reviews

  datatype Order = Recent | MostHelpful | Highest | Lowest

  /** The policy a `sortBy` value selects; any other value keeps the collection's order. */
  function PolicyOf(sortBy: string): (o: Option<Order>)
    ensures o == Some(Recent) <==> sortBy == "recent"
    ensures o == Some(MostHelpful) <==> sortBy == "helpful"
    ensures o == Some(Highest) <==> sortBy == "highest"
    ensures o == Some(Lowest) <==> sortBy == "lowest"
  {
    if sortBy == "recent" then Some(Recent)
    else if sortBy == "helpful" then Some(MostHelpful)
    else if sortBy == "highest" then Some(Highest)
    else if sortBy == "lowest" then Some(Lowest)
    else None
  }

  /**
   * The number a policy orders by, largest first: the comparator `(a, b) => k(b) - k(a)`
   * puts `a` first exactly when `Rank(a) > Rank(b)` and keeps ties.
   */
  function Rank(o: Order, r: Review): (k: int) {
    match o
    case Recent => r.id
    case MostHelpful => HelpfulCount(r)
    case Highest => r.rating
    case Lowest => -r.rating
  }

  predicate Descending(o: Order, s: seq<Review>) {
    forall i, j :: 0 <= i < j < |s| ==> Rank(o, s[i]) >= Rank(o, s[j])
  }

  /** The reviews of rank `k`, in their order in `s`. */
  function WithRank(o: Order, s: seq<Review>, k: int): (c: seq<Review>) {
    if s == [] then [] else (if Rank(o, s[0]) == k then [s[0]] else []) + WithRank(o, s[1..], k)
  }

  lemma FirstHasOwnRank(o: Order, s: seq<Review>)
    ensures s != [] ==> WithRank(o, s, Rank(o, s[0])) != []
  {
  }

  /** Each review picked out for rank `k` belongs to `s` and has rank `k`. */
  lemma {:induction false} WithRankMember(o: Order, s: seq<Review>, k: int, y: Review)
    requires y in WithRank(o, s, k)
    ensures y in s && Rank(o, y) == k
  {
    if Rank(o, s[0]) == k && y == s[0] {
    } else {
      WithRankMember(o, s[1..], k, y);
    }
  }

  /** Puts `x` in front of the first review it does not rank below. */
  function Insert(o: Order, x: Review, t: seq<Review>): (r: seq<Review>)
    ensures |r| == |t| + 1 && (r[0] == x || (t != [] && r[0] == t[0]))
    ensures multiset(r) == multiset(t) + multiset{x}
  {
    if t == [] || Rank(o, x) >= Rank(o, t[0]) then
      [x] + t
    else
      var r := [t[0]] + Insert(o, x, t[1..]);
      assert t == [t[0]] + t[1..];
      r
  }

  /** Inserting into a descending sequence keeps it descending. */
  lemma {:induction false} InsertDescending(o: Order, x: Review, t: seq<Review>)
    requires Descending(o, t)
    ensures Descending(o, Insert(o, x, t))
  {
    if t != [] && Rank(o, x) < Rank(o, t[0]) {
      var r' := Insert(o, x, t[1..]);
      InsertDescending(o, x, t[1..]);
      var r := [t[0]] + r';
      assert r == Insert(o, x, t);
      forall i, j | 0 <= i < j < |r| ensures Rank(o, r[i]) >= Rank(o, r[j]) {
        if i == 0 {
          assert r[j] == r'[j - 1];
          assert Rank(o, r'[0]) <= Rank(o, t[0]);
          assert Rank(o, r'[0]) >= Rank(o, r'[j - 1]) || j - 1 == 0;
        } else {
          assert r[i] == r'[i - 1] && r[j] == r'[j - 1];
        }
      }
    }
  }

  /** One step of `WithRank` on a sequence written as head and tail. */
  lemma WithRankCons(o: Order, x: Review, s: seq<Review>, k: int)
    ensures WithRank(o, [x] + s, k) == (if Rank(o, x) == k then [x] else []) + WithRank(o, s, k)
  {
    assert ([x] + s)[0] == x && ([x] + s)[1..] == s;
  }

  /** Insertion puts `x` before the reviews of its own rank and moves no other review past one of equal rank. */
  lemma {:induction false} InsertWithRank(o: Order, x: Review, t: seq<Review>, k: int)
    ensures WithRank(o, Insert(o, x, t), k) == (if Rank(o, x) == k then [x] else []) + WithRank(o, t, k)
  {
    if t == [] || Rank(o, x) >= Rank(o, t[0]) {
      WithRankCons(o, x, t, k);
    } else {
      var r' := Insert(o, x, t[1..]);
      var cx := if Rank(o, x) == k then [x] else [];
      var c0 := if Rank(o, t[0]) == k then [t[0]] else [];
      var w := WithRank(o, t[1..], k);
      // `x` ranks strictly below `t[0]`, so at most one of them has rank `k`.
      assert cx == [] || c0 == [];
      calc {
        WithRank(o, Insert(o, x, t), k);
        WithRank(o, [t[0]] + r', k);
        { WithRankCons(o, t[0], r', k); }
        c0 + WithRank(o, r', k);
        { InsertWithRank(o, x, t[1..], k); }
        c0 + (cx + w);
        cx + (c0 + w);
        { WithRankCons(o, t[0], t[1..], k); assert t == [t[0]] + t[1..]; }
        cx + WithRank(o, t, k);
      }
    }
  }

  /** Insertion sort, which keeps reviews of equal rank in their original order. */
  function StableSort(o: Order, s: seq<Review>): (r: seq<Review>)
    ensures multiset(r) == multiset(s)
    ensures Descending(o, r)
    ensures forall k :: WithRank(o, r, k) == WithRank(o, s, k)
  {
    if s == [] then []
    else
      var t := StableSort(o, s[1..]);
      InsertDescending(o, s[0], t);
      assert s == [s[0]] + s[1..];
      assert forall k :: WithRank(o, Insert(o, s[0], t), k) == WithRank(o, s, k) by {
        forall k ensures WithRank(o, Insert(o, s[0], t), k) == WithRank(o, s, k) {
          InsertWithRank(o, s[0], t, k);
        }
      }
      Insert(o, s[0], t)
  }

  /** `getSortedReviews()` for the current `sortBy`. */
  function SortReviews(s: seq<Review>, sortBy: string): (r: seq<Review>)
    ensures multiset(r) == multiset(s)
    ensures PolicyOf(sortBy) == None ==> r == s
    ensures PolicyOf(sortBy).Some? ==>
      var o := PolicyOf(sortBy).value;
      Descending(o, r) && forall k :: WithRank(o, r, k) == WithRank(o, s, k)
  {
    match PolicyOf(sortBy)
    case None => s
    case Some(o) => StableSort(o, s)
  }

  /**
   * A stable sort has only one possible result: an order that is descending by
   * rank and keeps every rank's reviews in their input order is StableSort's.
   * So the model agrees with any conforming `Array.prototype.sort`.
   */
  lemma StableSortIsUnique(o: Order, s: seq<Review>, t: seq<Review>)
    requires Descending(o, t)
    requires forall k :: WithRank(o, t, k) == WithRank(o, s, k)
    ensures t == StableSort(o, s)
  {
    SameRankClassesSameOrder(o, t, StableSort(o, s));
  }

  lemma {:induction false} SameRankClassesSameOrder(o: Order, a: seq<Review>, b: seq<Review>)
    requires Descending(o, a) && Descending(o, b)
    requires forall k :: WithRank(o, a, k) == WithRank(o, b, k)
    ensures a == b
    decreases |a|
  {
    FirstHasOwnRank(o, a);
    FirstHasOwnRank(o, b);
    if a != [] && b != [] {
      SameFirstRank(o, a, b);
      SameHead(o, a, b);
      forall k ensures WithRank(o, a[1..], k) == WithRank(o, b[1..], k) {
        TailRankClass(o, a, b, k);
      }
      DescendingTail(o, a);
      DescendingTail(o, b);
      SameRankClassesSameOrder(o, a[1..], b[1..]);
      assert a == [a[0]] + a[1..] && b == [b[0]] + b[1..];
    }
  }

  lemma DescendingTail(o: Order, s: seq<Review>)
    requires s != [] && Descending(o, s)
    ensures Descending(o, s[1..])
  {
    forall i, j | 0 <= i < j < |s| - 1 ensures Rank(o, s[1..][i]) >= Rank(o, s[1..][j]) {
      assert s[1..][i] == s[i + 1] && s[1..][j] == s[j + 1];
    }
  }

  /** Two sequences whose heads share a rank, and whose reviews of that rank agree, start with the same review. */
  lemma SameHead(o: Order, a: seq<Review>, b: seq<Review>)
    requires a != [] && b != [] && Rank(o, a[0]) == Rank(o, b[0])
    requires WithRank(o, a, Rank(o, a[0])) == WithRank(o, b, Rank(o, a[0]))
    ensures a[0] == b[0]
  {
    assert a == [a[0]] + a[1..] && b == [b[0]] + b[1..];
    WithRankCons(o, a[0], a[1..], Rank(o, a[0]));
    WithRankCons(o, b[0], b[1..], Rank(o, a[0]));
  }

  /** Two descending orders with the same rank classes start with the same rank. */
  lemma SameFirstRank(o: Order, a: seq<Review>, b: seq<Review>)
    requires a != [] && b != []
    requires Descending(o, a) && Descending(o, b)
    requires forall k :: WithRank(o, a, k) == WithRank(o, b, k)
    ensures Rank(o, a[0]) == Rank(o, b[0])
  {
    var m, n := Rank(o, a[0]), Rank(o, b[0]);
    FirstHasOwnRank(o, a);
    FirstHasOwnRank(o, b);
    assert n >= m by {
      var y := WithRank(o, b, m)[0];
      WithRankMember(o, b, m, y);
      var i :| 0 <= i < |b| && b[i] == y;
      assert i == 0 || Rank(o, b[0]) >= Rank(o, b[i]);
    }
    assert m >= n by {
      var y := WithRank(o, a, n)[0];
      WithRankMember(o, a, n, y);
      var i :| 0 <= i < |a| && a[i] == y;
      assert i == 0 || Rank(o, a[0]) >= Rank(o, a[i]);
    }
  }

  lemma TailRankClass(o: Order, a: seq<Review>, b: seq<Review>, k: int)
    requires a != [] && b != [] && a[0] == b[0]
    requires WithRank(o, a, k) == WithRank(o, b, k)
    ensures WithRank(o, a[1..], k) == WithRank(o, b[1..], k)
  {
    if Rank(o, a[0]) == k {
      assert WithRank(o, a[1..], k) == WithRank(o, a, k)[1..];
      assert WithRank(o, b[1..], k) == WithRank(o, b, k)[1..];
    } else {
      assert WithRank(o, a, k) == WithRank(o, a[1..], k);
      assert WithRank(o, b, k) == WithRank(o, b[1..], k);
    }
  }

  /** "recent": newest (largest id) first. */
  lemma SortRecent(s: seq<Review>)
    ensures var r := SortReviews(s, "recent");
      forall i, j :: 0 <= i < j < |r| ==> r[i].id >= r[j].id
  {
    var r := SortReviews(s, "recent");
    assert Descending(Recent, r);
  }

  /** "helpful": most helpful first, a missing count read as 0. */
  lemma SortHelpful(s: seq<Review>)
    ensures var r := SortReviews(s, "helpful");
      forall i, j :: 0 <= i < j < |r| ==> HelpfulCount(r[i]) >= HelpfulCount(r[j])
  {
    var r := SortReviews(s, "helpful");
    assert Descending(MostHelpful, r);
  }

  /** "highest": highest rating first. */
  lemma SortHighest(s: seq<Review>)
    ensures var r := SortReviews(s, "highest");
      forall i, j :: 0 <= i < j < |r| ==> r[i].rating >= r[j].rating
  {
    var r := SortReviews(s, "highest");
    assert Descending(Highest, r);
  }

  /** "lowest": lowest rating first. */
  lemma SortLowest(s: seq<Review>)
    ensures var r := SortReviews(s, "lowest");
      forall i, j :: 0 <= i < j < |r| ==> r[i].rating <= r[j].rating
  {
    var r := SortReviews(s, "lowest");
    assert Descending(Lowest, r);
  }
}
