/** Itemsets, their support, and what makes the level-wise search for frequent ones complete. */
module AprioriModel {
  import opened Common

  type Items = seq<int>

  /** An itemset is listed in increasing order. */
  predicate Increasing(s: Items) {
    forall i, j :: 0 <= i < j < |s| ==> s[i] < s[j]
  }

  predicate SubsetOf(s: Items, t: Items) {
    forall x :: x in s ==> x in t
  }

  /** The number of transactions with all items of `s`. */
  function Hits(ts: seq<Items>, s: Items): nat {
    if ts == [] then 0 else Hits(ts[..|ts| - 1], s) + if SubsetOf(s, ts[|ts| - 1]) then 1 else 0
  }

  /** Transactions, each without repeated items, and the support in percent that makes an itemset frequent. */
  datatype Data = Data(ts: seq<Items>, minSupport: real) {
    predicate Valid() {
      |ts| > 0 && minSupport > 0.0 && forall i :: 0 <= i < |ts| ==> Increasing(ts[i])
    }

    function Support(s: Items): real
      requires |ts| > 0
    {
      Hits(ts, s) as real / |ts| as real * 100.0
    }

    predicate Frequent(s: Items)
      requires |ts| > 0
    {
      s != [] && Increasing(s) && Support(s) >= minSupport
    }
  }

  // ----- support -----

  /** The transactions that have all items of `s`. */
  function With(ts: seq<Items>, s: Items): set<int> {
    set i | 0 <= i < |ts| && forall x :: x in s ==> x in ts[i]
  }

  lemma {:induction false} HitsCount(ts: seq<Items>, s: Items)
    ensures Hits(ts, s) == |With(ts, s)|
  {
    if ts == [] {
      assert With(ts, s) == {};
    } else {
      var n := |ts| - 1;
      HitsCount(ts[..n], s);
      assert forall i :: 0 <= i < n ==> ts[..n][i] == ts[i];
      assert With(ts, s) == With(ts[..n], s) + if SubsetOf(s, ts[n]) then {n} else {};
    }
  }

  /** The support is the part, in percent, of the transactions that have all the items; it is 100 exactly if all have them. */
  lemma SupportMeans(d: Data, s: Items)
    requires |d.ts| > 0
    ensures d.Support(s) * |d.ts| as real == 100.0 * |With(d.ts, s)| as real
    ensures d.Support(s) == 100.0 <==> forall i :: 0 <= i < |d.ts| ==> forall x :: x in s ==> x in d.ts[i]
  {
    hide With, Hits;
    HitsCount(d.ts, s);
    Percent(Hits(d.ts, s), |d.ts|);
    AllHit(d.ts, s);
  }

  /** An itemset is frequent exactly if the transactions that have it are at least the part asked for. */
  lemma FrequentMeans(d: Data, s: Items)
    requires |d.ts| > 0
    ensures d.Frequent(s) <==> s != [] && Increasing(s) && 100.0 * |With(d.ts, s)| as real >= d.minSupport * |d.ts| as real
  {
    hide With, Data.Support;
    SupportMeans(d, s);
    SameOrder(d.Support(s), d.minSupport, |d.ts| as real);
  }

  lemma SameOrder(x: real, y: real, n: real)
    requires n > 0.0
    ensures x >= y <==> x * n >= y * n
  {
    if x > y { ProductPositive(x - y, n); }
    if x < y { ProductPositive(y - x, n); }
  }

  lemma Percent(a: nat, n: nat)
    requires n > 0
    ensures var p := a as real / n as real * 100.0; p * n as real == 100.0 * a as real && (p == 100.0 <==> a == n)
  {
    var q := a as real / n as real;
    assert q * n as real == a as real;
  }

  lemma {:induction false} AllHit(ts: seq<Items>, s: Items)
    ensures Hits(ts, s) <= |ts|
    ensures Hits(ts, s) == |ts| <==> forall i :: 0 <= i < |ts| ==> forall x :: x in s ==> x in ts[i]
  {
    if ts != [] {
      var n := |ts| - 1;
      AllHit(ts[..n], s);
      assert forall i :: 0 <= i < n ==> ts[..n][i] == ts[i];
    }
  }

  lemma {:induction false} FewerHits(ts: seq<Items>, s: Items, t: Items)
    requires SubsetOf(s, t)
    ensures Hits(ts, t) <= Hits(ts, s)
  {
    if ts != [] { FewerHits(ts[..|ts| - 1], s, t); }
  }

  /** A subset of an itemset has at least its support. */
  lemma SupportFalls(d: Data, s: Items, t: Items)
    requires d.Valid() && SubsetOf(s, t)
    ensures d.Support(t) <= d.Support(s)
  {
    FewerHits(d.ts, s, t);
    DivideLess(Hits(d.ts, t) as real, Hits(d.ts, s) as real, |d.ts| as real);
  }

  lemma DivideLess(a: real, b: real, n: real)
    requires a <= b && n > 0.0
    ensures a / n * 100.0 <= b / n * 100.0
  {
    var q, r := a / n, b / n;
    assert q * n == a && r * n == b;
    if q > r { ProductPositive(q - r, n); }
  }

  lemma ProductPositive(x: real, y: real)
    requires x > 0.0 && y > 0.0
    ensures x * y > 0.0
  {
  }

  lemma {:induction false} SomeHit(ts: seq<Items>, s: Items) returns (i: nat)
    requires Hits(ts, s) > 0
    ensures i < |ts| && SubsetOf(s, ts[i])
  {
    var n := |ts| - 1;
    if SubsetOf(s, ts[n]) { i := n; } else { i := SomeHit(ts[..n], s); }
  }

  lemma NoHits(d: Data, s: Items)
    requires d.Valid() && Hits(d.ts, s) == 0
    ensures d.Support(s) == 0.0
  {
  }

  /** A frequent itemset lies in some transaction. */
  lemma FrequentOccurs(d: Data, s: Items) returns (i: nat)
    requires d.Valid() && d.Frequent(s)
    ensures i < |d.ts| && SubsetOf(s, d.ts[i]) && |s| <= |d.ts[i]|
  {
    if Hits(d.ts, s) == 0 { NoHits(d, s); }
    i := SomeHit(d.ts, s);
    SubsetShorter(s, d.ts[i]);
  }

  function ItemSet(s: Items): set<int> {
    set x | x in s
  }

  lemma {:induction false} SizeOfSet(s: Items)
    requires Increasing(s)
    ensures |ItemSet(s)| == |s|
  {
    if s != [] {
      var n := |s| - 1;
      SizeOfSet(s[..n]);
      assert ItemSet(s) == ItemSet(s[..n]) + {s[n]};
    }
  }

  lemma SubsetShorter(s: Items, t: Items)
    requires Increasing(s) && Increasing(t) && SubsetOf(s, t)
    ensures |s| <= |t|
  {
    SizeOfSet(s);
    SizeOfSet(t);
    SubsetSize(ItemSet(s), ItemSet(t));
  }

  // ----- from one level to the next -----

  /** `s` without its item number `i`. */
  function Drop(s: Items, i: nat): Items
    requires i < |s|
  {
    s[..i] + s[i + 1..]
  }

  lemma DropFacts(s: Items, i: nat)
    requires Increasing(s) && i < |s|
    ensures Increasing(Drop(s, i)) && SubsetOf(Drop(s, i), s) && |Drop(s, i)| == |s| - 1
  {
    var t := Drop(s, i);
    forall x | x in t ensures x in s {
      var k :| 0 <= k < |t| && t[k] == x;
      assert s[if k < i then k else k + 1] == x;
    }
    forall k, m | 0 <= k < m < |t| ensures t[k] < t[m] {
      assert t[k] == s[if k < i then k else k + 1] && t[m] == s[if m < i then m else m + 1];
    }
  }

  lemma DropFrequent(d: Data, s: Items, i: nat)
    requires d.Valid() && d.Frequent(s) && |s| >= 2 && i < |s|
    ensures d.Frequent(Drop(s, i))
  {
    DropFacts(s, i);
    SupportFalls(d, Drop(s, i), s);
  }

  /** `level` holds exactly the frequent itemsets of size `k`, with their supports. */
  ghost predicate Level(d: Data, level: map<Items, real>, k: nat)
    requires d.Valid()
  {
    forall s :: (s in level <==> d.Frequent(s) && |s| == k) && (s in level ==> level[s] == d.Support(s))
  }

  /** `c` holds itemsets of size `k` with their supports, among them all that are frequent. */
  ghost predicate Candidates(d: Data, c: map<Items, real>, k: nat)
    requires d.Valid()
  {
    && (forall s :: s in c ==> Increasing(s) && |s| == k && c[s] == d.Support(s))
    && (forall s :: d.Frequent(s) && |s| == k ==> s in c)
  }

  /** Can the two itemsets be joined: do they differ in the last item only? */
  predicate SamePrefix(a: Items, b: Items) {
    |a| == |b| > 0 && a[..|a| - 1] == b[..|b| - 1]
  }

  function Join(a: Items, b: Items): Items
    requires SamePrefix(a, b)
  {
    var n := |a| - 1;
    if a[n] > b[n] then a[..n] + [b[n], a[n]] else a[..n] + [a[n], b[n]]
  }

  lemma JoinIncreasing(a: Items, b: Items)
    requires SamePrefix(a, b) && Increasing(a) && Increasing(b) && a != b
    ensures Increasing(Join(a, b)) && |Join(a, b)| == |a| + 1
  {
    var n := |a| - 1;
    assert a == a[..n] + [a[n]] && b == b[..n] + [b[n]];
    forall i | 0 <= i < n ensures a[i] < a[n] && a[i] < b[n] {
      assert a[i] == a[..n][i] == b[..n][i] == b[i];
    }
  }

  /** Every itemset is the join, in either order, of the two that lack its last item or the one before. */
  lemma Joined(s: Items)
    requires Increasing(s) && |s| >= 2
    ensures var a, b := Drop(s, |s| - 1), Drop(s, |s| - 2);
            a != b && SamePrefix(a, b) && SamePrefix(b, a) && Join(a, b) == s && Join(b, a) == s
  {
    var n := |s|;
    var a, b := Drop(s, n - 1), Drop(s, n - 2);
    assert a == s[..n - 1] && a[..n - 2] == s[..n - 2] && b == s[..n - 2] + [s[n - 1]] && b[..n - 2] == s[..n - 2];
    assert a[n - 2] == s[n - 2] < s[n - 1] == b[n - 2];
    assert s == s[..n - 2] + [s[n - 2], s[n - 1]];
  }

  /** The frequent itemsets of size `k`, each listed once. */
  ghost predicate Patterns(d: Data, list: seq<Items>, k: nat)
    requires d.Valid()
  {
    && (forall i, j :: 0 <= i < j < |list| ==> list[i] != list[j])
    && (forall s :: s in list <==> d.Frequent(s) && |s| == k)
  }

  /** Without frequent itemsets of size `k` there are none of a greater size. */
  lemma NoneLarger(d: Data, k: nat, s: Items)
    requires d.Valid() && d.Frequent(s) && 0 < k <= |s|
    ensures d.Frequent(s[..k]) && |s[..k]| == k
  {
    assert SubsetOf(s[..k], s);
    SupportFalls(d, s[..k], s);
  }

  // ----- rules -----

  datatype Rule = Rule(x: Items, y: Items, support: real, confidence: real)

  /** Sorts by insertion; the program uses its library's sort. */
  function Sort(s: Items): Items {
    if s == [] then [] else InsertSorted(Sort(s[..|s| - 1]), s[|s| - 1])
  }

  function InsertSorted(s: Items, x: int): Items {
    if s == [] || s[|s| - 1] <= x then s + [x] else InsertSorted(s[..|s| - 1], x) + [s[|s| - 1]]
  }

  predicate NonDecreasing(s: Items) {
    forall i, j :: 0 <= i < j < |s| ==> s[i] <= s[j]
  }

  lemma {:induction false} InsertFacts(s: Items, x: int)
    requires NonDecreasing(s)
    ensures multiset(InsertSorted(s, x)) == multiset(s) + multiset{x} && NonDecreasing(InsertSorted(s, x))
  {
    if s != [] && s[|s| - 1] > x {
      var n := |s| - 1;
      var r := InsertSorted(s[..n], x);
      assert s == s[..n] + [s[n]];
      InsertFacts(s[..n], x);
      forall k | 0 <= k < |r| ensures r[k] <= s[n] {
        assert r[k] in multiset(r);
        assert r[k] == x || r[k] in s[..n];
      }
    }
  }

  lemma {:induction false} SortFacts(s: Items)
    ensures multiset(Sort(s)) == multiset(s) && NonDecreasing(Sort(s)) && |Sort(s)| == |s|
  {
    if s != [] {
      var n := |s| - 1;
      assert s == s[..n] + [s[n]];
      SortFacts(s[..n]);
      InsertFacts(Sort(s[..n]), s[n]);
    }
    assert |multiset(Sort(s))| == |Sort(s)| && |multiset(s)| == |s|;
  }

  predicate Disjoint(x: Items, y: Items) {
    forall i :: i in x ==> i !in y
  }

  /** The sorted items of two itemsets are an itemset exactly if the two have no item in common. */
  lemma UnionIncreasing(x: Items, y: Items)
    requires Increasing(x) && Increasing(y)
    ensures Increasing(Sort(x + y)) <==> Disjoint(x, y)
  {
    hide Sort;
    var u := Sort(x + y);
    SortFacts(x + y);
    assert multiset(u) == multiset(x) + multiset(y);
    if Disjoint(x, y) {
      forall i, j | 0 <= i < j < |u| && u[i] == u[j] ensures u[i] in x && u[i] in y {
        TwiceIn(u, i, j);
        OnceEach(x, u[i]);
        OnceEach(y, u[i]);
      }
    }
    if z :| z in x && z in y {
      assert multiset(u)[z] >= 2;
      if Increasing(u) { OnceEach(u, z); }
    }
  }

  lemma {:induction false} OnceEach(s: Items, z: int)
    requires Increasing(s)
    ensures multiset(s)[z] <= 1
  {
    if s != [] {
      var n := |s| - 1;
      assert s == s[..n] + [s[n]];
      OnceEach(s[..n], z);
      if z == s[n] { assert z !in s[..n]; }
    }
  }

  lemma TwiceIn(s: Items, i: nat, j: nat)
    requires i < j < |s| && s[i] == s[j]
    ensures multiset(s)[s[i]] >= 2
  {
    assert s == s[..i] + [s[i]] + s[i + 1..j] + [s[j]] + s[j + 1..];
  }

  /** Two disjoint itemsets that together are frequent give a rule in each direction. */
  ghost predicate GivesRule(d: Data, x: Items, y: Items)
    requires d.Valid()
  {
    x != [] && y != [] && Increasing(x) && Increasing(y) && Disjoint(x, y) && d.Frequent(Sort(x + y))
  }

  lemma SortSymmetric(x: Items, y: Items)
    ensures Sort(x + y) == Sort(y + x)
  {
    hide Sort;
    SortFacts(x + y);
    SortFacts(y + x);
    assert multiset(x + y) == multiset(y + x);
    SameSorted(Sort(x + y), Sort(y + x));
  }

  /** An ordered list is determined by its items. */
  lemma {:induction false} SameSorted(a: Items, b: Items)
    requires NonDecreasing(a) && NonDecreasing(b) && multiset(a) == multiset(b)
    ensures a == b
  {
    SameLength(a, b);
    if a != [] {
      hide NonDecreasing;
      var n := |a| - 1;
      Shorter(a);
      Shorter(b);
      AtMostLast(a, b);
      AtMostLast(b, a);
      WithoutLast(a);
      WithoutLast(b);
      SameSorted(a[..n], b[..n]);
      assert a == a[..n] + [a[n]] && b == b[..n] + [b[n]];
    }
  }

  lemma SameLength(a: Items, b: Items)
    requires multiset(a) == multiset(b)
    ensures |a| == |b|
  {
    assert |multiset(a)| == |a| && |multiset(b)| == |b|;
  }

  lemma Shorter(a: Items)
    requires NonDecreasing(a) && a != []
    ensures NonDecreasing(a[..|a| - 1])
  {
  }

  lemma WithoutLast(a: Items)
    requires a != []
    ensures multiset(a[..|a| - 1]) == multiset(a) - multiset{a[|a| - 1]}
  {
    assert a == a[..|a| - 1] + [a[|a| - 1]];
  }

  lemma AtMostLast(a: Items, b: Items)
    requires NonDecreasing(a) && a != [] && b != [] && multiset(a) == multiset(b)
    ensures b[|b| - 1] <= a[|a| - 1]
  {
    assert b[|b| - 1] in multiset(a);
  }

  lemma GivesRuleSymmetric(d: Data, x: Items, y: Items)
    requires d.Valid() && GivesRule(d, x, y)
    ensures GivesRule(d, y, x)
  {
    SortSymmetric(x, y);
  }

  /** Both parts of a rule are frequent themselves. */
  lemma PartsFrequent(d: Data, x: Items, y: Items)
    requires d.Valid() && GivesRule(d, x, y)
    ensures d.Frequent(x) && d.Frequent(y) && |Sort(x + y)| == |x| + |y|
  {
    SortFacts(x + y);
    var u := Sort(x + y);
    forall i | i in x ensures i in u {
      assert i in multiset(x + y);
    }
    forall i | i in y ensures i in u {
      assert i in multiset(x + y);
    }
    SupportFalls(d, x, u);
    SupportFalls(d, y, u);
  }

  ghost predicate RuleRight(d: Data, r: Rule)
    requires d.Valid()
  {
    && GivesRule(d, r.x, r.y) && r.support == d.Support(Sort(r.x + r.y))
    && d.Support(r.x) > 0.0 && r.confidence == r.support / d.Support(r.x) * 100.0
  }

  /** What the numbers of a right rule mean: the transactions that have all its items are that part, in percent, of all of them and
      of those that have the items on the left. */
  lemma RuleMeans(d: Data, r: Rule)
    requires d.Valid() && RuleRight(d, r)
    ensures var both := |With(d.ts, r.x + r.y)| as real;
            && r.support * |d.ts| as real == 100.0 * both
            && r.confidence * |With(d.ts, r.x)| as real == 100.0 * both && |With(d.ts, r.x)| > 0
  {
    hide With, Sort, Data.Support, SubsetOf;
    var xy := Sort(r.x + r.y);
    SortedSame(d.ts, r.x + r.y);
    SupportMeans(d, xy);
    SupportMeans(d, r.x);
    Ratio(r.support, d.Support(r.x), |d.ts| as real, |With(d.ts, xy)| as real, |With(d.ts, r.x)| as real, r.confidence);
  }

  lemma SortedSame(ts: seq<Items>, s: Items)
    ensures With(ts, Sort(s)) == With(ts, s)
  {
    SortFacts(s);
    hide Sort;
    forall x ensures x in Sort(s) <==> x in s {
      assert x in Sort(s) <==> x in multiset(Sort(s));
      assert x in s <==> x in multiset(s);
    }
  }

  lemma Ratio(s: real, t: real, n: real, a: real, b: real, c: real)
    requires n > 0.0 && t > 0.0 && s * n == 100.0 * a && t * n == 100.0 * b && c == s / t * 100.0 && b >= 0.0
    ensures c * b == 100.0 * a && b > 0.0
  {
    ProductPositive(t, n);
    var q := s / t;
    assert q * t == s;
    calc {
      c * b;
      q * (100.0 * b);
      q * (t * n);
      (q * t) * n;
      100.0 * a;
    }
  }

  function Count(rules: seq<Rule>, x: Items, y: Items): nat {
    if rules == [] then 0
    else Count(rules[..|rules| - 1], x, y) + if rules[|rules| - 1].x == x && rules[|rules| - 1].y == y then 1 else 0
  }

  lemma {:induction false} CountSum(a: seq<Rule>, b: seq<Rule>, x: Items, y: Items)
    ensures Count(a + b, x, y) == Count(a, x, y) + Count(b, x, y)
  {
    if b == [] {
      assert a + b == a;
    } else {
      CountSum(a, b[..|b| - 1], x, y);
      assert (a + b)[..|a + b| - 1] == a + b[..|b| - 1];
    }
  }
}
