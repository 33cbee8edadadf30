/** Level-wise mining of frequent itemsets and of the rules they give. */
module Apriori {
  import opened AprioriModel

  /** The elements of a set, each once. The program goes through its sets and maps in increasing order; nothing depends on
      it. */
  method Elements<T(==)>(s: set<T>) returns (order: seq<T>)
    ensures forall i, j :: 0 <= i < j < |order| ==> order[i] != order[j]
    ensures forall x :: x in order <==> x in s
  {
    order := [];
    var rest := s;
    while rest != {}
      invariant rest <= s
      invariant forall i, j :: 0 <= i < j < |order| ==> order[i] != order[j]
      invariant forall x :: x in order <==> x in s && x !in rest
      decreases |rest|
    {
      var x :| x in rest;
      rest := rest - {x};
      order := order + [x];
    }
  }

  /** How many items of `s` up to number `n` the transaction has. */
  function Found(s: Items, t: Items, n: nat): nat
    requires n <= |s|
  {
    if n == 0 then 0 else Found(s, t, n - 1) + if s[n - 1] in t then 1 else 0
  }

  lemma {:induction false} FoundAll(s: Items, t: Items, n: nat)
    requires n <= |s|
    ensures Found(s, t, n) <= n && (Found(s, t, n) == n <==> forall i :: 0 <= i < n ==> s[i] in t)
  {
    if n > 0 { FoundAll(s, t, n - 1); }
  }

  /** Is `x` an item of some transaction? */
  predicate Occurs(d: Data, x: int) {
    exists i :: 0 <= i < |d.ts| && x in d.ts[i]
  }

  lemma FrequentItem(d: Data, s: Items)
    requires d.Valid() && d.Frequent(s) && |s| == 1
    ensures Occurs(d, s[0])
  {
    var i := FrequentOccurs(d, s);
    assert s[0] in s;
  }

  /** The joins of itemset number `p` with the ones after it up to number `n`. */
  ghost predicate JoinedWith(list: seq<Items>, p: nat, n: nat, joined: seq<Items>)
    requires p < |list| && n <= |list|
  {
    forall q :: p < q < n && SamePrefix(list[p], list[q]) ==> Join(list[p], list[q]) in joined
  }

  lemma JoinedMore(list: seq<Items>, before: seq<Items>, joined: seq<Items>)
    requires before <= joined
    ensures forall p, n: nat :: 0 <= p < |list| && n <= |list| && JoinedWith(list, p, n, before) ==> JoinedWith(list, p, n, joined)
  {
    assert forall s :: s in before ==> s in joined;
  }

  lemma NoneJoined(list: seq<Items>, p: nat, joined: seq<Items>)
    requires p < |list|
    ensures JoinedWith(list, p, p + 1, joined)
  {
  }

  lemma JoinedNext(list: seq<Items>, p: nat, n: nat, joined: seq<Items>)
    requires p < n < |list| && JoinedWith(list, p, n, joined)
    requires SamePrefix(list[p], list[n]) ==> Join(list[p], list[n]) in joined
    ensures JoinedWith(list, p, n + 1, joined)
  {
  }

  lemma AllJoined(list: seq<Items>, joined: seq<Items>)
    requires forall p :: 0 <= p < |list| ==> JoinedWith(list, p, |list|, joined)
    ensures forall i, j :: 0 <= i < j < |list| && SamePrefix(list[i], list[j]) ==> Join(list[i], list[j]) in joined
  {
    forall i, j | 0 <= i < j < |list| && SamePrefix(list[i], list[j]) ensures Join(list[i], list[j]) in joined {
      assert JoinedWith(list, i, |list|, joined);
    }
  }

  class Apriori {
    const d: Data
    var length: int
    var C: map<Items, real>
    var L: map<Items, real>
    var frequentPatterns: map<int, seq<Items>>
    var associationRules: seq<Rule>

    constructor (d: Data)
      ensures this.d == d && length == 1 && C == map[] && L == map[] && frequentPatterns == map[] && associationRules == []
    {
      this.d := d;
      length, C, L, frequentPatterns, associationRules := 1, map[], map[], map[], [];
    }

    /** Does the transaction have all the items? Every pair of equal items is counted. */
    method Contains(t: Items, s: Items) returns (all: bool)
      requires Increasing(s) && Increasing(t)
      ensures all == SubsetOf(s, t)
    {
      if |t| < |s| {
        if SubsetOf(s, t) { SubsetShorter(s, t); }
        return false;
      }
      var idx := 0;
      for i := 0 to |s|
        invariant idx == Found(s, t, i)
      {
        ghost var before := idx;
        for j := 0 to |t|
          invariant idx == before + (if s[i] in t[..j] then 1 else 0)
        {
          assert t[..j + 1] == t[..j] + [t[j]];
          if s[i] == t[j] {
            idx := idx + 1;
          }
        }
        assert t[..|t|] == t;
      }
      FoundAll(s, t, |s|);
      all := idx == |s|;
    }

    method GetSupport(itemList: Items) returns (r: real)
      requires d.Valid() && Increasing(itemList)
      ensures r == d.Support(itemList)
      ensures r * |d.ts| as real == 100.0 * |With(d.ts, itemList)| as real
    {
      hide With, Hits;
      var hit := CountHits(itemList);
      r := hit as real / |d.ts| as real * 100.0;
      SupportMeans(d, itemList);
    }

    /** The transactions that contain the itemset are counted. */
    method CountHits(itemList: Items) returns (hit: nat)
      requires d.Valid() && Increasing(itemList)
      ensures hit == Hits(d.ts, itemList)
    {
      hit := 0;
      for i := 0 to |d.ts|
        invariant hit == Hits(d.ts[..i], itemList)
      {
        var all := Contains(d.ts[i], itemList);
        if all {
          hit := hit + 1;
        }
        assert d.ts[..i + 1][..i] == d.ts[..i];
      }
      assert d.ts[..|d.ts|] == d.ts;
    }

    method AllItems() returns (items: set<int>)
      ensures forall x :: x in items <==> Occurs(d, x)
    {
      items := {};
      for i := 0 to |d.ts|
        invariant forall x :: x in items ==> Occurs(d, x)
        invariant forall k :: 0 <= k < i ==> forall x :: x in d.ts[k] ==> x in items
      {
        for j := 0 to |d.ts[i]|
          invariant forall x :: x in items ==> Occurs(d, x)
          invariant forall k :: 0 <= k < i ==> forall x :: x in d.ts[k] ==> x in items
          invariant forall x :: x in d.ts[i][..j] ==> x in items
        {
          assert d.ts[i][j] in d.ts[i] && d.ts[i][..j + 1] == d.ts[i][..j] + [d.ts[i][j]];
          items := items + {d.ts[i][j]};
        }
        assert d.ts[i][..|d.ts[i]|] == d.ts[i];
      }
    }

    /** The candidates of size 1: every item of a transaction. */
    method SingleItems()
      requires d.Valid() && C == map[]
      modifies this`C
      ensures Candidates(d, C, 1)
      ensures forall s :: s in C ==> Occurs(d, s[0])
    {
      var oneItemSet := AllItems();
      var items := Elements(oneItemSet);
      for k := 0 to |items|
        invariant forall s :: s in C <==> |s| == 1 && s[0] in items[..k]
        invariant forall s :: s in C ==> C[s] == d.Support(s)
      {
        var temp := [items[k]];
        var support := GetSupport(temp);
        C := C[temp := support];
        assert items[..k + 1] == items[..k] + [items[k]];
        assert forall s: Items :: |s| == 1 && s[0] == items[k] ==> s == temp;
      }
      assert items[..|items|] == items;
      forall s | d.Frequent(s) && |s| == 1 ensures s in C {
        FrequentItem(d, s);
      }
    }

    /** All joins of two itemsets of the list that differ in the last item only. */
    method Joins(list: seq<Items>) returns (joined: seq<Items>)
      requires length >= 2 && forall s :: s in list ==> Increasing(s) && |s| == length - 1
      requires forall i, j :: 0 <= i < j < |list| ==> list[i] != list[j]
      ensures forall s :: s in joined ==> Increasing(s) && |s| == length
      ensures forall i, j :: 0 <= i < j < |list| && SamePrefix(list[i], list[j]) ==> Join(list[i], list[j]) in joined
    {
      hide Increasing, SamePrefix, Join, JoinedWith;
      joined := [];
      for i := 0 to |list|
        invariant forall s :: s in joined ==> Increasing(s) && |s| == length
        invariant forall p :: 0 <= p < i ==> JoinedWith(list, p, |list|, joined)
      {
        NoneJoined(list, i, joined);
        for j := i + 1 to |list|
          invariant forall s :: s in joined ==> Increasing(s) && |s| == length
          invariant forall p :: 0 <= p < i ==> JoinedWith(list, p, |list|, joined)
          invariant JoinedWith(list, i, j, joined)
        {
          var before := joined;
          joined := JoinTwo(list[i], list[j], joined);
          JoinedMore(list, before, joined);
          JoinedNext(list, i, j, joined);
        }
      }
      AllJoined(list, joined);
    }

    method JoinTwo(a: Items, b: Items, joined: seq<Items>) returns (joined': seq<Items>)
      requires length >= 2 && |a| == |b| == length - 1 && Increasing(a) && Increasing(b) && a != b
      ensures joined' == if SamePrefix(a, b) then joined + [Join(a, b)] else joined
      ensures SamePrefix(a, b) ==> Increasing(Join(a, b)) && |Join(a, b)| == length
    {
      joined' := joined;
      var same := ComparePrefix(a, b);
      if same {
        JoinIncreasing(a, b);
        var temp := a[..length - 2];
        if a[length - 2] > b[length - 2] {
          temp := temp + [b[length - 2]] + [a[length - 2]];
        } else {
          temp := temp + [a[length - 2]] + [b[length - 2]];
        }
        assert temp == Join(a, b);
        joined' := joined + [temp];
      }
    }

    method ComparePrefix(a: Items, b: Items) returns (same: bool)
      requires length >= 2 && |a| == |b| == length - 1
      ensures same == SamePrefix(a, b)
    {
      var idx := 0;
      while idx < length - 2 && a[idx] == b[idx]
        invariant 0 <= idx <= length - 2 && a[..idx] == b[..idx]
      {
        idx := idx + 1;
      }
      same := idx == length - 2;
      if !same { assert a[..|a| - 1][idx] != b[..|b| - 1][idx]; }
    }

    /** Are all itemsets that lack one item of `cand` frequent? */
    method Survives(cand: Items, level: set<Items>) returns (yes: bool)
      ensures yes == forall i :: 0 <= i < |cand| ==> Drop(cand, i) in level
    {
      var idx := 0;
      while idx < |cand|
        invariant 0 <= idx <= |cand| && forall i :: 0 <= i < idx ==> Drop(cand, i) in level
      {
        var temp := cand[..idx] + cand[idx + 1..];
        assert temp == Drop(cand, idx);
        if temp !in level {
          return false;
        }
        idx := idx + 1;
      }
      yes := true;
    }

    /** The candidates of the next size: joins of frequent itemsets whose subsets are all frequent. */
    method JoiningAndPruning()
      requires d.Valid() && length >= 2 && Level(d, L, length - 1)
      modifies this`C, this`L
      ensures L == map[] && Candidates(d, C, length)
      ensures forall s :: s in C ==> forall i :: 0 <= i < |s| ==> Drop(s, i) in old(L)
    {
      ghost var level := L;
      var list := Elements(L.Keys);
      var levelSet := set s | s in list;
      L, C := map[], map[];
      var joined := Joins(list);
      for k := 0 to |joined|
        invariant L == map[]
        invariant forall s :: s in C ==> s in joined[..k] && Increasing(s) && |s| == length && C[s] == d.Support(s)
        invariant forall s :: s in C <==> s in joined[..k] && forall i :: 0 <= i < |s| ==> Drop(s, i) in level
      {
        var yes := Survives(joined[k], levelSet);
        if yes {
          var support := GetSupport(joined[k]);
          C := C[joined[k] := support];
        }
        assert joined[..k + 1] == joined[..k] + [joined[k]];
      }
      assert joined[..|joined|] == joined;
      forall s | d.Frequent(s) && |s| == length ensures s in C {
        FrequentJoined(d, level, list, joined, s);
      }
    }

    method GenerateC()
      requires d.Valid() && length >= 1
      requires if length == 1 then C == map[] && L == map[] else Level(d, L, length - 1)
      modifies this`C, this`L
      ensures L == map[] && Candidates(d, C, length)
      ensures C != map[] ==> exists i :: 0 <= i < |d.ts| && length - 1 <= |d.ts[i]|
    {
      if length == 1 {
        SingleItems();
        if C != map[] {
          var s :| s in C;
          assert Occurs(d, s[0]);
        }
      } else {
        ghost var level := L;
        JoiningAndPruning();
        if C != map[] {
          var s :| s in C;
          assert Drop(s, 0) in level;
          ghost var i := FrequentOccurs(d, Drop(s, 0));
        }
      }
    }

    /** Keeps the frequent candidates. */
    method GenerateL()
      requires d.Valid() && length >= 1 && L == map[] && Candidates(d, C, length)
      modifies this`L, this`frequentPatterns
      ensures Level(d, L, length)
      ensures length in frequentPatterns && Patterns(d, frequentPatterns[length], length)
      ensures frequentPatterns == old(frequentPatterns)[length := frequentPatterns[length]]
    {
      hide Candidates, Level, Patterns, Pick, Chosen;
      NothingChosen(C, d.minSupport);
      var keys := Elements(C.Keys);
      var temp: seq<Items> := [];
      assert keys[..0] == [];
      for k := 0 to |keys|
        invariant L == Pick(C, temp) && Chosen(C, d.minSupport, keys[..k], temp)
        invariant frequentPatterns == old(frequentPatterns)
      {
        assert keys[k] in keys;
        ChosenNext(C, d.minSupport, keys, k, temp);
        PickNext(C, temp, keys[k]);
        if C[keys[k]] >= d.minSupport {
          L := L[keys[k] := C[keys[k]]];
          temp := temp + [keys[k]];
        }
      }
      assert keys[..|keys|] == keys;
      frequentPatterns := frequentPatterns[length := temp];
      AllChosen(d, C, keys, temp, length);
    }

    /** Finds the frequent itemsets, size by size, until no candidate is left. */
    method Mine()
      requires d.Valid() && length == 1 && C == map[] && L == map[] && frequentPatterns == map[]
      modifies this`length, this`C, this`L, this`frequentPatterns
      ensures length >= 1
      ensures forall k :: 1 <= k < length ==> k in frequentPatterns && Patterns(d, frequentPatterns[k], k)
      ensures forall s :: d.Frequent(s) ==> |s| < length
    {
      var longest := Longest();
      while true
        invariant 1 <= length <= longest + 2
        invariant if length == 1 then C == map[] && L == map[] else Level(d, L, length - 1)
        invariant forall k :: 1 <= k < length ==> k in frequentPatterns && Patterns(d, frequentPatterns[k], k)
        decreases longest + 2 - length
      {
        GenerateC();
        if C == map[] {
          break;
        }
        GenerateL();
        length := length + 1;
      }
      forall s | d.Frequent(s) ensures |s| < length {
        if |s| >= length { NoneLarger(d, length, s); }
      }
    }

    /** What mining leaves behind: the frequent itemsets of every size, and none as large as `length`. */
    ghost predicate Mined()
      reads this
    {
      && d.Valid() && length >= 1
      && (forall k :: 1 <= k < length ==> k in frequentPatterns && Patterns(d, frequentPatterns[k], k))
      && (forall s :: d.Frequent(s) ==> |s| < length)
    }

    method IsHaveSameItem(small: Items, large: Items) returns (yes: bool)
      ensures yes == !Disjoint(small, large)
    {
      yes := false;
      for i := 0 to |small|
        invariant !yes && forall x :: x in small[..i] ==> x !in large
      {
        assert small[i] in small && small[..i + 1] == small[..i] + [small[i]];
        if small[i] in large {
          ghost var x := small[i];
          assert x in small && x in large;
          return true;
        }
      }
      assert small[..|small|] == small;
    }

    method IsContains(small: Items, large: Items) returns (yes: bool)
      ensures yes == SubsetOf(small, large)
    {
      yes := true;
      for i := 0 to |small|
        invariant yes && forall x :: x in small[..i] ==> x in large
      {
        assert small[i] in small && small[..i + 1] == small[..i] + [small[i]];
        if small[i] !in large {
          ghost var x := small[i];
          assert x in small && x !in large;
          return false;
        }
      }
      assert small[..|small|] == small;
    }

    /** Are the two itemsets together a frequent one? */
    method SeekNextLength(small: Items, large: Items) returns (yes: bool)
      requires Mined() && small != [] && |small| + |large| < length
      ensures yes == d.Frequent(Sort(small + large))
    {
      var temp := Sort(small + large);
      SortFacts(small + large);
      var list := frequentPatterns[|small| + |large|];
      hide Sort;
      for k := 0 to |list|
        invariant forall m :: 0 <= m < k ==> list[m] != temp
      {
        if temp == list[k] {
          return true;
        }
      }
      yes := false;
    }

    method GenerateAssociationRules(itemList1: Items, itemList2: Items)
      requires d.Valid() && GivesRule(d, itemList1, itemList2)
      modifies this`associationRules
      ensures old(associationRules) <= associationRules
      ensures BothWays(d, itemList1, itemList2, associationRules[|old(associationRules)|..])
    {
      PartsFrequent(d, itemList1, itemList2);
      GivesRuleSymmetric(d, itemList1, itemList2);
      SortSymmetric(itemList1, itemList2);
      hide Sort;
      var agg := Sort(itemList1 + itemList2);
      var support := GetSupport(agg);
      var support1 := GetSupport(itemList1);
      var support2 := GetSupport(itemList2);
      associationRules := associationRules + [Rule(itemList1, itemList2, support, support / support1 * 100.0)];
      associationRules := associationRules + [Rule(itemList2, itemList1, support, support / support2 * 100.0)];
    }

    /** The rules between itemsets of sizes `i` and `j`. */
    method RulesOfSizes(i: nat, j: nat)
      requires Mined() && 1 <= i <= j && i + j < length
      modifies this`associationRules
      ensures old(associationRules) <= associationRules
      ensures Gives(d, i, j, associationRules[|old(associationRules)|..])
    {
      var u, v := frequentPatterns[i], frequentPatterns[j];
      ghost var base := associationRules;
      ghost var more: seq<Rule> := [];
      NothingCovered(d, u, v, i == j);
      hide Covered, RuleRight, Mined, GivesRule;
      for a := 0 to |u|
        invariant associationRules == base + more && Covered(d, u, v, a, 0, i == j, more)
      {
        SameStart(d, u, v, a, i == j, more);
        for b := (if i == j then a + 1 else 0) to |v|
          invariant associationRules == base + more && Covered(d, u, v, a, b, i == j, more)
        {
          more := Consider(u, v, i, j, a, b, base, more);
        }
        RowDone(d, u, v, a, i == j, more);
      }
      assert associationRules[|base|..] == more;
      AllCovered(d, u, v, i, j, more);
    }

    /** One pair of itemsets, and the two rules that it may give. */
    method Consider(u: seq<Items>, v: seq<Items>, i: nat, j: nat, a: nat, b: nat, ghost base: seq<Rule>, ghost more: seq<Rule>)
      returns (ghost more': seq<Rule>)
      requires Mined() && 1 <= i <= j && i + j < length && a < |u| && b < |v| && (i == j ==> u == v && a < b)
      requires Patterns(d, u, i) && Patterns(d, v, j)
      requires associationRules == base + more && Covered(d, u, v, a, b, i == j, more)
      modifies this`associationRules
      ensures associationRules == base + more' && Covered(d, u, v, a, b + 1, i == j, more')
    {
      assert u[a] in u && v[b] in v;
      hide Covered, RuleRight, GivesRule;
      more' := more;
      var yes := RulePossible(u[a], v[b], i == j);
      if yes {
        ghost var before := associationRules;
        GenerateAssociationRules(u[a], v[b]);
        CoveredTwo(d, u, v, i, j, a, b, more, associationRules[|before|..]);
        more' := more + associationRules[|before|..];
        assert associationRules == base + more';
      } else {
        CoveredSkip(d, u, v, a, b, i == j, more);
      }
    }

    /** The test made before a rule is generated. */
    method RulePossible(small: Items, large: Items, sameSize: bool) returns (yes: bool)
      requires Mined() && d.Frequent(small) && d.Frequent(large) && |small| + |large| < length
      ensures yes == GivesRule(d, small, large)
    {
      UnionIncreasing(small, large);
      var excluded;
      if sameSize {
        excluded := IsHaveSameItem(small, large);
      } else {
        excluded := IsContains(small, large);
      }
      if SubsetOf(small, large) { assert small[0] in small; }
      yes := false;
      if !excluded {
        yes := SeekNextLength(small, large);
      }
    }

    /** All rules, by the sizes of their two parts. */
    method GenerateRules()
      requires Mined() && associationRules == []
      modifies this`associationRules
      ensures forall r :: r in associationRules ==> RuleRight(d, r)
      ensures forall x, y :: Count(associationRules, x, y) == if GivesRule(d, x, y) then 1 else 0
    {
      NothingGiven(d);
      hide Reached, GivenTo, Gives;
      for i := 1 to length
        invariant GivenTo(d, i, i, associationRules)
      {
        var j := i;
        while j < length - i
          invariant i <= j && (j <= length - i || j == i) && GivenTo(d, i, j, associationRules)
        {
          ghost var before := associationRules;
          RulesOfSizes(i, j);
          GivenNext(d, i, j, before, associationRules[|before|..]);
          assert associationRules == before + associationRules[|before|..];
          j := j + 1;
        }
        SizeDone(d, i, j, length, associationRules);
      }
      AllGiven(d, length, associationRules);
    }

    /** Frequent itemsets of every size, and one right rule for every pair of disjoint itemsets that together are frequent. */
    method RunJob()
      requires d.Valid() && length == 1 && C == map[] && L == map[] && frequentPatterns == map[] && associationRules == []
      modifies this
      ensures forall k :: 1 <= k < length ==> k in frequentPatterns && Patterns(d, frequentPatterns[k], k)
      ensures forall s :: d.Frequent(s) ==> |s| < length
      ensures forall r :: r in associationRules ==> RuleRight(d, r)
      ensures forall x, y :: Count(associationRules, x, y) == if GivesRule(d, x, y) then 1 else 0
    {
      Mine();
      GenerateRules();
    }

    method Longest() returns (n: nat)
      ensures forall i :: 0 <= i < |d.ts| ==> |d.ts[i]| <= n
    {
      n := 0;
      for i := 0 to |d.ts|
        invariant forall k :: 0 <= k < i ==> |d.ts[k]| <= n
      {
        if |d.ts[i]| > n { n := |d.ts[i]|; }
      }
    }
  }

  /** `temp` lists once each those of the keys whose support is high enough. */
  ghost predicate Chosen(c: map<Items, real>, least: real, keys: seq<Items>, temp: seq<Items>) {
    && (forall i, j :: 0 <= i < j < |temp| ==> temp[i] != temp[j])
    && (forall s :: s in temp <==> s in keys && s in c && c[s] >= least)
  }

  lemma ChosenNext(c: map<Items, real>, least: real, keys: seq<Items>, k: nat, temp: seq<Items>)
    requires k < |keys| && Chosen(c, least, keys[..k], temp) && keys[k] in c
    requires forall i, j :: 0 <= i < j < |keys| ==> keys[i] != keys[j]
    ensures Chosen(c, least, keys[..k + 1], if c[keys[k]] >= least then temp + [keys[k]] else temp)
  {
    assert keys[..k + 1] == keys[..k] + [keys[k]];
    assert keys[k] !in keys[..k];
  }

  /** The part of a map with the keys listed. */
  function Pick(c: map<Items, real>, temp: seq<Items>): map<Items, real> {
    map s | s in c && s in temp :: c[s]
  }

  lemma PickNext(c: map<Items, real>, temp: seq<Items>, s: Items)
    requires s in c
    ensures Pick(c, temp + [s]) == Pick(c, temp)[s := c[s]]
  {
  }

  lemma NothingChosen(c: map<Items, real>, least: real)
    ensures Chosen(c, least, [], []) && Pick(c, []) == map[]
  {
  }

  lemma AllChosen(d: Data, c: map<Items, real>, keys: seq<Items>, temp: seq<Items>, k: nat)
    requires d.Valid() && k >= 1 && Candidates(d, c, k) && Chosen(c, d.minSupport, keys, temp)
    requires forall s :: s in keys <==> s in c
    ensures Level(d, Pick(c, temp), k) && Patterns(d, temp, k)
  {
    forall s ensures s in temp <==> d.Frequent(s) && |s| == k {
    }
  }

  // ----- every rule once -----

  /** The right rules from `x` to `y` and back. */
  ghost predicate BothWays(d: Data, x: Items, y: Items, two: seq<Rule>)
    requires d.Valid()
  {
    && |two| == 2 && two[0].x == two[1].y == x && two[0].y == two[1].x == y
    && RuleRight(d, two[0]) && RuleRight(d, two[1])
  }

  /** The pair (x, y) stands before place (a, b) of the table of all pairs from `u` and `v`; in the table of a list with itself
      only the half above the diagonal counts. */
  ghost predicate Before(u: seq<Items>, v: seq<Items>, a: nat, b: nat, same: bool, x: Items, y: Items) {
    exists p, q :: 0 <= p < |u| && 0 <= q < |v| && (same ==> p < q) && (p < a || (p == a && q < b)) && u[p] == x && v[q] == y
  }

  /** One right rule for each direction of each pair passed so far. */
  ghost predicate Covered(d: Data, u: seq<Items>, v: seq<Items>, a: nat, b: nat, same: bool, rules: seq<Rule>)
    requires d.Valid()
  {
    && (forall r :: r in rules ==> RuleRight(d, r))
    && forall x, y :: Count(rules, x, y) ==
         if GivesRule(d, x, y) && (Before(u, v, a, b, same, x, y) || Before(u, v, a, b, same, y, x)) then 1 else 0
  }

  lemma NothingCovered(d: Data, u: seq<Items>, v: seq<Items>, same: bool)
    requires d.Valid()
    ensures Covered(d, u, v, 0, 0, same, [])
  {
  }

  lemma SameStart(d: Data, u: seq<Items>, v: seq<Items>, a: nat, same: bool, rules: seq<Rule>)
    requires d.Valid() && Covered(d, u, v, a, 0, same, rules)
    ensures Covered(d, u, v, a, if same then a + 1 else 0, same, rules)
  {
    forall x, y ensures Before(u, v, a, if same then a + 1 else 0, same, x, y) == Before(u, v, a, 0, same, x, y) {
    }
  }

  lemma RowDone(d: Data, u: seq<Items>, v: seq<Items>, a: nat, same: bool, rules: seq<Rule>)
    requires d.Valid() && Covered(d, u, v, a, |v|, same, rules)
    ensures Covered(d, u, v, a + 1, 0, same, rules)
  {
    forall x, y ensures Before(u, v, a, |v|, same, x, y) == Before(u, v, a + 1, 0, same, x, y) {
    }
  }

  lemma BeforeNext(u: seq<Items>, v: seq<Items>, a: nat, b: nat, same: bool, x: Items, y: Items)
    requires a < |u| && b < |v| && (same ==> a < b)
    ensures Before(u, v, a, b + 1, same, x, y) <==> Before(u, v, a, b, same, x, y) || (u[a] == x && v[b] == y)
  {
    if Before(u, v, a, b + 1, same, x, y) && !(u[a] == x && v[b] == y) {
      var p, q :| 0 <= p < |u| && 0 <= q < |v| && (same ==> p < q) && (p < a || (p == a && q < b + 1)) && u[p] == x && v[q] == y;
      assert p < a || q < b;
    }
  }

  lemma CoveredSkip(d: Data, u: seq<Items>, v: seq<Items>, a: nat, b: nat, same: bool, rules: seq<Rule>)
    requires d.Valid() && Covered(d, u, v, a, b, same, rules) && a < |u| && b < |v| && (same ==> a < b)
    requires !GivesRule(d, u[a], v[b])
    ensures Covered(d, u, v, a, b + 1, same, rules)
  {
    hide GivesRule, Before;
    if GivesRule(d, v[b], u[a]) { GivesRuleSymmetric(d, v[b], u[a]); }
    forall x, y ensures Before(u, v, a, b + 1, same, x, y) <==> Before(u, v, a, b, same, x, y) || (u[a] == x && v[b] == y) {
      BeforeNext(u, v, a, b, same, x, y);
    }
  }

  /** Each pair comes up once. */
  lemma NotBefore(d: Data, u: seq<Items>, v: seq<Items>, i: nat, j: nat, a: nat, b: nat)
    requires d.Valid() && Patterns(d, u, i) && Patterns(d, v, j) && (i == j ==> u == v && a < b) && a < |u| && b < |v|
    ensures !Before(u, v, a, b, i == j, u[a], v[b]) && !Before(u, v, a, b, i == j, v[b], u[a])
  {
    assert u[a] in u && v[b] in v;
    forall p, q | 0 <= p < |u| && 0 <= q < |v| && u[p] == v[b] && v[q] == u[a] ensures i == j && p == b && q == a {
      SamePlaces(d, u, v, i, j, a, b, p, q);
    }
  }

  lemma SamePlaces(d: Data, u: seq<Items>, v: seq<Items>, i: nat, j: nat, a: nat, b: nat, p: nat, q: nat)
    requires d.Valid() && Patterns(d, u, i) && Patterns(d, v, j) && (i == j ==> u == v)
    requires a < |u| && b < |v| && p < |u| && q < |v| && u[p] == v[b] && v[q] == u[a]
    ensures i == j && p == b && q == a
  {
    assert u[p] in u && v[b] in v;
  }

  lemma CountTwo(d: Data, s: Items, l: Items, two: seq<Rule>, x: Items, y: Items)
    requires d.Valid() && BothWays(d, s, l, two) && GivesRule(d, s, l)
    ensures Count(two, x, y) == if (x == s && y == l) || (x == l && y == s) then 1 else 0
  {
    assert s[0] in s;
    assert two == [two[0]] + [two[1]];
    CountSum([two[0]], [two[1]], x, y);
  }

  lemma CoveredTwo(d: Data, u: seq<Items>, v: seq<Items>, i: nat, j: nat, a: nat, b: nat, rules: seq<Rule>, two: seq<Rule>)
    requires d.Valid() && Covered(d, u, v, a, b, i == j, rules) && a < |u| && b < |v|
    requires Patterns(d, u, i) && Patterns(d, v, j) && (i == j ==> u == v && a < b)
    requires GivesRule(d, u[a], v[b]) && BothWays(d, u[a], v[b], two)
    ensures Covered(d, u, v, a, b + 1, i == j, rules + two)
  {
    hide GivesRule, Before, RuleRight, Patterns;
    var s, l, same := u[a], v[b], i == j;
    NotBefore(d, u, v, i, j, a, b);
    GivesRuleSymmetric(d, s, l);
    assert forall r :: r in rules + two ==> r in rules || r == two[0] || r == two[1];
    forall x, y ensures Count(rules + two, x, y)
        == if GivesRule(d, x, y) && (Before(u, v, a, b + 1, same, x, y) || Before(u, v, a, b + 1, same, y, x)) then 1 else 0 {
      CountSum(rules, two, x, y);
      CountTwo(d, s, l, two, x, y);
      BeforeNext(u, v, a, b, same, x, y);
      BeforeNext(u, v, a, b, same, y, x);
    }
  }

  predicate SizesAre(x: Items, y: Items, i: nat, j: nat) {
    (|x| == i && |y| == j) || (|x| == j && |y| == i)
  }

  /** One right rule for each pair of itemsets of these sizes that gives one. */
  ghost predicate Gives(d: Data, i: nat, j: nat, rules: seq<Rule>)
    requires d.Valid()
  {
    && (forall r :: r in rules ==> RuleRight(d, r))
    && forall x, y :: Count(rules, x, y) == if GivesRule(d, x, y) && SizesAre(x, y, i, j) then 1 else 0
  }

  lemma InTable(d: Data, u: seq<Items>, v: seq<Items>, i: nat, j: nat, x: Items, y: Items)
    requires d.Valid() && Patterns(d, u, i) && Patterns(d, v, j) && (i == j ==> u == v) && GivesRule(d, x, y)
    ensures SizesAre(x, y, i, j) <==> Before(u, v, |u|, 0, i == j, x, y) || Before(u, v, |u|, 0, i == j, y, x)
  {
    PartsFrequent(d, x, y);
    assert x[0] in x;
    if |x| == i && |y| == j {
      assert x in u && y in v;
      var p :| 0 <= p < |u| && u[p] == x;
      var q :| 0 <= q < |v| && v[q] == y;
      if i == j && q < p {
        assert u[q] == y && v[p] == x;
      }
    } else if |x| == j && |y| == i {
      assert y in u && x in v;
      var p :| 0 <= p < |u| && u[p] == y;
      var q :| 0 <= q < |v| && v[q] == x;
    }
  }

  lemma AllCovered(d: Data, u: seq<Items>, v: seq<Items>, i: nat, j: nat, rules: seq<Rule>)
    requires d.Valid() && Patterns(d, u, i) && Patterns(d, v, j) && (i == j ==> u == v)
    requires Covered(d, u, v, |u|, 0, i == j, rules)
    ensures Gives(d, i, j, rules)
  {
    hide Before, GivesRule, Patterns, RuleRight;
    forall x, y ensures Count(rules, x, y) == if GivesRule(d, x, y) && SizesAre(x, y, i, j) then 1 else 0 {
      if GivesRule(d, x, y) { InTable(d, u, v, i, j, x, y); }
    }
  }

  /** Has the pair been reached when the sizes stand at `i` and `j`? */
  predicate Reached(x: Items, y: Items, i: nat, j: nat) {
    var lo, hi := if |x| < |y| then |x| else |y|, if |x| < |y| then |y| else |x|;
    lo < i || (lo == i && hi < j)
  }

  ghost predicate GivenTo(d: Data, i: nat, j: nat, rules: seq<Rule>)
    requires d.Valid()
  {
    && (forall r :: r in rules ==> RuleRight(d, r))
    && forall x, y :: Count(rules, x, y) == if GivesRule(d, x, y) && Reached(x, y, i, j) then 1 else 0
  }

  lemma NothingGiven(d: Data)
    requires d.Valid()
    ensures GivenTo(d, 1, 1, [])
  {
    forall x, y | GivesRule(d, x, y) ensures !Reached(x, y, 1, 1) {
    }
  }

  lemma GivenNext(d: Data, i: nat, j: nat, rules: seq<Rule>, more: seq<Rule>)
    requires d.Valid() && i <= j && GivenTo(d, i, j, rules) && Gives(d, i, j, more)
    ensures GivenTo(d, i, j + 1, rules + more)
  {
    hide GivesRule, RuleRight;
    forall x, y ensures Count(rules + more, x, y) == if GivesRule(d, x, y) && Reached(x, y, i, j + 1) then 1 else 0 {
      CountSum(rules, more, x, y);
    }
  }

  /** Itemsets too large to be frequent together give no rule. */
  lemma SizeDone(d: Data, i: nat, j: nat, n: nat, rules: seq<Rule>)
    requires d.Valid() && GivenTo(d, i, j, rules) && i <= j && i + j >= n && forall s :: d.Frequent(s) ==> |s| < n
    ensures GivenTo(d, i + 1, i + 1, rules)
  {
    forall x, y | GivesRule(d, x, y) ensures Reached(x, y, i, j) == Reached(x, y, i + 1, i + 1) {
      PartsFrequent(d, x, y);
    }
  }

  lemma AllGiven(d: Data, n: nat, rules: seq<Rule>)
    requires d.Valid() && GivenTo(d, n, n, rules) && forall s :: d.Frequent(s) ==> |s| < n
    ensures forall r :: r in rules ==> RuleRight(d, r)
    ensures forall x, y :: Count(rules, x, y) == if GivesRule(d, x, y) then 1 else 0
  {
    forall x, y | GivesRule(d, x, y) ensures Reached(x, y, n, n) {
      PartsFrequent(d, x, y);
    }
  }

  /** A frequent itemset is among the joins, and everything that lacks one of its items is frequent. */
  lemma FrequentJoined(d: Data, level: map<Items, real>, list: seq<Items>, joined: seq<Items>, s: Items)
    requires d.Valid() && d.Frequent(s) && |s| >= 2 && Level(d, level, |s| - 1)
    requires forall t :: t in list <==> t in level
    requires forall i, j :: 0 <= i < j < |list| && SamePrefix(list[i], list[j]) ==> Join(list[i], list[j]) in joined
    ensures s in joined && forall i :: 0 <= i < |s| ==> Drop(s, i) in level
  {
    forall i | 0 <= i < |s| ensures Drop(s, i) in level {
      DropFrequent(d, s, i);
      DropFacts(s, i);
    }
    Joined(s);
    var a, b := Drop(s, |s| - 1), Drop(s, |s| - 2);
    assert a in list && b in list;
    var i :| 0 <= i < |list| && list[i] == a;
    var j :| 0 <= j < |list| && list[j] == b;
  }
}
