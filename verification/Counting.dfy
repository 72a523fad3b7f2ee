/** Lists without repetition, and how many elements sets and lists have. */
module Counting {

  ghost predicate NoDup<T>(s: seq<T>) {
    forall i, j :: 0 <= i < j < |s| ==> s[i] != s[j]
  }

  /** Take h out of a list. */
  function Without(s: seq<nat>, h: nat): (r: seq<nat>)
    ensures forall x :: x in r <==> x in s && x != h
  {
    if s == [] then [] else if s[0] == h then Without(s[1..], h) else [s[0]] + Without(s[1..], h)
  }

  lemma {:induction false} WithoutNoDup(s: seq<nat>, h: nat)
    requires NoDup(s)
    ensures NoDup(Without(s, h))
    ensures |Without(s, h)| == if h in s then |s| - 1 else |s|
  {
    if s != [] {
      assert s[0] !in s[1..];
      WithoutNoDup(s[1..], h);
      var w := Without(s[1..], h);
      assert forall i :: 0 <= i < |w| ==> w[i] in w;
    }
  }

  lemma {:induction false} WithoutLess(s: seq<nat>, h: nat)
    ensures |Without(s, h)| <= |s|
  {
    if s != [] { WithoutLess(s[1..], h); }
  }

  lemma WithoutFirst(s: seq<nat>)
    requires NoDup(s) && s != []
    ensures Without(s, s[0]) == s[1..]
  {
    WithoutOther(s[1..], s[0]);
  }

  lemma {:induction false} WithoutOther(s: seq<nat>, h: nat)
    requires h !in s
    ensures Without(s, h) == s
  {
    if s != [] { WithoutOther(s[1..], h); }
  }

  /** How many entries the lists have together. */
  ghost function Total(lists: seq<seq<nat>>): nat {
    if lists == [] then 0 else |lists[0]| + Total(lists[1..])
  }

  lemma {:induction false} TotalUpdate(lists: seq<seq<nat>>, i: nat, l: seq<nat>)
    requires i < |lists|
    ensures Total(lists[i := l]) == Total(lists) - |lists[i]| + |l|
  {
    if i > 0 {
      assert lists[i := l][1..] == lists[1..][i - 1 := l];
      TotalUpdate(lists[1..], i - 1, l);
    } else {
      assert lists[0 := l][1..] == lists[1..];
    }
  }

  lemma {:induction false} TotalEmpty(lists: seq<seq<nat>>)
    requires forall i :: 0 <= i < |lists| ==> lists[i] == []
    ensures Total(lists) == 0
  {
    if lists != [] { TotalEmpty(lists[1..]); }
  }

  /** All entries of the lists. */
  ghost function Entries(lists: seq<seq<nat>>): set<nat> {
    if lists == [] then {} else Elements(lists[0]) + Entries(lists[1..])
  }

  ghost function Elements(l: seq<nat>): set<nat> {
    set x | x in l
  }

  lemma {:induction false} ElementsAtMost(l: seq<nat>)
    ensures |Elements(l)| <= |l|
  {
    if l != [] {
      ElementsAtMost(l[1..]);
      assert Elements(l) == {l[0]} + Elements(l[1..]);
    }
  }

  lemma {:induction false} EntriesAtMost(lists: seq<seq<nat>>)
    ensures |Entries(lists)| <= Total(lists)
  {
    if lists != [] {
      ElementsAtMost(lists[0]);
      EntriesAtMost(lists[1..]);
    }
  }

  lemma {:induction false} InEntries(lists: seq<seq<nat>>, i: nat, x: nat)
    requires i < |lists| && x in lists[i]
    ensures x in Entries(lists)
  {
    if i > 0 { InEntries(lists[1..], i - 1, x); }
  }

  lemma {:induction false} InSome(lists: seq<seq<nat>>, x: nat) returns (i: nat)
    requires x in Entries(lists)
    ensures i < |lists| && x in lists[i]
  {
    if x in lists[0] {
      i := 0;
    } else {
      i := InSome(lists[1..], x);
      i := i + 1;
    }
  }

  lemma {:induction false} NotInEntries(lists: seq<seq<nat>>, x: nat)
    requires forall i :: 0 <= i < |lists| ==> x !in lists[i]
    ensures x !in Entries(lists)
  {
    if lists != [] { NotInEntries(lists[1..], x); }
  }

  lemma {:induction false} ElementsExactly(l: seq<nat>)
    requires NoDup(l)
    ensures |Elements(l)| == |l|
  {
    if l != [] {
      ElementsExactly(l[1..]);
      assert Elements(l) == {l[0]} + Elements(l[1..]);
    }
  }

  /** Lists without repetition that have nothing in common. */
  lemma {:induction false} EntriesExactly(lists: seq<seq<nat>>)
    requires forall i :: 0 <= i < |lists| ==> NoDup(lists[i])
    requires forall i, j, x :: 0 <= i < j < |lists| && x in lists[i] ==> x !in lists[j]
    ensures |Entries(lists)| == Total(lists)
  {
    if lists != [] {
      ElementsExactly(lists[0]);
      EntriesExactly(lists[1..]);
      forall x | x in Elements(lists[0])
        ensures x !in Entries(lists[1..])
      {
        NotInEntries(lists[1..], x);
      }
    }
  }

  function Numbers(n: nat): (r: set<nat>)
    ensures forall x :: x in r <==> 0 <= x < n
  {
    if n == 0 then {} else Numbers(n - 1) + {n - 1}
  }

  lemma {:induction false} NumbersCount(n: nat)
    ensures |Numbers(n)| == n
  {
    if n > 0 { NumbersCount(n - 1); }
  }

  ghost function Image(s: set<nat>, f: map<nat, nat>): set<nat>
    requires s <= f.Keys
  {
    set x | x in s :: f[x]
  }

  lemma {:induction false} ImageExactly(s: set<nat>, f: map<nat, nat>)
    requires s <= f.Keys && forall x, y :: x in s && y in s && x != y ==> f[x] != f[y]
    ensures |Image(s, f)| == |s|
  {
    if s != {} {
      var x :| x in s;
      ImageExactly(s - {x}, f);
      assert Image(s, f) == Image(s - {x}, f) + {f[x]};
    }
  }

  lemma {:induction false} ImageAtMost(s: set<nat>, f: map<nat, nat>)
    requires s <= f.Keys
    ensures |Image(s, f)| <= |s|
  {
    if s != {} {
      var x :| x in s;
      ImageAtMost(s - {x}, f);
      assert Image(s, f) == Image(s - {x}, f) + {f[x]};
    }
  }

  /** Fewer than n numbers leave one below n free. */
  lemma FreeBelow(s: set<nat>, n: nat)
    requires |s| < n
    ensures exists x :: x in Numbers(n) && x !in s
  {
    if forall x :: x in Numbers(n) ==> x in s {
      NumbersCount(n);
      Subset(Numbers(n), s);
    }
  }

  lemma {:induction false} Subset<T>(a: set<T>, b: set<T>)
    requires a <= b
    ensures |a| <= |b|
  {
    if a != {} {
      var x :| x in a;
      Subset(a - {x}, b - {x});
    }
  }

  ghost function Sum(s: seq<nat>): nat {
    if s == [] then 0 else s[0] + Sum(s[1..])
  }

  lemma SumNone()
    ensures Sum([]) == 0
  {
  }

  /** While less than the whole has been summed up, there is a next one. */
  lemma {:induction false} SpaceStep(s: seq<nat>, i: nat)
    requires i <= |s| && Sum(s[..i]) < Sum(s)
    ensures i < |s| && Sum(s[..i + 1]) == Sum(s[..i]) + s[i]
  {
    assert s[..|s|] == s;
    assert s[..i + 1] == s[..i] + [s[i]];
    SumSnoc(s[..i], s[i]);
  }

  lemma {:induction false} SumSnoc(s: seq<nat>, x: nat)
    ensures Sum(s + [x]) == Sum(s) + x
  {
    if s != [] {
      SumSnoc(s[1..], x);
      assert (s + [x])[1..] == s[1..] + [x];
    }
  }
}
