/** The ordered listener list every localization provider keeps
    (AbstractLocalizationProvider): append unless present, remove by identity. */
module Registry {

  /** No listener occurs twice in the list. */
  ghost predicate NoDuplicates<L>(s: seq<L>)
  {
    forall i, j :: 0 <= i < j < |s| ==> s[i] != s[j]
  }

  /** The list after addLocalizationListener(l): the old list is kept as a prefix,
      and l is appended only when it is not already registered. */
  function Added<L(==)>(s: seq<L>, l: L): (r: seq<L>)
    ensures |r| == |s| + (if l in s then 0 else 1)
    ensures r[..|s|] == s && l in r
    ensures forall x <- r :: x in s || x == l
    ensures forall x <- s :: x in r
    ensures NoDuplicates(s) ==> NoDuplicates(r)
  {
    if l in s then s else s + [l]
  }

  /** Position of the first occurrence of l in s. */
  function FirstIndex<L(==)>(s: seq<L>, l: L): (i: nat)
    requires l in s
    ensures i < |s| && s[i] == l && l !in s[..i]
  {
    if s[0] == l then 0 else 1 + FirstIndex(s[1..], l)
  }

  /** The list after removeLocalizationListener(l), which is ArrayList.remove(Object):
      the first occurrence of l is deleted; an absent listener leaves the list as it was. */
  function Removed<L(==)>(s: seq<L>, l: L): (r: seq<L>)
    ensures l !in s ==> r == s
    ensures |r| == if l in s then |s| - 1 else |s|
  {
    if s == [] then []
    else if s[0] == l then s[1..]
    else [s[0]] + Removed(s[1..], l)
  }

  /** Removal cuts out exactly the first occurrence: everything before and after it
      keeps its relative order. */
  lemma {:induction false} RemovedSplits<L>(s: seq<L>, l: L)
    requires l in s
    ensures Removed(s, l) == s[..FirstIndex(s, l)] + s[FirstIndex(s, l) + 1..]
  {
    if s[0] == l {
      assert s[..0] == [];
    } else {
      var t := s[1..];
      RemovedSplits(t, l);
      assert s == [s[0]] + t;
      ConsCut(s[0], t, FirstIndex(t, l));
    }
  }

  /** Cutting position k out of t and then putting x in front is cutting position k + 1
      out of x in front of t. */
  lemma ConsCut<L>(x: L, t: seq<L>, k: nat)
    requires k < |t|
    ensures [x] + (t[..k] + t[k + 1..]) == ([x] + t)[..k + 1] + ([x] + t)[k + 2..]
  {
    assert [x] + (t[..k] + t[k + 1..]) == ([x] + t[..k]) + t[k + 1..];
    assert [x] + t[..k] == ([x] + t)[..k + 1];
    assert t[k + 1..] == ([x] + t)[k + 2..];
  }

  /** Removal adds no listener and drops no listener other than l. */
  lemma {:induction false} RemovedMembers<L>(s: seq<L>, l: L)
    ensures forall x <- Removed(s, l) :: x in s
    ensures forall x <- s :: x != l ==> x in Removed(s, l)
  {
    if s != [] && s[0] != l {
      RemovedMembers(s[1..], l);
      assert s == [s[0]] + s[1..];
    }
  }

  /** On a list without duplicates, removal leaves no occurrence of l and no duplicates. */
  lemma {:induction false} RemovedNoDuplicates<L>(s: seq<L>, l: L)
    requires NoDuplicates(s)
    ensures NoDuplicates(Removed(s, l)) && l !in Removed(s, l)
  {
    if s != [] {
      TailNoDuplicates(s);
      if s[0] != l {
        RemovedNoDuplicates(s[1..], l);
        RemovedMembers(s[1..], l);
        ConsNoDuplicates(s[0], Removed(s[1..], l));
      }
    }
  }

  /** Dropping the head keeps a list free of duplicates, and the head is not in the tail. */
  lemma TailNoDuplicates<L>(s: seq<L>)
    requires s != [] && NoDuplicates(s)
    ensures NoDuplicates(s[1..]) && s[0] !in s[1..]
  {
    forall i, j | 0 <= i < j < |s[1..]|
      ensures s[1..][i] != s[1..][j]
    {
      assert s[1..][i] == s[i + 1] && s[1..][j] == s[j + 1];
    }
  }

  /** Dropping the last listener keeps a list free of duplicates, and the last listener
      is not among the others. */
  lemma LastNoDuplicates<L>(s: seq<L>)
    requires s != [] && NoDuplicates(s)
    ensures NoDuplicates(s[..|s| - 1]) && s[|s| - 1] !in s[..|s| - 1]
  {
  }

  /** Putting a new listener in front of a list without duplicates keeps it so. */
  lemma ConsNoDuplicates<L>(x: L, t: seq<L>)
    requires NoDuplicates(t) && x !in t
    ensures NoDuplicates([x] + t)
  {
    forall i, j | 0 <= i < j < |[x] + t|
      ensures ([x] + t)[i] != ([x] + t)[j]
    {
      assert ([x] + t)[j] == t[j - 1];
      if i > 0 {
        assert ([x] + t)[i] == t[i - 1];
      }
    }
  }

  /** Registering a listener that was absent and then removing it gives back the old list. */
  lemma AddThenRemove<L>(s: seq<L>, l: L)
    requires l !in s
    ensures Removed(Added(s, l), l) == s
  {
    assert Added(s, l) == s + [l];
    RemovedSplits(s + [l], l);
    assert FirstIndex(s + [l], l) == |s|;
  }

  /** One call on a provider's listener list. */
  datatype Op<L> = Add(listener: L) | Remove(listener: L)

  /** The list after performing ops in order. */
  function Apply<L(==)>(s: seq<L>, ops: seq<Op<L>>): seq<L>
    decreases |ops|
  {
    if ops == [] then s
    else
      var s' := match ops[0]
        case Add(l) => Added(s, l)
        case Remove(l) => Removed(s, l);
      Apply(s', ops[1..])
  }

  /** No sequence of additions and removals can make a listener appear twice. */
  lemma {:induction false} ApplyKeepsNoDuplicates<L>(s: seq<L>, ops: seq<Op<L>>)
    requires NoDuplicates(s)
    ensures NoDuplicates(Apply(s, ops))
    decreases |ops|
  {
    if ops != [] {
      var s' := match ops[0]
        case Add(l) => Added(s, l)
        case Remove(l) => Removed(s, l);
      if ops[0].Remove? {
        RemovedNoDuplicates(s, ops[0].listener);
      }
      ApplyKeepsNoDuplicates(s', ops[1..]);
    }
  }

  /** In a list without duplicates a listener is registered at most once. */
  lemma {:induction false} AtMostOnce<L>(s: seq<L>, x: L)
    requires NoDuplicates(s)
    ensures multiset(s)[x] <= 1
  {
    if s != [] {
      assert s == [s[0]] + s[1..];
      assert NoDuplicates(s[1..]);
      AtMostOnce(s[1..], x);
      assert s[0] !in s[1..];
      assert multiset(s) == multiset{s[0]} + multiset(s[1..]);
    }
  }
}
