/** Sorting by insertion, for any total order, and the orders of strings and paths.
    Sorted lists with the same members are equal, so any other sort does the same. */
module Sorting {
  ghost predicate TotalOrder<T(!new)>(le: (T, T) -> bool) {
    && (forall a, b :: le(a, b) || le(b, a))
    && (forall a, b :: le(a, b) && le(b, a) ==> a == b)
    && (forall a, b, c :: le(a, b) && le(b, c) ==> le(a, c))
  }

  ghost predicate Ordered<T(!new)>(s: seq<T>, le: (T, T) -> bool) {
    forall i, k :: 0 <= i < k < |s| ==> le(s[i], s[k])
  }

  function Insert<T(!new)>(x: T, s: seq<T>, le: (T, T) -> bool): seq<T> {
    if s == [] || le(x, s[0]) then [x] + s else [s[0]] + Insert(x, s[1..], le)
  }

  function Sort<T(!new)>(s: seq<T>, le: (T, T) -> bool): seq<T> {
    if s == [] then [] else Insert(s[0], Sort(s[1..], le), le)
  }

  lemma {:induction false} InsertKeeps<T(!new)>(x: T, s: seq<T>, le: (T, T) -> bool)
    requires TotalOrder(le) && Ordered(s, le)
    ensures Ordered(Insert(x, s, le), le) && multiset(Insert(x, s, le)) == multiset(s) + multiset{x}
  {
    if s == [] || le(x, s[0]) {
      OrderedFrom(x, s, le);
    } else {
      var more := Insert(x, s[1..], le);
      InsertKeeps(x, s[1..], le);
      assert s == [s[0]] + s[1..];
      LeastStays(x, s, more, le);
      OrderedFrom(s[0], more, le);
    }
  }

  lemma OrderedFrom<T(!new)>(x: T, s: seq<T>, le: (T, T) -> bool)
    requires TotalOrder(le) && Ordered(s, le)
    requires (s != [] && le(x, s[0])) || forall k :: 0 <= k < |s| ==> le(x, s[k])
    ensures Ordered([x] + s, le)
  {
    forall k | 0 <= k < |s| ensures le(x, s[k]) {
      assert k > 0 ==> le(s[0], s[k]);
    }
  }

  lemma LeastStays<T(!new)>(x: T, s: seq<T>, more: seq<T>, le: (T, T) -> bool)
    requires s != [] && Ordered(s, le) && le(s[0], x) && multiset(more) == multiset(s[1..]) + multiset{x}
    ensures forall k :: 0 <= k < |more| ==> le(s[0], more[k])
  {
    forall k | 0 <= k < |more| ensures le(s[0], more[k]) {
      assert more[k] in multiset(s[1..]) + multiset{x};
      if more[k] != x {
        assert more[k] in s[1..];
      }
    }
  }

  lemma {:induction false} SortSorts<T(!new)>(s: seq<T>, le: (T, T) -> bool)
    requires TotalOrder(le)
    ensures Ordered(Sort(s, le), le) && multiset(Sort(s, le)) == multiset(s) && |Sort(s, le)| == |s|
  {
    if s != [] {
      SortSorts(s[1..], le);
      InsertKeeps(s[0], Sort(s[1..], le), le);
      assert s == [s[0]] + s[1..];
    }
    assert |multiset(Sort(s, le))| == |Sort(s, le)| && |multiset(s)| == |s|;
  }

  lemma HeadIsLeast<T(!new)>(a: seq<T>, x: T, b: seq<T>, le: (T, T) -> bool)
    requires TotalOrder(le) && a != [] && Ordered(a, le) && x in b && multiset(a) == multiset(b)
    ensures le(a[0], x)
  {
    assert x in multiset(a);
  }

  lemma SameTail<T(!new)>(a: seq<T>, b: seq<T>)
    requires a != [] && b != [] && a[0] == b[0] && multiset(a) == multiset(b)
    ensures multiset(a[1..]) == multiset(b[1..])
  {
    assert a == [a[0]] + a[1..] && b == [b[0]] + b[1..];
    assert multiset(a[1..]) == multiset(a) - multiset{a[0]};
    assert multiset(b[1..]) == multiset(b) - multiset{b[0]};
  }

  lemma {:induction false} SortedListsAreUnique<T(!new)>(a: seq<T>, b: seq<T>, le: (T, T) -> bool)
    requires TotalOrder(le) && Ordered(a, le) && Ordered(b, le) && multiset(a) == multiset(b)
    ensures a == b
  {
    assert |a| == |multiset(a)| == |multiset(b)| == |b|;
    if a != [] {
      HeadIsLeast(a, b[0], b, le);
      HeadIsLeast(b, a[0], a, le);
      SameTail(a, b);
      SortedListsAreUnique(a[1..], b[1..], le);
      assert a == [a[0]] + a[1..] && b == [b[0]] + b[1..];
    }
  }

  /** The members of a set, each once, in order. */
  ghost predicate Lists<T(!new)>(s: seq<T>, members: set<T>, le: (T, T) -> bool) {
    Ordered(s, le) && multiset(s) == multiset(members)
  }

  method Listed<T(!new,==)>(members: set<T>, le: (T, T) -> bool) returns (s: seq<T>)
    requires TotalOrder(le)
    ensures Lists(s, members, le)
  {
    s := [];
    var todo := members;
    while todo != {}
      invariant todo <= members && Lists(s, members - todo, le)
      decreases todo
    {
      var x :| x in todo;
      InsertKeeps(x, s, le);
      s := Insert(x, s, le);
      todo := todo - {x};
      assert members - todo == (members - (todo + {x})) + {x};
    }
    assert members - todo == members;
  }

  // ----- Lexicographic orders -----

  predicate StringLe(a: string, b: string) {
    a == "" || (b != "" && (a[0] < b[0] || (a[0] == b[0] && StringLe(a[1..], b[1..]))))
  }

  lemma {:induction false} StringsCompare(a: string, b: string, c: string)
    ensures StringLe(a, b) || StringLe(b, a)
    ensures StringLe(a, b) && StringLe(b, a) ==> a == b
    ensures StringLe(a, b) && StringLe(b, c) ==> StringLe(a, c)
    decreases |a| + |b| + |c|
  {
    if a != "" || b != "" || c != "" {
      StringsCompare(if a == "" then a else a[1..], if b == "" then b else b[1..], if c == "" then c else c[1..]);
    }
    if a != "" && b != "" && a[0] == b[0] {
      assert a == [a[0]] + a[1..] && b == [b[0]] + b[1..];
    }
  }

  lemma StringsAreOrdered()
    ensures TotalOrder(StringLe)
  {
    forall a, b, c
      ensures (StringLe(a, b) || StringLe(b, a)) && (StringLe(a, b) && StringLe(b, a) ==> a == b)
      ensures StringLe(a, b) && StringLe(b, c) ==> StringLe(a, c)
    {
      StringsCompare(a, b, c);
    }
  }

  /** Component by component. */
  predicate PathLe(a: seq<string>, b: seq<string>) {
    a == [] || (b != [] && (if a[0] == b[0] then PathLe(a[1..], b[1..]) else StringLe(a[0], b[0])))
  }

  lemma {:induction false} PathsCompare(a: seq<string>, b: seq<string>, c: seq<string>)
    ensures PathLe(a, b) || PathLe(b, a)
    ensures PathLe(a, b) && PathLe(b, a) ==> a == b
    ensures PathLe(a, b) && PathLe(b, c) ==> PathLe(a, c)
    decreases |a| + |b| + |c|
  {
    if a != [] || b != [] || c != [] {
      PathsCompare(if a == [] then a else a[1..], if b == [] then b else b[1..], if c == [] then c else c[1..]);
      FirstsCompare(a, b, c);
    }
    if a != [] && b != [] && a[0] == b[0] {
      assert a == [a[0]] + a[1..] && b == [b[0]] + b[1..];
    }
  }

  lemma FirstsCompare(a: seq<string>, b: seq<string>, c: seq<string>)
    ensures a != [] && b != [] ==> StringLe(a[0], b[0]) || StringLe(b[0], a[0])
    ensures a != [] && b != [] ==> (StringLe(a[0], b[0]) && StringLe(b[0], a[0]) ==> a[0] == b[0])
    ensures a != [] && b != [] && c != [] ==> (StringLe(a[0], b[0]) && StringLe(b[0], c[0]) ==> StringLe(a[0], c[0]))
  {
    if a != [] && b != [] {
      StringsCompare(a[0], b[0], if c == [] then "" else c[0]);
    }
  }

  lemma PathsAreOrdered()
    ensures TotalOrder(PathLe)
  {
    forall a, b, c
      ensures (PathLe(a, b) || PathLe(b, a)) && (PathLe(a, b) && PathLe(b, a) ==> a == b)
      ensures PathLe(a, b) && PathLe(b, c) ==> PathLe(a, c)
    {
      PathsCompare(a, b, c);
    }
  }
}
