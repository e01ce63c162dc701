/** Stable sorting by a total preorder, as the library's sort does it: what it
    guarantees, that this determines the result, and a function that has it. */
module Sorting {

  ghost predicate TotalPreorder<T(!new)>(le: (T, T) -> bool) {
    && (forall a, b :: le(a, b) || le(b, a))
    && (forall a, b, c :: le(a, b) && le(b, c) ==> le(a, c))
  }

  ghost predicate SortedBy<T>(le: (T, T) -> bool, s: seq<T>) {
    forall i, j :: 0 <= i < j < |s| ==> le(s[i], s[j])
  }

  /** The elements of `s` that compare equal to `x`, in their order. */
  function Class<T>(le: (T, T) -> bool, s: seq<T>, x: T): seq<T> {
    if s == [] then []
    else (if le(s[0], x) && le(x, s[0]) then [s[0]] else []) + Class(le, s[1..], x)
  }

  /** `t` is sorted and keeps the order of elements that compare equal. */
  ghost predicate StableSortOf<T(!new)>(le: (T, T) -> bool, s: seq<T>, t: seq<T>) {
    SortedBy(le, t) && forall x :: Class(le, t, x) == Class(le, s, x)
  }

  function Insert<T>(le: (T, T) -> bool, x: T, s: seq<T>): seq<T> {
    if s == [] || le(x, s[0]) then [x] + s else [s[0]] + Insert(le, x, s[1..])
  }

  function Sorted<T>(le: (T, T) -> bool, s: seq<T>): seq<T> {
    if s == [] then [] else Insert(le, s[0], Sorted(le, s[1..]))
  }

  lemma {:induction false} InsertElements<T>(le: (T, T) -> bool, x: T, s: seq<T>)
    ensures multiset(Insert(le, x, s)) == multiset(s) + multiset{x}
  {
    if s == [] || le(x, s[0]) {
    } else {
      InsertElements(le, x, s[1..]);
      assert s == [s[0]] + s[1..];
    }
  }

  lemma {:induction false} InsertSorted<T(!new)>(le: (T, T) -> bool, x: T, s: seq<T>)
    requires TotalPreorder(le) && SortedBy(le, s)
    ensures SortedBy(le, Insert(le, x, s))
  {
    var t := Insert(le, x, s);
    if s == [] || le(x, s[0]) {
      forall j | 0 < j < |t| ensures le(x, t[j]) {
        assert t[j] == s[j - 1];
        if j > 1 { assert le(s[0], s[j - 1]); }
      }
    } else {
      InsertSorted(le, x, s[1..]);
      InsertElements(le, x, s[1..]);
      var rest := Insert(le, x, s[1..]);
      forall j | 0 < j < |t| ensures le(s[0], t[j]) {
        assert t[j] == rest[j - 1];
        assert t[j] in multiset(rest);
        assert t[j] == x || t[j] in s[1..];
      }
    }
  }

  lemma {:induction false} InsertClass<T(!new)>(le: (T, T) -> bool, x: T, s: seq<T>, y: T)
    requires TotalPreorder(le) && SortedBy(le, s)
    ensures Class(le, Insert(le, x, s), y) == (if le(x, y) && le(y, x) then [x] else []) + Class(le, s, y)
  {
    var t := Insert(le, x, s);
    if s == [] || le(x, s[0]) {
      assert t[1..] == s;
    } else {
      InsertClass(le, x, s[1..], y);
      assert t[1..] == Insert(le, x, s[1..]);
    }
  }

  lemma {:induction false} SortedIsStable<T(!new)>(le: (T, T) -> bool, s: seq<T>)
    requires TotalPreorder(le)
    ensures StableSortOf(le, s, Sorted(le, s)) && multiset(Sorted(le, s)) == multiset(s)
  {
    if s != [] {
      SortedIsStable(le, s[1..]);
      var rest := Sorted(le, s[1..]);
      InsertSorted(le, s[0], rest);
      InsertElements(le, s[0], rest);
      forall y ensures Class(le, Sorted(le, s), y) == Class(le, s, y) {
        InsertClass(le, s[0], rest, y);
      }
      assert s == [s[0]] + s[1..];
    }
  }

  lemma {:induction false} ClassMember<T>(le: (T, T) -> bool, s: seq<T>, x: T)
    requires x in s && le(x, x)
    ensures Class(le, s, x) != []
  {
    if s[0] != x {
      ClassMember(le, s[1..], x);
    }
  }

  lemma {:induction false} MemberOfClass<T>(le: (T, T) -> bool, s: seq<T>, x: T)
    requires Class(le, s, x) != []
    ensures exists y :: y in s && le(y, x) && le(x, y)
  {
    if !(le(s[0], x) && le(x, s[0])) {
      MemberOfClass(le, s[1..], x);
      var y :| y in s[1..] && le(y, x) && le(x, y);
    } else {
      assert s[0] in s;
    }
  }

  /** Sortedness and the classes leave only one possible result. */
  lemma {:induction false} StableSortUnique<T(!new)>(le: (T, T) -> bool, t: seq<T>, u: seq<T>)
    requires TotalPreorder(le) && SortedBy(le, t) && SortedBy(le, u)
    requires forall x :: Class(le, t, x) == Class(le, u, x)
    ensures t == u
    decreases |t|
  {
    if t != [] {
      ClassMember(le, t, t[0]);
      MemberOfClass(le, u, t[0]);
      ClassMember(le, u, u[0]);
      MemberOfClass(le, t, u[0]);
      var y :| y in u && le(y, t[0]) && le(t[0], y);
      var z :| z in t && le(z, u[0]) && le(u[0], z);
      HeadLeast(le, u, y);
      HeadLeast(le, t, z);
      assert le(u[0], t[0]) && le(t[0], u[0]);
      assert Class(le, t, t[0])[0] == t[0] && Class(le, u, t[0])[0] == u[0];
      forall x ensures Class(le, t[1..], x) == Class(le, u[1..], x) {
        assert Class(le, t, x) == (if le(t[0], x) && le(x, t[0]) then [t[0]] else []) + Class(le, t[1..], x);
        assert Class(le, u, x) == (if le(u[0], x) && le(x, u[0]) then [u[0]] else []) + Class(le, u[1..], x);
        TailsEqual(if le(t[0], x) && le(x, t[0]) then [t[0]] else [], Class(le, t[1..], x), Class(le, u[1..], x));
      }
      StableSortUnique(le, t[1..], u[1..]);
      assert t == [t[0]] + t[1..] && u == [u[0]] + u[1..];
    }
  }

  lemma HeadLeast<T(!new)>(le: (T, T) -> bool, s: seq<T>, y: T)
    requires TotalPreorder(le) && SortedBy(le, s) && y in s
    ensures le(s[0], y)
  {
    var i :| 0 <= i < |s| && s[i] == y;
    assert i == 0 ==> le(y, y);
  }

  lemma TailsEqual<T>(a: seq<T>, b: seq<T>, c: seq<T>)
    requires a + b == a + c
    ensures b == c
  {
    assert (a + b)[|a|..] == b && (a + c)[|a|..] == c;
  }

  /** Whatever stable sort the library runs, it returns `Sorted`. */
  lemma StableSortIsSorted<T(!new)>(le: (T, T) -> bool, s: seq<T>, t: seq<T>)
    requires TotalPreorder(le) && StableSortOf(le, s, t)
    ensures t == Sorted(le, s)
  {
    SortedIsStable(le, s);
    StableSortUnique(le, t, Sorted(le, s));
  }
}
