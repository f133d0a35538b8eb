/** Sums over plan sequences, and the sorted duplicate-free form that
    `sorted(set(...))` gives: it depends on the set of elements alone. */
module Collections {

  function Least(a: nat, b: nat): nat {
    if a <= b then a else b
  }

  ghost predicate Distinct<T>(s: seq<T>) {
    forall i, j :: 0 <= i < j < |s| ==> s[i] != s[j]
  }

  function Elements<T>(s: seq<T>): set<T> {
    set x | x in s
  }

  lemma DistinctCount<T>(s: seq<T>)
    requires Distinct(s)
    ensures |Elements(s)| == |s|
  {
    if s != [] {
      var front, last := s[..|s| - 1], s[|s| - 1];
      assert s == front + [last];
      DistinctCount(front);
      assert Elements(s) == Elements(front) + {last};
    }
  }

  /** `sum(f(x) for x in s)`. */
  function Sum<T>(s: seq<T>, f: T -> nat): nat {
    if s == [] then 0 else Sum(s[..|s| - 1], f) + f(s[|s| - 1])
  }

  lemma {:induction false} SumAppend<T>(s: seq<T>, x: T, f: T -> nat)
    ensures Sum(s + [x], f) == Sum(s, f) + f(x)
  {
    assert (s + [x])[..|s|] == s;
  }

  // --- strict total orders and canonical sequences -------------------------

  ghost predicate StrictOrder<T(!new)>(less: (T, T) -> bool) {
    && (forall x :: !less(x, x))
    && (forall x, y, z :: less(x, y) && less(y, z) ==> less(x, z))
    && (forall x, y :: x != y ==> less(x, y) || less(y, x))
  }

  ghost predicate Ascending<T>(less: (T, T) -> bool, s: seq<T>) {
    forall i, j :: 0 <= i < j < |s| ==> less(s[i], s[j])
  }

  function Insert<T(==)>(less: (T, T) -> bool, x: T, s: seq<T>): seq<T> {
    if s == [] then [x]
    else if x == s[0] then s
    else if less(x, s[0]) then [x] + s
    else [s[0]] + Insert(less, x, s[1..])
  }

  /** The ascending duplicate-free sequence over the elements of `s`. */
  function Canonical<T(==)>(less: (T, T) -> bool, s: seq<T>): seq<T> {
    if s == [] then [] else Insert(less, s[|s| - 1], Canonical(less, s[..|s| - 1]))
  }

  lemma ElementsCons<T>(x: T, s: seq<T>)
    ensures Elements([x] + s) == {x} + Elements(s)
  {
  }

  lemma {:induction false} InsertElements<T>(less: (T, T) -> bool, x: T, s: seq<T>)
    ensures Elements(Insert(less, x, s)) == Elements(s) + {x}
  {
    if s == [] {
      ElementsCons(x, s);
    } else {
      assert s == [s[0]] + s[1..];
      ElementsCons(s[0], s[1..]);
      ElementsCons(x, s);
      if x != s[0] && !less(x, s[0]) {
        InsertElements(less, x, s[1..]);
        ElementsCons(s[0], Insert(less, x, s[1..]));
      }
      hide Elements;
    }
  }

  lemma {:induction false} InsertAscends<T(!new)>(less: (T, T) -> bool, x: T, s: seq<T>)
    requires StrictOrder(less) && Ascending(less, s)
    ensures Elements(Insert(less, x, s)) == Elements(s) + {x}
    ensures Ascending(less, Insert(less, x, s))
  {
    InsertElements(less, x, s);
    if s != [] && x != s[0] && !less(x, s[0]) {
      InsertAscends(less, x, s[1..]);
      InsertElements(less, x, s[1..]);
      var rest := Insert(less, x, s[1..]);
      forall j | 0 <= j < |rest| ensures less(s[0], rest[j]) {
        assert rest[j] in Elements(rest);
      }
    }
  }

  lemma {:induction false} CanonicalAscends<T(!new)>(less: (T, T) -> bool, s: seq<T>)
    requires StrictOrder(less)
    ensures Ascending(less, Canonical(less, s))
    ensures Elements(Canonical(less, s)) == Elements(s)
  {
    if s != [] {
      var front, last := s[..|s| - 1], s[|s| - 1];
      CanonicalAscends(less, front);
      InsertAscends(less, last, Canonical(less, front));
      assert s == front + [last];
      assert Elements(s) == Elements(front) + {last};
    }
  }

  lemma {:induction false} AscendingUnique<T(!new)>(less: (T, T) -> bool, s: seq<T>, t: seq<T>)
    requires StrictOrder(less) && Ascending(less, s) && Ascending(less, t)
    requires Elements(s) == Elements(t)
    ensures s == t
  {
    assert t == [] || t[0] in Elements(t);
    assert t == [] || t[0] in s;
    if s != [] {
      assert s[0] in Elements(s);
      var i :| 0 <= i < |t| && t[i] == s[0];
      assert t[0] in Elements(t);
      var j :| 0 <= j < |s| && s[j] == t[0];
      assert s[0] == t[0];
      forall x ensures x in Elements(s[1..]) <==> x in Elements(t[1..]) {
        assert x in Elements(s) <==> x == s[0] || x in Elements(s[1..]);
        assert x in Elements(t) <==> x == t[0] || x in Elements(t[1..]);
      }
      AscendingUnique(less, s[1..], t[1..]);
    }
  }

  /** Order and multiplicity of the input never show in the canonical form. */
  lemma {:induction false} CanonicalDependsOnSet<T(!new)>(less: (T, T) -> bool, s: seq<T>, t: seq<T>)
    requires StrictOrder(less) && Elements(s) == Elements(t)
    ensures Canonical(less, s) == Canonical(less, t)
  {
    CanonicalAscends(less, s);
    CanonicalAscends(less, t);
    AscendingUnique(less, Canonical(less, s), Canonical(less, t));
  }

  lemma {:induction false} CanonicalFixpoint<T(!new)>(less: (T, T) -> bool, s: seq<T>)
    requires StrictOrder(less)
    ensures Distinct(Canonical(less, s))
    ensures Canonical(less, Canonical(less, s)) == Canonical(less, s)
  {
    CanonicalAscends(less, s);
    CanonicalDependsOnSet(less, Canonical(less, s), s);
  }

  // --- text order -----------------------------------------------------------

  /** Code-point order on text: Python's `<` on `str`, SQLite's BINARY collation. */
  predicate TextLess(a: string, b: string) {
    b != [] && (a == [] || a[0] < b[0] || (a[0] == b[0] && TextLess(a[1..], b[1..])))
  }

  lemma {:induction false} TextOrderAt(a: string, b: string, c: string)
    ensures !TextLess(a, a)
    ensures TextLess(a, b) && TextLess(b, c) ==> TextLess(a, c)
    ensures a != b ==> TextLess(a, b) || TextLess(b, a)
  {
    if a != [] {
      TextOrderAt(a[1..], if b == [] then [] else b[1..], if c == [] then [] else c[1..]);
      if b != [] && a[0] == b[0] && a[1..] == b[1..] {
        assert a == [a[0]] + a[1..] && b == [b[0]] + b[1..];
      }
    }
  }

  lemma TextOrder()
    ensures StrictOrder(TextLess)
  {
    forall a, b, c
      ensures !TextLess(a, a)
      ensures TextLess(a, b) && TextLess(b, c) ==> TextLess(a, c)
      ensures a != b ==> TextLess(a, b) || TextLess(b, a)
    {
      TextOrderAt(a, b, c);
    }
  }
}
