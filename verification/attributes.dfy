/**
 * Attributes as name/value pairs, and the order in which Python's
 * `sorted(attrib.items())` lists them: tuples compared field by field,
 * strings compared code point by code point, a proper prefix first.
 */
module Attributes {

  /** One dictionary item `(key, value)`. */
  datatype Attribute = Attribute(name: string, value: string)

  /** Python's `a <= b` on strings. */
  predicate StrLeq(a: string, b: string) {
    if a == [] then true
    else if b == [] then false
    else if a[0] != b[0] then a[0] < b[0]
    else StrLeq(a[1..], b[1..])
  }

  /** Python's `(a.name, a.value) <= (b.name, b.value)`. */
  predicate AttrLeq(a: Attribute, b: Attribute) {
    (StrLeq(a.name, b.name) && a.name != b.name) || (a.name == b.name && StrLeq(a.value, b.value))
  }

  /** Ascending in the tuple order, every pair of positions. */
  predicate Sorted(s: seq<Attribute>) {
    forall i, j :: 0 <= i < j < |s| ==> AttrLeq(s[i], s[j])
  }

  /** The string order is total. */
  lemma {:induction false} StrLeqTotal(a: string, b: string)
    ensures StrLeq(a, b) || StrLeq(b, a)
  {
    if a != [] && b != [] && a[0] == b[0] {
      StrLeqTotal(a[1..], b[1..]);
    }
  }

  /** The string order is antisymmetric. */
  lemma {:induction false} StrLeqAntisymmetric(a: string, b: string)
    requires StrLeq(a, b) && StrLeq(b, a)
    ensures a == b
  {
    if a != [] && b != [] {
      StrLeqAntisymmetric(a[1..], b[1..]);
      assert a == [a[0]] + a[1..] && b == [b[0]] + b[1..];
    }
  }

  /** The string order is transitive. */
  lemma {:induction false} StrLeqTransitive(a: string, b: string, c: string)
    requires StrLeq(a, b) && StrLeq(b, c)
    ensures StrLeq(a, c)
  {
    if a != [] && b != [] && c != [] && a[0] == b[0] && b[0] == c[0] {
      StrLeqTransitive(a[1..], b[1..], c[1..]);
    }
  }

  /** The tuple order is transitive. */
  lemma AttrLeqTransitive(a: Attribute, b: Attribute, c: Attribute)
    requires AttrLeq(a, b) && AttrLeq(b, c)
    ensures AttrLeq(a, c)
  {
    if a.name == b.name && b.name == c.name {
      StrLeqTransitive(a.value, b.value, c.value);
    } else if a.name == b.name || b.name == c.name {
    } else {
      StrLeqTransitive(a.name, b.name, c.name);
      if a.name == c.name {
        StrLeqAntisymmetric(a.name, b.name);
      }
    }
  }

  /** The tuple order is total. */
  lemma AttrLeqTotal(a: Attribute, b: Attribute)
    ensures AttrLeq(a, b) || AttrLeq(b, a)
  {
    StrLeqTotal(a.name, b.name);
    StrLeqTotal(a.value, b.value);
  }

  /** Inserts `x` before the first element it does not follow. */
  function Insert(x: Attribute, s: seq<Attribute>): (r: seq<Attribute>)
    ensures multiset(r) == multiset(s) + multiset{x}
  {
    if s == [] then [x]
    else if AttrLeq(x, s[0]) then [x] + s
    else
      assert s == [s[0]] + s[1..];
      [s[0]] + Insert(x, s[1..])
  }

  /** An ascending list with an element in front that precedes all of it is ascending. */
  lemma SortedCons(a: Attribute, t: seq<Attribute>)
    requires Sorted(t) && forall y :: y in t ==> AttrLeq(a, y)
    ensures Sorted([a] + t)
  {
    var r := [a] + t;
    forall i, j | 0 <= i < j < |r| ensures AttrLeq(r[i], r[j]) {
      if i == 0 { assert r[j] in t; } else { assert r[i] == t[i - 1] && r[j] == t[j - 1]; }
    }
  }

  /** The head of an ascending list precedes everything in it, and its tail is ascending. */
  lemma SortedHead(s: seq<Attribute>)
    requires Sorted(s) && s != []
    ensures Sorted(s[1..]) && forall y :: y in s[1..] ==> AttrLeq(s[0], y)
  {
    forall y | y in s[1..] ensures AttrLeq(s[0], y) {
      var k :| 0 <= k < |s[1..]| && s[1..][k] == y;
      assert s[k + 1] == y;
    }
  }

  /** A lower bound of `x` and of every element of `t` bounds every element of `Insert(x, t)`. */
  lemma InsertBelow(a: Attribute, x: Attribute, t: seq<Attribute>)
    requires AttrLeq(a, x) && forall y :: y in t ==> AttrLeq(a, y)
    ensures forall y :: y in Insert(x, t) ==> AttrLeq(a, y)
  {
    forall y | y in Insert(x, t) ensures AttrLeq(a, y) {
      assert y in multiset(Insert(x, t));
    }
  }

  /** Insertion into an ascending list keeps it ascending. */
  lemma {:induction false} InsertSorted(x: Attribute, s: seq<Attribute>)
    requires Sorted(s)
    ensures Sorted(Insert(x, s))
  {
    if s == [] {
    } else if AttrLeq(x, s[0]) {
      SortedHead(s);
      forall y | y in s ensures AttrLeq(x, y) {
        if y != s[0] { AttrLeqTransitive(x, s[0], y); }
      }
      SortedCons(x, s);
    } else {
      AttrLeqTotal(x, s[0]);
      SortedHead(s);
      InsertSorted(x, s[1..]);
      InsertBelow(s[0], x, s[1..]);
      SortedCons(s[0], Insert(x, s[1..]));
    }
  }

  /** Python's `sorted(attrib.items())`, as an insertion sort. */
  function SortAttributes(s: seq<Attribute>): seq<Attribute> {
    if s == [] then [] else Insert(s[0], SortAttributes(s[1..]))
  }

  /** The sorted items are the same items. */
  lemma {:induction false} SortAttributesPermutes(s: seq<Attribute>)
    ensures multiset(SortAttributes(s)) == multiset(s)
  {
    if s != [] {
      SortAttributesPermutes(s[1..]);
      assert s == [s[0]] + s[1..];
    }
  }

  /** The sorted items are ascending. */
  lemma {:induction false} SortAttributesSorted(s: seq<Attribute>)
    ensures Sorted(SortAttributes(s))
  {
    if s != [] {
      SortAttributesSorted(s[1..]);
      InsertSorted(s[0], SortAttributes(s[1..]));
    }
  }

  /** A dictionary's items: no key occurs twice. */
  predicate UniqueNames(s: seq<Attribute>) {
    forall i, j :: 0 <= i < j < |s| ==> s[i].name != s[j].name
  }

  /** Inserting an item whose name is new keeps names unique. */
  lemma {:induction false} InsertKeepsUniqueNames(x: Attribute, s: seq<Attribute>)
    requires UniqueNames(s)
    requires forall y :: y in s ==> y.name != x.name
    ensures UniqueNames(Insert(x, s))
  {
    if s == [] || AttrLeq(x, s[0]) {
      UniqueCons(x, s);
    } else {
      var rest := s[1..];
      assert UniqueNames(rest) by {
        forall i, j | 0 <= i < j < |rest| ensures rest[i].name != rest[j].name {
          assert rest[i] == s[i + 1] && rest[j] == s[j + 1];
        }
      }
      InsertKeepsUniqueNames(x, rest);
      var tail := Insert(x, rest);
      forall y | y in tail ensures y.name != s[0].name {
        assert y in multiset(tail);
        if y != x {
          var k :| 0 <= k < |rest| && rest[k] == y;
          assert s[k + 1] == y;
        }
      }
      UniqueCons(s[0], tail);
    }
  }

  /** An item whose name is not among unique names can go in front. */
  lemma UniqueCons(a: Attribute, t: seq<Attribute>)
    requires UniqueNames(t) && forall y :: y in t ==> y.name != a.name
    ensures UniqueNames([a] + t)
  {
    var r := [a] + t;
    forall i, j | 0 <= i < j < |r| ensures r[i].name != r[j].name {
      if i == 0 { assert r[j] in t; } else { assert r[i] == t[i - 1] && r[j] == t[j - 1]; }
    }
  }

  /** Sorting keeps names unique. */
  lemma {:induction false} SortKeepsUniqueNames(s: seq<Attribute>)
    requires UniqueNames(s)
    ensures UniqueNames(SortAttributes(s))
  {
    if s != [] {
      SortKeepsUniqueNames(s[1..]);
      SortAttributesPermutes(s[1..]);
      var r := SortAttributes(s[1..]);
      forall y | y in r ensures y.name != s[0].name {
        assert y in multiset(s[1..]);
        var k :| 0 <= k < |s[1..]| && s[1..][k] == y;
        assert s[k + 1] == y;
      }
      InsertKeepsUniqueNames(s[0], r);
    }
  }

  /** For a dictionary, the sorted items are in strictly ascending key order. */
  lemma SortedKeysAscending(s: seq<Attribute>)
    requires UniqueNames(s)
    ensures var r := SortAttributes(s);
      forall i, j :: 0 <= i < j < |r| ==> StrLeq(r[i].name, r[j].name) && r[i].name != r[j].name
  {
    SortKeepsUniqueNames(s);
    SortAttributesSorted(s);
  }
}
