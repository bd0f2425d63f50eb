/** Python's `sorted(items, key=...)` with tuples of strings, byte strings and integers as keys. */
module KeySort {

  // ---------- lexicographic order ----------

  /** Order by the first difference; a proper prefix comes first. */
  predicate LexLess<T(==)>(a: seq<T>, b: seq<T>, code: T -> int) {
    b != [] && (a == [] || code(a[0]) < code(b[0]) || (a[0] == b[0] && LexLess(a[1..], b[1..], code)))
  }

  function CharCode(): char -> int {
    (c: char) => c as int
  }

  function IntCode(): int -> int {
    (n: int) => n
  }

  ghost predicate Injective<T(!new)>(code: T -> int) {
    forall x, y :: code(x) == code(y) ==> x == y
  }

  lemma {:induction false} LexOrder<T(!new)>(a: seq<T>, b: seq<T>, code: T -> int)
    requires Injective(code)
    ensures LexLess(a, b, code) || LexLess(b, a, code) || a == b
    ensures !(LexLess(a, b, code) && LexLess(b, a, code)) && (LexLess(a, b, code) ==> a != b)
  {
    if a != [] && b != [] {
      LexOrder(a[1..], b[1..], code);
      assert a == [a[0]] + a[1..] && b == [b[0]] + b[1..];
    } else if a == b {
      assert !LexLess(a, b, code);
    }
  }

  lemma {:induction false} LexTransitive<T>(a: seq<T>, b: seq<T>, c: seq<T>, code: T -> int)
    requires LexLess(a, b, code) && LexLess(b, c, code)
    ensures LexLess(a, c, code)
  {
    if a != [] && a[0] == b[0] && b[0] == c[0] { LexTransitive(a[1..], b[1..], c[1..], code); }
  }

  // ---------- keys ----------

  datatype Part = Word(text: string) | Number(value: int) | Codes(codes: seq<int>)

  type Key = seq<Part>

  /** Parts at one place of two keys have one type; the last case is never needed in Python. */
  predicate PartLess(a: Part, b: Part) {
    match (a, b)
    case (Number(m), Number(n)) => m < n
    case (Word(s), Word(t)) => LexLess(s, t, CharCode())
    case (Codes(s), Codes(t)) => LexLess(s, t, IntCode())
    case _ => Rank(a) < Rank(b)
  }

  function Rank(a: Part): int {
    match a case Number(_) => 0 case Word(_) => 1 case Codes(_) => 2
  }

  predicate KeyLe(a: Key, b: Key) {
    a == [] || (b != [] && (PartLess(a[0], b[0]) || (a[0] == b[0] && KeyLe(a[1..], b[1..]))))
  }

  lemma PartOrder(a: Part, b: Part)
    ensures PartLess(a, b) || PartLess(b, a) || a == b
    ensures !(PartLess(a, b) && PartLess(b, a)) && (PartLess(a, b) ==> a != b)
  {
    if a.Word? && b.Word? { LexOrder(a.text, b.text, CharCode()); }
    if a.Codes? && b.Codes? { LexOrder(a.codes, b.codes, IntCode()); }
  }

  lemma PartTransitive(a: Part, b: Part, c: Part)
    requires PartLess(a, b) && PartLess(b, c)
    ensures PartLess(a, c)
  {
    if a.Word? && b.Word? && c.Word? { LexTransitive(a.text, b.text, c.text, CharCode()); }
    if a.Codes? && b.Codes? && c.Codes? { LexTransitive(a.codes, b.codes, c.codes, IntCode()); }
  }

  /** Keys are totally ordered. */
  lemma {:induction false} KeyOrder(a: Key, b: Key)
    ensures KeyLe(a, b) || KeyLe(b, a)
    ensures KeyLe(a, b) && KeyLe(b, a) ==> a == b
  {
    if a != [] && b != [] {
      PartOrder(a[0], b[0]);
      KeyOrder(a[1..], b[1..]);
      assert a == [a[0]] + a[1..] && b == [b[0]] + b[1..];
    }
  }

  lemma {:induction false} KeyTransitive(a: Key, b: Key, c: Key)
    requires KeyLe(a, b) && KeyLe(b, c)
    ensures KeyLe(a, c)
  {
    if a != [] {
      if PartLess(a[0], b[0]) && PartLess(b[0], c[0]) { PartTransitive(a[0], b[0], c[0]); }
      PartOrder(a[0], b[0]);
      PartOrder(b[0], c[0]);
      if a[0] == b[0] && b[0] == c[0] { KeyTransitive(a[1..], b[1..], c[1..]); }
    }
  }

  // ---------- sorting ----------

  function Insert<T>(x: T, s: seq<T>, key: T -> Key): seq<T> {
    if s == [] || KeyLe(key(s[|s| - 1]), key(x)) then s + [x]
    else Insert(x, s[..|s| - 1], key) + [s[|s| - 1]]
  }

  /** Stable: an element goes after those before it with the same key. */
  function Sort<T>(s: seq<T>, key: T -> Key): seq<T> {
    if s == [] then [] else Insert(s[|s| - 1], Sort(s[..|s| - 1], key), key)
  }

  predicate Ordered<T>(s: seq<T>, key: T -> Key) {
    forall i, j :: 0 <= i < j < |s| ==> KeyLe(key(s[i]), key(s[j]))
  }

  lemma {:induction false} InsertOrders<T>(x: T, s: seq<T>, key: T -> Key)
    requires Ordered(s, key)
    ensures multiset(Insert(x, s, key)) == multiset(s) + multiset{x}
    ensures Ordered(Insert(x, s, key), key)
    decreases |s|
  {
    if s != [] {
      var init, last := s[..|s| - 1], s[|s| - 1];
      assert s == init + [last];
      KeyOrder(key(last), key(x));
      if KeyLe(key(last), key(x)) {
        forall i | 0 <= i < |s| ensures KeyLe(key(s[i]), key(x)) {
          if i < |s| - 1 { KeyTransitive(key(s[i]), key(last), key(x)); }
        }
      } else {
        InsertOrders(x, init, key);
        var r := Insert(x, init, key);
        forall i | 0 <= i < |r| ensures KeyLe(key(r[i]), key(last)) {
          assert r[i] in multiset(r);
          assert r[i] == x || r[i] in init;
        }
      }
    }
  }

  /** Sorting orders by key and loses nothing. */
  lemma {:induction false} SortOrders<T>(s: seq<T>, key: T -> Key)
    ensures Ordered(Sort(s, key), key) && multiset(Sort(s, key)) == multiset(s)
    decreases |s|
  {
    if s != [] {
      var init, last := s[..|s| - 1], s[|s| - 1];
      assert s == init + [last];
      SortOrders(init, key);
      InsertOrders(last, Sort(init, key), key);
    }
  }

  lemma {:induction false} SortOfOrdered<T>(s: seq<T>, key: T -> Key)
    requires Ordered(s, key)
    ensures Sort(s, key) == s
    decreases |s|
  {
    if s != [] {
      var init, last := s[..|s| - 1], s[|s| - 1];
      assert s == init + [last];
      SortOfOrdered(init, key);
      if init != [] { assert KeyLe(key(init[|init| - 1]), key(last)); }
    }
  }

  /** The elements of one key, in order. */
  function AtKey<T>(s: seq<T>, key: T -> Key, k: Key): seq<T> {
    if s == [] then [] else AtKey(s[..|s| - 1], key, k) + if key(s[|s| - 1]) == k then [s[|s| - 1]] else []
  }

  lemma AtKeySnoc<T>(s: seq<T>, x: T, key: T -> Key, k: Key)
    ensures AtKey(s + [x], key, k) == AtKey(s, key, k) + if key(x) == k then [x] else []
  {
    assert (s + [x])[..|s|] == s;
  }

  lemma {:induction false} InsertIsStable<T>(x: T, s: seq<T>, key: T -> Key, k: Key)
    ensures AtKey(Insert(x, s, key), key, k) == AtKey(s, key, k) + if key(x) == k then [x] else []
    decreases |s|
  {
    if s == [] || KeyLe(key(s[|s| - 1]), key(x)) {
      AtKeySnoc(s, x, key, k);
    } else {
      var init, last := s[..|s| - 1], s[|s| - 1];
      InsertIsStable(x, init, key, k);
      AtKeySnoc(Insert(x, init, key), last, key, k);
      KeyOrder(key(x), key(x));
    }
  }

  /** Sorting keeps the order of the elements of each key. */
  lemma {:induction false} SortIsStable<T>(s: seq<T>, key: T -> Key, k: Key)
    ensures AtKey(Sort(s, key), key, k) == AtKey(s, key, k)
    decreases |s|
  {
    if s != [] {
      var init, last := s[..|s| - 1], s[|s| - 1];
      SortIsStable(init, key, k);
      InsertIsStable(last, Sort(init, key), key, k);
    }
  }

  // ---------- what sorting keeps ----------

  lemma SortMembers<T>(s: seq<T>, key: T -> Key)
    ensures |Sort(s, key)| == |s|
    ensures forall x :: x in Sort(s, key) <==> x in s
  {
    SortOrders(s, key);
    assert |multiset(Sort(s, key))| == |multiset(s)|;
    forall x ensures x in Sort(s, key) <==> x in s {
      assert x in multiset(Sort(s, key)) <==> x in multiset(s);
    }
  }

  /** No two elements have the same identity. */
  predicate Distinct<T, K(==)>(s: seq<T>, id: T -> K) {
    forall i, j :: 0 <= i < j < |s| ==> id(s[i]) != id(s[j])
  }

  lemma {:induction false} InsertAdds<T>(x: T, s: seq<T>, key: T -> Key)
    ensures multiset(Insert(x, s, key)) == multiset(s) + multiset{x}
    decreases |s|
  {
    if s != [] && !KeyLe(key(s[|s| - 1]), key(x)) {
      assert s == s[..|s| - 1] + [s[|s| - 1]];
      InsertAdds(x, s[..|s| - 1], key);
    }
  }

  lemma DistinctMore<T, K>(r: seq<T>, init: seq<T>, x: T, last: T, id: T -> K)
    requires Distinct(r, id) && multiset(r) == multiset(init) + multiset{x}
    requires id(x) != id(last) && forall j :: 0 <= j < |init| ==> id(init[j]) != id(last)
    ensures Distinct(r + [last], id)
  {
    forall i | 0 <= i < |r| ensures id(r[i]) != id(last) {
      assert r[i] in multiset(r);
      assert r[i] == x || r[i] in init;
    }
  }

  lemma {:induction false} InsertKeepsDistinct<T, K>(x: T, s: seq<T>, key: T -> Key, id: T -> K)
    requires Distinct(s, id) && forall i :: 0 <= i < |s| ==> id(s[i]) != id(x)
    ensures Distinct(Insert(x, s, key), id)
    decreases |s|
  {
    if s != [] && !KeyLe(key(s[|s| - 1]), key(x)) {
      var init, last := s[..|s| - 1], s[|s| - 1];
      InsertKeepsDistinct(x, init, key, id);
      InsertAdds(x, init, key);
      DistinctMore(Insert(x, init, key), init, x, last, id);
    }
  }

  lemma {:induction false} SortKeepsDistinct<T, K>(s: seq<T>, key: T -> Key, id: T -> K)
    requires Distinct(s, id)
    ensures Distinct(Sort(s, key), id)
    decreases |s|
  {
    if s != [] {
      var init, last := s[..|s| - 1], s[|s| - 1];
      SortKeepsDistinct(init, key, id);
      SortOrders(init, key);
      var r := Sort(init, key);
      forall i | 0 <= i < |r| ensures id(r[i]) != id(last) {
        assert r[i] in multiset(r);
        assert r[i] in init;
      }
      InsertKeepsDistinct(last, r, key, id);
    }
  }
}
