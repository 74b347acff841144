/**
 * Array helpers of src/collections.ts: grouping, dictionary building,
 * first-seen deduplication, in-place sorting by a key and numeric ranges.
 *
 * Keys that JavaScript would coerce to property names are modelled as the
 * strings they coerce to.
 */
module Collections {
  import opened Wrappers
  import opened Js

  /** The set of keys that `key` assigns to the elements of `a`. */
  function KeysOf<T(==)>(a: seq<T>, key: T -> string): set<string> {
    set e | e in a :: key(e)
  }

  lemma KeysOfSnoc<T>(a: seq<T>, x: T, key: T -> string)
    ensures KeysOf(a + [x], key) == KeysOf(a, key) + {key(x)}
  {
    assert forall e :: e in a + [x] <==> e in a || e == x;
  }

  /** `r` is obtained from `a` by deleting elements: it keeps their order. */
  predicate IsSubsequence<T(==)>(r: seq<T>, a: seq<T>) {
    if r == [] then true
    else if a == [] then false
    else
      || (r[|r| - 1] == a[|a| - 1] && IsSubsequence(r[..|r| - 1], a[..|a| - 1]))
      || IsSubsequence(r, a[..|a| - 1])
  }

  // ---------------------------------------------------------------------
  // groupBy
  // ---------------------------------------------------------------------

  /** The elements of `a` whose key is `k`, in input order. */
  function Bucket<T(==)>(a: seq<T>, groupOn: T -> string, k: string): seq<T> {
    if a == [] then []
    else Bucket(a[..|a| - 1], groupOn, k) + (if groupOn(a[|a| - 1]) == k then [a[|a| - 1]] else [])
  }

  /** A bucket holds only elements of `a` that have its key, in the order of `a`. */
  lemma {:induction false} BucketIsFiltered<T>(a: seq<T>, groupOn: T -> string, k: string)
    ensures forall x | x in Bucket(a, groupOn, k) :: x in a && groupOn(x) == k
    ensures IsSubsequence(Bucket(a, groupOn, k), a)
  {
    if a != [] {
      var init, last := a[..|a| - 1], a[|a| - 1];
      assert a == init + [last];
      BucketIsFiltered(init, groupOn, k);
      var b := Bucket(init, groupOn, k);
      if groupOn(last) == k {
        assert Bucket(a, groupOn, k) == b + [last];
        assert (b + [last])[..|b|] == b;
      } else {
        assert Bucket(a, groupOn, k) == b;
        if b != [] {
          assert IsSubsequence(b, init);
        }
      }
    }
  }

  /** Every element lands, with all its occurrences, in the bucket of its own key. */
  lemma {:induction false} BucketCountsAll<T>(a: seq<T>, groupOn: T -> string, e: T)
    ensures multiset(Bucket(a, groupOn, groupOn(e)))[e] == multiset(a)[e]
  {
    if a != [] {
      var init, last := a[..|a| - 1], a[|a| - 1];
      assert a == init + [last];
      BucketCountsAll(init, groupOn, e);
    }
  }

  /** The bucket of `k` is non-empty exactly when some element has key `k`. */
  lemma {:induction false} BucketNonEmpty<T>(a: seq<T>, groupOn: T -> string, k: string)
    ensures Bucket(a, groupOn, k) != [] <==> k in KeysOf(a, groupOn)
  {
    if a != [] {
      var init, last := a[..|a| - 1], a[|a| - 1];
      assert a == init + [last];
      KeysOfSnoc(init, last, groupOn);
      BucketNonEmpty(init, groupOn, k);
    }
  }

  /**
   * `groupBy(items, groupOn)`: one bucket per key, each holding the elements
   * with that key in input order; together the buckets hold every element.
   */
  method GroupBy<T(==)>(items: seq<T>, groupOn: T -> string) returns (ret: map<string, seq<T>>)
    ensures ret.Keys == KeysOf(items, groupOn)
    ensures forall k | k in ret :: ret[k] == Bucket(items, groupOn, k) && ret[k] != []
    ensures forall k | k in ret :: IsSubsequence(ret[k], items)
    ensures forall k, x | k in ret && x in ret[k] :: groupOn(x) == k
    ensures forall e | e in items :: multiset(ret[groupOn(e)])[e] == multiset(items)[e]
  {
    ret := map[];
    for i := 0 to |items|
      invariant ret.Keys == KeysOf(items[..i], groupOn)
      invariant forall k | k in ret :: ret[k] == Bucket(items[..i], groupOn, k)
    {
      var e := items[i];
      var key := groupOn(e);
      assert items[..i + 1] == items[..i] + [e];
      KeysOfSnoc(items[..i], e, groupOn);
      BucketNonEmpty(items[..i], groupOn, key);
      assert items[..i + 1][..i] == items[..i];
      if key !in ret {
        ret := ret[key := []];
      }
      ret := ret[key := ret[key] + [e]];
    }
    assert items[..|items|] == items;
    forall k | k in ret
      ensures ret[k] != [] && IsSubsequence(ret[k], items)
      ensures forall x | x in ret[k] :: groupOn(x) == k
    {
      BucketNonEmpty(items, groupOn, k);
      BucketIsFiltered(items, groupOn, k);
    }
    forall e | e in items
      ensures multiset(ret[groupOn(e)])[e] == multiset(items)[e]
    {
      BucketCountsAll(items, groupOn, e);
    }
  }

  // ---------------------------------------------------------------------
  // toDictionary
  // ---------------------------------------------------------------------

  /** The element stored under `k` once `a` has been processed: the last element of `a` with key `k`. */
  function Stored(a: seq<Value>, groupOn: Value -> string, k: string): Option<Value> {
    if a == [] then None
    else if groupOn(a[|a| - 1]) == k then Some(a[|a| - 1])
    else Stored(a[..|a| - 1], groupOn, k)
  }

  /**
   * Element `j` makes `toDictionary` throw: the element already stored under
   * its key is truthy. A falsy stored element does not count as present.
   */
  predicate Clashes(a: seq<Value>, groupOn: Value -> string, j: nat)
    requires j < |a|
  {
    var prev := Stored(a[..j], groupOn, groupOn(a[j]));
    prev.Some? && Truthy(prev.value)
  }

  lemma {:induction false} StoredIsPresent(a: seq<Value>, groupOn: Value -> string, k: string)
    ensures Stored(a, groupOn, k).Some? <==> k in KeysOf(a, groupOn)
    ensures Stored(a, groupOn, k).Some? ==> Stored(a, groupOn, k).value in a
  {
    if a != [] {
      var init, last := a[..|a| - 1], a[|a| - 1];
      assert a == init + [last];
      KeysOfSnoc(init, last, groupOn);
      StoredIsPresent(init, groupOn, k);
    }
  }

  /**
   * `toDictionary(items, groupOn)`: succeeds exactly when no element clashes,
   * and then maps each key to the last element that has it; otherwise it
   * throws `'Duplicate key: ' + key` for the first clashing element.
   */
  method ToDictionary(items: seq<Value>, groupOn: Value -> string) returns (r: Result<map<string, Value>, string>)
    ensures r.Ok? <==> forall j | 0 <= j < |items| :: !Clashes(items, groupOn, j)
    ensures r.Ok? ==> r.value.Keys == KeysOf(items, groupOn)
    ensures r.Ok? ==> forall k | k in r.value :: Stored(items, groupOn, k) == Some(r.value[k])
    ensures r.Err? ==>
      exists j | 0 <= j < |items| ::
        && Clashes(items, groupOn, j)
        && (forall i | 0 <= i < j :: !Clashes(items, groupOn, i))
        && r.error == "Duplicate key: " + groupOn(items[j])
  {
    var ret: map<string, Value> := map[];
    for i := 0 to |items|
      invariant forall j | 0 <= j < i :: !Clashes(items, groupOn, j)
      invariant ret.Keys == KeysOf(items[..i], groupOn)
      invariant forall k | k in ret :: Stored(items[..i], groupOn, k) == Some(ret[k])
    {
      var e := items[i];
      var key := groupOn(e);
      StoredIsPresent(items[..i], groupOn, key);
      assert Clashes(items, groupOn, i) <==> Truthy(Get(ret, key));
      if Truthy(Get(ret, key)) {
        return Err("Duplicate key: " + key);
      }
      assert items[..i + 1] == items[..i] + [e];
      KeysOfSnoc(items[..i], e, groupOn);
      ret := ret[key := e];
    }
    assert items[..|items|] == items;
    return Ok(ret);
  }

  /** No two elements of `a` share a key. */
  predicate DistinctKeys<T(==)>(a: seq<T>, key: T -> string) {
    forall i, j | 0 <= i < j < |a| :: key(a[i]) != key(a[j])
  }

  /** With distinct keys nothing clashes and every element is stored under its own key. */
  lemma {:induction false} DistinctKeysStoreEach(a: seq<Value>, groupOn: Value -> string)
    requires DistinctKeys(a, groupOn)
    ensures forall j | 0 <= j < |a| :: !Clashes(a, groupOn, j)
    ensures forall i | 0 <= i < |a| :: Stored(a, groupOn, groupOn(a[i])) == Some(a[i])
  {
    forall j | 0 <= j < |a|
      ensures !Clashes(a, groupOn, j)
    {
      StoredIsPresent(a[..j], groupOn, groupOn(a[j]));
      assert groupOn(a[j]) !in KeysOf(a[..j], groupOn);
    }
    forall i | 0 <= i < |a|
      ensures Stored(a, groupOn, groupOn(a[i])) == Some(a[i])
    {
      StoredAfterLastOccurrence(a, groupOn, i);
    }
  }

  lemma {:induction false} StoredAfterLastOccurrence(a: seq<Value>, groupOn: Value -> string, i: nat)
    requires i < |a|
    requires forall j | i < j < |a| :: groupOn(a[j]) != groupOn(a[i])
    ensures Stored(a, groupOn, groupOn(a[i])) == Some(a[i])
  {
    if i < |a| - 1 {
      var init := a[..|a| - 1];
      StoredAfterLastOccurrence(init, groupOn, i);
    }
  }

  /** The truthiness quirk: a repeated key throws only when the element stored first is truthy. */
  lemma RepeatedKeyClashesIffTruthy(x: Value, y: Value, groupOn: Value -> string)
    requires groupOn(x) == groupOn(y)
    ensures Clashes([x, y], groupOn, 1) <==> Truthy(x)
    ensures !Truthy(x) ==> Stored([x, y], groupOn, groupOn(x)) == Some(y)
  {
    assert [x, y][..1] == [x];
  }

  // ---------------------------------------------------------------------
  // unique
  // ---------------------------------------------------------------------

  /** The elements of `a` whose key does not occur earlier in `a`, in input order. */
  function FirstOccurrences<T(==)>(a: seq<T>, compareOn: T -> string): seq<T> {
    if a == [] then []
    else
      var init := a[..|a| - 1];
      FirstOccurrences(init, compareOn)
        + (if compareOn(a[|a| - 1]) in KeysOf(init, compareOn) then [] else [a[|a| - 1]])
  }

  /** Element `i` is the first one of `a` with its key. */
  predicate IsFirst<T(==)>(a: seq<T>, compareOn: T -> string, i: nat)
    requires i < |a|
  {
    forall j | 0 <= j < i :: compareOn(a[j]) != compareOn(a[i])
  }

  lemma {:induction false} FirstOccurrencesKeys<T>(a: seq<T>, compareOn: T -> string)
    ensures KeysOf(FirstOccurrences(a, compareOn), compareOn) == KeysOf(a, compareOn)
    ensures DistinctKeys(FirstOccurrences(a, compareOn), compareOn)
  {
    if a != [] {
      var init, last := a[..|a| - 1], a[|a| - 1];
      assert a == init + [last];
      FirstOccurrencesKeys(init, compareOn);
      KeysOfSnoc(init, last, compareOn);
      var f := FirstOccurrences(init, compareOn);
      if compareOn(last) !in KeysOf(init, compareOn) {
        KeysOfSnoc(f, last, compareOn);
        forall i | 0 <= i < |f| ensures compareOn(f[i]) != compareOn(last) {
          assert f[i] in f;
        }
      }
    }
  }

  lemma {:induction false} FirstOccurrencesIsSubsequence<T>(a: seq<T>, compareOn: T -> string)
    ensures IsSubsequence(FirstOccurrences(a, compareOn), a)
  {
    if a != [] {
      var init, last := a[..|a| - 1], a[|a| - 1];
      FirstOccurrencesIsSubsequence(init, compareOn);
      var f := FirstOccurrences(init, compareOn);
      if compareOn(last) !in KeysOf(init, compareOn) {
        assert FirstOccurrences(a, compareOn) == f + [last];
        assert (f + [last])[..|f|] == f;
      } else {
        assert FirstOccurrences(a, compareOn) == f;
        if f != [] {
          assert IsSubsequence(f, a[..|a| - 1]);
        }
      }
    }
  }

  lemma {:induction false} FirstOccurrencesKeepsFirsts<T>(a: seq<T>, compareOn: T -> string, i: nat)
    requires i < |a| && IsFirst(a, compareOn, i)
    ensures a[i] in FirstOccurrences(a, compareOn)
  {
    var init, last := a[..|a| - 1], a[|a| - 1];
    if i == |a| - 1 {
      forall e | e in init ensures compareOn(e) != compareOn(last) {
        var j :| 0 <= j < |init| && init[j] == e;
        assert a[j] == e;
      }
    } else {
      assert IsFirst(init, compareOn, i) by {
        forall j | 0 <= j < i ensures compareOn(init[j]) != compareOn(init[i]) {
          assert init[j] == a[j] && init[i] == a[i];
        }
      }
      FirstOccurrencesKeepsFirsts(init, compareOn, i);
    }
  }

  /** Deduplicating a sequence whose keys are already distinct leaves it unchanged. */
  lemma {:induction false} FirstOccurrencesOfDistinct<T>(a: seq<T>, compareOn: T -> string)
    requires DistinctKeys(a, compareOn)
    ensures FirstOccurrences(a, compareOn) == a
  {
    if a != [] {
      var init, last := a[..|a| - 1], a[|a| - 1];
      assert a == init + [last];
      LastKeyIsNew(a, compareOn);
      FirstOccurrencesOfDistinct(init, compareOn);
    }
  }

  /** With distinct keys, the prefix keeps them distinct and the last key is new. */
  lemma LastKeyIsNew<T>(a: seq<T>, compareOn: T -> string)
    requires a != [] && DistinctKeys(a, compareOn)
    ensures DistinctKeys(a[..|a| - 1], compareOn)
    ensures compareOn(a[|a| - 1]) !in KeysOf(a[..|a| - 1], compareOn)
  {
    var init, last := a[..|a| - 1], a[|a| - 1];
    forall i, j | 0 <= i < j < |init| ensures compareOn(init[i]) != compareOn(init[j]) {
      assert init[i] == a[i] && init[j] == a[j];
    }
    forall e | e in init ensures compareOn(e) != compareOn(last) {
      var j :| 0 <= j < |init| && init[j] == e;
      assert a[j] == e;
    }
  }


  /** `unique` is idempotent. */
  lemma UniqueIdempotent<T>(a: seq<T>, compareOn: T -> string)
    ensures FirstOccurrences(FirstOccurrences(a, compareOn), compareOn) == FirstOccurrences(a, compareOn)
  {
    FirstOccurrencesKeys(a, compareOn);
    FirstOccurrencesOfDistinct(FirstOccurrences(a, compareOn), compareOn);
  }

  /**
   * `unique(items, compareOn)`: keeps the first element seen for each key,
   * in input order, using a set of keys already seen.
   */
  method Unique<T(==)>(items: seq<T>, compareOn: T -> string) returns (r: seq<T>)
    ensures r == FirstOccurrences(items, compareOn)
    ensures IsSubsequence(r, items)
    ensures DistinctKeys(r, compareOn)
    ensures KeysOf(r, compareOn) == KeysOf(items, compareOn)
    ensures forall i | 0 <= i < |items| && IsFirst(items, compareOn, i) :: items[i] in r
  {
    var has: set<string> := {};
    r := [];
    for i := 0 to |items|
      invariant has == KeysOf(items[..i], compareOn)
      invariant r == FirstOccurrences(items[..i], compareOn)
    {
      var x := items[i];
      var key := compareOn(x);
      assert items[..i + 1][..i] == items[..i];
      KeysOfSnoc(items[..i], x, compareOn);
      if key !in has {
        has := has + {key};
        r := r + [x];
      }
    }
    assert items[..|items|] == items;
    FirstOccurrencesIsSubsequence(items, compareOn);
    FirstOccurrencesKeys(items, compareOn);
    forall i | 0 <= i < |items| && IsFirst(items, compareOn, i)
      ensures items[i] in r
    {
      FirstOccurrencesKeepsFirsts(items, compareOn, i);
    }
  }

  // ---------------------------------------------------------------------
  // sortBy
  // ---------------------------------------------------------------------

  /** What a `PropGetter` returns: a number or a string. */
  datatype SortKey = NumKey(n: real) | StrKey(s: string)

  /**
   * The UTF-16 code units of one character, which JavaScript strings hold:
   * the character itself below U+10000, a surrogate pair above.
   */
  function CodeUnits(c: char): (u: seq<int>)
    ensures 1 <= |u| <= 2
    ensures |u| == 2 <==> c as int >= 0x10000
    ensures forall i | 0 <= i < |u| :: 0 <= u[i] < 0x10000
  {
    if c as int < 0x10000 then [c as int]
    else var v := c as int - 0x10000; [0xD800 + v / 0x400, 0xDC00 + v % 0x400]
  }

  /** A string as the sequence of UTF-16 code units JavaScript compares. */
  function Utf16(s: string): seq<int> {
    if s == [] then [] else CodeUnits(s[0]) + Utf16(s[1..])
  }

  /** Lexicographic `<` on code-unit sequences; a proper prefix comes first. */
  predicate UnitsLess(a: seq<int>, b: seq<int>) {
    if a == [] then b != []
    else if b == [] then false
    else a[0] < b[0] || (a[0] == b[0] && UnitsLess(a[1..], b[1..]))
  }

  /** JavaScript's `a < b` on two strings: lexicographic on UTF-16 code units. */
  predicate StrLess(a: string, b: string) {
    UnitsLess(Utf16(a), Utf16(b))
  }

  lemma {:induction false} UnitsLessIsStrictTotal(a: seq<int>, b: seq<int>, c: seq<int>)
    ensures !UnitsLess(a, a)
    ensures UnitsLess(a, b) ==> !UnitsLess(b, a)
    ensures a != b ==> UnitsLess(a, b) || UnitsLess(b, a)
    ensures UnitsLess(a, b) && UnitsLess(b, c) ==> UnitsLess(a, c)
  {
    if a != [] && b != [] && c != [] {
      UnitsLessIsStrictTotal(a[1..], b[1..], c[1..]);
      if a[0] == b[0] && a != b {
        assert a == [a[0]] + a[1..] && b == [b[0]] + b[1..];
      }
    } else if a != [] && b != [] {
      UnitsLessIsStrictTotal(a[1..], b[1..], b[1..]);
      if a[0] == b[0] && a != b {
        assert a == [a[0]] + a[1..] && b == [b[0]] + b[1..];
      }
    } else if a != [] {
      UnitsLessIsStrictTotal(a[1..], a[1..], a[1..]);
    }
  }

  /**
   * No character's code units start another's: a single unit is never a
   * high surrogate, and a surrogate pair determines its character.
   */
  lemma CodeUnitsPrefixFree(x: char, y: char, s: seq<int>, t: seq<int>)
    requires CodeUnits(x) + s == CodeUnits(y) + t
    ensures x == y && s == t
  {
    var ux, uy := CodeUnits(x), CodeUnits(y);
    assert ux[0] == (ux + s)[0] == (uy + t)[0] == uy[0];
    if x as int >= 0x10000 && y as int >= 0x10000 {
      assert ux[1] == (ux + s)[1] == (uy + t)[1] == uy[1];
    } else if x as int < 0x10000 && y as int < 0x10000 {
    } else {
      assert false;
    }
    assert s == (ux + s)[|ux|..] == (uy + t)[|uy|..] == t;
  }

  /** Distinct strings have distinct UTF-16 encodings. */
  lemma {:induction false} Utf16Injective(a: string, b: string)
    requires Utf16(a) == Utf16(b)
    ensures a == b
  {
    if a != [] && b != [] {
      CodeUnitsPrefixFree(a[0], b[0], Utf16(a[1..]), Utf16(b[1..]));
      Utf16Injective(a[1..], b[1..]);
      assert a == [a[0]] + a[1..] && b == [b[0]] + b[1..];
    }
  }

  lemma StrLessIsStrictTotal(a: string, b: string, c: string)
    ensures !StrLess(a, a)
    ensures StrLess(a, b) ==> !StrLess(b, a)
    ensures a != b ==> StrLess(a, b) || StrLess(b, a)
    ensures StrLess(a, b) && StrLess(b, c) ==> StrLess(a, c)
  {
    UnitsLessIsStrictTotal(Utf16(a), Utf16(b), Utf16(c));
    if Utf16(a) == Utf16(b) {
      Utf16Injective(a, b);
    }
  }

  /**
   * A character above U+FFFF sorts before U+FF00, because its first code
   * unit is a surrogate (0xD800) below 0xFF00, although its code point is
   * larger.
   */
  lemma SurrogatePairSortsLow()
    ensures StrLess("\U{10000}", "\U{FF00}")
    ensures !StrLess("\U{FF00}", "\U{10000}")
  {
    assert Utf16("\U{10000}") == [0xD800, 0xDC00];
    assert Utf16("\U{FF00}") == [0xFF00];
  }

  /** `a < b` on keys of the same kind; a number is placed before any string. */
  predicate KeyLess(a: SortKey, b: SortKey) {
    match (a, b)
    case (NumKey(x), NumKey(y)) => x < y
    case (StrKey(x), StrKey(y)) => StrLess(x, y)
    case (NumKey(_), StrKey(_)) => true
    case (StrKey(_), NumKey(_)) => false
  }

  /**
   * The comparator `sortBy` hands to `Array.prototype.sort`: it answers 1
   * when `a` must come after `b` and -1 otherwise, never 0.
   */
  function Compare(desc: bool, ap: SortKey, bp: SortKey): (r: int)
    ensures r == 1 || r == -1
  {
    if desc then (if KeyLess(ap, bp) then 1 else -1)
    else (if KeyLess(bp, ap) then 1 else -1)
  }

  lemma KeyLessIsStrictTotal(a: SortKey, b: SortKey, c: SortKey)
    ensures !KeyLess(a, a)
    ensures KeyLess(a, b) ==> !KeyLess(b, a)
    ensures a != b ==> KeyLess(a, b) || KeyLess(b, a)
    ensures KeyLess(a, b) && KeyLess(b, c) ==> KeyLess(a, c)
  {
    if a.StrKey? && b.StrKey? && c.StrKey? {
      StrLessIsStrictTotal(a.s, b.s, c.s);
    } else if a.StrKey? && b.StrKey? {
      StrLessIsStrictTotal(a.s, b.s, b.s);
    } else if a.StrKey? {
      StrLessIsStrictTotal(a.s, a.s, a.s);
    }
  }

  /** `x` may stay before `y`: the comparator does not ask to move it after `y`. */
  predicate InOrder(desc: bool, x: SortKey, y: SortKey) {
    Compare(desc, x, y) == -1
  }

  lemma InOrderTransitive(desc: bool, x: SortKey, y: SortKey, z: SortKey)
    requires InOrder(desc, x, y) && InOrder(desc, y, z)
    ensures InOrder(desc, x, z)
  {
    KeyLessIsStrictTotal(x, y, z);
    KeyLessIsStrictTotal(z, y, x);
    KeyLessIsStrictTotal(x, z, y);
    KeyLessIsStrictTotal(z, x, y);
  }

  /** Every pair of `s` is in comparator order: non-decreasing keys, or non-increasing when `desc`. */
  ghost predicate SortedBy<T>(s: seq<T>, get: T -> SortKey, desc: bool) {
    forall i, j | 0 <= i < j < |s| :: InOrder(desc, get(s[i]), get(s[j]))
  }

  /**
   * `sortBy(data, get, desc)`: sorts `data` in place by the key `get`
   * returns and returns the same array. The engine's sort algorithm is
   * replaced by an insertion sort that swaps two neighbours exactly when the
   * source's comparator returns a positive number for them.
   */
  method SortBy<T>(data: array<T>, get: T -> SortKey, desc: bool) returns (sorted: array<T>)
    modifies data
    ensures sorted == data
    ensures multiset(data[..]) == multiset(old(data[..]))
    ensures SortedBy(data[..], get, desc)
  {
    var i := 0;
    while i < data.Length
      invariant 0 <= i <= data.Length
      invariant multiset(data[..]) == multiset(old(data[..]))
      invariant SortedBy(data[..i], get, desc)
    {
      InsertLast(data, i, get, desc);
      i := i + 1;
    }
    assert data[..data.Length] == data[..];
    sorted := data;
  }

  /** All pairs within `s[..i + 1]` that avoid position `j` are in order. */
  ghost predicate SortedExcept<T>(s: seq<T>, get: T -> SortKey, desc: bool, i: nat, j: nat)
    requires i < |s|
  {
    forall k, l | 0 <= k < l <= i && k != j && l != j :: InOrder(desc, get(s[k]), get(s[l]))
  }

  /** `s[j]` is in order with every element after it, up to `s[i]`. */
  ghost predicate BeforeRest<T>(s: seq<T>, get: T -> SortKey, desc: bool, i: nat, j: nat)
    requires j <= i < |s|
  {
    forall l | j < l <= i :: InOrder(desc, get(s[j]), get(s[l]))
  }

  /** Swapping `s[j - 1]` and `s[j]` when they are out of order moves the hole one place left. */
  lemma SwapStep<T>(s: seq<T>, get: T -> SortKey, desc: bool, i: nat, j: nat)
    requires 0 < j <= i < |s|
    requires SortedExcept(s, get, desc, i, j) && BeforeRest(s, get, desc, i, j)
    requires !InOrder(desc, get(s[j - 1]), get(s[j]))
    ensures var t := s[j - 1 := s[j]][j := s[j - 1]];
      SortedExcept(t, get, desc, i, j - 1) && BeforeRest(t, get, desc, i, j - 1)
  {
    var t := s[j - 1 := s[j]][j := s[j - 1]];
    assert InOrder(desc, get(s[j]), get(s[j - 1])) by {
      KeyLessIsStrictTotal(get(s[j]), get(s[j - 1]), get(s[j - 1]));
    }
    forall l | j - 1 < l <= i
      ensures InOrder(desc, get(t[j - 1]), get(t[l]))
    {
    }
  }

  /** Once `s[j - 1]` and `s[j]` are in order (or `j` is 0), the whole prefix is sorted. */
  lemma InsertDone<T>(s: seq<T>, get: T -> SortKey, desc: bool, i: nat, j: nat)
    requires j <= i < |s|
    requires SortedExcept(s, get, desc, i, j) && BeforeRest(s, get, desc, i, j)
    requires j > 0 ==> InOrder(desc, get(s[j - 1]), get(s[j]))
    ensures SortedBy(s[..i + 1], get, desc)
  {
    forall k, l | 0 <= k < l <= i
      ensures InOrder(desc, get(s[k]), get(s[l]))
    {
      if l == j && k < j - 1 {
        InOrderTransitive(desc, get(s[k]), get(s[j - 1]), get(s[j]));
      }
    }
  }

  /** Moves `data[i]` left past every neighbour the comparator puts after it. */
  method InsertLast<T>(data: array<T>, i: nat, get: T -> SortKey, desc: bool)
    requires i < data.Length
    requires SortedBy(data[..i], get, desc)
    modifies data
    ensures multiset(data[..]) == multiset(old(data[..]))
    ensures SortedBy(data[..i + 1], get, desc)
  {
    var j := i;
    assert SortedExcept(data[..], get, desc, i, j) by {
      assert forall k | 0 <= k < i :: data[..i][k] == data[k];
    }
    while j > 0 && Compare(desc, get(data[j - 1]), get(data[j])) > 0
      invariant 0 <= j <= i
      invariant multiset(data[..]) == multiset(old(data[..]))
      invariant SortedExcept(data[..], get, desc, i, j) && BeforeRest(data[..], get, desc, i, j)
    {
      ghost var s := data[..];
      SwapStep(s, get, desc, i, j);
      data[j - 1], data[j] := data[j], data[j - 1];
      assert data[..] == s[j - 1 := s[j]][j := s[j - 1]];
      j := j - 1;
    }
    InsertDone(data[..], get, desc, i, j);
    assert data[..][..i + 1] == data[..i + 1];
  }

  // ---------------------------------------------------------------------
  // range
  // ---------------------------------------------------------------------

  /** `Math.ceil`. */
  function Ceil(x: real): int {
    -((-x).Floor)
  }

  /** `Array.from({length})` turns a negative length into an empty array. */
  function ToLength(x: int): nat {
    if x < 0 then 0 else x
  }

  /** `Math.abs(end - start)`. */
  function Distance(start: real, end: real): real {
    if end > start then end - start else start - end
  }

  /**
   * `range(start, end, step)`: empty when `start == end` or `step == 0`;
   * otherwise `ceil(|end - start| / step)` numbers stepping from `start`
   * towards `end`.
   */
  function Range(start: real, end: real, step: real): (r: seq<real>)
    ensures |r| > 0 <==> start != end && step > 0.0
    ensures |r| > 0 ==> r[0] == start
  {
    if start == end || step == 0.0 then []
    else
      var length := ToLength(Ceil(Distance(start, end) / step));
      if start > end then seq(length, k => start - k as real * step)
      else seq(length, k => start + k as real * step)
  }

  lemma CeilBounds(x: real)
    ensures x <= Ceil(x) as real < x + 1.0
  {
  }

  lemma MulMono(a: real, b: real, c: real)
    requires c > 0.0
    ensures a <= b ==> a * c <= b * c
    ensures a < b ==> a * c < b * c
  {
  }

  /** Step `k` of `len` stays below the distance that the last step does not reach. */
  lemma OffsetBelow(k: nat, len: nat, step: real, d: real)
    requires k < len && step > 0.0 && (len - 1) as real * step < d
    ensures 0.0 <= k as real * step < d
  {
    MulMono(k as real, (len - 1) as real, step);
    MulMono(0.0, k as real, step);
  }

  /**
   * For a positive step the length is the least count of steps that covers
   * the distance from `start` to `end`.
   */
  lemma RangeLengthIsLeastCover(start: real, end: real, step: real, n: nat)
    requires step > 0.0 && start != end
    ensures |Range(start, end, step)| as real * step >= Distance(start, end)
    ensures (|Range(start, end, step)| - 1) as real * step < Distance(start, end)
    ensures n as real * step >= Distance(start, end) ==> n >= |Range(start, end, step)|
  {
    var d := Distance(start, end);
    CeilCovers(d, step);
    RangeLength(start, end, step);
    FewerStepsFallShort(Ceil(d / step), n, step, d);
  }

  /** With a positive step the length is `ceil(|end - start| / step)`, which is positive. */
  lemma RangeLength(start: real, end: real, step: real)
    requires step > 0.0 && start != end
    ensures |Range(start, end, step)| == Ceil(Distance(start, end) / step) > 0
  {
    var q := Distance(start, end) / step;
    assert q > 0.0;
    CeilBounds(q);
  }

  /** If `c - 1` steps fall short of `d`, so do all fewer steps. */
  lemma FewerStepsFallShort(c: int, n: nat, step: real, d: real)
    requires step > 0.0 && (c - 1) as real * step < d
    ensures n as real * step >= d ==> n >= c
  {
    if n < c {
      MulMono(n as real, (c - 1) as real, step);
    }
  }

  /** `ceil(d / step)` steps cover `d`, one step fewer does not. */
  lemma CeilCovers(d: real, step: real)
    requires d > 0.0 && step > 0.0
    ensures Ceil(d / step) as real * step >= d
    ensures (Ceil(d / step) - 1) as real * step < d
  {
    var q := d / step;
    CeilBounds(q);
    StepsCover(q, Ceil(q), step, d);
  }

  /** Any `c` with `c - 1 < d / step <= c` covers `d` in `c` steps and not in `c - 1`. */
  lemma StepsCover(q: real, c: int, step: real, d: real)
    requires step > 0.0 && q * step == d && (c - 1) as real < q <= c as real
    ensures c as real * step >= d && (c - 1) as real * step < d
  {
    MulMono(q, c as real, step);
    MulMono((c - 1) as real, q, step);
  }

  /** With a positive step and `start < end`, every element lies in `[start, end)`. */
  lemma RangeAscendingWithin(start: real, end: real, step: real)
    requires step > 0.0 && start < end
    ensures forall k | 0 <= k < |Range(start, end, step)| ::
      Range(start, end, step)[k] == start + k as real * step
      && start <= Range(start, end, step)[k] < end
  {
    var r := Range(start, end, step);
    RangeLengthIsLeastCover(start, end, step, 0);
    forall k | 0 <= k < |r|
      ensures start <= r[k] < end
    {
      OffsetBelow(k, |r|, step, Distance(start, end));
      assert r[k] == start + k as real * step;
    }
  }

  /** With a positive step and `start > end`, elements count down and lie in `(end, start]`. */
  lemma RangeDescendingWithin(start: real, end: real, step: real)
    requires step > 0.0 && start > end
    ensures forall k | 0 <= k < |Range(start, end, step)| ::
      Range(start, end, step)[k] == start - k as real * step
      && end < Range(start, end, step)[k] <= start
  {
    var r := Range(start, end, step);
    RangeLengthIsLeastCover(start, end, step, 0);
    forall k | 0 <= k < |r|
      ensures end < r[k] <= start
    {
      OffsetBelow(k, |r|, step, Distance(start, end));
      assert r[k] == start - k as real * step;
    }
  }

  /** A negative step never reaches `end`: the computed length is negative and the result empty. */
  lemma RangeNegativeStepIsEmpty(start: real, end: real, step: real)
    requires step < 0.0
    ensures Range(start, end, step) == []
  {
    if start != end {
      var q := Distance(start, end) / step;
      assert q < 0.0;
      CeilBounds(q);
    }
  }
}
