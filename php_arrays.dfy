/**
 * PHP values and PHP's ordered arrays: lookup with `??`, element assignment,
 * array_merge, array_unique, and the conversion of numeric string keys to
 * integer keys. An array is a sequence of key/value entries in insertion
 * order.
 */
module PhpArrays {
  import opened Wrappers
  import opened PhpStrings

  /** Array keys: PHP keeps integer and string keys apart. */
  datatype Key = IntKey(i: int) | StrKey(s: string)

  /**
   * The values a configuration can hold. `Object` stands for a PHP object
   * (a configuration section) by an opaque handle.
   */
  datatype Value =
    | Null
    | Bool(b: bool)
    | Int(i: int)
    | Str(s: string)
    | Arr(entries: seq<(Key, Value)>)
    | Object(handle: nat)

  type PArray = seq<(Key, Value)>

  /** The later of two optional values, when it is present. */
  function Override<T>(x: Option<T>, y: Option<T>): Option<T> {
    if y.Some? then y else x
  }

  /** The position of the first entry of key `k`, or |a| when there is none. */
  function IndexOf(a: PArray, k: Key): (i: nat)
    ensures i <= |a|
    ensures forall j :: 0 <= j < i ==> a[j].0 != k
    ensures i < |a| ==> a[i].0 == k
  {
    if a == [] || a[0].0 == k then 0 else 1 + IndexOf(a[1..], k)
  }

  /** `$a[$k]`, as an Option: the value of the entry of key `k`, if any. */
  function Lookup(a: PArray, k: Key): (r: Option<Value>)
    ensures r.Some? <==> exists i :: 0 <= i < |a| && a[i].0 == k
    ensures r.Some? ==> (k, r.value) in a
  {
    var i := IndexOf(a, k);
    if i < |a| then Some(a[i].1) else None
  }

  /** The value of the last entry of key `k`: the one a later write leaves in place. */
  function LastLookup(a: PArray, k: Key): (r: Option<Value>)
    ensures r.None? <==> forall i :: 0 <= i < |a| ==> a[i].0 != k
  {
    if a == [] then None
    else if a[|a| - 1].0 == k then Some(a[|a| - 1].1)
    else LastLookup(a[..|a| - 1], k)
  }

  /** `$x ?? null` on a lookup. */
  function OrNull(o: Option<Value>): Value {
    if o.Some? then o.value else Null
  }

  predicate DistinctKeys(a: PArray) {
    forall i, j :: 0 <= i < j < |a| ==> a[i].0 != a[j].0
  }

  predicate SameKeys(a: PArray, b: PArray) {
    |a| == |b| && forall j :: 0 <= j < |a| ==> a[j].0 == b[j].0
  }

  lemma SameKeysIndexOf(a: PArray, b: PArray, k: Key)
    requires SameKeys(a, b)
    ensures IndexOf(a, k) == IndexOf(b, k)
  {
  }

  /** On an array without repeated keys the first and the last entry of a key agree. */
  lemma {:induction false} DistinctLookup(a: PArray, k: Key)
    requires DistinctKeys(a)
    ensures Lookup(a, k) == LastLookup(a, k)
    decreases |a|
  {
    if a != [] {
      var n := |a|;
      var init := a[..n - 1];
      DistinctLookup(init, k);
      if a[n - 1].0 == k {
        assert IndexOf(a, k) == n - 1;
      } else {
        if IndexOf(init, k) < n - 1 {
          assert IndexOf(a, k) == IndexOf(init, k);
        } else {
          assert IndexOf(a, k) == n;
        }
      }
    }
  }

  /**
   * `$a[$k] = $v`: the entry of key `k` takes the new value in place, or a
   * new entry is appended when there is none. Existing keys keep their
   * positions.
   */
  function Assign(a: PArray, k: Key, v: Value): (r: PArray)
    ensures |r| == if Lookup(a, k).Some? then |a| else |a| + 1
    ensures forall i :: 0 <= i < |a| ==> r[i].0 == a[i].0
    ensures Lookup(a, k).None? ==> r[|a|] == (k, v)
  {
    var i := IndexOf(a, k);
    if i < |a| then a[i := (k, v)] else a + [(k, v)]
  }

  /** `$a[$k] = $v` makes `$a[$k]` the new value and changes no other key. */
  lemma AssignLookup(a: PArray, k: Key, v: Value, k': Key)
    ensures Lookup(Assign(a, k, v), k') == if k' == k then Some(v) else Lookup(a, k')
  {
    var r := Assign(a, k, v);
    var i := IndexOf(a, k);
    if i < |a| {
      SameKeysIndexOf(a, r, k');
    } else {
      var j := IndexOf(a, k');
      if k' != k && j < |a| {
        assert IndexOf(r, k') == j by { SameKeysIndexOf(a, r[..|a|], k'); assert r[..|a|] == a; }
      } else if k' != k {
        assert forall m :: 0 <= m < |r| ==> r[m].0 != k';
      } else {
        assert forall m :: 0 <= m < |a| ==> r[m].0 != k;
      }
    }
  }

  /** The number of integer-keyed entries. */
  function CountInts(a: PArray): nat {
    if a == [] then 0 else CountInts(a[..|a| - 1]) + if a[|a| - 1].0.IntKey? then 1 else 0
  }

  /** The values of the integer-keyed entries, in order. */
  function IntValues(a: PArray): seq<Value> {
    if a == [] then []
    else IntValues(a[..|a| - 1]) + if a[|a| - 1].0.IntKey? then [a[|a| - 1].1] else []
  }

  /**
   * The shape every array built by array_merge has: keys are distinct and
   * the integer keys are 0, 1, 2, ... in order of position.
   */
  predicate Normal(a: PArray) {
    && DistinctKeys(a)
    && forall i :: 0 <= i < |a| && a[i].0.IntKey? ==> a[i].0.i == CountInts(a[..i])
  }

  /** One step of array_merge: integer keys are appended under the next index, string keys assigned. */
  function Put(acc: PArray, e: (Key, Value)): PArray {
    if e.0.IntKey? then acc + [(IntKey(CountInts(acc)), e.1)] else Assign(acc, e.0, e.1)
  }

  function Combine(acc: PArray, src: PArray): PArray
    decreases |src|
  {
    if src == [] then acc else Put(Combine(acc, src[..|src| - 1]), src[|src| - 1])
  }

  /** array_merge($a, $b): the result has distinct keys, its integer keys renumbered 0, 1, 2, ... */
  function ArrayMerge(a: PArray, b: PArray): (r: PArray)
    ensures Normal(r)
  {
    assert Normal([]);
    CombineNormal([], a);
    CombineNormal(Combine([], a), b);
    Combine(Combine([], a), b)
  }

  lemma IntValuesAppend(a: PArray, e: (Key, Value))
    ensures IntValues(a + [e]) == IntValues(a) + if e.0.IntKey? then [e.1] else []
    ensures CountInts(a + [e]) == CountInts(a) + if e.0.IntKey? then 1 else 0
  {
    assert (a + [e])[..|a|] == a;
  }

  /** Overwriting a string-keyed entry in place leaves the integer-keyed entries alone. */
  lemma {:induction false} UpdateStrKeepsInts(a: PArray, i: nat, e: (Key, Value))
    requires i < |a| && a[i].0.StrKey? && e.0.StrKey?
    ensures IntValues(a[i := e]) == IntValues(a)
    ensures CountInts(a[i := e]) == CountInts(a)
    decreases |a|
  {
    var n := |a|;
    var r := a[i := e];
    assert r[..n - 1] == if i < n - 1 then a[..n - 1][i := e] else a[..n - 1];
    if i < n - 1 {
      UpdateStrKeepsInts(a[..n - 1], i, e);
    }
  }

  lemma AssignStrKeepsInts(a: PArray, s: string, v: Value)
    ensures IntValues(Assign(a, StrKey(s), v)) == IntValues(a)
    ensures CountInts(Assign(a, StrKey(s), v)) == CountInts(a)
  {
    var i := IndexOf(a, StrKey(s));
    if i < |a| {
      UpdateStrKeepsInts(a, i, (StrKey(s), v));
    } else {
      IntValuesAppend(a, (StrKey(s), v));
    }
  }

  lemma LookupAppend(a: PArray, e: (Key, Value), k: Key)
    requires e.0 != k
    ensures Lookup(a + [e], k) == Lookup(a, k)
  {
    var i := IndexOf(a, k);
    var b := a + [e];
    assert forall m :: 0 <= m < |a| ==> b[m] == a[m];
    if i < |a| {
      assert b[i].0 == k;
      assert IndexOf(b, k) == i;
    } else {
      assert forall m :: 0 <= m < |b| ==> b[m].0 != k;
      assert IndexOf(b, k) == |b|;
    }
  }

  /**
   * After merging `src` into `acc`, a string key holds its last value in
   * `src`, or its old value when `src` does not have it.
   */
  lemma {:induction false} CombineStrKey(acc: PArray, src: PArray, s: string)
    ensures Lookup(Combine(acc, src), StrKey(s)) == Override(Lookup(acc, StrKey(s)), LastLookup(src, StrKey(s)))
    decreases |src|
  {
    if src != [] {
      var init := src[..|src| - 1];
      var e := src[|src| - 1];
      var c := Combine(acc, init);
      CombineStrKey(acc, init, s);
      if e.0.IntKey? {
        LookupAppend(c, (IntKey(CountInts(c)), e.1), StrKey(s));
      } else {
        AssignLookup(c, e.0, e.1, StrKey(s));
      }
    }
  }

  /** Merging appends the integer-keyed values of `src` after those of `acc`. */
  lemma {:induction false} CombineIntValues(acc: PArray, src: PArray)
    ensures IntValues(Combine(acc, src)) == IntValues(acc) + IntValues(src)
    decreases |src|
  {
    if src != [] {
      var init := src[..|src| - 1];
      var e := src[|src| - 1];
      var c := Combine(acc, init);
      CombineIntValues(acc, init);
      IntValuesAppend(init, e);
      assert src == init + [e];
      if e.0.IntKey? {
        IntValuesAppend(c, (IntKey(CountInts(c)), e.1));
      } else {
        AssignStrKeepsInts(c, e.0.s, e.1);
      }
    }
  }

  lemma {:induction false} SameKeysCountInts(a: PArray, b: PArray)
    requires SameKeys(a, b)
    ensures CountInts(a) == CountInts(b)
    decreases |a|
  {
    if a != [] {
      SameKeysCountInts(a[..|a| - 1], b[..|b| - 1]);
    }
  }

  lemma {:induction false} CountIntsPrefix(a: PArray, i: nat)
    requires i <= |a|
    ensures CountInts(a[..i]) <= CountInts(a)
    ensures i < |a| && a[i].0.IntKey? ==> CountInts(a[..i]) < CountInts(a)
    decreases |a| - i
  {
    if i < |a| {
      CountIntsPrefix(a, i + 1);
      assert a[..i + 1][..i] == a[..i];
    } else {
      assert a[..i] == a;
    }
  }

  lemma PutIntNormal(acc: PArray, v: Value)
    requires Normal(acc)
    ensures Normal(acc + [(IntKey(CountInts(acc)), v)])
  {
    var n := CountInts(acc);
    var r := acc + [(IntKey(n), v)];
    assert r[..|acc|] == acc;
    forall i | 0 <= i < |acc| && acc[i].0.IntKey? ensures acc[i].0.i < n {
      CountIntsPrefix(acc, i);
    }
    forall i | 0 <= i < |r| && r[i].0.IntKey? ensures r[i].0.i == CountInts(r[..i]) {
      if i < |acc| {
        assert r[..i] == acc[..i];
      }
    }
  }

  lemma PutStrNormal(acc: PArray, s: string, v: Value)
    requires Normal(acc)
    ensures Normal(Assign(acc, StrKey(s), v))
  {
    var r := Assign(acc, StrKey(s), v);
    if IndexOf(acc, StrKey(s)) < |acc| {
      forall i | 0 <= i < |r| && r[i].0.IntKey? ensures r[i].0.i == CountInts(r[..i]) {
        SameKeysCountInts(acc[..i], r[..i]);
      }
    } else {
      assert r == acc + [(StrKey(s), v)];
      assert forall i :: 0 <= i < |acc| ==> acc[i].0 != StrKey(s);
      forall i | 0 <= i < |r| && r[i].0.IntKey? ensures r[i].0.i == CountInts(r[..i]) {
        assert r[..i] == acc[..i];
      }
    }
  }

  lemma PutNormal(acc: PArray, e: (Key, Value))
    requires Normal(acc)
    ensures Normal(Put(acc, e))
  {
    if e.0.IntKey? {
      PutIntNormal(acc, e.1);
    } else {
      PutStrNormal(acc, e.0.s, e.1);
    }
  }

  lemma {:induction false} CombineNormal(acc: PArray, src: PArray)
    requires Normal(acc)
    ensures Normal(Combine(acc, src))
    decreases |src|
  {
    if src != [] {
      CombineNormal(acc, src[..|src| - 1]);
      PutNormal(Combine(acc, src[..|src| - 1]), src[|src| - 1]);
    }
  }

  lemma ArrayMergeStrKey(a: PArray, b: PArray, s: string)
    ensures Lookup(ArrayMerge(a, b), StrKey(s)) == Override(LastLookup(a, StrKey(s)), LastLookup(b, StrKey(s)))
  {
    CombineStrKey([], a, s);
    CombineStrKey(Combine([], a), b, s);
  }

  /**
   * array_merge($a, $b): a string key takes its value from `b` when `b` has
   * it (the later array wins), else from `a`; integer-keyed values are those
   * of `a` followed by those of `b`; and the result is renumbered, its
   * integer keys running 0, 1, 2, ... in order.
   */
  lemma ArrayMergeSpec(a: PArray, b: PArray)
    ensures forall s :: Lookup(ArrayMerge(a, b), StrKey(s)) == Override(LastLookup(a, StrKey(s)), LastLookup(b, StrKey(s)))
    ensures IntValues(ArrayMerge(a, b)) == IntValues(a) + IntValues(b)
    ensures Normal(ArrayMerge(a, b))
  {
    forall s ensures Lookup(ArrayMerge(a, b), StrKey(s)) == Override(LastLookup(a, StrKey(s)), LastLookup(b, StrKey(s))) {
      ArrayMergeStrKey(a, b, s);
    }
    ArrayMergeInts(a, b);
  }

  lemma ArrayMergeInts(a: PArray, b: PArray)
    ensures IntValues(ArrayMerge(a, b)) == IntValues(a) + IntValues(b)
  {
    var m := Combine([], a);
    assert ArrayMerge(a, b) == Combine(m, b);
    CombineIntValues([], a);
    assert IntValues(m) == IntValues(a);
    CombineIntValues(m, b);
  }

  // ----- numeric string keys -----

  const IntMax: nat := 0x7fff_ffff_ffff_ffff

  /**
   * A string PHP stores as an integer key: a decimal integer without leading
   * zeros or "-0", within the 64-bit range.
   */
  predicate IsIntegerKey(s: string) {
    var neg := |s| > 0 && s[0] == '-';
    var d := if neg then s[1..] else s;
    && |d| > 0 && AllDigits(d)
    && (d[0] != '0' || (d == "0" && !neg))
    && DigitsValue(d) <= if neg then IntMax + 1 else IntMax
  }

  /** The key `$a[$s]` uses. */
  function KeyOf(s: string): (r: Key)
    ensures r.IntKey? <==> IsIntegerKey(s)
    ensures r.StrKey? ==> r.s == s
  {
    if IsIntegerKey(s) then
      var neg := s[0] == '-';
      var v: int := DigitsValue(if neg then s[1..] else s);
      IntKey(if neg then -v else v)
    else StrKey(s)
  }

  /** A name that starts with neither a digit nor a minus sign stays a string key. */
  lemma KeyOfName(s: string)
    requires |s| > 0 && !IsDigit(s[0]) && s[0] != '-'
    ensures KeyOf(s) == StrKey(s)
  {
  }

  /** The decimal spelling of an integer in range is stored under that integer. */
  lemma KeyOfDecimal(n: nat)
    requires n <= IntMax
    ensures KeyOf(NatToDecimal(n)) == IntKey(n)
  {
    DecimalRoundTrip(n);
  }

  // ----- array_unique over a list -----

  /** array_unique on a list: the first occurrence of every value, in order. */
  function Unique(xs: seq<string>): (r: seq<string>)
    ensures forall i, j :: 0 <= i < j < |r| ==> r[i] != r[j]
    ensures forall x :: x in r <==> x in xs
  {
    if xs == [] then []
    else
      var init := Unique(xs[..|xs| - 1]);
      assert forall x :: x in xs <==> x in xs[..|xs| - 1] || x == xs[|xs| - 1];
      if xs[|xs| - 1] in init then init else init + [xs[|xs| - 1]]
  }

  /** The position of the first occurrence of `x` in `xs`. */
  function FirstIndex(xs: seq<string>, x: string): (i: nat)
    requires x in xs
    ensures i < |xs| && xs[i] == x && forall j :: 0 <= j < i ==> xs[j] != x
  {
    if xs[0] == x then 0 else 1 + FirstIndex(xs[1..], x)
  }

  /** A value that occurs in a prefix first occurs where it first occurs in that prefix. */
  lemma FirstIndexInPrefix(xs: seq<string>, k: nat, x: string)
    requires k <= |xs| && x in xs[..k]
    ensures FirstIndex(xs, x) == FirstIndex(xs[..k], x)
  {
    var i := FirstIndex(xs[..k], x);
    assert xs[i] == x;
    assert forall j :: 0 <= j < i ==> xs[j] == xs[..k][j];
  }

  /** The values of `r` occur in `xs`, in the order of their first occurrence there. */
  predicate InFirstOccurrenceOrder(r: seq<string>, xs: seq<string>) {
    forall i, j :: 0 <= i < j < |r| ==> r[i] in xs && r[j] in xs && FirstIndex(xs, r[i]) < FirstIndex(xs, r[j])
  }

  /** array_unique keeps the values in the order of their first occurrence. */
  lemma {:induction false} UniqueInOrder(xs: seq<string>)
    ensures InFirstOccurrenceOrder(Unique(xs), xs)
  {
    if xs != [] {
      var n := |xs| - 1;
      var init := xs[..n];
      UniqueInOrder(init);
      var u := Unique(init);
      forall x | x in u ensures FirstIndex(xs, x) == FirstIndex(init, x) < n {
        FirstIndexInPrefix(xs, n, x);
      }
      if xs[n] !in u {
        assert xs[n] !in init;
        assert FirstIndex(xs, xs[n]) == n;
        var r := u + [xs[n]];
        assert forall i :: 0 <= i < |u| ==> r[i] == u[i];
      }
    }
  }

  /** A list without repeats is left as it is. */
  lemma {:induction false} UniqueOfDistinct(xs: seq<string>)
    requires forall i, j :: 0 <= i < j < |xs| ==> xs[i] != xs[j]
    ensures Unique(xs) == xs
  {
    if xs != [] {
      UniqueOfDistinct(xs[..|xs| - 1]);
      assert xs[|xs| - 1] !in xs[..|xs| - 1];
      assert xs == xs[..|xs| - 1] + [xs[|xs| - 1]];
    }
  }
}
