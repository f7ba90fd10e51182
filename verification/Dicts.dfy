/** Dictionaries that remember the order in which their keys were first inserted, as Python's do. */
module Dicts {
  import opened Bytes

  datatype Entries<V> = Entries(order: seq<Byte>, values: map<Byte, V>) {
    ghost predicate Valid() {
      && NoDuplicates(order)
      && forall k :: k in order <==> k in values
    }
  }

  type Dict<V> = d: Entries<V> | d.Valid() witness Entries([], map[])

  ghost predicate NoDuplicates(s: seq<Byte>) {
    forall i, j | 0 <= i < j < |s| :: s[i] != s[j]
  }

  /** The keys that stay, in their order. */
  function Except(s: seq<Byte>, gone: set<Byte>): (r: seq<Byte>)
    ensures forall k :: k in r <==> k in s && k !in gone
    ensures NoDuplicates(s) ==> NoDuplicates(r)
  {
    if s == [] then []
    else if s[0] in gone then Except(s[1..], gone)
    else
      assert forall k :: k in s <==> k == s[0] || k in s[1..];
      assert NoDuplicates(s) ==> s[0] !in s[1..];
      [s[0]] + Except(s[1..], gone)
  }

  /** `d[k] = v`: a new key goes last, a known one keeps its place. */
  function Put<V>(d: Dict<V>, k: Byte, v: V): (r: Dict<V>)
    ensures r.values == d.values[k := v] && d.order <= r.order <= d.order + [k]
  {
    if k in d.values then Entries(d.order, d.values[k := v])
    else
      assert forall j :: j in d.order + [k] <==> j in d.order || j == k;
      Entries(d.order + [k], d.values[k := v])
  }

  /** Deletes all the keys given, those absent having no effect. */
  function Without<V>(d: Dict<V>, gone: set<Byte>): Dict<V> {
    Entries(Except(d.order, gone), d.values - gone)
  }

  function Size<V>(d: Dict<V>): nat {
    |d.order|
  }

  lemma {:induction false} ExceptTwice(s: seq<Byte>, a: set<Byte>, b: set<Byte>)
    ensures Except(Except(s, a), b) == Except(s, a + b)
  {
    if s != [] {
      ExceptTwice(s[1..], a, b);
      if s[0] !in a {
        assert ([s[0]] + Except(s[1..], a))[1..] == Except(s[1..], a);
      }
    }
  }

  lemma WithoutTwice<V>(d: Dict<V>, a: set<Byte>, b: set<Byte>)
    ensures Without(Without(d, a), b) == Without(d, a + b)
  {
    ExceptTwice(d.order, a, b);
  }

  lemma {:induction false} ExceptNone(s: seq<Byte>, gone: set<Byte>)
    requires forall k | k in s :: k !in gone
    ensures Except(s, gone) == s
  {
    if s != [] {
      ExceptNone(s[1..], gone);
    }
  }

  lemma WithoutNone<V>(d: Dict<V>, gone: set<Byte>)
    requires forall k | k in d.values :: k !in gone
    ensures Without(d, gone) == d
  {
    ExceptNone(d.order, gone);
    assert d.values - gone == d.values;
  }

  function Keys(s: seq<Byte>): set<Byte> {
    set k | k in s
  }

  lemma {:induction false} KeysCount(s: seq<Byte>)
    ensures |Keys(s)| <= |s|
    ensures NoDuplicates(s) <==> |Keys(s)| == |s|
  {
    if s != [] {
      KeysCount(s[1..]);
      assert Keys(s) == {s[0]} + Keys(s[1..]);
      assert NoDuplicates(s) <==> NoDuplicates(s[1..]) && s[0] !in Keys(s[1..]);
    }
  }

  /** Deleting keys that are all present shortens the dictionary by their number. */
  lemma WithoutShrinks<V>(d: Dict<V>, gone: set<Byte>)
    requires forall k | k in gone :: k in d.values
    ensures Size(Without(d, gone)) == Size(d) - |gone|
  {
    var kept := Without(d, gone);
    KeysCount(d.order);
    KeysCount(kept.order);
    assert Keys(d.order) == Keys(kept.order) + gone;
    assert Keys(kept.order) !! gone;
  }

  lemma SubsetIsSmaller(a: set<Byte>, b: set<Byte>)
    requires a <= b
    ensures |a| <= |b|
  {
    assert b == a + (b - a);
  }
}
