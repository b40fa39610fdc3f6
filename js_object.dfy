/**
 * Own properties of decoded JSON objects, and Object.keys / Object.values.
 *
 * JSON.parse defines one data property per member, in source order; a name
 * that repeats keeps the position of its first definition and takes the value
 * of its last. Object.keys and Object.values then list the properties in the
 * order OrdinaryOwnPropertyKeys gives (section 10.1.11.1 of ECMA-262, 2022
 * edition): property names that are array indices first, in ascending
 * numeric order, then every other name in the order it was defined.
 */
module JsObject {
  import opened JsValue

  type Property = (string, Json)

  /** An array index is a canonical decimal numeral below 2^32 - 1. */
  const MaxArrayIndex: nat := 4294967294

  predicate IsDigit(c: char) { '0' <= c <= '9' }

  predicate AllDigits(s: string) { forall i | 0 <= i < |s| :: IsDigit(s[i]) }

  /** The number a string of decimal digits denotes. */
  function DigitsValue(s: string): nat
    requires AllDigits(s)
  {
    if s == [] then 0
    else DigitsValue(s[..|s| - 1]) * 10 + (s[|s| - 1] as int - '0' as int)
  }

  /** Digits without a redundant leading zero: the form ToString gives a number. */
  predicate IsCanonicalDigits(s: string)
  {
    |s| > 0 && AllDigits(s) && (s[0] != '0' || |s| == 1)
  }

  predicate IsArrayIndex(k: string)
  {
    IsCanonicalDigits(k) && DigitsValue(k) <= MaxArrayIndex
  }

  /** The numeric value that orders array-index names (0 for any other name). */
  function IndexValue(k: string): nat
  {
    if AllDigits(k) then DigitsValue(k) else 0
  }

  function DigitChar(d: nat): char
    requires d < 10
  {
    ('0' as int + d) as char
  }

  /** The decimal numeral of a natural number, as `String(i)` and the array
      index property names "0", "1", ... give it. */
  function Decimal(n: nat): (s: string)
    ensures IsCanonicalDigits(s) && DigitsValue(s) == n
  {
    if n < 10 then
      [DigitChar(n)]
    else
      var p := Decimal(n / 10);
      var s := p + [DigitChar(n % 10)];
      assert s[..|s| - 1] == p;
      assert |p| == 1 ==> DigitsValue(p) == p[0] as int - '0' as int by {
        if |p| == 1 { assert p[..0] == []; }
      }
      s
  }

  lemma {:induction false} CanonicalIsPositive(s: string)
    requires IsCanonicalDigits(s) && s[0] != '0'
    ensures DigitsValue(s) > 0
  {
    if |s| == 1 {
      assert s[..0] == [];
    } else {
      var p := s[..|s| - 1];
      assert p[0] == s[0];
      CanonicalIsPositive(p);
    }
  }

  /** Every canonical numeral is the decimal form of its own value. */
  lemma {:induction false} DecimalOfValue(s: string)
    requires IsCanonicalDigits(s)
    ensures Decimal(DigitsValue(s)) == s
  {
    if |s| == 1 {
      assert s[..0] == [];
    } else {
      var p := s[..|s| - 1];
      assert p[0] == s[0];
      CanonicalIsPositive(p);
      DecimalOfValue(p);
      assert s == p + [s[|s| - 1]];
    }
  }

  /** Two canonical numerals with the same value are the same name. */
  lemma CanonicalInjective(a: string, b: string)
    requires IsCanonicalDigits(a) && IsCanonicalDigits(b)
    requires DigitsValue(a) == DigitsValue(b)
    ensures a == b
  {
    DecimalOfValue(a);
    DecimalOfValue(b);
  }

  // ---------------------------------------------------------------------
  // Property lists

  function KeysOf(ps: seq<Property>): (ks: seq<string>)
    ensures |ks| == |ps| && forall i | 0 <= i < |ps| :: ks[i] == ps[i].0
  {
    if ps == [] then [] else [ps[0].0] + KeysOf(ps[1..])
  }

  function ValuesOf(ps: seq<Property>): (vs: seq<Json>)
    ensures |vs| == |ps| && forall i | 0 <= i < |ps| :: vs[i] == ps[i].1
  {
    if ps == [] then [] else [ps[0].1] + ValuesOf(ps[1..])
  }

  lemma KeysOfAppend(ps: seq<Property>, qs: seq<Property>)
    ensures KeysOf(ps + qs) == KeysOf(ps) + KeysOf(qs)
  {
  }

  predicate Distinct(ks: seq<string>)
  {
    forall i, j | 0 <= i < j < |ks| :: ks[i] != ks[j]
  }

  /** Position of the first member named k (|ms| when there is none). */
  function FirstIndex(ms: seq<Property>, k: string): (r: nat)
    ensures r <= |ms|
  {
    if ms == [] then 0
    else if ms[0].0 == k then 0
    else 1 + FirstIndex(ms[1..], k)
  }

  /** The value of the last member named k, if any. */
  function LastValue(ms: seq<Property>, k: string): Option<Json>
  {
    if ms == [] then None
    else if ms[|ms| - 1].0 == k then Some(ms[|ms| - 1].1)
    else LastValue(ms[..|ms| - 1], k)
  }

  /** The value of the first property named k, as a property read finds it. */
  function Lookup(ps: seq<Property>, k: string): Option<Json>
  {
    if ps == [] then None
    else if ps[0].0 == k then Some(ps[0].1)
    else Lookup(ps[1..], k)
  }

  /** CreateDataProperty(obj, p.0, p.1) on an ordinary object: an existing
      property keeps its place and takes the new value, a new one goes last. */
  function Define(ps: seq<Property>, p: Property): (r: seq<Property>)
  {
    if ps == [] then [p]
    else if ps[0].0 == p.0 then [p] + ps[1..]
    else [ps[0]] + Define(ps[1..], p)
  }

  /** The object JSON.parse builds from the members, in definition order. */
  function Parsed(ms: seq<Property>): (ps: seq<Property>)
  {
    if ms == [] then []
    else Define(Parsed(ms[..|ms| - 1]), ms[|ms| - 1])
  }

  lemma {:induction false} DefineFresh(ps: seq<Property>, p: Property)
    requires p.0 !in KeysOf(ps)
    ensures Define(ps, p) == ps + [p]
  {
    if ps != [] {
      assert KeysOf(ps[1..]) == KeysOf(ps)[1..];
      DefineFresh(ps[1..], p);
    }
  }

  lemma {:induction false} DefineExisting(ps: seq<Property>, p: Property)
    requires Distinct(KeysOf(ps)) && p.0 in KeysOf(ps)
    ensures KeysOf(Define(ps, p)) == KeysOf(ps)
    ensures forall i | 0 <= i < |ps| :: Define(ps, p)[i] == if ps[i].0 == p.0 then p else ps[i]
  {
    if ps[0].0 != p.0 {
      assert KeysOf(ps[1..]) == KeysOf(ps)[1..];
      DefineExisting(ps[1..], p);
    }
  }

  lemma {:induction false} FirstIndexAppend(ms: seq<Property>, x: Property, k: string)
    ensures FirstIndex(ms + [x], k) == if k in KeysOf(ms) then FirstIndex(ms, k) else if x.0 == k then |ms| else |ms| + 1
  {
    if ms != [] {
      assert (ms + [x])[1..] == ms[1..] + [x];
      assert KeysOf(ms[1..]) == KeysOf(ms)[1..];
      FirstIndexAppend(ms[1..], x, k);
    }
  }

  lemma {:induction false} FirstIndexOfKey(ms: seq<Property>, k: string)
    ensures k in KeysOf(ms) <==> FirstIndex(ms, k) < |ms|
  {
    if ms != [] {
      assert KeysOf(ms[1..]) == KeysOf(ms)[1..];
      FirstIndexOfKey(ms[1..], k);
    }
  }

  /** Definition order: each property sits where its name first appeared. */
  predicate InDefinitionOrder(ps: seq<Property>, ms: seq<Property>)
  {
    forall i, j | 0 <= i < j < |ps| :: FirstIndex(ms, ps[i].0) < FirstIndex(ms, ps[j].0)
  }

  /** JSON.parse gives each member name exactly one property. */
  lemma {:induction false} ParsedKeys(ms: seq<Property>)
    ensures Distinct(KeysOf(Parsed(ms)))
    ensures forall k :: k in KeysOf(Parsed(ms)) <==> k in KeysOf(ms)
  {
    if ms != [] {
      var pre, x := ms[..|ms| - 1], ms[|ms| - 1];
      assert ms == pre + [x];
      ParsedKeys(pre);
      var ps := Parsed(pre);
      assert KeysOf(ms) == KeysOf(pre) + [x.0] by {
        KeysOfAppend(pre, [x]);
      }
      if x.0 in KeysOf(ps) {
        DefineExisting(ps, x);
      } else {
        DefineFresh(ps, x);
        KeysOfAppend(ps, [x]);
        DistinctAppend(KeysOf(ps), [x.0]);
      }
    }
  }

  /** The properties keep the order in which their names first appear. */
  lemma {:induction false} ParsedOrder(ms: seq<Property>)
    ensures InDefinitionOrder(Parsed(ms), ms)
  {
    if ms != [] {
      var pre, x := ms[..|ms| - 1], ms[|ms| - 1];
      assert ms == pre + [x];
      ParsedKeys(pre);
      ParsedOrder(pre);
      var ps := Parsed(pre);
      OrderExtends(ps, pre, x);
      if x.0 in KeysOf(ps) {
        DefineExisting(ps, x);
        SameKeysSameOrder(ps, Define(ps, x), ms);
      } else {
        DefineFresh(ps, x);
        forall i | 0 <= i < |ps| ensures FirstIndex(ms, ps[i].0) < FirstIndex(ms, x.0) {
          assert ps[i].0 == KeysOf(ps)[i];
          FirstIndexAppend(pre, x, ps[i].0);
          FirstIndexAppend(pre, x, x.0);
          FirstIndexOfKey(pre, ps[i].0);
        }
        OrderAppendFresh(ps, x, ms);
      }
    }
  }

  lemma OrderExtends(ps: seq<Property>, pre: seq<Property>, x: Property)
    requires InDefinitionOrder(ps, pre)
    requires forall k :: k in KeysOf(ps) <==> k in KeysOf(pre)
    ensures InDefinitionOrder(ps, pre + [x])
  {
    forall i | 0 <= i < |ps| ensures FirstIndex(pre + [x], ps[i].0) == FirstIndex(pre, ps[i].0) {
      assert ps[i].0 == KeysOf(ps)[i];
      FirstIndexAppend(pre, x, ps[i].0);
    }
  }

  lemma SameKeysSameOrder(ps: seq<Property>, r: seq<Property>, ms: seq<Property>)
    requires KeysOf(r) == KeysOf(ps) && InDefinitionOrder(ps, ms)
    ensures InDefinitionOrder(r, ms)
  {
    forall i | 0 <= i < |r| ensures r[i].0 == ps[i].0 {
      assert r[i].0 == KeysOf(r)[i] && ps[i].0 == KeysOf(ps)[i];
    }
  }

  lemma OrderAppendFresh(ps: seq<Property>, x: Property, ms: seq<Property>)
    requires InDefinitionOrder(ps, ms)
    requires forall i | 0 <= i < |ps| :: FirstIndex(ms, ps[i].0) < FirstIndex(ms, x.0)
    ensures InDefinitionOrder(ps + [x], ms)
  {
    var r := ps + [x];
    assert forall i | 0 <= i < |ps| :: r[i] == ps[i];
  }

  /** Each property holds the value of the last member with its name. */
  lemma {:induction false} ParsedValues(ms: seq<Property>)
    ensures forall i | 0 <= i < |Parsed(ms)| :: LastValue(ms, Parsed(ms)[i].0) == Some(Parsed(ms)[i].1)
  {
    if ms != [] {
      var pre, x := ms[..|ms| - 1], ms[|ms| - 1];
      ParsedKeys(pre);
      ParsedValues(pre);
      var ps := Parsed(pre);
      if x.0 in KeysOf(ps) {
        DefineExisting(ps, x);
        var r := Define(ps, x);
        forall i | 0 <= i < |r| ensures LastValue(ms, r[i].0) == Some(r[i].1) {
          if ps[i].0 != x.0 {
            assert r[i] == ps[i];
          }
        }
      } else {
        DefineFresh(ps, x);
      }
    }
  }

  /** A property read on the parsed object sees the last member's value. */
  lemma {:induction false} LookupParsed(ms: seq<Property>, k: string)
    ensures Lookup(Parsed(ms), k) == LastValue(ms, k)
  {
    ParsedKeys(ms);
    ParsedValues(ms);
    LookupFinds(Parsed(ms), k);
    if k !in KeysOf(ms) {
      LastValueAbsent(ms, k);
    }
  }

  lemma {:induction false} LookupFinds(ps: seq<Property>, k: string)
    requires Distinct(KeysOf(ps))
    ensures k !in KeysOf(ps) ==> Lookup(ps, k) == None
    ensures forall i | 0 <= i < |ps| && ps[i].0 == k :: Lookup(ps, k) == Some(ps[i].1)
  {
    if ps != [] {
      assert KeysOf(ps[1..]) == KeysOf(ps)[1..];
      LookupFinds(ps[1..], k);
      forall i | 0 < i < |ps| && ps[i].0 == k ensures ps[0].0 != k {
        assert KeysOf(ps)[0] != KeysOf(ps)[i];
      }
      forall i | 0 < i < |ps| && ps[i].0 == k ensures ps[1..][i - 1] == ps[i] { }
    }
  }

  lemma {:induction false} LastValueAbsent(ms: seq<Property>, k: string)
    requires k !in KeysOf(ms)
    ensures LastValue(ms, k) == None
  {
    if ms != [] {
      assert KeysOf(ms[..|ms| - 1]) == KeysOf(ms)[..|ms| - 1];
      LastValueAbsent(ms[..|ms| - 1], k);
    }
  }

  /** No two members share a name. This is `Distinct(KeysOf(ms))` stated on
      the members themselves, which keeps the solver from unfolding KeysOf
      inside requires clauses (see DistinctNamesIff). */
  predicate DistinctNames(ms: seq<Property>)
  {
    forall i, j | 0 <= i < j < |ms| :: ms[i].0 != ms[j].0
  }

  lemma DistinctNamesIff(ms: seq<Property>)
    ensures DistinctNames(ms) <==> Distinct(KeysOf(ms))
  {
  }

  /** Members whose names are already distinct become the properties unchanged. */
  lemma {:induction false} ParsedDistinct(ms: seq<Property>)
    requires DistinctNames(ms)
    ensures Parsed(ms) == ms
  {
    if ms != [] {
      var pre, x := ms[..|ms| - 1], ms[|ms| - 1];
      assert DistinctNames(pre) by {
        forall i, j | 0 <= i < j < |pre| ensures pre[i].0 != pre[j].0 {
          assert pre[i] == ms[i] && pre[j] == ms[j];
        }
      }
      assert x.0 !in KeysOf(pre) by {
        forall i | 0 <= i < |pre| ensures KeysOf(pre)[i] != x.0 {
          assert KeysOf(pre)[i] == pre[i].0 == ms[i].0;
        }
      }
      ParsedDistinct(pre);
      DefineFresh(pre, x);
      assert pre + [x] == ms;
    }
  }

  // ---------------------------------------------------------------------
  // OrdinaryOwnPropertyKeys

  lemma DistinctCons(k: string, ks: seq<string>)
    ensures Distinct([k] + ks) <==> k !in ks && Distinct(ks)
  {
    var s := [k] + ks;
    if k !in ks && Distinct(ks) {
      forall i, j | 0 <= i < j < |s| ensures s[i] != s[j] {
        assert s[j] == ks[j - 1];
        if i == 0 {
          assert ks[j - 1] in ks;
        } else {
          assert s[i] == ks[i - 1];
        }
      }
    }
    if Distinct(s) {
      forall i | 0 <= i < |ks| ensures ks[i] != k {
        assert s[0] != s[i + 1];
      }
      forall i, j | 0 <= i < j < |ks| ensures ks[i] != ks[j] {
        assert s[i + 1] != s[j + 1];
      }
    }
  }

  lemma DistinctAppend(a: seq<string>, b: seq<string>)
    requires Distinct(a) && Distinct(b)
    requires forall k | k in a :: k !in b
    ensures Distinct(a + b)
  {
    forall i, j | 0 <= i < j < |a + b| ensures (a + b)[i] != (a + b)[j] {
      if j < |a| {
        assert (a + b)[i] == a[i] && (a + b)[j] == a[j];
      } else if i >= |a| {
        assert (a + b)[i] == b[i - |a|] && (a + b)[j] == b[j - |a|];
      } else {
        assert (a + b)[i] == a[i] && (a + b)[j] == b[j - |a|];
        assert a[i] in a;
      }
    }
  }

  /** The properties whose names satisfy `keep` exactly when `want`, in order. */
  function Filter(ps: seq<Property>, keep: string -> bool, want: bool): (r: seq<Property>)
    ensures forall i | 0 <= i < |r| :: keep(r[i].0) == want
    ensures forall q :: q in r <==> q in ps && keep(q.0) == want
  {
    if ps == [] then []
    else
      assert ps == [ps[0]] + ps[1..];
      (if keep(ps[0].0) == want then [ps[0]] else []) + Filter(ps[1..], keep, want)
  }

  lemma {:induction false} FilterKeys(ps: seq<Property>, keep: string -> bool, want: bool)
    ensures forall k :: k in KeysOf(Filter(ps, keep, want)) <==> k in KeysOf(ps) && keep(k) == want
  {
    if ps != [] {
      FilterKeys(ps[1..], keep, want);
      var head := if keep(ps[0].0) == want then [ps[0]] else [];
      KeysOfAppend(head, Filter(ps[1..], keep, want));
      KeysOfAppend([ps[0]], ps[1..]);
      assert ps == [ps[0]] + ps[1..];
    }
  }

  lemma {:induction false} FilterDistinct(ps: seq<Property>, keep: string -> bool, want: bool)
    requires Distinct(KeysOf(ps))
    ensures Distinct(KeysOf(Filter(ps, keep, want)))
  {
    if ps != [] {
      var x, tail := ps[0], ps[1..];
      assert x.0 !in KeysOf(tail) && Distinct(KeysOf(tail)) by {
        assert ps == [x] + tail;
        KeysOfAppend([x], tail);
        DistinctCons(x.0, KeysOf(tail));
      }
      FilterDistinct(tail, keep, want);
      var rest := Filter(tail, keep, want);
      if keep(x.0) == want {
        assert Filter(ps, keep, want) == [x] + rest;
        FilterKeys(tail, keep, want);
        KeysOfAppend([x], rest);
        DistinctCons(x.0, KeysOf(rest));
      } else {
        assert Filter(ps, keep, want) == rest;
      }
    }
  }

  lemma OrderTail(ps: seq<Property>, ms: seq<Property>)
    requires ps != [] && InDefinitionOrder(ps, ms)
    ensures InDefinitionOrder(ps[1..], ms)
    ensures forall q | q in ps[1..] :: FirstIndex(ms, ps[0].0) < FirstIndex(ms, q.0)
  {
    var tail := ps[1..];
    forall i, j | 0 <= i < j < |tail| ensures FirstIndex(ms, tail[i].0) < FirstIndex(ms, tail[j].0) {
      assert tail[i] == ps[i + 1] && tail[j] == ps[j + 1];
    }
    forall q | q in tail ensures FirstIndex(ms, ps[0].0) < FirstIndex(ms, q.0) {
      var k :| 0 <= k < |tail| && tail[k] == q;
      assert ps[k + 1] == q;
    }
  }

  lemma OrderCons(q: Property, t: seq<Property>, ms: seq<Property>)
    requires InDefinitionOrder(t, ms)
    requires forall x | x in t :: FirstIndex(ms, q.0) < FirstIndex(ms, x.0)
    ensures InDefinitionOrder([q] + t, ms)
  {
    var r := [q] + t;
    forall i, j | 0 <= i < j < |r| ensures FirstIndex(ms, r[i].0) < FirstIndex(ms, r[j].0) {
      assert r[j] == t[j - 1];
      if i == 0 {
        assert r[j] in t;
      } else {
        assert r[i] == t[i - 1];
      }
    }
  }

  lemma {:induction false} FilterKeepsOrder(ps: seq<Property>, ms: seq<Property>, keep: string -> bool, want: bool)
    requires InDefinitionOrder(ps, ms)
    ensures InDefinitionOrder(Filter(ps, keep, want), ms)
  {
    if ps != [] {
      OrderTail(ps, ms);
      FilterKeepsOrder(ps[1..], ms, keep, want);
      var rest := Filter(ps[1..], keep, want);
      if keep(ps[0].0) == want {
        OrderCons(ps[0], rest, ms);
      } else {
        assert [] + rest == rest;
      }
    }
  }

  predicate SortedBy(ps: seq<Property>, rank: string -> nat)
  {
    forall i, j | 0 <= i < j < |ps| :: rank(ps[i].0) <= rank(ps[j].0)
  }

  /** Insert p before the first property of larger or equal rank. */
  function Insert(p: Property, ps: seq<Property>, rank: string -> nat): (r: seq<Property>)
    ensures multiset(r) == multiset(ps) + multiset{p}
  {
    if ps == [] then [p]
    else if rank(p.0) <= rank(ps[0].0) then [p] + ps
    else
      assert ps == [ps[0]] + ps[1..];
      [ps[0]] + Insert(p, ps[1..], rank)
  }

  lemma SortedTail(ps: seq<Property>, rank: string -> nat)
    requires ps != [] && SortedBy(ps, rank)
    ensures SortedBy(ps[1..], rank)
    ensures forall q | q in ps[1..] :: rank(ps[0].0) <= rank(q.0)
  {
    var tail := ps[1..];
    forall i, j | 0 <= i < j < |tail| ensures rank(tail[i].0) <= rank(tail[j].0) {
      assert tail[i] == ps[i + 1] && tail[j] == ps[j + 1];
    }
    forall q | q in tail ensures rank(ps[0].0) <= rank(q.0) {
      var k :| 0 <= k < |tail| && tail[k] == q;
      assert ps[k + 1] == q;
    }
  }

  lemma SortedCons(q: Property, t: seq<Property>, rank: string -> nat)
    requires SortedBy(t, rank)
    requires forall x | x in t :: rank(q.0) <= rank(x.0)
    ensures SortedBy([q] + t, rank)
  {
    var r := [q] + t;
    forall i, j | 0 <= i < j < |r| ensures rank(r[i].0) <= rank(r[j].0) {
      assert r[j] == t[j - 1];
      if i == 0 {
        assert r[j] in t;
      } else {
        assert r[i] == t[i - 1];
      }
    }
  }

  lemma {:induction false} InsertSorted(p: Property, ps: seq<Property>, rank: string -> nat)
    requires SortedBy(ps, rank)
    ensures SortedBy(Insert(p, ps, rank), rank)
  {
    if ps == [] {
    } else if rank(p.0) <= rank(ps[0].0) {
      SortedTail(ps, rank);
      assert ps == [ps[0]] + ps[1..];
      SortedCons(p, ps, rank);
    } else {
      SortedTail(ps, rank);
      InsertSorted(p, ps[1..], rank);
      var t := Insert(p, ps[1..], rank);
      forall q | q in t ensures rank(ps[0].0) <= rank(q.0) {
        assert q in multiset(t);
      }
      SortedCons(ps[0], t, rank);
    }
  }

  lemma {:induction false} InsertKeys(p: Property, ps: seq<Property>, rank: string -> nat)
    ensures forall k :: k in KeysOf(Insert(p, ps, rank)) <==> k == p.0 || k in KeysOf(ps)
    ensures Distinct(KeysOf(ps)) && p.0 !in KeysOf(ps) ==> Distinct(KeysOf(Insert(p, ps, rank)))
  {
    if ps == [] {
    } else if rank(p.0) <= rank(ps[0].0) {
      KeysOfAppend([p], ps);
      DistinctCons(p.0, KeysOf(ps));
    } else {
      assert ps == [ps[0]] + ps[1..];
      KeysOfAppend([ps[0]], ps[1..]);
      DistinctCons(ps[0].0, KeysOf(ps[1..]));
      InsertKeys(p, ps[1..], rank);
      var t := Insert(p, ps[1..], rank);
      KeysOfAppend([ps[0]], t);
      DistinctCons(ps[0].0, KeysOf(t));
    }
  }

  /** Sorts properties by rank; a stable insertion sort. */
  function SortBy(ps: seq<Property>, rank: string -> nat): (r: seq<Property>)
    ensures multiset(r) == multiset(ps)
    ensures SortedBy(r, rank)
  {
    if ps == [] then []
    else
      assert ps == [ps[0]] + ps[1..];
      InsertSorted(ps[0], SortBy(ps[1..], rank), rank);
      Insert(ps[0], SortBy(ps[1..], rank), rank)
  }

  lemma {:induction false} SortByKeys(ps: seq<Property>, rank: string -> nat)
    ensures forall k :: k in KeysOf(SortBy(ps, rank)) <==> k in KeysOf(ps)
    ensures Distinct(KeysOf(ps)) ==> Distinct(KeysOf(SortBy(ps, rank)))
  {
    if ps != [] {
      assert ps == [ps[0]] + ps[1..];
      KeysOfAppend([ps[0]], ps[1..]);
      DistinctCons(ps[0].0, KeysOf(ps[1..]));
      SortByKeys(ps[1..], rank);
      InsertKeys(ps[0], SortBy(ps[1..], rank), rank);
    }
  }

  /** The properties whose names satisfy `keep`, sorted by rank, followed by
      the others in their given order. */
  function Arrange(ps: seq<Property>, keep: string -> bool, rank: string -> nat): seq<Property>
  {
    SortBy(Filter(ps, keep, true), rank) + Filter(ps, keep, false)
  }

  lemma ArrangeMembers(ps: seq<Property>, keep: string -> bool, rank: string -> nat)
    ensures forall q :: q in Arrange(ps, keep, rank) <==> q in ps
  {
    var front, back := SortBy(Filter(ps, keep, true), rank), Filter(ps, keep, false);
    forall q ensures q in front <==> q in Filter(ps, keep, true) {
      assert q in front <==> q in multiset(front);
    }
  }

  lemma ArrangeKeys(ps: seq<Property>, keep: string -> bool, rank: string -> nat)
    requires Distinct(KeysOf(ps))
    ensures forall k :: k in KeysOf(Arrange(ps, keep, rank)) <==> k in KeysOf(ps)
    ensures Distinct(KeysOf(Arrange(ps, keep, rank)))
  {
    var idx, back := Filter(ps, keep, true), Filter(ps, keep, false);
    var front := SortBy(idx, rank);
    FilterKeys(ps, keep, true);
    FilterKeys(ps, keep, false);
    FilterDistinct(ps, keep, true);
    FilterDistinct(ps, keep, false);
    SortByKeys(idx, rank);
    KeysOfAppend(front, back);
    DistinctAppend(KeysOf(front), KeysOf(back));
  }

  lemma FrontKept(ps: seq<Property>, keep: string -> bool, rank: string -> nat)
    ensures forall i | 0 <= i < |SortBy(Filter(ps, keep, true), rank)| :: keep(SortBy(Filter(ps, keep, true), rank)[i].0)
  {
    var idx := Filter(ps, keep, true);
    var front := SortBy(idx, rank);
    forall i | 0 <= i < |front| ensures keep(front[i].0) {
      assert front[i] in multiset(idx);
    }
  }

  lemma ArrangeFront(ps: seq<Property>, keep: string -> bool, rank: string -> nat)
    ensures forall i, j | 0 <= i < j < |Arrange(ps, keep, rank)| && keep(Arrange(ps, keep, rank)[j].0) ::
      keep(Arrange(ps, keep, rank)[i].0) && rank(Arrange(ps, keep, rank)[i].0) <= rank(Arrange(ps, keep, rank)[j].0)
  {
    FrontKept(ps, keep, rank);
    ConcatFront(SortBy(Filter(ps, keep, true), rank), Filter(ps, keep, false), keep, rank);
  }

  lemma ConcatFront(front: seq<Property>, back: seq<Property>, keep: string -> bool, rank: string -> nat)
    requires forall t | 0 <= t < |front| :: keep(front[t].0)
    requires forall t | 0 <= t < |back| :: !keep(back[t].0)
    requires SortedBy(front, rank)
    ensures forall i, j | 0 <= i < j < |front + back| && keep((front + back)[j].0) ::
      keep((front + back)[i].0) && rank((front + back)[i].0) <= rank((front + back)[j].0)
  {
    var r := front + back;
    assert forall t | |front| <= t < |r| :: r[t] == back[t - |front|] && !keep(r[t].0);
    forall i, j | 0 <= i < j < |r| && keep(r[j].0) ensures keep(r[i].0) && rank(r[i].0) <= rank(r[j].0) {
      assert j < |front|;
      assert r[i] == front[i] && r[j] == front[j];
    }
  }

  lemma ConcatBack(front: seq<Property>, back: seq<Property>, ms: seq<Property>, keep: string -> bool)
    requires forall t | 0 <= t < |front| :: keep(front[t].0)
    requires forall t | 0 <= t < |back| :: !keep(back[t].0)
    requires InDefinitionOrder(back, ms)
    ensures forall i, j | 0 <= i < j < |front + back| && !keep((front + back)[i].0) ::
      !keep((front + back)[j].0) && FirstIndex(ms, (front + back)[i].0) < FirstIndex(ms, (front + back)[j].0)
  {
    var r := front + back;
    assert forall t | 0 <= t < |front| :: r[t] == front[t];
    forall i, j | 0 <= i < j < |r| && !keep(r[i].0)
      ensures !keep(r[j].0) && FirstIndex(ms, r[i].0) < FirstIndex(ms, r[j].0)
    {
      assert i >= |front|;
      assert r[i] == back[i - |front|] && r[j] == back[j - |front|];
    }
  }

  lemma ArrangeBack(ps: seq<Property>, ms: seq<Property>, keep: string -> bool, rank: string -> nat)
    requires InDefinitionOrder(ps, ms)
    ensures forall i, j | 0 <= i < j < |Arrange(ps, keep, rank)| && !keep(Arrange(ps, keep, rank)[i].0) ::
      !keep(Arrange(ps, keep, rank)[j].0) &&
      FirstIndex(ms, Arrange(ps, keep, rank)[i].0) < FirstIndex(ms, Arrange(ps, keep, rank)[j].0)
  {
    FrontKept(ps, keep, rank);
    FilterKeepsOrder(ps, ms, keep, false);
    ConcatBack(SortBy(Filter(ps, keep, true), rank), Filter(ps, keep, false), ms, keep);
  }

  /** The object's own properties in the order Object.keys reports them:
      array-index names ascending, then the rest in definition order. */
  function OwnProperties(ms: seq<Property>): seq<Property>
  {
    Arrange(Parsed(ms), IsArrayIndex, IndexValue)
  }

  /** Object.keys(obj) for a decoded object. */
  function ObjectKeysOf(ms: seq<Property>): seq<string>
  {
    KeysOf(OwnProperties(ms))
  }

  /** Object.values(obj) for a decoded object. */
  function ObjectValuesOf(ms: seq<Property>): seq<Json>
  {
    ValuesOf(OwnProperties(ms))
  }

  /** Object.keys lists every member name exactly once. */
  lemma OwnKeysAreMemberNames(ms: seq<Property>)
    ensures forall k :: k in ObjectKeysOf(ms) <==> k in KeysOf(ms)
    ensures Distinct(ObjectKeysOf(ms))
  {
    ParsedKeys(ms);
    ArrangeKeys(Parsed(ms), IsArrayIndex, IndexValue);
  }

  /** Array-index names come first, in strictly ascending numeric order. */
  lemma OwnKeysIndexFirst(ms: seq<Property>)
    ensures forall i, j | 0 <= i < j < |ObjectKeysOf(ms)| && IsArrayIndex(ObjectKeysOf(ms)[j]) ::
      IsArrayIndex(ObjectKeysOf(ms)[i]) && IndexValue(ObjectKeysOf(ms)[i]) < IndexValue(ObjectKeysOf(ms)[j])
  {
    var r := OwnProperties(ms);
    ParsedKeys(ms);
    ArrangeKeys(Parsed(ms), IsArrayIndex, IndexValue);
    ArrangeFront(Parsed(ms), IsArrayIndex, IndexValue);
    var ks := KeysOf(r);
    forall i, j | 0 <= i < j < |ks| && IsArrayIndex(ks[j])
      ensures IsArrayIndex(ks[i]) && IndexValue(ks[i]) < IndexValue(ks[j])
    {
      assert ks[i] == r[i].0 && ks[j] == r[j].0;
      assert ks[i] != ks[j];
      if IndexValue(ks[i]) == IndexValue(ks[j]) {
        CanonicalInjective(ks[i], ks[j]);
      }
    }
  }

  /** The other names follow, in the order they first appear among the members. */
  lemma OwnKeysDefinitionOrder(ms: seq<Property>)
    ensures forall i, j | 0 <= i < j < |ObjectKeysOf(ms)| && !IsArrayIndex(ObjectKeysOf(ms)[i]) ::
      !IsArrayIndex(ObjectKeysOf(ms)[j]) && FirstIndex(ms, ObjectKeysOf(ms)[i]) < FirstIndex(ms, ObjectKeysOf(ms)[j])
  {
    var r := OwnProperties(ms);
    ParsedOrder(ms);
    ArrangeBack(Parsed(ms), ms, IsArrayIndex, IndexValue);
    var ks := KeysOf(r);
    forall i, j | 0 <= i < j < |ks| && !IsArrayIndex(ks[i])
      ensures !IsArrayIndex(ks[j]) && FirstIndex(ms, ks[i]) < FirstIndex(ms, ks[j])
    {
      assert ks[i] == r[i].0 && ks[j] == r[j].0;
    }
  }

  /** Object.values lists, position by position, the value the object holds
      under the name Object.keys lists there: the last member's value. */
  lemma OwnValuesMatchKeys(ms: seq<Property>)
    ensures |ObjectValuesOf(ms)| == |ObjectKeysOf(ms)|
    ensures forall i | 0 <= i < |ObjectKeysOf(ms)| :: LastValue(ms, ObjectKeysOf(ms)[i]) == Some(ObjectValuesOf(ms)[i])
  {
    var r := OwnProperties(ms);
    ParsedValues(ms);
    ArrangeMembers(Parsed(ms), IsArrayIndex, IndexValue);
    forall i | 0 <= i < |r| ensures LastValue(ms, r[i].0) == Some(r[i].1) {
      assert r[i] in Parsed(ms);
    }
  }

  /** With distinct member names, the non-index members keep their exact
      order and the sorted index members stand in front of them. */
  lemma OwnPropertiesOfDistinct(ms: seq<Property>)
    requires DistinctNames(ms)
    ensures OwnProperties(ms) == Arrange(ms, IsArrayIndex, IndexValue)
  {
    ParsedDistinct(ms);
  }

  lemma {:induction false} FilterAllOrNone(ps: seq<Property>, keep: string -> bool)
    requires forall i | 0 <= i < |ps| :: !keep(ps[i].0)
    ensures Filter(ps, keep, true) == [] && Filter(ps, keep, false) == ps
  {
    if ps != [] {
      FilterAllOrNone(ps[1..], keep);
      assert ps == [ps[0]] + ps[1..];
    }
  }

  lemma ArrangeNoneKept(ps: seq<Property>, keep: string -> bool, rank: string -> nat)
    requires forall i | 0 <= i < |ps| :: !keep(ps[i].0)
    ensures Arrange(ps, keep, rank) == ps
  {
    FilterAllOrNone(ps, keep);
    assert SortBy([], rank) == [];
  }

  /** An object whose member names are distinct and none of them an array
      index lists its properties exactly in member order. */
  lemma PlainObjectKeepsOrder(ms: seq<Property>)
    requires DistinctNames(ms)
    requires forall i | 0 <= i < |ms| :: !IsArrayIndex(ms[i].0)
    ensures OwnProperties(ms) == ms
  {
    NoIndexNames(ms);
    OwnPropertiesOfDistinct(ms);
  }

  lemma NoIndexNames(ms: seq<Property>)
    requires forall i | 0 <= i < |ms| :: !IsArrayIndex(ms[i].0)
    ensures Arrange(ms, IsArrayIndex, IndexValue) == ms
  {
    ArrangeNoneKept(ms, IsArrayIndex, IndexValue);
  }

  /** The names the assistant page reads off a response. None of them is an
      own property of a string or an array, nor is any inherited from
      Object.prototype, Array.prototype, String.prototype, Number.prototype or
      Boolean.prototype. */
  predicate IsResponseField(k: string)
  {
    k == "success" || k == "query" || k == "answer"
  }

  /** Property read `v[k]` for one of the page's response names on a value
      other than null (reading a property of null throws, and the page only
      reads a truthy response): an object yields its own property, and every
      other value has no property of that name. */
  function GetProperty(v: Json, k: string): (r: Option<Json>)
    requires IsResponseField(k) && !v.JNull?
    ensures v.JObj? ==> r == LastValue(v.members, k)
    ensures !v.JObj? ==> r == None
  {
    match v
    case JObj(ms) => LookupParsed(ms, k); Lookup(Parsed(ms), k)
    case _ => None
  }

  // ---------------------------------------------------------------------
  // Object.keys and Object.values on any decoded value

  /** "0", "1", ..., the index names of a string or array of length n. */
  function IndexNames(n: nat): (ks: seq<string>)
    ensures |ks| == n
    ensures forall i | 0 <= i < n :: IsCanonicalDigits(ks[i]) && DigitsValue(ks[i]) == i
  {
    seq(n, i requires 0 <= i < n => Decimal(i))
  }

  /** Object.keys(v): ToObject throws on null; a number or boolean wrapper has
      no own enumerable properties; a string or array lists its indices. */
  function ObjectKeys(v: Json): Result<seq<string>>
  {
    match v
    case JNull => Throw(CannotConvertNullToObject)
    case JBool(_) => Ok([])
    case JNum(_) => Ok([])
    case JStr(s) => Ok(IndexNames(|s|))
    case JArr(es) => Ok(IndexNames(|es|))
    case JObj(ms) => Ok(ObjectKeysOf(ms))
  }

  /** Object.values(v), in the same order as Object.keys(v); a string yields
      its characters. */
  function ObjectValues(v: Json): Result<seq<Json>>
  {
    match v
    case JNull => Throw(CannotConvertNullToObject)
    case JBool(_) => Ok([])
    case JNum(_) => Ok([])
    case JStr(s) => Ok(seq(|s|, i requires 0 <= i < |s| => JStr([s[i]])))
    case JArr(es) => Ok(es)
    case JObj(ms) => Ok(ObjectValuesOf(ms))
  }

  /** Object.keys and Object.values throw on exactly the same value (null),
      and otherwise list the same number of entries. */
  lemma KeysValuesAgree(v: Json)
    ensures ObjectKeys(v).Throw? <==> v.JNull?
    ensures ObjectValues(v).Throw? <==> v.JNull?
    ensures !v.JNull? ==> |ObjectKeys(v).value| == |ObjectValues(v).value|
  {
    if v.JObj? {
      OwnValuesMatchKeys(v.members);
    }
  }
}
