/**
 * The price time series of a position: a JavaScript object from ISO date to
 * price, whose keys keep their insertion order. It is modelled as the list of
 * its (date, price) pairs in that order; a well-formed list never repeats a
 * date.
 */
module Series {
  import opened Wrappers
  import Text

  type Entries = seq<(string, real)>

  /** `Object.keys`: the dates in map order. */
  function Keys(s: Entries): seq<string> {
    seq(|s|, i requires 0 <= i < |s| => s[i].0)
  }

  /** `Object.values`: the prices in map order. */
  function Values(s: Entries): seq<real> {
    seq(|s|, i requires 0 <= i < |s| => s[i].1)
  }

  predicate Distinct(ks: seq<string>) {
    forall i, j :: 0 <= i < j < |ks| ==> ks[i] != ks[j]
  }

  /** An object never holds the same key twice. */
  predicate WellFormed(s: Entries) {
    Distinct(Keys(s))
  }

  /** Position of key `k`, if present. */
  function IndexOf(s: Entries, k: string): (r: Option<nat>)
    ensures r.Some? ==> r.value < |s| && s[r.value].0 == k
    ensures r.None? ==> forall i :: 0 <= i < |s| ==> s[i].0 != k
  {
    if s == [] then None
    else if s[0].0 == k then Some(0)
    else match IndexOf(s[1..], k)
      case None => None
      case Some(i) => Some(i + 1)
  }

  /** `s[k]`: the price stored under date `k`, or nothing (`undefined`). */
  function Get(s: Entries, k: string): Option<real> {
    match IndexOf(s, k)
    case None => None
    case Some(i) => Some(s[i].1)
  }

  /** In a well-formed series the pair at position `i` is the one a lookup of its key finds. */
  lemma GetAt(s: Entries, i: nat)
    requires WellFormed(s) && i < |s|
    ensures Get(s, s[i].0) == Some(s[i].1)
  {
    var j := IndexOf(s, s[i].0);
    assert j.Some?;
    assert Keys(s)[j.value] == Keys(s)[i];
  }

  /** A key is found exactly when it is one of the keys. */
  lemma GetPresent(s: Entries, k: string)
    ensures Get(s, k).Some? <==> k in Keys(s)
  {
    if IndexOf(s, k).Some? {
      assert Keys(s)[IndexOf(s, k).value] == k;
    }
    if k in Keys(s) {
      var i :| 0 <= i < |s| && Keys(s)[i] == k;
      assert s[i].0 == k;
    }
  }

  /** The keys are exactly what a lookup finds. */
  lemma KeysFound(s: Entries)
    ensures forall k :: Get(s, k).Some? <==> k in Keys(s)
  {
    forall k ensures Get(s, k).Some? <==> k in Keys(s) {
      GetPresent(s, k);
    }
  }

  /** In a well-formed series the value at each position is what a lookup of the key at that position finds. */
  lemma ValuesFound(s: Entries)
    requires WellFormed(s)
    ensures forall i :: 0 <= i < |s| ==> Get(s, Keys(s)[i]) == Some(Values(s)[i])
  {
    forall i | 0 <= i < |s| ensures Get(s, Keys(s)[i]) == Some(Values(s)[i]) {
      GetAt(s, i);
    }
  }

  /** `s[k] = v` on an object: an existing key keeps its place, a new key is appended. */
  function Upsert(s: Entries, k: string, v: real): Entries {
    match IndexOf(s, k)
    case Some(i) => s[i := (k, v)]
    case None => s + [(k, v)]
  }

  /**
   * Upserting writes `v` under `k` and nothing else: every other key reads as
   * before, an existing key keeps its position, a new key is appended last,
   * every other pair stays where it was, and no key is repeated.
   */
  lemma UpsertSpec(s: Entries, k: string, v: real)
    requires WellFormed(s)
    ensures WellFormed(Upsert(s, k, v))
    ensures Get(Upsert(s, k, v), k) == Some(v)
    ensures forall k' :: k' != k ==> Get(Upsert(s, k, v), k') == Get(s, k')
    ensures k in Keys(s) ==> Keys(Upsert(s, k, v)) == Keys(s)
    ensures k !in Keys(s) ==> Keys(Upsert(s, k, v)) == Keys(s) + [k]
    ensures forall i :: 0 <= i < |s| && s[i].0 != k ==> Upsert(s, k, v)[i] == s[i]
  {
    var r := Upsert(s, k, v);
    GetPresent(s, k);
    if k in Keys(s) {
      assert Keys(r) == Keys(s);
    } else {
      assert Keys(r) == Keys(s) + [k];
    }
    assert WellFormed(r) by {
      forall i, j | 0 <= i < j < |r| ensures Keys(r)[i] != Keys(r)[j] {
        if j == |s| {
          assert Keys(r)[j] == k && Keys(r)[i] == Keys(s)[i];
        } else {
          assert Keys(r)[i] == Keys(s)[i] && Keys(r)[j] == Keys(s)[j];
        }
      }
    }
    var at := if IndexOf(s, k).Some? then IndexOf(s, k).value else |s|;
    assert r[at] == (k, v);
    GetAt(r, at);
    forall k' | k' != k ensures Get(r, k') == Get(s, k') {
      GetPresent(s, k');
      GetPresent(r, k');
      if k' in Keys(s) {
        var i :| 0 <= i < |s| && Keys(s)[i] == k';
        GetAt(s, i);
        assert r[i] == s[i];
        GetAt(r, i);
      } else {
        assert k' !in Keys(r);
      }
    }
  }

  /** The price at the last date, as `prices[prices.length - 1]`. */
  function Last(s: Entries): (r: Option<real>)
    ensures r.None? <==> |s| == 0
  {
    if |s| == 0 then None else Some(s[|s| - 1].1)
  }

  /** The highest price of a non-empty series. */
  function MaxPrice(s: Entries): (m: real)
    requires |s| > 0
    ensures forall i :: 0 <= i < |s| ==> s[i].1 <= m
    ensures exists i :: 0 <= i < |s| && s[i].1 == m
  {
    if |s| == 1 then s[0].1
    else
      var rest := MaxPrice(s[1..]);
      assert forall i :: 1 <= i < |s| ==> s[i] == s[1..][i - 1];
      if s[0].1 >= rest then s[0].1 else rest
  }

  // ---------------------------------------------------------------------
  // Sorting the dates (the default `Array.prototype.sort` on strings)

  predicate StrictlySorted(ks: seq<string>) {
    forall i, j :: 0 <= i < j < |ks| ==> Text.Less(ks[i], ks[j])
  }

  /** Insert `k` into an ascending list before the first element not below it. */
  function Insert(k: string, ks: seq<string>): seq<string> {
    if ks == [] then [k]
    else if Text.Less(ks[0], k) then [ks[0]] + Insert(k, ks[1..])
    else [k] + ks
  }

  /** Insertion sort: the order `dates.sort()` leaves the dates in. */
  function SortKeys(ks: seq<string>): seq<string> {
    if ks == [] then [] else Insert(ks[0], SortKeys(ks[1..]))
  }

  lemma {:induction false} InsertElements(k: string, ks: seq<string>)
    ensures multiset(Insert(k, ks)) == multiset(ks) + multiset{k}
  {
    if ks != [] && Text.Less(ks[0], k) {
      InsertElements(k, ks[1..]);
      assert ks == [ks[0]] + ks[1..];
    }
  }

  lemma {:induction false} InsertSorted(k: string, ks: seq<string>)
    requires StrictlySorted(ks) && k !in ks
    ensures StrictlySorted(Insert(k, ks))
  {
    if ks != [] {
      if Text.Less(ks[0], k) {
        var rest := Insert(k, ks[1..]);
        InsertSorted(k, ks[1..]);
        InsertElements(k, ks[1..]);
        forall x | x in rest ensures Text.Less(ks[0], x) {
          assert x in multiset(rest);
          if x != k {
            assert x in multiset(ks[1..]);
            var p :| 0 <= p < |ks[1..]| && ks[1..][p] == x;
            assert ks[p + 1] == x;
          }
        }
        var r := [ks[0]] + rest;
        forall i, j | 0 <= i < j < |r| ensures Text.Less(r[i], r[j]) {
          if i == 0 {
            assert r[j] == rest[j - 1];
          } else {
            assert r[i] == rest[i - 1] && r[j] == rest[j - 1];
          }
        }
      } else {
        Text.LessTotal(k, ks[0]);
        forall j | 0 <= j < |ks| ensures Text.Less(k, ks[j]) {
          if j > 0 {
            Text.LessTransitive(k, ks[0], ks[j]);
          }
        }
        var r := [k] + ks;
        forall i, j | 0 <= i < j < |r| ensures Text.Less(r[i], r[j]) {
          if i > 0 {
            assert r[i] == ks[i - 1] && r[j] == ks[j - 1];
          }
        }
      }
    }
  }

  /** Sorting distinct dates yields them in strictly ascending order and loses or adds none. */
  lemma {:induction false} SortKeysSpec(ks: seq<string>)
    requires Distinct(ks)
    ensures StrictlySorted(SortKeys(ks))
    ensures multiset(SortKeys(ks)) == multiset(ks)
  {
    if ks != [] {
      SortKeysSpec(ks[1..]);
      assert ks == [ks[0]] + ks[1..];
      assert ks[0] !in multiset(SortKeys(ks[1..]));
      InsertElements(ks[0], SortKeys(ks[1..]));
      InsertSorted(ks[0], SortKeys(ks[1..]));
    }
  }

  /** Two strictly ascending lists with the same elements are the same list. */
  lemma {:induction false} SortedUnique(a: seq<string>, b: seq<string>)
    requires StrictlySorted(a) && StrictlySorted(b)
    requires forall x :: x in a <==> x in b
    ensures a == b
  {
    assert a != [] ==> a[0] in a;
    assert b != [] ==> b[0] in b;
    if a != [] && b != [] {
      assert b[0] in b && a[0] in a;
      var i :| 0 <= i < |a| && a[i] == b[0];
      var j :| 0 <= j < |b| && b[j] == a[0];
      if i > 0 {
        if j > 0 {
          Text.LessAsymmetric(a[0], a[i]);
        } else {
          Text.LessIrreflexive(a[0]);
        }
      }
      forall x ensures x in a[1..] <==> x in b[1..] {
        if x in a[1..] {
          var p :| 1 <= p < |a| && a[p] == x;
          assert x in a;
          var q :| 0 <= q < |b| && b[q] == x;
          if q == 0 { Text.LessIrreflexive(a[0]); }
        }
        if x in b[1..] {
          var q :| 1 <= q < |b| && b[q] == x;
          assert x in b;
          var p :| 0 <= p < |a| && a[p] == x;
          if p == 0 { Text.LessIrreflexive(b[0]); }
        }
      }
      SortedUnique(a[1..], b[1..]);
      assert a == [a[0]] + a[1..] && b == [b[0]] + b[1..];
    }
  }

  /** The pairs of `s` for the dates `ks`, in the order of `ks`. */
  function Pick(ks: seq<string>, s: Entries): (r: Entries)
    requires forall k :: k in ks ==> Get(s, k).Some?
    ensures Keys(r) == ks
    ensures forall i :: 0 <= i < |ks| ==> Get(s, ks[i]) == Some(r[i].1)
  {
    if ks == [] then []
    else Pick(ks[..|ks| - 1], s) + [(ks[|ks| - 1], Get(s, ks[|ks| - 1]).value)]
  }

  /** Copying the next date of an ascending list appends one pair to the copy made so far. */
  lemma PickNext(ks: seq<string>, i: nat, s: Entries)
    requires i < |ks| && StrictlySorted(ks)
    requires forall k :: k in ks ==> Get(s, k).Some?
    ensures WellFormed(Pick(ks[..i], s))
    ensures Upsert(Pick(ks[..i], s), ks[i], Get(s, ks[i]).value) == Pick(ks[..i + 1], s)
  {
    var p := Pick(ks[..i], s);
    assert WellFormed(p) by {
      forall a, b | 0 <= a < b < |p| ensures Keys(p)[a] != Keys(p)[b] {
        Text.LessIrreflexive(ks[a]);
      }
    }
    forall j | 0 <= j < |p| ensures p[j].0 != ks[i] {
      assert p[j].0 == Keys(p)[j] == ks[j];
      Text.LessIrreflexive(ks[i]);
    }
    assert ks[..i + 1][..i] == ks[..i];
  }

  /** The series rebuilt with its dates in ascending order. */
  function Sorted(s: Entries): (r: Entries)
    requires WellFormed(s)
    ensures Keys(r) == SortKeys(Keys(s))
  {
    var ks := SortKeys(Keys(s));
    SortKeysSpec(Keys(s));
    assert forall k :: k in ks ==> Get(s, k).Some? by {
      forall k | k in ks ensures Get(s, k).Some? {
        assert k in multiset(ks);
        GetPresent(s, k);
      }
    }
    Pick(ks, s)
  }

  /**
   * The sorted series holds exactly the dates of the input, in strictly
   * ascending order, each with the input's price.
   */
  lemma SortedSpec(s: Entries)
    requires WellFormed(s)
    ensures WellFormed(Sorted(s)) && StrictlySorted(Keys(Sorted(s)))
    ensures multiset(Keys(Sorted(s))) == multiset(Keys(s))
    ensures forall k :: Get(Sorted(s), k) == Get(s, k)
  {
    var r := Sorted(s);
    SortKeysSpec(Keys(s));
    assert WellFormed(r) by {
      forall i, j | 0 <= i < j < |r| ensures Keys(r)[i] != Keys(r)[j] {
        Text.LessIrreflexive(Keys(r)[i]);
      }
    }
    forall k ensures Get(r, k) == Get(s, k) {
      GetPresent(r, k);
      GetPresent(s, k);
      if k in Keys(r) {
        var i :| 0 <= i < |r| && Keys(r)[i] == k;
        GetAt(r, i);
      } else {
        assert k !in multiset(Keys(s));
      }
    }
  }

  /**
   * Sorting depends only on the contents: two series that read the same at
   * every date sort to the same series, whatever their key order. In
   * particular sorting an already sorted series changes nothing.
   */
  lemma SortedCanonical(s: Entries, t: Entries)
    requires WellFormed(s) && WellFormed(t)
    requires forall k :: Get(s, k) == Get(t, k)
    ensures Sorted(s) == Sorted(t)
  {
    SortedSpec(s);
    SortedSpec(t);
    var a, b := Sorted(s), Sorted(t);
    forall x ensures x in Keys(a) <==> x in Keys(b) {
      GetPresent(a, x);
      GetPresent(b, x);
    }
    SortedUnique(Keys(a), Keys(b));
    assert |a| == |b|;
    forall i | 0 <= i < |a| ensures a[i] == b[i] {
      assert Keys(a)[i] == Keys(b)[i];
      GetAt(a, i);
      GetAt(b, i);
    }
  }

  lemma SortedIdempotent(s: Entries)
    requires WellFormed(s)
    ensures WellFormed(Sorted(s)) && Sorted(Sorted(s)) == Sorted(s)
  {
    SortedSpec(s);
    SortedSpec(Sorted(s));
    SortedCanonical(Sorted(s), s);
  }
}
