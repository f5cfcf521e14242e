/** Small vocabulary shared by the models: optional values and the key order of a dictionary. */
module Common {

  datatype Option<+T> = None | Some(value: T)

  /** Every element once, in order of first occurrence: the key order of a Python dict filled in one pass. */
  function FirstOccurrences<T(==)>(s: seq<T>): seq<T> {
    if s == [] then []
    else
      var before := FirstOccurrences(s[..|s| - 1]);
      var x := s[|s| - 1];
      if x in before then before else before + [x]
  }

  lemma TakeSnoc<T>(s: seq<T>, i: nat)
    requires i < |s|
    ensures s[..i + 1] == s[..i] + [s[i]]
  {
  }

  /** No element occurs twice. */
  predicate Distinct<T(==)>(s: seq<T>) {
    s == [] || (s[|s| - 1] !in s[..|s| - 1] && Distinct(s[..|s| - 1]))
  }

  lemma {:induction false} DistinctAt<T>(s: seq<T>, i: nat, j: nat)
    requires Distinct(s) && i < j < |s|
    ensures s[i] != s[j]
  {
    var n := |s| - 1;
    if j < n {
      DistinctAt(s[..n], i, j);
    } else {
      assert s[i] in s[..n];
    }
  }

  lemma FirstOccurrencesSnoc<T>(s: seq<T>, x: T)
    ensures
      var before := FirstOccurrences(s);
      FirstOccurrences(s + [x]) == if x in before then before else before + [x]
  {
    assert (s + [x])[..|s|] == s;
  }

  lemma {:induction false} FirstOccurrencesAreTheElements<T>(s: seq<T>)
    ensures Distinct(FirstOccurrences(s))
    ensures forall x :: x in FirstOccurrences(s) <==> x in s
  {
    if s != [] {
      FirstOccurrencesAreTheElements(s[..|s| - 1]);
      var before, x := FirstOccurrences(s[..|s| - 1]), s[|s| - 1];
      assert s == s[..|s| - 1] + [x];
      assert (before + [x])[..|before|] == before;
    }
  }

  /** Reading further never reorders the keys already met. */
  lemma {:induction false} FirstOccurrencesGrow<T>(s: seq<T>, t: seq<T>)
    requires s <= t
    ensures FirstOccurrences(s) <= FirstOccurrences(t)
  {
    if |s| < |t| {
      assert s <= t[..|t| - 1];
      FirstOccurrencesGrow(s, t[..|t| - 1]);
    } else {
      assert s == t;
    }
  }

  // ---------- Greatest element ----------

  ghost function AnyOf<T>(s: set<T>): (x: T)
    requires s != {}
    ensures x in s
  {
    var x :| x in s;
    x
  }

  ghost predicate IsMax(s: set<int>, m: int) {
    m in s && forall t :: t in s ==> t <= m
  }

  lemma {:induction false} MaxExists(s: set<int>) returns (m: int)
    requires s != {}
    ensures IsMax(s, m)
    decreases |s|
  {
    var t := AnyOf(s);
    m := t;
    if s != {t} {
      var rest := MaxExists(s - {t});
      if rest > t { m := rest; }
      assert s == (s - {t}) + {t};
    }
  }

  /** SELECT MAX(...): NULL over no rows. */
  function MaxOf(s: set<int>): (m: Option<int>)
    ensures m.None? <==> s == {}
    ensures m.Some? ==> IsMax(s, m.value)
  {
    if s == {} then None
    else
      assert exists m :: IsMax(s, m) by { var m := MaxExists(s); }
      var m :| m in s && forall t :: t in s ==> t <= m;
      Some(m)
  }

  lemma MaxIsUnique(s: set<int>, m: int)
    requires IsMax(s, m)
    ensures MaxOf(s) == Some(m)
  {
  }

  // ---------- Maps, key by key ----------

  ghost predicate SameRow<K, V>(a: map<K, V>, b: map<K, V>, k: K) {
    (k in a <==> k in b) && (k in a ==> a[k] == b[k])
  }

  lemma SameRows<K(!new), V>(a: map<K, V>, b: map<K, V>)
    requires forall k :: SameRow(a, b, k)
    ensures a == b
  {
    forall k | k in a.Keys + b.Keys ensures k in a.Keys * b.Keys && a[k] == b[k] {
      assert SameRow(a, b, k);
    }
    assert a.Keys == b.Keys;
  }
}
