/**
 * `items.sort((a, b) => a.id - b.id)`, the ordering step every catalogue loader
 * ends with. `-` converts both ids with ToNumber; a comparator result of `NaN`
 * counts as 0, "equal". `Array.prototype.sort` is stable when the comparator
 * is consistent, which it is when every id converts to a number. The
 * comparator throws on a `null` record and on an `id` that cannot be
 * converted to a primitive.
 */
module ItemSort {
  import opened Wrappers
  import opened JsonValues
  import JsText

  /** `record.id`; `None` where it is `undefined` (no such field, or a record that is not an object). */
  function IdField(v: Json): Option<Json> {
    if v.JObject? && "id" in v.fields then Some(v.fields["id"]) else None
  }

  /** The number `record.id` converts to under `-`; `None` for `NaN`, which `undefined` also gives. */
  function SortKey(v: Json): Option<int> {
    match IdField(v)
    case None => None
    case Some(id) => ToNumber(id)
  }

  /** The sign of `a.id - b.id`, with `NaN` read as 0. */
  function Compare(a: Json, b: Json): int {
    match (SortKey(a), SortKey(b))
    case (Some(x), Some(y)) => x - y
    case _ => 0
  }

  /** The record's converted `id`, or 0 when it converts to `NaN`. */
  function IdOf(v: Json): int {
    SortKey(v).GetOr(0)
  }

  /**
   * A record whose `id` is the text of an integer sorts as if the `id` were that
   * integer: `"2" - 1` is 1.
   */
  lemma TextIdSortsAsNumber(fields: map<string, Json>, n: int)
    requires "id" in fields && fields["id"] == JString(JsText.IntToString(n))
    ensures SortKey(JObject(fields)) == Some(n)
    ensures SortKey(JObject(fields)) == SortKey(JObject(fields["id" := JNumber(n)]))
  {
    JsText.StringToNumberOfIntToString(n);
  }

  /** A record with a number `id` sorts by that number. */
  lemma NumberIdSortKey(v: Json)
    requires HasNumber(v, "id")
    ensures SortKey(v) == Some(v.fields["id"].n)
  {
  }

  /** Every record's `id` converts to a number: no comparison gives `NaN`. */
  predicate AllNumericIds(s: seq<Json>) {
    forall i :: 0 <= i < |s| ==> SortKey(s[i]).Some?
  }

  /** Every record's `id` converts to a number and the converted ids ascend. */
  predicate SortedById(s: seq<Json>) {
    && AllNumericIds(s)
    && forall i, j :: 0 <= i < j < |s| ==> IdOf(s[i]) <= IdOf(s[j])
  }

  /** Inserts `x` after every element of `sorted` that does not compare greater than it. */
  function Insert(sorted: seq<Json>, x: Json): seq<Json> {
    if sorted == [] then [x]
    else if Compare(sorted[|sorted| - 1], x) > 0 then Insert(sorted[..|sorted| - 1], x) + [sorted[|sorted| - 1]]
    else sorted + [x]
  }

  /** The stable sort the loaders apply to the records they collected. */
  function SortById(s: seq<Json>): seq<Json> {
    if s == [] then [] else Insert(SortById(s[..|s| - 1]), s[|s| - 1])
  }

  lemma {:induction false} InsertPermutes(sorted: seq<Json>, x: Json)
    ensures multiset(Insert(sorted, x)) == multiset(sorted) + multiset{x}
  {
    if sorted != [] && Compare(sorted[|sorted| - 1], x) > 0 {
      var front := sorted[..|sorted| - 1];
      InsertPermutes(front, x);
      assert sorted == front + [sorted[|sorted| - 1]];
    }
  }

  /** Sorting only reorders: the result is a permutation of the input. */
  lemma {:induction false} SortPermutes(s: seq<Json>)
    ensures multiset(SortById(s)) == multiset(s)
  {
    if s != [] {
      var front, last := s[..|s| - 1], s[|s| - 1];
      calc {
        multiset(SortById(s));
        multiset(Insert(SortById(front), last));
      == { InsertPermutes(SortById(front), last); }
        multiset(SortById(front)) + multiset{last};
      == { SortPermutes(front); }
        multiset(front) + multiset{last};
      == { assert s == front + [last]; }
        multiset(s);
      }
    }
  }

  lemma AppendKeepsSorted(s: seq<Json>, y: Json)
    requires SortedById(s) && SortKey(y).Some?
    requires forall v :: v in s ==> IdOf(v) <= IdOf(y)
    ensures SortedById(s + [y])
  {
    var t := s + [y];
    forall i, j | 0 <= i < j < |t| ensures IdOf(t[i]) <= IdOf(t[j]) {
      if j == |s| {
        assert t[i] in s;
      }
    }
  }

  /** In a sorted sequence no element has a greater id than the last one. */
  lemma LastIsLargest(sorted: seq<Json>)
    requires SortedById(sorted) && sorted != []
    ensures forall v :: v in sorted ==> IdOf(v) <= IdOf(sorted[|sorted| - 1])
  {
    forall v | v in sorted ensures IdOf(v) <= IdOf(sorted[|sorted| - 1]) {
      var i :| 0 <= i < |sorted| && sorted[i] == v;
    }
  }

  lemma PrefixSorted(sorted: seq<Json>, k: nat)
    requires SortedById(sorted) && k <= |sorted|
    ensures SortedById(sorted[..k])
  {
  }

  lemma {:induction false} InsertSorts(sorted: seq<Json>, x: Json)
    requires SortedById(sorted) && SortKey(x).Some?
    ensures SortedById(Insert(sorted, x))
  {
    if sorted != [] {
      var front, last := sorted[..|sorted| - 1], sorted[|sorted| - 1];
      LastIsLargest(sorted);
      if Compare(last, x) > 0 {
        PrefixSorted(sorted, |sorted| - 1);
        InsertSorts(front, x);
        InsertPermutes(front, x);
        forall v | v in Insert(front, x) ensures IdOf(v) <= IdOf(last) {
          assert v in multiset(Insert(front, x));
          assert v in front || v == x;
        }
        AppendKeepsSorted(Insert(front, x), last);
      } else {
        AppendKeepsSorted(sorted, x);
      }
    }
  }

  /** When every `id` converts to a number, sorting puts the converted ids in ascending order. */
  lemma {:induction false} SortSorts(s: seq<Json>)
    requires AllNumericIds(s)
    ensures SortedById(SortById(s))
  {
    if s != [] {
      var front := s[..|s| - 1];
      assert AllNumericIds(front) by {
        forall i | 0 <= i < |front| ensures SortKey(front[i]).Some? {
          assert front[i] == s[i];
        }
      }
      SortSorts(front);
      InsertSorts(SortById(front), s[|s| - 1]);
    }
  }

  /** The records `Insert` hands to the comparator while placing `x`. */
  function InsertCompared(sorted: seq<Json>, x: Json): set<Json> {
    if sorted == [] then {}
    else
      var last := sorted[|sorted| - 1];
      {last, x} + (if Compare(last, x) > 0 then InsertCompared(sorted[..|sorted| - 1], x) else {})
  }

  /** Every record the sort hands to the comparator. */
  function Compared(s: seq<Json>): set<Json> {
    if s == [] then {} else Compared(s[..|s| - 1]) + InsertCompared(SortById(s[..|s| - 1]), s[|s| - 1])
  }

  /** `a.id - b.id` throws a `TypeError` on this record: it is `null`, or its `id` cannot be converted. */
  predicate IdThrows(v: Json) {
    v == JNull || (IdField(v).Some? && ConversionThrows(IdField(v).value))
  }

  /** The comparator meets a record on which it throws. */
  predicate ComparisonThrows(s: seq<Json>) {
    exists v :: v in Compared(s) && IdThrows(v)
  }

  lemma {:induction false} InsertComparedWithin(sorted: seq<Json>, x: Json, v: Json)
    requires v in InsertCompared(sorted, x)
    ensures v in sorted || v == x
  {
    if sorted != [] && v != sorted[|sorted| - 1] && v != x {
      InsertComparedWithin(sorted[..|sorted| - 1], x, v);
    }
  }

  /** Placing `last` after sorting `front` compares only records of both, and compares `last` whenever `front` has a record. */
  lemma ComparedStep(front: seq<Json>, last: Json, v: Json)
    ensures v in InsertCompared(SortById(front), last) ==> front != [] && (v in front || v == last)
    ensures front != [] ==> last in InsertCompared(SortById(front), last)
    ensures |front| == 1 && v in front ==> v in InsertCompared(SortById(front), last)
  {
    var sorted := SortById(front);
    SortPermutes(front);
    assert |sorted| == |front| by {
      assert |multiset(sorted)| == |multiset(front)|;
    }
    if v in InsertCompared(sorted, last) {
      InsertComparedWithin(sorted, last, v);
      assert v in multiset(sorted) || v == last;
    }
    if |front| == 1 {
      assert sorted == Insert([], front[0]);
      assert v in front ==> v == front[0];
    }
  }

  /** A record of a non-empty sequence is in its front or is its last record. */
  lemma MemberOfFrontOrLast(s: seq<Json>, v: Json)
    requires s != []
    ensures v in s <==> v in s[..|s| - 1] || v == s[|s| - 1]
  {
    assert s == s[..|s| - 1] + [s[|s| - 1]];
  }

  /** The comparator sees every record once there are two or more, and none otherwise. */
  lemma {:induction false} ComparedMembers(s: seq<Json>, v: Json)
    ensures v in Compared(s) <==> |s| >= 2 && v in s
  {
    if s != [] {
      var front, last := s[..|s| - 1], s[|s| - 1];
      ComparedMembers(front, v);
      ComparedStep(front, last, v);
      MemberOfFrontOrLast(s, v);
      var inFront, inStep := v in Compared(front), v in InsertCompared(SortById(front), last);
      assert v in Compared(s) <==> inFront || inStep;
    }
  }

  /**
   * Sorting throws exactly when there are two records or more and one of them
   * is `null` or has an `id` that cannot be converted: every sort compares each
   * record at least once, so this does not depend on the sorting algorithm.
   */
  lemma ComparisonThrowsIff(s: seq<Json>)
    ensures ComparisonThrows(s) <==> |s| >= 2 && exists i :: 0 <= i < |s| && IdThrows(s[i])
  {
    if ComparisonThrows(s) {
      var v :| v in Compared(s) && IdThrows(v);
      ComparedMembers(s, v);
      var i :| 0 <= i < |s| && s[i] == v;
    }
    if |s| >= 2 && exists i :: 0 <= i < |s| && IdThrows(s[i]) {
      var i :| 0 <= i < |s| && IdThrows(s[i]);
      ComparedMembers(s, s[i]);
    }
  }

  /** The records of `s` whose `id` key is `key`, in their order in `s`. */
  function WithKey(s: seq<Json>, key: Option<int>): seq<Json> {
    if s == [] then []
    else WithKey(s[..|s| - 1], key) + (if SortKey(s[|s| - 1]) == key then [s[|s| - 1]] else [])
  }

  lemma {:induction false} WithKeyConcat(a: seq<Json>, b: seq<Json>, key: Option<int>)
    ensures WithKey(a + b, key) == WithKey(a, key) + WithKey(b, key)
  {
    if b == [] {
      assert a + b == a;
    } else {
      var b' := b[..|b| - 1];
      assert (a + b)[..|a + b| - 1] == a + b';
      WithKeyConcat(a, b', key);
    }
  }

  /** `last` has a greater id than `x`, so at most one of them has any given key. */
  lemma KeysApart(last: Json, x: Json, key: Option<int>)
    requires Compare(last, x) > 0
    ensures WithKey([x], key) == [] || WithKey([last], key) == []
  {
    assert [x][..0] == [] && [last][..0] == [];
  }

  lemma {:induction false} InsertStable(sorted: seq<Json>, x: Json, key: Option<int>)
    ensures WithKey(Insert(sorted, x), key) == WithKey(sorted, key) + WithKey([x], key)
  {
    if sorted == [] {
      assert [x][..0] == [];
    } else if Compare(sorted[|sorted| - 1], x) > 0 {
      var front, last := sorted[..|sorted| - 1], sorted[|sorted| - 1];
      calc {
        WithKey(Insert(sorted, x), key);
        WithKey(Insert(front, x) + [last], key);
      == { WithKeyConcat(Insert(front, x), [last], key); }
        WithKey(Insert(front, x), key) + WithKey([last], key);
      == { InsertStable(front, x, key); }
        WithKey(front, key) + WithKey([x], key) + WithKey([last], key);
      == { KeysApart(last, x, key); }
        WithKey(front, key) + WithKey([last], key) + WithKey([x], key);
      == { WithKeyConcat(front, [last], key); assert front + [last] == sorted; }
        WithKey(sorted, key) + WithKey([x], key);
      }
    } else {
      WithKeyConcat(sorted, [x], key);
    }
  }

  /**
   * Sorting is stable: when every `id` converts to a number, records whose ids
   * convert to the same number keep the order in which they were collected.
   */
  lemma {:induction false} SortStable(s: seq<Json>, key: Option<int>)
    requires AllNumericIds(s)
    ensures WithKey(SortById(s), key) == WithKey(s, key)
  {
    if s != [] {
      var front, last := s[..|s| - 1], s[|s| - 1];
      assert AllNumericIds(front) by {
        forall i | 0 <= i < |front| ensures SortKey(front[i]).Some? {
          assert front[i] == s[i];
        }
      }
      SortStable(front, key);
      InsertStable(SortById(front), last, key);
      assert [last][..0] == [];
    }
  }

  lemma {:induction false} WithKeyMembers(s: seq<Json>, key: Option<int>, v: Json)
    ensures v in WithKey(s, key) <==> v in s && SortKey(v) == key
  {
    if s != [] {
      WithKeyMembers(s[..|s| - 1], key, v);
      assert s == s[..|s| - 1] + [s[|s| - 1]];
    }
  }

  /**
   * Two sorted sequences that hold the same records under the keys of their
   * last records end with the same record.
   */
  lemma LastsAgree(a: seq<Json>, b: seq<Json>)
    requires SortedById(a) && SortedById(b) && a != [] && b != []
    requires WithKey(a, SortKey(a[|a| - 1])) == WithKey(b, SortKey(a[|a| - 1]))
    requires WithKey(a, SortKey(b[|b| - 1])) == WithKey(b, SortKey(b[|b| - 1]))
    ensures a[|a| - 1] == b[|b| - 1]
  {
    var la, lb := a[|a| - 1], b[|b| - 1];
    WithKeyMembers(a, SortKey(la), la);
    WithKeyMembers(b, SortKey(la), la);
    LastIsLargest(b);
    assert IdOf(la) <= IdOf(lb);
    WithKeyMembers(b, SortKey(lb), lb);
    WithKeyMembers(a, SortKey(lb), lb);
    LastIsLargest(a);
    assert IdOf(lb) <= IdOf(la);
    var k := SortKey(la);
    assert SortKey(lb) == k;
    var wa, wb := WithKey(a, k), WithKey(b, k);
    assert la == wa[|wa| - 1];
    assert lb == wb[|wb| - 1];
  }

  /** Dropping the same last record from both sides keeps the records under a key equal. */
  lemma FrontsAgree(a: seq<Json>, b: seq<Json>, key: Option<int>)
    requires a != [] && b != [] && a[|a| - 1] == b[|b| - 1]
    requires WithKey(a, key) == WithKey(b, key)
    ensures WithKey(a[..|a| - 1], key) == WithKey(b[..|b| - 1], key)
  {
    var last := a[|a| - 1];
    var tail := if SortKey(last) == key then [last] else [];
    var wa, wb := WithKey(a[..|a| - 1], key), WithKey(b[..|b| - 1], key);
    assert WithKey(a, key) == wa + tail;
    assert WithKey(b, key) == wb + tail;
    assert |wa| == |wb|;
    assert wa == (wa + tail)[..|wa|];
    assert wb == (wb + tail)[..|wb|];
  }

  /** Two such sequences end with the same record, and what precedes it holds the same records under every key. */
  lemma DropCommonLast(a: seq<Json>, b: seq<Json>, fa: seq<Json>, fb: seq<Json>)
    requires SortedById(a) && SortedById(b) && a != [] && b != []
    requires fa == a[..|a| - 1] && fb == b[..|b| - 1]
    requires forall key :: WithKey(a, key) == WithKey(b, key)
    ensures a[|a| - 1] == b[|b| - 1]
    ensures forall key :: WithKey(fa, key) == WithKey(fb, key)
  {
    LastsAgree(a, b);
    forall key ensures WithKey(fa, key) == WithKey(fb, key) {
      FrontsAgree(a, b, key);
    }
  }

  /** Sequences that hold the same records under every key are both empty or both not. */
  lemma EmptyTogether(a: seq<Json>, b: seq<Json>)
    requires forall key :: WithKey(a, key) == WithKey(b, key)
    ensures a == [] <==> b == []
  {
    if a != [] {
      WithKeyMembers(a, SortKey(a[0]), a[0]);
    }
    if b != [] {
      WithKeyMembers(b, SortKey(b[0]), b[0]);
    }
  }

  /** Sequences with equal fronts and equal last records are equal. */
  lemma EqualByLast(a: seq<Json>, b: seq<Json>)
    requires a != [] && b != [] && a[..|a| - 1] == b[..|b| - 1] && a[|a| - 1] == b[|b| - 1]
    ensures a == b
  {
    assert a == a[..|a| - 1] + [a[|a| - 1]];
    assert b == b[..|b| - 1] + [b[|b| - 1]];
  }

  lemma {:induction false} SortedUnique(a: seq<Json>, b: seq<Json>)
    requires SortedById(a) && SortedById(b)
    requires forall key :: WithKey(a, key) == WithKey(b, key)
    ensures a == b
    decreases |a|
  {
    EmptyTogether(a, b);
    if a != [] {
      var fa, fb := a[..|a| - 1], b[..|b| - 1];
      DropCommonLast(a, b, fa, fb);
      PrefixSorted(a, |a| - 1);
      PrefixSorted(b, |b| - 1);
      SortedUnique(fa, fb);
      EqualByLast(a, b);
    }
  }

  /**
   * The order in which the directory listing happened to return the records
   * does not matter: two collections holding the same records, where records
   * that share an `id` come in the same relative order, sort to the same list.
   */
  lemma SortIgnoresListingOrder(s1: seq<Json>, s2: seq<Json>)
    requires AllNumericIds(s1) && AllNumericIds(s2)
    requires forall key :: WithKey(s1, key) == WithKey(s2, key)
    ensures SortById(s1) == SortById(s2)
  {
    SortSorts(s1);
    SortSorts(s2);
    forall key ensures WithKey(SortById(s1), key) == WithKey(SortById(s2), key) {
      SortStable(s1, key);
      SortStable(s2, key);
    }
    SortedUnique(SortById(s1), SortById(s2));
  }
}
