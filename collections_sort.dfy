/**
 * Order-preserving removal of duplicates from a list of strings
 * (`deduplicate_and_sort`, which is `list(dict.fromkeys(items))`).
 *
 * `dict.fromkeys` inserts the items one after the other and keeps a key at
 * the position of its first insertion, so the result is built here the
 * same way: deduplicate everything but the last item, then append the last
 * item unless it is already there.
 */
module Collections {

  /** No element of `s` occurs twice. */
  predicate NoDuplicates(s: seq<string>) {
    forall i, j :: 0 <= i < j < |s| ==> s[i] != s[j]
  }

  /** The position of the first occurrence of `x` in `s`. */
  function FirstIndex(s: seq<string>, x: string): (k: nat)
    requires x in s
    ensures k < |s| && s[k] == x
    ensures x !in s[..k]
  {
    if s[0] == x then 0
    else
      var k' := FirstIndex(s[1..], x);
      assert s[..k' + 1] == [s[0]] + s[1..][..k'];
      k' + 1
  }

  /** `deduplicate_and_sort(items)`. */
  function Dedup(items: seq<string>): (r: seq<string>)
    ensures NoDuplicates(r)
    ensures forall x :: x in r <==> x in items
    ensures |r| <= |items|
  {
    if items == [] then []
    else
      var init := items[..|items| - 1];
      var last := items[|items| - 1];
      assert items == init + [last];
      var prefix := Dedup(init);
      if last in prefix then prefix else prefix + [last]
  }

  /** The first occurrence of an element that occurs in a prefix lies in that prefix. */
  lemma FirstIndexInPrefix(s: seq<string>, n: nat, x: string)
    requires n <= |s| && x in s[..n]
    ensures x in s && FirstIndex(s, x) == FirstIndex(s[..n], x)
  {
    var k, k' := FirstIndex(s, x), FirstIndex(s[..n], x);
    assert s[k'] == x;
  }

  /** `r` holds elements of `items`, listed in the order of their first occurrence in `items`. */
  predicate InFirstOccurrenceOrder(items: seq<string>, r: seq<string>) {
    && (forall x :: x in r ==> x in items)
    && (forall i, j :: 0 <= i < j < |r| ==> FirstIndex(items, r[i]) < FirstIndex(items, r[j]))
  }

  /**
   * The output lists its elements in the order of their first occurrence
   * in the input.
   */
  lemma {:induction false} DedupKeepsFirstOccurrenceOrder(items: seq<string>)
    ensures InFirstOccurrenceOrder(items, Dedup(items))
  {
    if items != [] {
      var n := |items| - 1;
      var init, last := items[..n], items[n];
      assert items[..n] == init;
      var prefix := Dedup(init);
      DedupKeepsFirstOccurrenceOrder(init);
      forall x | x in init
        ensures FirstIndex(items, x) == FirstIndex(init, x) < n
      {
        FirstIndexInPrefix(items, n, x);
      }
      if last !in prefix {
        assert last !in init;
        assert FirstIndex(items, last) == n;
      }
    }
  }

  /** A list is empty exactly when nothing is a member of it. */
  lemma EmptyIffNoMember(s: seq<string>)
    ensures s == [] <==> forall x :: x !in s
  {
    if s != [] {
      assert s[0] in s;
    }
  }

  /** Two lists in first-occurrence order with the same elements are equal. */
  lemma {:induction false} FirstOccurrenceOrderUnique(items: seq<string>, a: seq<string>, b: seq<string>)
    requires InFirstOccurrenceOrder(items, a) && InFirstOccurrenceOrder(items, b)
    requires forall x :: x in a <==> x in b
    ensures a == b
    decreases |a|
  {
    if a == [] {
      EmptyIffNoMember(b);
    } else {
      assert a[0] in b;
      var ka, kb := FirstIndex(items, a[0]), FirstIndex(items, b[0]);
      assert b[0] in a;
      assert ka <= kb;
      assert kb <= ka;
      assert a[0] == items[ka] == b[0];
      forall x ensures x in a[1..] <==> x in b[1..] {
        assert x in a[1..] <==> x in a && x != a[0] by {
          assert forall i :: 0 < i < |a| ==> FirstIndex(items, a[0]) < FirstIndex(items, a[i]);
          assert forall i :: 0 < i < |a| ==> a[i] != a[0];
          assert a == [a[0]] + a[1..];
        }
        assert x in b[1..] <==> x in b && x != b[0] by {
          assert forall i :: 0 < i < |b| ==> FirstIndex(items, b[0]) < FirstIndex(items, b[i]);
          assert forall i :: 0 < i < |b| ==> b[i] != b[0];
          assert b == [b[0]] + b[1..];
        }
      }
      FirstOccurrenceOrderUnique(items, a[1..], b[1..]);
    }
  }

  /**
   * The output is the one list that holds exactly the input's elements in
   * the order of their first occurrence.
   */
  lemma DedupCharacterization(items: seq<string>, r: seq<string>)
    ensures r == Dedup(items) <==> (forall x :: x in r <==> x in items) && InFirstOccurrenceOrder(items, r)
  {
    DedupKeepsFirstOccurrenceOrder(items);
    if (forall x :: x in r <==> x in items) && InFirstOccurrenceOrder(items, r) {
      FirstOccurrenceOrderUnique(items, r, Dedup(items));
    }
  }

  /** A list without duplicates comes back unchanged. */
  lemma {:induction false} DedupOfDistinct(items: seq<string>)
    requires NoDuplicates(items)
    ensures Dedup(items) == items
  {
    if items != [] {
      var n := |items| - 1;
      var init := items[..n];
      assert NoDuplicates(init);
      DedupOfDistinct(init);
      assert items[n] !in init;
      assert init + [items[n]] == items;
    }
  }

  /** Applying the function twice is the same as applying it once. */
  lemma DedupIdempotent(items: seq<string>)
    ensures Dedup(Dedup(items)) == Dedup(items)
  {
    DedupOfDistinct(Dedup(items));
  }

  /** A non-empty list whose elements are all equal collapses to one element. */
  lemma {:induction false} DedupAllEqual(items: seq<string>, x: string)
    requires |items| > 0
    requires forall i :: 0 <= i < |items| ==> items[i] == x
    ensures Dedup(items) == [x]
  {
    var n := |items| - 1;
    if n > 0 {
      DedupAllEqual(items[..n], x);
    } else {
      assert items[..n] == [];
    }
  }

  /** The examples of the function's documentation. */
  lemma DedupExamples()
    ensures Dedup(["apple", "banana", "apple", "cherry"]) == ["apple", "banana", "cherry"]
    ensures Dedup(["c", "a", "b", "a", "c"]) == ["c", "a", "b"]
    ensures Dedup([]) == []
    ensures Dedup(["single"]) == ["single"]
    ensures Dedup(["a", "a", "a"]) == ["a"]
  {
    DedupExampleFruits();
    DedupExampleLetters();
    DedupOfDistinct(["single"]);
    DedupAllEqual(["a", "a", "a"], "a");
  }

  lemma DedupExampleFruits()
    ensures Dedup(["apple", "banana", "apple", "cherry"]) == ["apple", "banana", "cherry"]
  {
    var s3 := ["apple", "banana", "apple"];
    assert ["apple", "banana", "apple", "cherry"][..3] == s3;
    assert s3[..2] == ["apple", "banana"];
    DedupOfDistinct(["apple", "banana"]);
    assert "apple" in ["apple", "banana"];
    assert Dedup(s3) == ["apple", "banana"];
    assert "cherry" !in ["apple", "banana"];
  }

  lemma DedupExampleLetters()
    ensures Dedup(["c", "a", "b", "a", "c"]) == ["c", "a", "b"]
  {
    var s4 := ["c", "a", "b", "a"];
    assert ["c", "a", "b", "a", "c"][..4] == s4;
    assert s4[..3] == ["c", "a", "b"];
    DedupOfDistinct(["c", "a", "b"]);
    assert "a" in ["c", "a", "b"];
    assert Dedup(s4) == ["c", "a", "b"];
    assert "c" in ["c", "a", "b"];
  }
}
