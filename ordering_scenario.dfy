/** The data of the repository's edit-ordering scenario: six edits added with
    timestamps out of order, and the one order `getAllEdits` can return them in. */
module OrderingScenario {
  import opened JsValues
  import opened EditKeys
  import opened EditOrder

  /** The timestamp the ordering test gives edit `i`, for i from -3 to 2:
      `100 + i` for i <= 0 and `100 - 11 * i` for i > 0. */
  function OrderingStamp(i: int): (t: int) {
    100 + (if i > 0 then i * -11 else i)
  }

  /** The six edits of the ordering test, in the order they are added: edit
      `n` carries the payload `n - 3` at `OrderingStamp(n - 3)` under keys[n],
      so the payloads -3..2 sit at the timestamps 97, 98, 99, 100, 89, 78. */
  function OrderingTestEdits(keys: seq<string>): (e: seq<Value>)
    requires |keys| == 6
    ensures |e| == 6
  {
    seq(6, n requires 0 <= n < 6 => Envelope(OrderingStamp(n - 3), Num((n - 3) as real), keys[n]))
  }

  /** The same six edits in the order of their timestamps 78, 89, 97, 98,
      99, 100. */
  function OrderingTestArranged(keys: seq<string>): (s: seq<Value>)
    requires |keys| == 6
    ensures |s| == 6
  {
    var e := OrderingTestEdits(keys);
    [e[5], e[4], e[0], e[1], e[2], e[3]]
  }

  /** Any sorted arrangement of the six test envelopes is the one at
      timestamps 78, 89, 97, 98, 99, 100. */
  lemma OrderingTestSorted(keys: seq<string>, sorted: seq<Value>)
    requires |keys| == 6
    requires multiset(sorted) == multiset(OrderingTestEdits(keys))
    requires SortedByStamp(sorted)
    ensures sorted == OrderingTestArranged(keys)
  {
    ArrangedIsSorted(keys);
    ArrangedIsPermutation(keys);
    SortedIsUnique(sorted, OrderingTestArranged(keys));
  }

  /** In that arrangement the payloads read 2, 1, -3, -2, -1, 0. */
  lemma OrderingTestPayloads(keys: seq<string>)
    requires |keys| == 6
    ensures Payloads(OrderingTestArranged(keys)) == [Num(2.0), Num(1.0), Num(-3.0), Num(-2.0), Num(-1.0), Num(0.0)]
  {
    var s := OrderingTestArranged(keys);
    assert Field(s[0], "edit") == Num(2.0) && Field(s[1], "edit") == Num(1.0) && Field(s[2], "edit") == Num(-3.0);
    assert Field(s[3], "edit") == Num(-2.0) && Field(s[4], "edit") == Num(-1.0) && Field(s[5], "edit") == Num(0.0);
  }

  /** ... and the timestamps read 78, 89, 97, 98, 99, 100. */
  lemma OrderingTestStamps(keys: seq<string>)
    requires |keys| == 6
    ensures var s := OrderingTestArranged(keys);
      forall n :: 0 <= n < 6 ==>
        Field(s[n], "timestamp") == Num([78.0, 89.0, 97.0, 98.0, 99.0, 100.0][n])
  {
    var s := OrderingTestArranged(keys);
    assert Field(s[0], "timestamp") == Num(78.0) && Field(s[1], "timestamp") == Num(89.0) && Field(s[2], "timestamp") == Num(97.0);
    assert Field(s[3], "timestamp") == Num(98.0) && Field(s[4], "timestamp") == Num(99.0) && Field(s[5], "timestamp") == Num(100.0);
    StampsByIndex(s);
  }

  lemma StampsByIndex(s: seq<Value>)
    requires |s| == 6
    requires Field(s[0], "timestamp") == Num(78.0) && Field(s[1], "timestamp") == Num(89.0)
    requires Field(s[2], "timestamp") == Num(97.0) && Field(s[3], "timestamp") == Num(98.0)
    requires Field(s[4], "timestamp") == Num(99.0) && Field(s[5], "timestamp") == Num(100.0)
    ensures forall n :: 0 <= n < 6 ==>
      Field(s[n], "timestamp") == Num([78.0, 89.0, 97.0, 98.0, 99.0, 100.0][n])
  {
    forall n | 0 <= n < 6
      ensures Field(s[n], "timestamp") == Num([78.0, 89.0, 97.0, 98.0, 99.0, 100.0][n])
    {
      if n == 0 {} else if n == 1 {} else if n == 2 {} else if n == 3 {} else if n == 4 {} else {}
    }
  }

  /** The arrangement is sorted by timestamp, and its timestamps differ. */
  lemma ArrangedIsSorted(keys: seq<string>)
    requires |keys| == 6
    ensures SortedByStamp(OrderingTestArranged(keys))
    ensures DistinctStamps(OrderingTestArranged(keys))
  {
    var s := OrderingTestArranged(keys);
    assert Stamp(s[0]) == 78.0 && Stamp(s[1]) == 89.0 && Stamp(s[2]) == 97.0;
    assert Stamp(s[3]) == 98.0 && Stamp(s[4]) == 99.0 && Stamp(s[5]) == 100.0;
    SixInChain(s);
    StrictChainIsSorted(s);
  }

  /** Six stamps that increase pairwise from left to right form a strict chain. */
  lemma SixInChain(s: seq<Value>)
    requires |s| == 6
    requires Stamp(s[0]) < Stamp(s[1]) < Stamp(s[2]) < Stamp(s[3]) < Stamp(s[4]) < Stamp(s[5])
    ensures forall k :: 0 <= k < |s| - 1 ==> Stamp(s[k]) < Stamp(s[k + 1])
  {
    forall k | 0 <= k < |s| - 1 ensures Stamp(s[k]) < Stamp(s[k + 1]) {
      if k == 0 {} else if k == 1 {} else if k == 2 {} else if k == 3 {} else {}
    }
  }

  /** The arrangement moves the last two edits to the front, in swapped order. */
  lemma ArrangedIsPermutation(keys: seq<string>)
    requires |keys| == 6
    ensures multiset(OrderingTestArranged(keys)) == multiset(OrderingTestEdits(keys))
  {
    var e := OrderingTestEdits(keys);
    var front := e[..4];
    assert e == front + [e[4], e[5]];
    assert OrderingTestArranged(keys) == [e[5], e[4]] + front;
    PairMovedToFront(front, e[4], e[5]);
  }

  lemma PairMovedToFront(front: seq<Value>, x: Value, y: Value)
    ensures multiset([y, x] + front) == multiset(front + [x, y])
  {
    assert multiset([x, y]) == multiset([y, x]);
  }
}
