/** The ordering `getAllEdits` applies: an in-place sort of the fetched
    envelopes by ascending `timestamp`, and the projection to the payloads. */
module EditOrder {
  import opened JsValues

  /** The `timestamp` the comparator `a.timestamp - b.timestamp` reads. Only
      envelopes reach the edit store, so the 0 for other records never matters. */
  function Stamp(v: Value): (stamp: real) {
    var t := Field(v, "timestamp");
    if t.Num? then t.x else 0.0
  }

  ghost predicate SortedByStamp(s: seq<Value>) {
    forall i, j :: 0 <= i < j < |s| ==> Stamp(s[i]) <= Stamp(s[j])
  }

  ghost predicate DistinctStamps(s: seq<Value>) {
    forall i, j :: 0 <= i < j < |s| ==> Stamp(s[i]) != Stamp(s[j])
  }

  /** `sorted.map(e => e.edit)`: the payloads, in the same order. */
  function Payloads(s: seq<Value>): (r: seq<Value>)
    ensures |r| == |s|
    ensures forall i :: 0 <= i < |s| ==> r[i] == Field(s[i], "edit")
  {
    seq(|s|, i requires 0 <= i < |s| => Field(s[i], "edit"))
  }

  /** `edits.sort((a, b) => a.timestamp - b.timestamp)`, as an insertion sort:
      ascending by timestamp, a permutation of the input, and nothing said
      about the order of equal timestamps. */
  method SortByTimestamp(a: array<Value>)
    modifies a
    ensures SortedByStamp(a[..])
    ensures multiset(a[..]) == old(multiset(a[..]))
  {
    var i := 0;
    while i < a.Length
      invariant 0 <= i <= a.Length
      invariant SortedByStamp(a[..i])
      invariant multiset(a[..]) == old(multiset(a[..]))
    {
      SinkInto(a, i);
      i := i + 1;
    }
    assert a[..a.Length] == a[..];
  }

  /** One insertion step: moves `a[i]` down into the sorted prefix `a[..i]`. */
  method SinkInto(a: array<Value>, i: nat)
    requires i < a.Length
    requires SortedByStamp(a[..i])
    modifies a
    ensures SortedByStamp(a[..i + 1])
    ensures multiset(a[..]) == old(multiset(a[..]))
  {
    var j := i;
    while j > 0 && Stamp(a[j - 1]) > Stamp(a[j])
      invariant 0 <= j <= i
      invariant forall p, q :: 0 <= p < q <= i && p != j && q != j ==> Stamp(a[p]) <= Stamp(a[q])
      invariant forall q :: j < q <= i ==> Stamp(a[j]) < Stamp(a[q])
      invariant multiset(a[..]) == old(multiset(a[..]))
    {
      SwapDown(a, j);
      j := j - 1;
    }
    forall p, q | 0 <= p < q <= i
      ensures Stamp(a[p]) <= Stamp(a[q])
    {
      if q == j && p < j - 1 {
        assert Stamp(a[p]) <= Stamp(a[j - 1]);
      }
    }
  }

  /** Exchanges `a[j - 1]` and `a[j]`. */
  method SwapDown(a: array<Value>, j: nat)
    requires 0 < j < a.Length
    modifies a
    ensures a[j - 1] == old(a[j]) && a[j] == old(a[j - 1])
    ensures forall k :: 0 <= k < a.Length && k != j - 1 && k != j ==> a[k] == old(a[k])
    ensures multiset(a[..]) == old(multiset(a[..]))
  {
    a[j - 1], a[j] := a[j], a[j - 1];
  }

  /** With distinct timestamps there is exactly one sorted arrangement: the
      order `getAllEdits` returns does not depend on the order of insertion. */
  lemma {:induction false} SortedIsUnique(s: seq<Value>, t: seq<Value>)
    requires SortedByStamp(s) && SortedByStamp(t)
    requires DistinctStamps(t)
    requires multiset(s) == multiset(t)
    ensures s == t
    decreases |s|
  {
    if s == [] {
      assert |t| == |multiset(t)| == 0;
    } else {
      SameHead(s, t);
      SortedTail(s);
      SortedTail(t);
      DistinctTail(t);
      TailMultiset(s);
      TailMultiset(t);
      SortedIsUnique(s[1..], t[1..]);
      assert s == [s[0]] + s[1..];
      assert t == [t[0]] + t[1..];
    }
  }

  /** Two sorted arrangements of the same elements, the second with distinct
      timestamps, start with the same element. */
  lemma SameHead(s: seq<Value>, t: seq<Value>)
    requires SortedByStamp(s) && SortedByStamp(t)
    requires DistinctStamps(t)
    requires multiset(s) == multiset(t)
    requires s != []
    ensures t != [] && s[0] == t[0]
  {
    assert s[0] in multiset(t);
    var j :| 0 <= j < |t| && t[j] == s[0];
    assert t[0] in multiset(s);
    var i :| 0 <= i < |s| && s[i] == t[0];
    assert Stamp(s[0]) <= Stamp(s[i]);
    assert Stamp(t[0]) <= Stamp(t[j]);
    assert j == 0;
  }

  lemma SortedTail(s: seq<Value>)
    requires SortedByStamp(s) && s != []
    ensures SortedByStamp(s[1..])
  {
    forall i, j | 0 <= i < j < |s[1..]| ensures Stamp(s[1..][i]) <= Stamp(s[1..][j]) {
      assert s[1..][i] == s[i + 1] && s[1..][j] == s[j + 1];
    }
  }

  lemma DistinctTail(s: seq<Value>)
    requires DistinctStamps(s) && s != []
    ensures DistinctStamps(s[1..])
  {
    forall i, j | 0 <= i < j < |s[1..]| ensures Stamp(s[1..][i]) != Stamp(s[1..][j]) {
      assert s[1..][i] == s[i + 1] && s[1..][j] == s[j + 1];
    }
  }

  lemma TailMultiset(s: seq<Value>)
    requires s != []
    ensures multiset(s[1..]) == multiset(s) - multiset{s[0]}
  {
    assert s == [s[0]] + s[1..];
  }

  /** Stamps that increase strictly from each element to the next are sorted and distinct. */
  lemma {:induction false} StrictChainIsSorted(s: seq<Value>)
    requires forall k :: 0 <= k < |s| - 1 ==> Stamp(s[k]) < Stamp(s[k + 1])
    ensures SortedByStamp(s) && DistinctStamps(s)
    ensures forall j :: 0 < j < |s| ==> Stamp(s[0]) < Stamp(s[j])
    decreases |s|
  {
    if |s| > 1 {
      StrictChainIsSorted(s[1..]);
      assert forall j :: 1 < j < |s| ==> Stamp(s[1]) < Stamp(s[j]) by {
        forall j | 1 < j < |s| ensures Stamp(s[1]) < Stamp(s[j]) {
          assert s[1..][0] == s[1] && s[1..][j - 1] == s[j];
        }
      }
      forall i, j | 0 <= i < j < |s| ensures Stamp(s[i]) < Stamp(s[j]) {
        if i > 0 {
          assert s[1..][i - 1] == s[i] && s[1..][j - 1] == s[j];
        }
      }
    }
  }
}
