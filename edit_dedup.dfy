/** What `addEdit` does to the edit store: the envelope it builds, the linear
    scan for an equal payload, and the effect of one call (and of repeated
    calls) on the records, with and without replacing. */
module EditDedup {
  import opened JsValues
  import opened ObjectStores
  import opened EditKeys

  /** The envelope for `edit` stamped `timestamp`, under its synthetic key. */
  function EnvelopeFor(edit: Value, timestamp: int, fragment: string): (env: Value)
    ensures KeyOf(env, "key") == Some(Str(EditKey(timestamp, fragment)))
    ensures Field(env, "edit") == edit
    ensures Field(env, "timestamp") == Num(timestamp as real)
  {
    Envelope(timestamp, edit, EditKey(timestamp, fragment))
  }

  /** Some stored envelope carries a payload equal to `edit`. */
  ghost predicate HasPayload(m: map<Value, Value>, edit: Value) {
    exists k :: k in m && Field(m[k], "edit") == edit
  }

  /** The keys of the envelopes that carry `edit`. */
  ghost function PayloadKeys(m: map<Value, Value>, edit: Value): (keys: set<Value>) {
    set k | k in m && Field(m[k], "edit") == edit
  }

  /** The edit records after one successful `addEdit(edit, replace, timestamp)`:
      unchanged when replacing and an equal payload is stored, else the
      envelope put under its key. */
  ghost function AddEditRecords(m: map<Value, Value>, edit: Value, replace: bool,
                                timestamp: int, fragment: string): (r: map<Value, Value>)
  {
    if replace && HasPayload(m, edit) then m
    else m[Str(EditKey(timestamp, fragment)) := EnvelopeFor(edit, timestamp, fragment)]
  }

  /** What that call resolves with: the caller's own `edit` on a duplicate,
      else the envelope that was put. */
  ghost function AddEditResult(m: map<Value, Value>, edit: Value, replace: bool,
                               timestamp: int, fragment: string): (v: Value)
  {
    if replace && HasPayload(m, edit) then edit else EnvelopeFor(edit, timestamp, fragment)
  }

  /** After one call the payload is stored, at most the new key has been
      added, no other record has changed, and a skipped duplicate changes
      nothing at all. */
  lemma AddEditEffect(m: map<Value, Value>, edit: Value, replace: bool, timestamp: int, fragment: string)
    ensures var r := AddEditRecords(m, edit, replace, timestamp, fragment);
      var k := Str(EditKey(timestamp, fragment));
      && HasPayload(r, edit)
      && (r.Keys == m.Keys || r.Keys == m.Keys + {k})
      && (forall k' :: k' in m && k' != k ==> r[k'] == m[k'])
      && (replace && HasPayload(m, edit) ==> r == m)
  {
    var k := Str(EditKey(timestamp, fragment));
    if !(replace && HasPayload(m, edit)) {
      var r := AddEditRecords(m, edit, replace, timestamp, fragment);
      assert k in r && Field(r[k], "edit") == edit;
    }
  }

  /** The call resolves with the caller's `edit` when it skips a duplicate,
      and otherwise with the very envelope it stored under its key. */
  lemma AddEditResolves(m: map<Value, Value>, edit: Value, replace: bool, timestamp: int, fragment: string)
    ensures var v := AddEditResult(m, edit, replace, timestamp, fragment);
      var r := AddEditRecords(m, edit, replace, timestamp, fragment);
      var k := Str(EditKey(timestamp, fragment));
      && (replace && HasPayload(m, edit) ==> v == edit)
      && (!(replace && HasPayload(m, edit)) ==> KeyOf(v, "key") == Some(k) && k in r && r[k] == v)
  {
  }

  /** The records after calling `addEdit(edit, replace, timestamp)` once per
      fragment, in order. */
  ghost function RepeatAddEdit(m: map<Value, Value>, edit: Value, replace: bool,
                               timestamp: int, fragments: seq<string>): (r: map<Value, Value>)
    decreases |fragments|
  {
    if fragments == [] then m
    else RepeatAddEdit(AddEditRecords(m, edit, replace, timestamp, fragments[0]),
                       edit, replace, timestamp, fragments[1..])
  }

  /** The duplicate scan: is there an envelope among `edits` whose payload equals `edit`? */
  method ScanForDuplicate(edits: seq<Value>, edit: Value) returns (found: bool)
    ensures found <==> exists i :: 0 <= i < |edits| && Field(edits[i], "edit") == edit
  {
    for i := 0 to |edits|
      invariant forall j :: 0 <= j < i ==> Field(edits[j], "edit") != edit
    {
      if Field(edits[i], "edit") == edit {
        return true;
      }
    }
    return false;
  }

  /** Scanning any listing of the records finds a duplicate exactly when one is stored. */
  lemma ScanMatchesStore(m: map<Value, Value>, ks: seq<Value>, edit: Value)
    requires IsListing(m, ks)
    ensures (exists i :: 0 <= i < |ks| && Field(Lookup(m, ks)[i], "edit") == edit) <==> HasPayload(m, edit)
  {
    var vs := Lookup(m, ks);
    if HasPayload(m, edit) {
      var k :| k in m && Field(m[k], "edit") == edit;
      assert k in ks;
      var i :| 0 <= i < |ks| && ks[i] == k;
      assert Field(vs[i], "edit") == edit;
    }
  }

  /** Once an equal payload is stored, further replacing calls change nothing. */
  lemma {:induction false} DuplicatesAreSkipped(m: map<Value, Value>, edit: Value,
                                                timestamp: int, fragments: seq<string>)
    requires HasPayload(m, edit)
    ensures RepeatAddEdit(m, edit, true, timestamp, fragments) == m
    decreases |fragments|
  {
    if fragments != [] {
      DuplicatesAreSkipped(m, edit, timestamp, fragments[1..]);
    }
  }

  /** Calling `addEdit(P, true, T)` any number of times stores exactly one
      envelope with payload P and grows the store by exactly one. */
  lemma DedupStoresOnce(m: map<Value, Value>, edit: Value, timestamp: int, fragments: seq<string>)
    requires |fragments| >= 1
    requires !HasPayload(m, edit)
    requires Str(EditKey(timestamp, fragments[0])) !in m
    ensures |RepeatAddEdit(m, edit, true, timestamp, fragments)| == |m| + 1
    ensures PayloadKeys(RepeatAddEdit(m, edit, true, timestamp, fragments), edit)
            == {Str(EditKey(timestamp, fragments[0]))}
  {
    var key := Str(EditKey(timestamp, fragments[0]));
    var m1 := m[key := EnvelopeFor(edit, timestamp, fragments[0])];
    assert AddEditRecords(m, edit, true, timestamp, fragments[0]) == m1;
    assert HasPayload(m1, edit) by {
      assert key in m1 && Field(m1[key], "edit") == edit;
    }
    DuplicatesAreSkipped(m1, edit, timestamp, fragments[1..]);
    assert PayloadKeys(m1, edit) == {key};
  }

  /** Calling `addEdit(P, false, T)` once per distinct fragment inserts one
      envelope with payload P per call, however many equal payloads exist. */
  lemma {:induction false} NoDedupInsertsEach(m: map<Value, Value>, edit: Value,
                                              timestamp: int, fragments: seq<string>)
    requires forall i, j :: 0 <= i < j < |fragments| ==> fragments[i] != fragments[j]
    requires forall i :: 0 <= i < |fragments| ==> Str(EditKey(timestamp, fragments[i])) !in m
    ensures |RepeatAddEdit(m, edit, false, timestamp, fragments)| == |m| + |fragments|
    ensures |PayloadKeys(RepeatAddEdit(m, edit, false, timestamp, fragments), edit)|
            == |PayloadKeys(m, edit)| + |fragments|
    decreases |fragments|
  {
    if fragments != [] {
      var key := Str(EditKey(timestamp, fragments[0]));
      var m1 := m[key := EnvelopeFor(edit, timestamp, fragments[0])];
      assert AddEditRecords(m, edit, false, timestamp, fragments[0]) == m1;
      assert PayloadKeys(m1, edit) == PayloadKeys(m, edit) + {key};
      var rest := fragments[1..];
      forall i | 0 <= i < |rest|
        ensures Str(EditKey(timestamp, rest[i])) !in m1
      {
        assert rest[i] == fragments[i + 1];
      }
      NoDedupInsertsEach(m1, edit, timestamp, rest);
    }
  }
}
