/** The field filters of the root log drain: redaction outside, deduplication inside. */
module LogFields {
  import opened Base

  datatype Field = Field(key: string, value: string)

  /** Where the filtered fields end up. */
  class Sink {
    var emitted: seq<Field>

    constructor ()
      ensures emitted == []
    {
      emitted := [];
    }
  }

  class DedupFilter {
    var seenKeys: set<string>

    constructor ()
      ensures seenKeys == {}
    {
      seenKeys := {};
    }

    /** True for the first field of a key. */
    method Filter(key: string) returns (keep: bool)
      modifies this
      ensures keep <==> key !in old(seenKeys)
      ensures seenKeys == old(seenKeys) + {key}
    {
      keep := key !in seenKeys;
      seenKeys := seenKeys + {key};
    }
  }

  class DedupSerializer {
    const inner: Sink
    const filter: DedupFilter

    constructor (inner: Sink)
      ensures this.inner == inner && fresh(filter) && filter.seenKeys == {}
    {
      this.inner := inner;
      this.filter := new DedupFilter();
    }

    method Emit(f: Field)
      modifies inner, filter
      ensures inner.emitted == old(inner.emitted) + Deduped([f], old(filter.seenKeys))
      ensures filter.seenKeys == old(filter.seenKeys) + {f.key}
    {
      var keep := filter.Filter(f.key);
      assert Deduped([f][1..], old(filter.seenKeys) + {f.key}) == [];
      if keep {
        inner.emitted := inner.emitted + [f];
      }
    }
  }

  class RedactSerializer {
    const inner: DedupSerializer
    const redactedKeys: set<string>

    constructor (inner: DedupSerializer, redactedKeys: set<string>)
      ensures this.inner == inner && this.redactedKeys == redactedKeys
    {
      this.inner := inner;
      this.redactedKeys := redactedKeys;
    }

    method Emit(f: Field)
      modifies inner.inner, inner.filter
      ensures inner.inner.emitted
           == old(inner.inner.emitted) + Deduped(Redacted([f], redactedKeys), old(inner.filter.seenKeys))
      ensures inner.filter.seenKeys == old(inner.filter.seenKeys) + if f.key in redactedKeys then {} else {f.key}
    {
      assert Redacted([f][1..], redactedKeys) == [];
      if f.key !in redactedKeys {
        inner.Emit(f);
      }
    }
  }

  // ---- the filters on whole lists --------------------------------------------------------------

  function Redacted(fields: seq<Field>, keys: set<string>): seq<Field> {
    if fields == [] then []
    else (if fields[0].key in keys then [] else [fields[0]]) + Redacted(fields[1..], keys)
  }

  function Deduped(fields: seq<Field>, seen: set<string>): seq<Field> {
    if fields == [] then []
    else (if fields[0].key in seen then [] else [fields[0]]) + Deduped(fields[1..], seen + {fields[0].key})
  }

  function Keys(fields: seq<Field>): set<string> {
    if fields == [] then {} else {fields[0].key} + Keys(fields[1..])
  }

  function Reversed(fields: seq<Field>): seq<Field> {
    if fields == [] then [] else Reversed(fields[1..]) + [fields[0]]
  }

  lemma {:induction false} KeysAppend(a: seq<Field>, b: seq<Field>)
    ensures Keys(a + b) == Keys(a) + Keys(b)
  {
    if a == [] {
      assert a + b == b;
    } else {
      KeysAppend(a[1..], b);
      assert (a + b)[1..] == a[1..] + b;
    }
  }

  lemma {:induction false} KeysContain(fields: seq<Field>, i: nat)
    requires i < |fields|
    ensures fields[i].key in Keys(fields)
  {
    if i > 0 {
      KeysContain(fields[1..], i - 1);
    }
  }

  lemma {:induction false} DedupedAppend(a: seq<Field>, b: seq<Field>, seen: set<string>)
    ensures Deduped(a + b, seen) == Deduped(a, seen) + Deduped(b, seen + Keys(a))
  {
    if a == [] {
      assert a + b == b && seen + Keys(a) == seen;
    } else {
      DedupedAppend(a[1..], b, seen + {a[0].key});
      assert (a + b)[1..] == a[1..] + b;
      assert seen + {a[0].key} + Keys(a[1..]) == seen + Keys(a);
      var own := if a[0].key in seen then [] else [a[0]];
      ConcatAssoc(own, Deduped(a[1..], seen + {a[0].key}), Deduped(b, seen + Keys(a)));
    }
  }

  lemma {:induction false} RedactedAppend(a: seq<Field>, b: seq<Field>, keys: set<string>)
    ensures Redacted(a + b, keys) == Redacted(a, keys) + Redacted(b, keys)
  {
    if a == [] {
      assert a + b == b;
    } else {
      RedactedAppend(a[1..], b, keys);
      assert (a + b)[1..] == a[1..] + b;
      var own := if a[0].key in keys then [] else [a[0]];
      ConcatAssoc(own, Redacted(a[1..], keys), Redacted(b, keys));
    }
  }

  lemma {:induction false} RedactedKeys(fields: seq<Field>, keys: set<string>)
    ensures Keys(Redacted(fields, keys)) == Keys(fields) - keys
  {
    if fields != [] {
      RedactedKeys(fields[1..], keys);
      assert fields == [fields[0]] + fields[1..];
      KeysAppend([fields[0]], fields[1..]);
      KeysAppend(if fields[0].key in keys then [] else [fields[0]], Redacted(fields[1..], keys));
    }
  }

  lemma DedupedCons(first: Field, rest: seq<Field>, seen: set<string>)
    ensures Deduped([first] + rest, seen)
         == (if first.key in seen then [] else [first]) + Deduped(rest, seen + {first.key})
  {
    assert ([first] + rest)[1..] == rest;
  }

  /** The order of the two filters does not matter; what they have seen may differ on redacted keys. */
  lemma {:induction false} FiltersCommute(
    fields: seq<Field>, keys: set<string>, seen: set<string>, seenToo: set<string>)
    requires forall k :: k !in keys ==> (k in seen <==> k in seenToo)
    ensures Deduped(Redacted(fields, keys), seen) == Redacted(Deduped(fields, seenToo), keys)
  {
    if fields != [] {
      var first, rest := fields[0], fields[1..];
      var own := if first.key in seenToo then [] else [first];
      RedactedAppend(own, Deduped(rest, seenToo + {first.key}), keys);
      assert [first][1..] == [];
      hide Deduped;
      if first.key in keys {
        FiltersCommute(rest, keys, seen, seenToo + {first.key});
        assert Redacted(fields, keys) == [] + Redacted(rest, keys) == Redacted(rest, keys);
        assert Redacted(own, keys) == [];
      } else {
        FiltersCommute(rest, keys, seen + {first.key}, seenToo + {first.key});
        DedupedCons(first, Redacted(rest, keys), seen);
        assert Redacted(own, keys) == own;
      }
      DedupedCons(first, rest, seenToo);
      assert [first] + rest == fields;
    }
  }

  /** The inactive path skips the filter; filtering with no keys would have done the same. */
  lemma {:induction false} NothingRedacted(fields: seq<Field>)
    ensures Redacted(fields, {}) == fields
  {
    if fields != [] {
      NothingRedacted(fields[1..]);
    }
  }

  // ---- last write wins -----------------------------------------------------------------------------

  /** Of the fields in the order they were added: those not redacted and not added again later. */
  function Surviving(added: seq<Field>, keys: set<string>): seq<Field> {
    if added == [] then []
    else
      (if added[0].key in keys || added[0].key in Keys(added[1..]) then [] else [added[0]])
      + Surviving(added[1..], keys)
  }

  lemma {:induction false} ReversedKeys(fields: seq<Field>)
    ensures Keys(Reversed(fields)) == Keys(fields)
  {
    if fields != [] {
      ReversedKeys(fields[1..]);
      KeysAppend(Reversed(fields[1..]), [fields[0]]);
      KeysAppend([fields[0]], fields[1..]);
      assert fields == [fields[0]] + fields[1..];
    }
  }

  lemma {:induction false} ReversedAppend(a: seq<Field>, b: seq<Field>)
    ensures Reversed(a + b) == Reversed(b) + Reversed(a)
  {
    if a == [] {
      assert a + b == b;
    } else {
      ReversedAppend(a[1..], b);
      assert (a + b)[1..] == a[1..] + b;
    }
  }

  /** The two filters emit exactly the surviving fields, most recent first. */
  lemma {:induction false} EmittedAreSurviving(added: seq<Field>, keys: set<string>)
    ensures Deduped(Redacted(Reversed(added), keys), {}) == Reversed(Surviving(added, keys))
  {
    if added != [] {
      var first, rest := added[0], added[1..];
      EmittedAreSurviving(rest, keys);
      RedactedAppend(Reversed(rest), [first], keys);
      DedupedAppend(Redacted(Reversed(rest), keys), Redacted([first], keys), {});
      RedactedKeys(Reversed(rest), keys);
      ReversedKeys(rest);
      var own := if first.key in keys || first.key in Keys(rest) then [] else [first];
      assert [first][1..] == [];
      assert {} + (Keys(rest) - keys) == Keys(rest) - keys;
      assert Deduped(Redacted([first], keys), Keys(rest) - keys) == own;
      ReversedAppend(own, Surviving(rest, keys));
      assert Reversed(own) == own;
    }
  }

  /** The context as a map: adding a key again replaces its value. */
  function ContextOf(added: seq<Field>): map<string, string> {
    if added == [] then map[]
    else ContextOf(added[..|added| - 1])[added[|added| - 1].key := added[|added| - 1].value]
  }

  lemma {:induction false} ContextSplits(first: Field, rest: seq<Field>)
    ensures ContextOf([first] + rest) == map[first.key := first.value] + ContextOf(rest)
  {
    if rest == [] {
      assert [first] + rest == [first] && [first][..0] == [];
    } else {
      var before, last := rest[..|rest| - 1], rest[|rest| - 1];
      ContextSplits(first, before);
      assert ([first] + rest)[..|rest|] == [first] + before && ([first] + rest)[|rest|] == last;
      assert ContextOf([first] + rest) == ContextOf([first] + before)[last.key := last.value];
      assert ContextOf(rest) == ContextOf(before)[last.key := last.value];
      hide ContextOf;
    }
  }

  lemma {:induction false} ContextKeys(added: seq<Field>)
    ensures ContextOf(added).Keys == Keys(added)
  {
    if added != [] {
      var n := |added| - 1;
      ContextKeys(added[..n]);
      assert added == added[..n] + [added[n]];
      KeysAppend(added[..n], [added[n]]);
    }
  }

  ghost predicate UniqueKeys(fields: seq<Field>) {
    forall i, j :: 0 <= i < j < |fields| ==> fields[i].key != fields[j].key
  }

  lemma {:induction false} SurvivingKeys(added: seq<Field>, keys: set<string>)
    ensures Keys(Surviving(added, keys)) <= Keys(added) && UniqueKeys(Surviving(added, keys))
  {
    if added != [] {
      var rest := Surviving(added[1..], keys);
      SurvivingKeys(added[1..], keys);
      var own := if added[0].key in keys || added[0].key in Keys(added[1..]) then [] else [added[0]];
      KeysAppend(own, rest);
      forall i | 0 <= i < |rest| ensures rest[i].key in Keys(rest) {
        KeysContain(rest, i);
      }
      assert own != [] ==> [added[0]][1..] == [];
    }
  }

  /** The surviving fields are the context without the redacted keys. */
  lemma {:induction false} SurvivingIsTheContext(added: seq<Field>, keys: set<string>, f: Field)
    ensures f in Surviving(added, keys) <==>
            f.key !in keys && f.key in ContextOf(added) && ContextOf(added)[f.key] == f.value
  {
    if added != [] {
      var first, rest := added[0], added[1..];
      SurvivingIsTheContext(rest, keys, f);
      ContextSplits(first, rest);
      ContextKeys(rest);
      assert added == [first] + rest;
      hide Keys, ContextOf;
      assert f == Field(f.key, f.value);
    }
  }

  lemma {:induction false} ReversedSame(fields: seq<Field>)
    ensures |Reversed(fields)| == |fields|
    ensures forall i :: 0 <= i < |fields| ==> Reversed(fields)[i] == fields[|fields| - 1 - i]
  {
    if fields != [] {
      ReversedSame(fields[1..]);
    }
  }

  /**
   What a log record carries of its context fields: each key once, with the value
   added last, and no redacted key.
   */
  lemma EmittedIsTheContext(added: seq<Field>, keys: set<string>)
    ensures var emitted := Deduped(Redacted(Reversed(added), keys), {});
            && UniqueKeys(emitted)
            && (forall f :: f in emitted <==>
                 f.key !in keys && f.key in ContextOf(added) && ContextOf(added)[f.key] == f.value)
  {
    EmittedAreSurviving(added, keys);
    SurvivingKeys(added, keys);
    forall f: Field
      ensures f in Surviving(added, keys) <==>
              f.key !in keys && f.key in ContextOf(added) && ContextOf(added)[f.key] == f.value
    {
      SurvivingIsTheContext(added, keys, f);
    }
    var kept := Surviving(added, keys);
    ReversedSame(kept);
    hide Surviving, Reversed, ContextOf, Deduped, Redacted;
    var emitted := Reversed(kept);
    forall f ensures f in emitted <==> f in kept {
      if f in emitted {
        var i :| 0 <= i < |emitted| && emitted[i] == f;
        assert kept[|kept| - 1 - i] == f;
      }
      if f in kept {
        var i :| 0 <= i < |kept| && kept[i] == f;
        assert emitted[|kept| - 1 - i] == f;
      }
    }
  }

  // ---- the same in terms of positions ----------------------------------------------------------

  /** Position `i` is the last one with its key, and the key is not redacted. */
  ghost predicate Survives(added: seq<Field>, keys: set<string>, i: nat)
    requires i < |added|
  {
    added[i].key !in keys && forall j :: i < j < |added| ==> added[j].key != added[i].key
  }

  lemma {:induction false} KeysAre(fields: seq<Field>, key: string)
    ensures key in Keys(fields) <==> exists i :: 0 <= i < |fields| && fields[i].key == key
  {
    if fields != [] {
      KeysAre(fields[1..], key);
      assert forall i :: 0 < i < |fields| ==> fields[i] == fields[1..][i - 1];
      assert forall i :: 0 <= i < |fields| - 1 ==> fields[1..][i] == fields[i + 1];
    }
  }

  lemma SurvivesOrRest(added: seq<Field>, keys: set<string>)
    requires added != []
    ensures Survives(added, keys, 0) <==> !(added[0].key in keys || added[0].key in Keys(added[1..]))
    ensures forall i :: 0 < i < |added| ==> (Survives(added, keys, i) <==> Survives(added[1..], keys, i - 1))
  {
    var rest := added[1..];
    KeysAre(rest, added[0].key);
    assert forall i :: 0 < i < |added| ==> added[i] == rest[i - 1];
    assert forall i :: 0 <= i < |rest| ==> rest[i] == added[i + 1];
  }

  ghost function Shifted(from: seq<nat>): (shifted: seq<nat>)
    ensures |shifted| == |from| && forall n :: 0 <= n < |from| ==> shifted[n] == from[n] + 1
  {
    seq(|from|, n requires 0 <= n < |from| => from[n] + 1)
  }

  lemma ShiftedHas(from: seq<nat>, i: nat)
    ensures i in Shifted(from) <==> i > 0 && i - 1 in from
  {
    if i > 0 && i - 1 in from {
      var n :| 0 <= n < |from| && from[n] == i - 1;
      assert Shifted(from)[n] == i;
    }
  }

  lemma ValuesShifted(added: seq<Field>, kept: seq<Field>, later: seq<nat>)
    requires added != [] && |kept| == |later| && Picks(later, |added| - 1)
    requires forall n :: 0 <= n < |kept| ==> kept[n] == added[1..][later[n]]
    ensures forall n :: 0 <= n < |kept| ==> kept[n] == added[Shifted(later)[n]]
    ensures var all, from := [added[0]] + kept, [0] + Shifted(later);
            forall n :: 0 <= n < |all| ==> from[n] < |added| && all[n] == added[from[n]]
  {
    forall n | 0 <= n < |kept| ensures kept[n] == added[Shifted(later)[n]] {
      assert added[1..][later[n]] == added[later[n] + 1];
    }
  }

  lemma PicksShifted(from: seq<nat>, n: nat)
    requires Picks(from, n)
    ensures Picks(Shifted(from), n + 1) && Picks([0] + Shifted(from), n + 1)
  {
    hide Shifted;
  }

  lemma {:induction false} SurvivingFrom(added: seq<Field>, keys: set<string>) returns (from: seq<nat>)
    ensures Picks(from, |added|) && |Surviving(added, keys)| == |from|
    ensures forall n :: 0 <= n < |from| ==> Surviving(added, keys)[n] == added[from[n]]
    ensures forall i :: 0 <= i < |added| ==> (i in from <==> Survives(added, keys, i))
  {
    from := [];
    if added != [] {
      var rest := added[1..];
      var later := SurvivingFrom(rest, keys);
      SurvivesOrRest(added, keys);
      var first := Survives(added, keys, 0);
      assert Surviving(added, keys) == (if first then [added[0]] else []) + Surviving(rest, keys);
      var kept := Surviving(rest, keys);
      hide Surviving, Survives, Keys, Shifted, Picks;
      from := if first then [0] + Shifted(later) else Shifted(later);
      PicksShifted(later, |rest|);
      ValuesShifted(added, kept, later);
      forall i: nat | i < |added| ensures i in from <==> Survives(added, keys, i) {
        ShiftedHas(later, i);
      }
    }
  }

  /**
   The record carries exactly the last field of each key that is not redacted, those
   added later before those added earlier.
   */
  lemma LastWriteWins(added: seq<Field>, keys: set<string>) returns (from: seq<nat>)
    ensures var emitted := Deduped(Redacted(Reversed(added), keys), {});
            && |from| == |emitted|
            && (forall n :: 0 <= n < |from| ==> from[n] < |added| && emitted[n] == added[from[n]])
            && (forall m, n :: 0 <= m < n < |from| ==> from[m] > from[n])
            && forall i :: 0 <= i < |added| ==>
                 (i in from <==> added[i].key !in keys && forall j :: i < j < |added| ==> added[j].key != added[i].key)
  {
    var picked := SurvivingFrom(added, keys);
    EmittedAreSurviving(added, keys);
    ReversedSame(Surviving(added, keys));
    hide Surviving, Reversed, Deduped, Redacted;
    var n := |picked|;
    from := seq(n, k requires 0 <= k < n => picked[n - 1 - k]);
    forall i | 0 <= i < |added| ensures i in from <==> Survives(added, keys, i) {
      if i in picked {
        var k :| 0 <= k < n && picked[k] == i;
        assert from[n - 1 - k] == i;
      }
    }
  }

  /** Logs context fields through both drains; `serialized` is most recent first. */
  method LogThroughDrains(serialized: seq<Field>, redactedKeys: set<string>) returns (emitted: seq<Field>)
    ensures emitted == Deduped(Redacted(serialized, redactedKeys), {})
  {
    var sink := new Sink();
    var dedup := new DedupSerializer(sink);
    NothingYet(redactedKeys);
    hide Deduped, Redacted, Keys;
    if redactedKeys == {} {
      NothingRedacted(serialized);
      for i := 0 to |serialized|
        invariant sink.emitted == Deduped(serialized[..i], {}) && dedup.filter.seenKeys == Keys(serialized[..i])
      {
        OneMoreSeen(serialized[..i], serialized[i]);
        assert serialized[..i + 1] == serialized[..i] + [serialized[i]];
        dedup.Emit(serialized[i]);
      }
    } else {
      var redact := new RedactSerializer(dedup, redactedKeys);
      for i := 0 to |serialized|
        invariant sink.emitted == Deduped(Redacted(serialized[..i], redactedKeys), {})
        invariant dedup.filter.seenKeys == Keys(Redacted(serialized[..i], redactedKeys))
      {
        OneMore(serialized[..i], serialized[i], redactedKeys);
        assert serialized[..i + 1] == serialized[..i] + [serialized[i]];
        redact.Emit(serialized[i]);
      }
    }
    assert serialized[..|serialized|] == serialized;
    emitted := sink.emitted;
  }

  lemma NothingYet(keys: set<string>)
    ensures Redacted([], keys) == Deduped([], {}) == [] && Keys([]) == {}
  {
  }

  lemma OneMoreSeen(fields: seq<Field>, f: Field)
    ensures Deduped(fields + [f], {}) == Deduped(fields, {}) + Deduped([f], Keys(fields))
    ensures Keys(fields + [f]) == Keys(fields) + {f.key}
  {
    DedupedAppend(fields, [f], {});
    assert {} + Keys(fields) == Keys(fields);
    KeysAppend(fields, [f]);
  }

  lemma OneMore(fields: seq<Field>, f: Field, keys: set<string>)
    ensures var before, own := Redacted(fields, keys), Redacted([f], keys);
            && Deduped(Redacted(fields + [f], keys), {}) == Deduped(before, {}) + Deduped(own, Keys(before))
            && Keys(Redacted(fields + [f], keys)) == Keys(before) + if f.key in keys then {} else {f.key}
  {
    RedactedAppend(fields, [f], keys);
    DedupedAppend(Redacted(fields, keys), Redacted([f], keys), {});
    assert {} + Keys(Redacted(fields, keys)) == Keys(Redacted(fields, keys));
    KeysAppend(Redacted(fields, keys), Redacted([f], keys));
    assert [f][1..] == [];
  }
}
