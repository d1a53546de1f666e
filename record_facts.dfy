/** What `unmarshalStruct` and `fieldIndex` (orgiaml.go:212-238) do with the
    pairs they are given: a pair whose trimmed key text names no field is
    skipped; any other pair is decoded into the first field whose lower-cased
    name equals the lower-cased key; only those fields are written; and pairs
    naming different fields can come in either order. */
module RecordFacts {
  import opened OrgNodes
  import opened Values
  import opened KeyValue
  import opened DecodeSpec

  /** The field a pair is decoded into, or -1. */
  function FieldOf(env: Env, p: Pair, fields: seq<Field>): int {
    FieldPosition(fields, KeyText(env, p.key))
  }

  /** No pair of `pairs` names field `j`. */
  predicate Unnamed(env: Env, pairs: seq<Pair>, fields: seq<Field>, j: int) {
    forall i :: 0 <= i < |pairs| ==> FieldOf(env, pairs[i], fields) != j
  }

  /** One pass of the loop: an unmatched pair changes nothing; a matched
      unexported field panics; a matched exported field is decoded in place
      from its current contents and is the only field written, whether or not
      its decode succeeds. */
  lemma FieldOutcome(env: Env, p: Pair, fields: seq<Field>, cur: Value)
    requires Conforms(cur, Record(fields))
    ensures var i := FieldOf(env, p, fields);
      var r := DecodeField(env, p, fields, cur);
      && (i == -1 ==> r == Decoded(cur, Done))
      && (i >= 0 && !fields[i].exported ==> r == Decoded(cur, Panicked(UnexportedField(fields[i].name))))
      && (i >= 0 && fields[i].exported ==>
            var d := Decode(env, p.value, fields[i].shape, cur.fieldValues[i]);
            r.status == d.status && r.value.fieldValues == cur.fieldValues[i := d.value])
  {
  }

  /** Decoding the pairs of `a + b` decodes those of `a`, then, if that
      succeeded, those of `b` into the result. */
  lemma {:induction false} FieldsSplit(env: Env, a: seq<Pair>, b: seq<Pair>, fields: seq<Field>, cur: Value)
    requires Conforms(cur, Record(fields))
    ensures DecodeFields(env, a + b, fields, cur)
      == var d := DecodeFields(env, a, fields, cur);
         if d.status.Done? then DecodeFields(env, b, fields, d.value) else d
    decreases |a|
  {
    if a == [] {
      assert a + b == b;
    } else {
      assert (a + b)[0] == a[0];
      assert (a + b)[1..] == a[1..] + b;
      var d := DecodeField(env, a[0], fields, cur);
      if d.status.Done? {
        FieldsSplit(env, a[1..], b, fields, d.value);
      }
    }
  }

  /** A pair whose key names no field is skipped as if it were not there. */
  lemma UnmatchedKeySkipped(env: Env, a: seq<Pair>, p: Pair, b: seq<Pair>, fields: seq<Field>, cur: Value)
    requires Conforms(cur, Record(fields))
    requires FieldOf(env, p, fields) == -1
    ensures DecodeFields(env, a + [p] + b, fields, cur) == DecodeFields(env, a + b, fields, cur)
  {
    assert a + [p] + b == a + ([p] + b);
    FieldsSplit(env, a, [p] + b, fields, cur);
    FieldsSplit(env, a, b, fields, cur);
    assert ([p] + b)[0] == p;
    assert ([p] + b)[1..] == b;
  }

  /** A field that no pair names keeps its contents, however the decode
      ends. */
  lemma {:induction false} OnlyMatchedFieldsWritten(env: Env, pairs: seq<Pair>, fields: seq<Field>, cur: Value, j: nat)
    requires Conforms(cur, Record(fields))
    requires j < |fields| && Unnamed(env, pairs, fields, j)
    ensures DecodeFields(env, pairs, fields, cur).value.fieldValues[j] == cur.fieldValues[j]
    decreases |pairs|
  {
    if pairs != [] {
      assert FieldOf(env, pairs[0], fields) != j;
      FieldOutcome(env, pairs[0], fields, cur);
      var d := DecodeField(env, pairs[0], fields, cur);
      if d.status.Done? {
        assert forall i :: 0 <= i < |pairs| - 1 ==> pairs[1..][i] == pairs[i + 1];
        OnlyMatchedFieldsWritten(env, pairs[1..], fields, d.value, j);
      }
    }
  }

  /** Two successful passes that write different fields give the same record
      in either order. */
  lemma TwoFieldsCommute(env: Env, p: Pair, q: Pair, fields: seq<Field>, v: Value)
    requires Conforms(v, Record(fields))
    requires FieldOf(env, p, fields) != FieldOf(env, q, fields) || FieldOf(env, p, fields) == -1
    requires DecodeField(env, p, fields, v).status.Done?
    requires DecodeField(env, q, fields, DecodeField(env, p, fields, v).value).status.Done?
    ensures DecodeField(env, q, fields, v).status.Done?
    ensures DecodeField(env, p, fields, DecodeField(env, q, fields, v).value)
         == DecodeField(env, q, fields, DecodeField(env, p, fields, v).value)
  {
    var i, j := FieldOf(env, p, fields), FieldOf(env, q, fields);
    var vp := DecodeField(env, p, fields, v).value;
    var vq := DecodeField(env, q, fields, v).value;
    FieldOutcome(env, p, fields, v);
    FieldOutcome(env, q, fields, vp);
    FieldOutcome(env, q, fields, v);
    FieldOutcome(env, p, fields, vq);
    if i >= 0 && j >= 0 {
      var a := Decode(env, p.value, fields[i].shape, v.fieldValues[i]).value;
      var b := Decode(env, q.value, fields[j].shape, v.fieldValues[j]).value;
      assert vp.fieldValues == v.fieldValues[i := a];
      assert vq.fieldValues == v.fieldValues[j := b];
      assert v.fieldValues[i := a][j := b] == v.fieldValues[j := b][i := a];
    }
  }

  /** One pass, then the rest of the loop. */
  lemma FieldsCons(env: Env, p: Pair, b: seq<Pair>, fields: seq<Field>, v: Value)
    requires Conforms(v, Record(fields))
    ensures DecodeFields(env, [p] + b, fields, v)
      == var d := DecodeField(env, p, fields, v);
         if d.status.Done? then DecodeFields(env, b, fields, d.value) else d
  {
    assert ([p] + b)[0] == p;
    assert ([p] + b)[1..] == b;
  }

  /** Swapping two neighbouring pairs that name different fields does not
      change a successful record decode. */
  lemma DistinctFieldsCommute(env: Env, a: seq<Pair>, p: Pair, q: Pair, b: seq<Pair>, fields: seq<Field>, cur: Value)
    requires Conforms(cur, Record(fields))
    requires FieldOf(env, p, fields) != FieldOf(env, q, fields) || FieldOf(env, p, fields) == -1
    requires DecodeFields(env, a + [p, q] + b, fields, cur).status.Done?
    ensures DecodeFields(env, a + [q, p] + b, fields, cur) == DecodeFields(env, a + [p, q] + b, fields, cur)
  {
    var pq, qp := [p] + ([q] + b), [q] + ([p] + b);
    Regroup(a, p, q, b);
    Regroup(a, q, p, b);
    var v := AfterPrefix(env, a, pq, fields, cur);
    SwapStep(env, p, q, b, fields, v);
    var w := AfterPrefix(env, a, qp, fields, cur);
  }

  /** When the pairs of `a + s` decode, those of `a` do, and `s` continues
      from their result. */
  lemma AfterPrefix(env: Env, a: seq<Pair>, s: seq<Pair>, fields: seq<Field>, cur: Value) returns (v: Value)
    requires Conforms(cur, Record(fields))
    requires DecodeFields(env, a + s, fields, cur).status.Done? || DecodeFields(env, a, fields, cur).status.Done?
    ensures DecodeFields(env, a, fields, cur) == Decoded(v, Done)
    ensures DecodeFields(env, a + s, fields, cur) == DecodeFields(env, s, fields, v)
  {
    FieldsSplit(env, a, s, fields, cur);
    v := DecodeFields(env, a, fields, cur).value;
  }

  /** Moves the brackets so that the pairs after `a` start with `p`; kept
      apart so that the concatenation is not reasoned about inside the
      record decode. */
  lemma Regroup(a: seq<Pair>, p: Pair, q: Pair, b: seq<Pair>)
    ensures a + [p, q] + b == a + ([p] + ([q] + b))
  {
    assert [p, q] == [p] + [q];
  }

  lemma SwapStep(env: Env, p: Pair, q: Pair, b: seq<Pair>, fields: seq<Field>, v: Value)
    requires Conforms(v, Record(fields))
    requires FieldOf(env, p, fields) != FieldOf(env, q, fields) || FieldOf(env, p, fields) == -1
    requires DecodeFields(env, [p] + ([q] + b), fields, v).status.Done?
    ensures DecodeFields(env, [q] + ([p] + b), fields, v) == DecodeFields(env, [p] + ([q] + b), fields, v)
  {
    FieldsCons(env, p, [q] + b, fields, v);
    var dp := DecodeField(env, p, fields, v);
    assert dp.status.Done?;
    FieldsCons(env, q, b, fields, dp.value);
    var dpq := DecodeField(env, q, fields, dp.value);
    assert dpq.status.Done?;
    TwoFieldsCommute(env, p, q, fields, v);
    FieldsCons(env, q, [p] + b, fields, v);
    var dq := DecodeField(env, q, fields, v);
    FieldsCons(env, p, b, fields, dq.value);
  }
}
