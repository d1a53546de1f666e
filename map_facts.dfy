/** What `unmarshalMap` and `unmarshalMapKV` (orgiaml.go:111-141) do with the
    pairs they are given: entries are stored in document order, so a later
    pair with the same decoded key overwrites the earlier entry; the first
    pair that fails ends the decode; and a panic while decoding or storing one
    entry comes back as an error that names that entry's key. */
module MapFacts {
  import opened OrgNodes
  import opened Values
  import opened KeyValue
  import opened DecodeSpec

  /** The key a pair decodes to, in a fresh zero value of the key type. */
  function EntryKey(env: Env, p: Pair, key: Shape): Value {
    Decode(env, p.key, key, Zero(key)).value
  }

  /** The value a pair decodes to, in a fresh zero value of the element type. */
  function EntryValue(env: Env, p: Pair, elem: Shape): Value {
    Decode(env, p.value, elem, Zero(elem)).value
  }

  /** How the key and then the value of a pair decode: the status of the first
      of the two that does not succeed, or `Done`. */
  function PairStatus(env: Env, p: Pair, key: Shape, elem: Shape): Status {
    var dk := Decode(env, p.key, key, Zero(key));
    if !dk.status.Done? then dk.status else Decode(env, p.value, elem, Zero(elem)).status
  }

  /** The keys the pairs decode to. */
  function KeysOf(env: Env, pairs: seq<Pair>, key: Shape): set<Value> {
    if pairs == [] then {} else {EntryKey(env, pairs[0], key)} + KeysOf(env, pairs[1..], key)
  }

  /** One entry is stored exactly when its key and value decode, the map is
      not nil and the key can be hashed; otherwise the map is left as it was
      and a panic has become an error naming the key. */
  lemma EntryOutcome(env: Env, p: Pair, key: Shape, elem: Shape, cur: Value)
    requires Conforms(cur, MapOf(key, elem))
    ensures var r := DecodeEntry(env, p, key, elem, cur);
      && (r.status.Done? <==> PairStatus(env, p, key, elem).Done? && cur.VMap? && Hashable(EntryKey(env, p, key)))
      && (r.status.Done? ==> r.value == VMap(cur.entries[EntryKey(env, p, key) := EntryValue(env, p, elem)]))
      && (!r.status.Done? ==> r.value == cur)
      && (!PairStatus(env, p, key, elem).Done? ==> r.status == Recovered(p.key, PairStatus(env, p, key, elem)))
  {
  }

  /** Decoding the entries of `a + b` decodes those of `a`, then, if that
      succeeded, those of `b` into the result. */
  lemma {:induction false} EntriesSplit(env: Env, a: seq<Pair>, b: seq<Pair>, key: Shape, elem: Shape, cur: Value)
    requires Conforms(cur, MapOf(key, elem))
    ensures DecodeEntries(env, a + b, key, elem, cur)
      == var d := DecodeEntries(env, a, key, elem, cur);
         if d.status.Done? then DecodeEntries(env, b, key, elem, d.value) else d
    decreases |a|
  {
    if a == [] {
      assert a + b == b;
    } else {
      assert (a + b)[0] == a[0];
      assert (a + b)[1..] == a[1..] + b;
      var d := DecodeEntry(env, a[0], key, elem, cur);
      if d.status.Done? {
        EntriesSplit(env, a[1..], b, key, elem, d.value);
      }
    }
  }

  /** The last pair is stored over whatever the pairs before it left: a
      later pair with the same decoded key overwrites the earlier entry. */
  lemma LastPairWins(env: Env, ps: seq<Pair>, p: Pair, key: Shape, elem: Shape, cur: Value)
    requires Conforms(cur, MapOf(key, elem)) && cur.VMap?
    requires DecodeEntries(env, ps + [p], key, elem, cur).status.Done?
    ensures var before := DecodeEntries(env, ps, key, elem, cur);
      var after := DecodeEntries(env, ps + [p], key, elem, cur);
      && before.status.Done?
      && after.value == VMap(before.value.entries[EntryKey(env, p, key) := EntryValue(env, p, elem)])
      && after.value.entries[EntryKey(env, p, key)] == EntryValue(env, p, elem)
  {
    EntriesSplit(env, ps, [p], key, elem, cur);
    var before := DecodeEntries(env, ps, key, elem, cur);
    assert [p][1..] == [];
    assert before.status.Done?;
    EntryOutcome(env, p, key, elem, before.value);
  }

  /** The first pair that fails ends the decode: the pairs after it are not
      looked at, and the map keeps the entries stored before it. */
  lemma FirstFailureAborts(env: Env, a: seq<Pair>, p: Pair, b: seq<Pair>, key: Shape, elem: Shape, cur: Value)
    requires Conforms(cur, MapOf(key, elem))
    requires DecodeEntries(env, a, key, elem, cur).status.Done?
    requires !DecodeEntry(env, p, key, elem, DecodeEntries(env, a, key, elem, cur).value).status.Done?
    ensures DecodeEntries(env, a + [p] + b, key, elem, cur)
      == DecodeEntry(env, p, key, elem, DecodeEntries(env, a, key, elem, cur).value)
  {
    assert a + [p] + b == a + ([p] + b);
    EntriesSplit(env, a, [p] + b, key, elem, cur);
    assert ([p] + b)[0] == p;
  }

  /** When the key or the value of a pair fails to decode, the map decode
      ends with the entries stored before it; a panic is reported as an
      error naming the pair's key, an error as it is. */
  lemma FailingPairReported(env: Env, a: seq<Pair>, p: Pair, b: seq<Pair>, key: Shape, elem: Shape, cur: Value)
    requires Conforms(cur, MapOf(key, elem))
    requires DecodeEntries(env, a, key, elem, cur).status.Done?
    requires !PairStatus(env, p, key, elem).Done?
    ensures var s := PairStatus(env, p, key, elem);
      DecodeEntries(env, a + [p] + b, key, elem, cur)
      == Decoded(DecodeEntries(env, a, key, elem, cur).value,
                 if s.Panicked? then Failed(KeyPanic(p.key, s.cause)) else s)
  {
    var m := DecodeEntries(env, a, key, elem, cur).value;
    EntryOutcome(env, p, key, elem, m);
    FirstFailureAborts(env, a, p, b, key, elem, cur);
  }

  /** A nil map takes no entry: the first pair whose key and value decode
      panics in `SetMapIndex`, and that panic names its key. */
  lemma NilMapTakesNoEntry(env: Env, pairs: seq<Pair>, key: Shape, elem: Shape)
    requires pairs != []
    ensures var r := DecodeEntries(env, pairs, key, elem, VNil);
      && r.value == VNil && !r.status.Done?
      && (PairStatus(env, pairs[0], key, elem).Done? ==> r.status == Failed(KeyPanic(pairs[0].key, NilMapWrite)))
  {
    EntryOutcome(env, pairs[0], key, elem, VNil);
  }

  /** After a successful decode the map holds exactly the keys it held
      before and the keys of the pairs, and an entry whose key no pair
      decodes to is left as it was. */
  lemma {:induction false} EntriesKeys(env: Env, pairs: seq<Pair>, key: Shape, elem: Shape, cur: Value)
    requires Conforms(cur, MapOf(key, elem)) && cur.VMap?
    requires DecodeEntries(env, pairs, key, elem, cur).status.Done?
    ensures var r := DecodeEntries(env, pairs, key, elem, cur);
      && r.value.entries.Keys == cur.entries.Keys + KeysOf(env, pairs, key)
      && forall k :: k in cur.entries && k !in KeysOf(env, pairs, key) ==> r.value.entries[k] == cur.entries[k]
    decreases |pairs|
  {
    if pairs != [] {
      var d := DecodeEntry(env, pairs[0], key, elem, cur);
      EntryOutcome(env, pairs[0], key, elem, cur);
      EntriesKeys(env, pairs[1..], key, elem, d.value);
    }
  }
}
