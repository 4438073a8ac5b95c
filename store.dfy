/**
 * A MongoDB collection with a unique compound index, as the handlers use it:
 * a map from key to the fields last written under that key. An upsert
 * (`findOneAndUpdate(filter, doc, { upsert: true })`) is a map update; a batch
 * of upserts is applied in order, so a later write to a key replaces an
 * earlier one.
 */
module Store {
  import opened Wrappers

  /** The key of both the attendance and the salary collection: (employee `_id`, monthYear). */
  datatype Key = Key(employee: nat, monthYear: string)

  /** Whether the upsert of the `k`-th record of a batch throws, and with which message. */
  type UpsertFailures = nat -> Option<string>

  /** The writes `ws`, applied in order to `m`. */
  function ApplyAll<V>(m: map<Key, V>, ws: seq<(Key, V)>): map<Key, V> {
    if ws == [] then m
    else
      var last := ws[|ws| - 1];
      ApplyAll(m, ws[..|ws| - 1])[last.0 := last.1]
  }

  /** One more write is one more map update. */
  lemma ApplyAllSnoc<V>(m: map<Key, V>, ws: seq<(Key, V)>, w: (Key, V))
    ensures ApplyAll(m, ws + [w]) == ApplyAll(m, ws)[w.0 := w.1]
  {
    assert (ws + [w])[..|ws|] == ws;
  }

  /** The keys written by `ws`. */
  function Written<V>(ws: seq<(Key, V)>): set<Key> {
    if ws == [] then {} else Written(ws[..|ws| - 1]) + {ws[|ws| - 1].0}
  }

  /** A key that no write names keeps its entry, or its absence. */
  lemma {:induction false} Untouched<V>(m: map<Key, V>, ws: seq<(Key, V)>, k: Key)
    requires k !in Written(ws)
    ensures k in ApplyAll(m, ws) <==> k in m
    ensures k in m ==> ApplyAll(m, ws)[k] == m[k]
  {
    if ws != [] {
      Untouched(m, ws[..|ws| - 1], k);
    }
  }

  /** Every written key is present afterwards, holding the value of its last write. */
  lemma {:induction false} LastWriteWins<V>(m: map<Key, V>, ws: seq<(Key, V)>, i: nat)
    requires i < |ws|
    requires forall j :: i < j < |ws| ==> ws[j].0 != ws[i].0
    ensures ws[i].0 in ApplyAll(m, ws) && ApplyAll(m, ws)[ws[i].0] == ws[i].1
  {
    if i < |ws| - 1 {
      LastWriteWins(m, ws[..|ws| - 1], i);
    }
  }

  /** Applying writes is overriding the old map with the map the writes alone build. */
  lemma {:induction false} ApplyAllOverrides<V>(m: map<Key, V>, ws: seq<(Key, V)>)
    ensures ApplyAll(m, ws) == m + ApplyAll(map[], ws)
  {
    if ws != [] {
      ApplyAllOverrides(m, ws[..|ws| - 1]);
    }
  }

  /** Applying the same batch twice is applying it once. */
  lemma ApplyAllIdempotent<V>(m: map<Key, V>, ws: seq<(Key, V)>)
    ensures ApplyAll(ApplyAll(m, ws), ws) == ApplyAll(m, ws)
  {
    var w := ApplyAll(map[], ws);
    ApplyAllOverrides(m, ws);
    ApplyAllOverrides(m + w, ws);
    assert (m + w) + w == m + w;
  }
}
