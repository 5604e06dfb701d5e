/** What a run of HashMap.put calls leaves in a map. Each loop of the handler
    makes at most one put per element it visits; a loop is described by the
    sequence of its puts, None standing for an element that puts nothing. */
module HashMaps {
  import opened JavaLang

  /** The map m after each Some((key, value)) of puts was put into it, in order. */
  function PutAll<V>(m: map<string, V>, puts: seq<Option<(string, V)>>): map<string, V>
    decreases |puts|
  {
    if puts == [] then m
    else
      var before := PutAll(m, puts[..|puts| - 1]);
      match puts[|puts| - 1]
      case None => before
      case Some(kv) => before[kv.0 := kv.1]
  }

  /** puts[i] puts into key k. */
  predicate PutsInto<V>(puts: seq<Option<(string, V)>>, i: int, k: string)
    requires 0 <= i < |puts|
  {
    puts[i].Some? && puts[i].value.0 == k
  }

  /** One more iteration of a loop: the puts of a prefix one longer. */
  lemma PutAllStep<V>(m: map<string, V>, puts: seq<Option<(string, V)>>, i: nat)
    requires i < |puts|
    ensures PutAll(m, puts[..i + 1]) ==
            match puts[i]
            case None => PutAll(m, puts[..i])
            case Some(kv) => PutAll(m, puts[..i])[kv.0 := kv.1]
  {
    assert puts[..i + 1][..i] == puts[..i];
  }

  /** A key is in the final map exactly when it was there before or some put names it. */
  lemma {:induction false} PutAllKeys<V>(m: map<string, V>, puts: seq<Option<(string, V)>>, k: string)
    ensures k in PutAll(m, puts) <==> k in m || exists i :: 0 <= i < |puts| && PutsInto(puts, i, k)
    decreases |puts|
  {
    if puts != [] {
      var n := |puts| - 1;
      var front := puts[..n];
      PutAllKeys(m, front, k);
      if exists i :: 0 <= i < |front| && PutsInto(front, i, k) {
        var i :| 0 <= i < |front| && PutsInto(front, i, k);
        assert PutsInto(puts, i, k);
      }
      if PutsInto(puts, n, k) {
        assert k in PutAll(m, puts);
      } else if exists i :: 0 <= i < |puts| && PutsInto(puts, i, k) {
        var i :| 0 <= i < |puts| && PutsInto(puts, i, k);
        assert i < n && PutsInto(front, i, k);
      }
    }
  }

  /** A key that no put names keeps its value: nothing else changes. */
  lemma {:induction false} PutAllUntouched<V>(m: map<string, V>, puts: seq<Option<(string, V)>>, k: string)
    requires forall i :: 0 <= i < |puts| ==> !PutsInto(puts, i, k)
    ensures k in PutAll(m, puts) <==> k in m
    ensures k in m ==> PutAll(m, puts)[k] == m[k]
    decreases |puts|
  {
    if puts != [] {
      var n := |puts| - 1;
      var front := puts[..n];
      forall i | 0 <= i < |front| ensures !PutsInto(front, i, k) {
        assert !PutsInto(puts, i, k);
      }
      PutAllUntouched(m, front, k);
      assert !PutsInto(puts, n, k);
    }
  }

  /** Last write wins: the value of a key is the one its last put gave it. */
  lemma {:induction false} PutAllLastWins<V>(m: map<string, V>, puts: seq<Option<(string, V)>>, i: nat)
    requires i < |puts| && puts[i].Some?
    requires forall j :: i < j < |puts| ==> !PutsInto(puts, j, puts[i].value.0)
    ensures puts[i].value.0 in PutAll(m, puts)
    ensures PutAll(m, puts)[puts[i].value.0] == puts[i].value.1
    decreases |puts|
  {
    var n := |puts| - 1;
    var front := puts[..n];
    if i < n {
      forall j | i < j < |front| ensures !PutsInto(front, j, front[i].value.0) {
        assert !PutsInto(puts, j, puts[i].value.0);
      }
      PutAllLastWins(m, front, i);
      assert !PutsInto(puts, n, puts[i].value.0);
    }
  }

  /** The position of the last put into k, -1 when there is none. */
  function LastPutInto<V>(puts: seq<Option<(string, V)>>, k: string): (i: int)
    ensures -1 <= i < |puts|
    ensures i >= 0 ==> PutsInto(puts, i, k)
    ensures forall j :: i < j < |puts| ==> !PutsInto(puts, j, k)
    decreases |puts|
  {
    if puts == [] then -1
    else if PutsInto(puts, |puts| - 1, k) then |puts| - 1
    else
      var front := puts[..|puts| - 1];
      assert forall j :: 0 <= j < |front| ==> (PutsInto(front, j, k) <==> PutsInto(puts, j, k));
      LastPutInto(front, k)
  }

  /** Putting the same entries a second time changes nothing. */
  lemma PutAllTwice<V>(m: map<string, V>, puts: seq<Option<(string, V)>>)
    ensures PutAll(PutAll(m, puts), puts) == PutAll(m, puts)
  {
    var once := PutAll(m, puts);
    var twice := PutAll(once, puts);
    forall k
      ensures k in twice <==> k in once
      ensures k in once ==> twice[k] == once[k]
    {
      var i := LastPutInto(puts, k);
      if i >= 0 {
        PutAllLastWins(m, puts, i);
        PutAllLastWins(once, puts, i);
      } else {
        PutAllUntouched(m, puts, k);
        PutAllUntouched(once, puts, k);
      }
    }
  }
}
